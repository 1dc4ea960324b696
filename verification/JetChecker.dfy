/** The status checker of Jet jobs: a table of jobs, a flag and a ticker behind one mutex,
    shared by reconcilers that store, delete and start, and by the checker loops they
    start.  Each critical section is one atomic step; steps interleave arbitrarily. */
module JetChecker {

  /** Where a checker loop is: before the exit decision, asking the cluster, waiting for a
      tick, past the decision to exit but before stopping the ticker, or returned. */
  datatype Loop = Top | Polling | Waiting | Exiting | Returned

  /** `stopped` are the tickers that fire no more; `ticks` those with a tick in their channel,
      which holds one and keeps it when the ticker is stopped. */
  datatype State = State(jobs: map<string, string>, checkInProgress: bool, ticker: nat, stopped: set<nat>, ticks: set<nat>,
                         loops: seq<Loop>)

  datatype Event =
    | Store(job: string, resource: string)
    | Delete(job: string)
    | Run                                     // runChecker
    | Check(l: nat)                           // the locked part of an iteration
    | Update(l: nat, job: string)             // a job of the summaries is looked up
    | Polled(l: nat)                          // the iteration ends, with or without an error
    | Fire(t: nat)                            // a ticker fires; a full channel drops the tick
    | Tick(l: nat)                            // the loop takes a tick
    | StopTicker(l: nat)                      // after the unlock, on the shared field

  const INITIAL := State(map[], false, 0, {}, {}, [])

  predicate Alive(loop: Loop) {
    loop == Top || loop == Polling || loop == Waiting
  }

  predicate Enabled(s: State, e: Event) {
    match e
    case Store(_, _) => true
    case Delete(_) => true
    case Run => true
    case Check(l) => l < |s.loops| && s.loops[l] == Top
    case Update(l, _) => l < |s.loops| && s.loops[l] == Polling
    case Polled(l) => l < |s.loops| && s.loops[l] == Polling
    case Fire(t) => 0 < t <= s.ticker && t !in s.stopped
    case Tick(l) => l < |s.loops| && s.loops[l] == Waiting && s.ticker in s.ticks
    case StopTicker(l) => l < |s.loops| && s.loops[l] == Exiting
  }

  function Next(s: State, e: Event): State
    requires Enabled(s, e)
  {
    match e
    case Store(job, resource) => s.(jobs := s.jobs[job := resource])
    case Delete(job) => s.(jobs := s.jobs - {job})
    case Run =>
      if s.checkInProgress then s
      else s.(checkInProgress := true, ticker := s.ticker + 1, loops := s.loops + [Top])
    case Check(l) =>
      if s.jobs == map[] then s.(checkInProgress := false, loops := s.loops[l := Exiting])
      else s.(loops := s.loops[l := Polling])
    case Update(l, job) => s
    case Polled(l) => s.(loops := s.loops[l := Waiting])
    case Fire(t) => s.(ticks := s.ticks + {t})
    case Tick(l) => s.(loops := s.loops[l := Top], ticks := s.ticks - {s.ticker})
    case StopTicker(l) => s.(loops := s.loops[l := Returned], stopped := s.stopped + {s.ticker})
  }

  /** states[i] is the state after the first i events of a run from the initial state. */
  ghost predicate IsRun(trace: seq<Event>, states: seq<State>) {
    && |states| == |trace| + 1
    && states[0] == INITIAL
    && forall i :: 0 <= i < |trace| ==> StepOk(trace, states, i)
  }

  ghost predicate StepOk(trace: seq<Event>, states: seq<State>, i: nat)
    requires i < |trace| && |states| == |trace| + 1
  {
    Enabled(states[i], trace[i]) && states[i + 1] == Next(states[i], trace[i])
  }

  /** At most one loop has not decided to exit, and there is one exactly when the flag is set. */
  ghost predicate OneLoop(s: State) {
    && (forall k, l :: 0 <= k < |s.loops| && 0 <= l < |s.loops| && Alive(s.loops[k]) && Alive(s.loops[l]) ==> k == l)
    && (s.checkInProgress <==> exists l :: 0 <= l < |s.loops| && Alive(s.loops[l]))
  }

  /** The live loop moves on, or exits and clears the flag. */
  lemma LiveLoopMoves(s: State, s': State, l: nat, loop: Loop)
    requires OneLoop(s) && l < |s.loops| && Alive(s.loops[l])
    requires s'.loops == s.loops[l := loop] && s'.checkInProgress == Alive(loop)
    ensures OneLoop(s')
  {
    assert forall k :: 0 <= k < |s.loops| && k != l ==> s'.loops[k] == s.loops[k] && !Alive(s'.loops[k]);
    if Alive(loop) { assert Alive(s'.loops[l]); }
  }

  lemma StepKeepsOneLoop(s: State, e: Event)
    requires OneLoop(s) && Enabled(s, e)
    ensures OneLoop(Next(s, e))
  {
    var s' := Next(s, e);
    match e
    case Store(_, _) =>
    case Delete(_) =>
    case Update(_, _) =>
    case Fire(_) =>
    case Run =>
      if !s.checkInProgress { assert Alive(s'.loops[|s.loops|]); }
    case Check(l) =>
      LiveLoopMoves(s, s', l, if s.jobs == map[] then Exiting else Polling);
    case Polled(l) =>
      LiveLoopMoves(s, s', l, Waiting);
    case Tick(l) =>
      LiveLoopMoves(s, s', l, Top);
    case StopTicker(l) =>
      assert forall k :: 0 <= k < |s.loops| ==> Alive(s'.loops[k]) == Alive(s.loops[k]);
  }

  lemma {:induction false} RunHasOneLoop(trace: seq<Event>, states: seq<State>, i: nat)
    requires IsRun(trace, states) && i <= |trace|
    ensures OneLoop(states[i])
  {
    if i > 0 {
      RunHasOneLoop(trace, states, i - 1);
      assert StepOk(trace, states, i - 1);
      StepKeepsOneLoop(states[i - 1], trace[i - 1]);
    }
  }

  /** With a job in the table, no loop decides to exit. */
  lemma StepKeepsLoop(s: State, e: Event, l: nat)
    requires Enabled(s, e) && s.jobs != map[]
    requires l < |s.loops| && Alive(s.loops[l])
    ensures l < |Next(s, e).loops| && Alive(Next(s, e).loops[l])
  {
  }

  ghost predicate PresentThroughout(states: seq<State>, i: nat, j: nat, job: string) {
    j < |states| && forall k :: i <= k <= j ==> job in states[k].jobs
  }

  /** While a job stays in the table, a live loop stays alive. */
  lemma {:induction false} PresentJobKeepsLoop(trace: seq<Event>, states: seq<State>, i: nat, j: nat, job: string, l: nat)
    requires IsRun(trace, states) && i <= j && PresentThroughout(states, i, j, job)
    requires l < |states[i].loops| && Alive(states[i].loops[l])
    ensures l < |states[j].loops| && Alive(states[j].loops[l])
    decreases j
  {
    if i < j {
      PresentJobKeepsLoop(trace, states, i, j - 1, job, l);
      assert StepOk(trace, states, j - 1);
      assert job in states[j - 1].jobs;
      StepKeepsLoop(states[j - 1], trace[j - 1], l);
    }
  }

  /** A job stays in the table until it is deleted. */
  lemma {:induction false} StaysUntilDeleted(trace: seq<Event>, states: seq<State>, i: nat, j: nat, job: string)
    requires IsRun(trace, states) && i <= j <= |trace|
    requires job in states[i].jobs && forall k :: i <= k < j ==> trace[k] != Delete(job)
    ensures PresentThroughout(states, i, j, job)
    decreases j
  {
    if i < j {
      StaysUntilDeleted(trace, states, i, j - 1, job);
      assert StepOk(trace, states, j - 1);
      assert trace[j - 1] != Delete(job);
      assert job in states[j - 1].jobs;
    }
  }

  /** A job in the table when runChecker returned keeps one and the same loop alive, and so
      the flag set, until it is deleted. */
  lemma RunServesJobUntilDeleted(trace: seq<Event>, states: seq<State>, i: nat, job: string) returns (l: nat)
    requires IsRun(trace, states) && i < |trace| && trace[i] == Run && job in states[i + 1].jobs
    ensures forall j :: i < j <= |trace| && (forall k :: i < k < j ==> trace[k] != Delete(job)) ==>
              && states[j].checkInProgress
              && l < |states[j].loops| && Alive(states[j].loops[l])
              && (forall k :: 0 <= k < |states[j].loops| && Alive(states[j].loops[k]) ==> k == l)
  {
    assert StepOk(trace, states, i);
    RunHasOneLoop(trace, states, i + 1);
    l :| l < |states[i + 1].loops| && Alive(states[i + 1].loops[l]);
    forall j | i < j <= |trace| && (forall k :: i < k < j ==> trace[k] != Delete(job))
      ensures states[j].checkInProgress && l < |states[j].loops| && Alive(states[j].loops[l])
      ensures forall k :: 0 <= k < |states[j].loops| && Alive(states[j].loops[k]) ==> k == l
    {
      StaysUntilDeleted(trace, states, i + 1, j, job);
      PresentJobKeepsLoop(trace, states, i + 1, j, job, l);
      RunHasOneLoop(trace, states, j);
    }
  }

  /** A job that is never deleted again is served at j if and only if a loop was alive when
      it was stored or runChecker was called since: storing alone starts nothing. */
  lemma {:induction false} ServedExactlyIfStarted(trace: seq<Event>, states: seq<State>, i: nat, j: nat, job: string)
    requires IsRun(trace, states) && i <= j && PresentThroughout(states, i, j, job)
    ensures states[j].checkInProgress <==> states[i].checkInProgress || Run in trace[i..j]
    decreases j
  {
    if i < j {
      ServedExactlyIfStarted(trace, states, i, j - 1, job);
      assert StepOk(trace, states, j - 1);
      assert trace[i..j] == trace[i..j - 1] + [trace[j - 1]];
      assert job in states[j - 1].jobs;
    }
  }

  /** The early returns of applyJetJob between storing and starting leave a job nobody checks. */
  lemma StoredButNotStarted(job: string, resource: string) returns (trace: seq<Event>, states: seq<State>)
    ensures IsRun(trace, states) && job in states[|trace|].jobs && !states[|trace|].checkInProgress
  {
    trace := [Store(job, resource)];
    states := [INITIAL, Next(INITIAL, trace[0])];
  }

  // ---------- Ticks ----------

  ghost predicate TickersOk(s: State) {
    forall t :: t in s.stopped || t in s.ticks ==> t <= s.ticker
  }

  lemma {:induction false} TickersInRun(trace: seq<Event>, states: seq<State>, i: nat)
    requires IsRun(trace, states) && i <= |trace|
    ensures TickersOk(states[i])
  {
    if i > 0 {
      TickersInRun(trace, states, i - 1);
      assert StepOk(trace, states, i - 1);
    }
  }

  /** No loop is between its unlock and the stop of the ticker. */
  ghost predicate NoneExiting(s: State) {
    forall l :: 0 <= l < |s.loops| ==> s.loops[l] != Exiting
  }

  /** trace', states' continue the run with a start of the checker, and up to j the flag stays set. */
  ghost predicate StartedAndRunning(trace: seq<Event>, states: seq<State>, trace': seq<Event>, states': seq<State>, j: nat) {
    && IsRun(trace', states') && trace <= trace' && states <= states'
    && |states| == |trace| + 1 && |trace| < j <= |trace'| && trace'[|trace|] == Run
    && forall k :: |trace| < k <= j ==> states'[k].checkInProgress
  }

  /** When no loop is exiting as the checker is started, none exits while the flag stays set,
      so nothing stops the new ticker. */
  lemma {:induction false} NobodyStopsTicker(trace: seq<Event>, states: seq<State>, trace': seq<Event>, states': seq<State>, j: nat)
    requires StartedAndRunning(trace, states, trace', states', j)
    requires !states[|trace|].checkInProgress && NoneExiting(states[|trace|])
    ensures NoneExiting(states'[j]) && states'[j].ticker !in states'[j].stopped
    decreases j
  {
    assert StepOk(trace', states', j - 1);
    if j == |trace| + 1 {
      TickersInRun(trace', states', |trace|);
      assert states'[|trace|] == states[|trace|];
    } else {
      NobodyStopsTicker(trace, states, trace', states', j - 1);
    }
  }

  /** The exact condition, to be checked when the checker is started: in every continuation
      the new loop's ticker works for as long as the flag stays set, if and only if no
      earlier loop is between its unlock and the stop of the ticker. */
  lemma TickerWorksExactlyIf(trace: seq<Event>, states: seq<State>)
    requires IsRun(trace, states) && !states[|trace|].checkInProgress
    ensures (forall trace': seq<Event>, states': seq<State>, j: nat ::
               StartedAndRunning(trace, states, trace', states', j) ==> states'[j].ticker !in states'[j].stopped)
            <==> NoneExiting(states[|trace|])
  {
    if NoneExiting(states[|trace|]) {
      forall trace': seq<Event>, states': seq<State>, j: nat | StartedAndRunning(trace, states, trace', states', j)
        ensures states'[j].ticker !in states'[j].stopped
      {
        NobodyStopsTicker(trace, states, trace', states', j);
      }
    } else {
      var l :| 0 <= l < |states[|trace|].loops| && states[|trace|].loops[l] == Exiting;
      var trace', states' := StopsSuccessor(trace, states, l);
    }
  }

  /** The continuation: the checker is started, then the exiting loop stops the new ticker. */
  lemma StopsSuccessor(trace: seq<Event>, states: seq<State>, l: nat) returns (trace': seq<Event>, states': seq<State>)
    requires IsRun(trace, states) && !states[|trace|].checkInProgress
    requires l < |states[|trace|].loops| && states[|trace|].loops[l] == Exiting
    ensures StartedAndRunning(trace, states, trace', states', |trace| + 2)
    ensures states'[|trace| + 2].ticker in states'[|trace| + 2].stopped
  {
    var s1 := Next(states[|trace|], Run);
    var s2 := Next(s1, StopTicker(l));
    RunGoesOn(trace, states, Run);
    RunGoesOn(trace + [Run], states + [s1], StopTicker(l));
    trace', states' := trace + [Run] + [StopTicker(l)], states + [s1] + [s2];
  }

  /** A run goes on with any event that is enabled. */
  lemma RunGoesOn(trace: seq<Event>, states: seq<State>, e: Event)
    requires IsRun(trace, states) && Enabled(states[|trace|], e)
    ensures IsRun(trace + [e], states + [Next(states[|trace|], e)])
  {
    var trace', states' := trace + [e], states + [Next(states[|trace|], e)];
    forall i | 0 <= i < |trace'| ensures StepOk(trace', states', i) {
      if i < |trace| { assert StepOk(trace, states, i); }
    }
  }

  /** Every call of runChecker comes right after a store. */
  ghost predicate StoresBeforeRuns(trace: seq<Event>) {
    forall i :: 0 <= i < |trace| && trace[i] == Run ==> i > 0 && trace[i - 1].Store?
  }

  /** A job is stored and its loop started; then it is deleted, and the loop decides to exit. */
  lemma FirstLoopExits(job: string, resource: string) returns (trace: seq<Event>, states: seq<State>)
    ensures IsRun(trace, states) && StoresBeforeRuns(trace)
    ensures states[|trace|] == State(map[], false, 1, {}, {}, [Exiting])
  {
    var s0 := INITIAL;
    var s1 := Next(s0, Store(job, resource));
    assert job in s1.jobs;
    var s2 := Next(s1, Run);
    var s3 := Next(s2, Check(0));
    var s4 := Next(s3, Delete(job));
    var s5 := Next(s4, Polled(0));
    var s6 := Next(s5, Fire(1));
    var s7 := Next(s6, Tick(0));
    assert s7.jobs == map[];
    var s8 := Next(s7, Check(0));
    trace := [Store(job, resource), Run, Check(0), Delete(job), Polled(0), Fire(1), Tick(0), Check(0)];
    states := [s0, s1, s2, s3, s4, s5, s6, s7, s8];
  }

  /** Such a run exists: the first loop is exiting, a job is stored and a loop started for it, then
      the first loop stops its ticker. */
  lemma StuckLoop(job: string, resource: string) returns (trace: seq<Event>, states: seq<State>)
    ensures IsRun(trace, states) && StoresBeforeRuns(trace)
    ensures var s := states[|trace|];
            job in s.jobs && s.checkInProgress && s.loops == [Returned, Waiting] && Starved(s)
  {
    trace, states := FirstLoopExits(job, resource);
    var s0 := states[|trace|];
    var s1 := Next(s0, Store(job, resource));
    RunGoesOn(trace, states, Store(job, resource));
    trace, states := trace + [Store(job, resource)], states + [s1];
    assert job in s1.jobs;
    var s2 := Next(s1, Run);
    RunGoesOn(trace, states, Run);
    trace, states := trace + [Run], states + [s2];
    var s3 := Next(s2, Check(1));
    RunGoesOn(trace, states, Check(1));
    trace, states := trace + [Check(1)], states + [s3];
    var s4 := Next(s3, Polled(1));
    RunGoesOn(trace, states, Polled(1));
    trace, states := trace + [Polled(1)], states + [s4];
    RunGoesOn(trace, states, StopTicker(0));
    trace, states := trace + [StopTicker(0)], states + [Next(s4, StopTicker(0))];
  }

  /** The current ticker is stopped and its channel is empty. */
  predicate Starved(s: State) {
    s.ticker in s.stopped && s.ticker !in s.ticks
  }

  /** The ticks taken by events i to j-1. */
  function TicksTaken(trace: seq<Event>, i: nat, j: nat): nat
    requires i <= j <= |trace|
  {
    if i == j then 0 else TicksTaken(trace, i, j - 1) + if trace[j - 1].Tick? then 1 else 0
  }

  lemma {:induction false} TickIsCounted(trace: seq<Event>, i: nat, j: nat, p: nat)
    requires i <= p < j <= |trace| && trace[p].Tick?
    ensures TicksTaken(trace, i, j) > 0
  {
    if p < j - 1 { TickIsCounted(trace, i, j - 1, p); }
  }

  /** Once the live loop's ticker is stopped, it takes no tick any more but the one that may
      be left in the channel, for as long as the flag stays set. */
  lemma {:induction false} OneTickLeft(trace: seq<Event>, states: seq<State>, i: nat, j: nat)
    requires IsRun(trace, states) && i <= j <= |trace|
    requires states[i].ticker in states[i].stopped
    requires forall k :: i <= k <= j ==> states[k].checkInProgress
    ensures states[j].ticker == states[i].ticker && states[j].ticker in states[j].stopped
    ensures TicksTaken(trace, i, j) + (if states[j].ticker in states[j].ticks then 1 else 0)
            <= if states[i].ticker in states[i].ticks then 1 else 0
    ensures forall p, q :: i <= p < q < j && trace[p].Tick? ==> !trace[q].Tick?
    decreases j
  {
    if i < j {
      OneTickLeft(trace, states, i, j - 1);
      assert StepOk(trace, states, j - 1);
      forall p | i <= p < j - 1 && trace[p].Tick? ensures !trace[j - 1].Tick? {
        TickIsCounted(trace, i, j - 1, p);
      }
    }
  }

  /** With the channel empty the live loop waits for ever and no other is started, whatever
      is stored, deleted or started: no job of the cluster is checked again. */
  lemma {:induction false} StuckForever(trace: seq<Event>, states: seq<State>, i: nat, j: nat, l: nat)
    requires IsRun(trace, states) && i <= j <= |trace|
    requires l < |states[i].loops| && states[i].loops[l] == Waiting && Starved(states[i])
    ensures l < |states[j].loops| && states[j].loops[l] == Waiting && Starved(states[j])
    ensures forall k :: 0 <= k < |states[j].loops| && Alive(states[j].loops[k]) ==> k == l
    decreases j
  {
    RunHasOneLoop(trace, states, j);
    if i < j {
      StuckForever(trace, states, i, j - 1, l);
      RunHasOneLoop(trace, states, j - 1);
      assert StepOk(trace, states, j - 1);
      assert Alive(states[j - 1].loops[l]);
    }
    assert Alive(states[j].loops[l]);
  }

  // ---------- The checker itself ----------

  class JetJobStatusChecker {
    var jobs: map<string, string>
    var checkInProgress: bool
    var ticker: nat
    // The world around it: started goroutines and stopped tickers
    var loops: seq<Loop>
    var stopped: set<nat>
    var ticks: set<nat>
    ghost var trace: seq<Event>
    ghost var states: seq<State>

    ghost function Now(): State reads this {
      State(jobs, checkInProgress, ticker, stopped, ticks, loops)
    }

    ghost predicate Valid() reads this {
      IsRun(trace, states) && states[|trace|] == Now()
    }

    constructor ()
      ensures Valid() && Now() == INITIAL
    {
      jobs, checkInProgress, ticker, loops, stopped, ticks := map[], false, 0, [], {}, {};
      trace, states := [], [INITIAL];
    }

    /** Every method below performs one event of the run. */
    twostate predicate Performed(e: Event) reads this {
      Valid() && Enabled(old(Now()), e) && Now() == Next(old(Now()), e) && trace == old(trace) + [e]
    }

    ghost method Record(e: Event, before: State)
      requires IsRun(trace, states) && states[|trace|] == before && Enabled(before, e) && Now() == Next(before, e)
      modifies `trace, `states
      ensures Valid() && trace == old(trace) + [e] && Now() == old(Now())
    {
      var t, ss := trace + [e], states + [Now()];
      forall i | 0 <= i < |t| ensures StepOk(t, ss, i) {
        if i < |trace| { assert StepOk(trace, states, i); }
      }
      trace, states := t, ss;
    }

    method StoreJob(jobName: string, resource: string)
      requires Valid()
      modifies this
      ensures Performed(Store(jobName, resource))
    {
      ghost var before := Now();
      jobs := jobs[jobName := resource];
      Record(Store(jobName, resource), before);
    }

    method DeleteJob(jobName: string)
      requires Valid()
      modifies this
      ensures Performed(Delete(jobName))
    {
      ghost var before := Now();
      jobs := jobs - {jobName};
      Record(Delete(jobName), before);
    }

    /** Used by the loop for each job of the summaries: it is updated only while in the table. */
    method LoadJob(l: nat, jobName: string) returns (resource: string, ok: bool)
      requires Valid() && l < |loops| && loops[l] == Polling
      modifies this
      ensures Performed(Update(l, jobName))
      ensures ok <==> jobName in jobs
      ensures ok ==> jobs[jobName] == resource
    {
      ghost var before := Now();
      ok := jobName in jobs;
      resource := if ok then jobs[jobName] else "";
      Record(Update(l, jobName), before);
    }

    method RunChecker()
      requires Valid()
      modifies this
      ensures Performed(Run)
      ensures checkInProgress && OneLoop(Now())
    {
      ghost var before := Now();
      if !checkInProgress {
        checkInProgress := true;
        ticker := ticker + 1;
        loops := loops + [Top];
      }
      Record(Run, before);
      RunHasOneLoop(trace, states, |trace|);
    }

    method CheckOnce(l: nat)
      requires Valid() && l < |loops| && loops[l] == Top
      modifies this
      ensures Performed(Check(l))
      ensures |old(jobs)| <= 0 <==> !Alive(loops[l])
    {
      ghost var before := Now();
      if |jobs| <= 0 {
        checkInProgress := false;
        loops := loops[l := Exiting];
      } else {
        loops := loops[l := Polling];
      }
      Record(Check(l), before);
    }

    method EndPoll(l: nat)
      requires Valid() && l < |loops| && loops[l] == Polling
      modifies this
      ensures Performed(Polled(l))
    {
      ghost var before := Now();
      loops := loops[l := Waiting];
      Record(Polled(l), before);
    }

    method ReceiveTick(l: nat)
      requires Valid() && l < |loops| && loops[l] == Waiting && ticker in ticks
      modifies this
      ensures Performed(Tick(l))
    {
      ghost var before := Now();
      loops, ticks := loops[l := Top], ticks - {ticker};
      Record(Tick(l), before);
    }

    method StopAndReturn(l: nat)
      requires Valid() && l < |loops| && loops[l] == Exiting
      modifies this
      ensures Performed(StopTicker(l))
    {
      ghost var before := Now();
      stopped := stopped + {ticker};
      loops := loops[l := Returned];
      Record(StopTicker(l), before);
    }
  }
}
