/** A hot backup from its trigger to its recorded result: the cluster is made passive, the
    backup triggered and the cluster made active again; every member is watched until its
    backup task ends; then every member's backup is collected into its slot of a list. */
module HotBackupFinish {
  import opened Wrappers

  // ---------- Triggering ----------

  datatype Call = ChangeToPassive | Trigger | ChangeToActive

  /** A call that was made, and whether it succeeded. */
  datatype Made = Made(call: Call, ok: bool)

  const BACKOFF_STEPS := 8

  /** Up to `steps` attempts of one call: all but the last fail, and the last one succeeds
      unless all were used up. */
  ghost predicate IsRetry(calls: seq<Made>, c: Call, answers: nat -> bool, steps: nat) {
    && 0 < |calls| <= steps
    && (forall i :: 0 <= i < |calls| ==> calls[i] == Made(c, answers(i)))
    && (forall i :: 0 <= i < |calls| - 1 ==> !calls[i].ok)
    && (calls[|calls| - 1].ok || |calls| == steps)
  }

  ghost predicate Succeeds(answers: nat -> bool, steps: nat) {
    exists k :: 0 <= k < steps && answers(k)
  }

  method RetryOnError(c: Call, answers: nat -> bool, steps: nat) returns (ok: bool, calls: seq<Made>)
    requires steps > 0
    ensures ok <==> Succeeds(answers, steps)
    ensures IsRetry(calls, c, answers, steps) && calls[|calls| - 1].ok == ok
  {
    calls := [];
    for n := 0 to steps
      invariant |calls| == n && forall i :: 0 <= i < n ==> calls[i] == Made(c, answers(i)) && !answers(i)
    {
      calls := calls + [Made(c, answers(n))];
      if answers(n) { return true, calls; }
    }
    return false, calls;
  }

  /** Nothing is triggered unless the cluster went passive before; once it did, a call to make
      it active again comes last, whether or not the trigger succeeded, and the cluster stays
      passive only when eight such calls failed. */
  method Start(passive: nat -> bool, trigger: nat -> bool, active: nat -> bool) returns (ok: bool, calls: seq<Made>)
    ensures ok <==> Succeeds(passive, BACKOFF_STEPS) && Succeeds(trigger, BACKOFF_STEPS)
    ensures ok <==> Made(Trigger, true) in calls
    ensures forall i :: 0 <= i < |calls| && calls[i].call == Trigger ==> Made(ChangeToPassive, true) in calls[..i]
    ensures calls != [] && calls[0].call == ChangeToPassive
    ensures Made(ChangeToPassive, true) in calls ==>
              var last := calls[|calls| - 1]; last.call == ChangeToActive && (last.ok <==> Succeeds(active, BACKOFF_STEPS))
    ensures Made(ChangeToPassive, true) in calls <==> Succeeds(passive, BACKOFF_STEPS)
    ensures |calls| <= 3 * BACKOFF_STEPS
  {
    var passives, triggers, actives, done;
    ok, passives := RetryOnError(ChangeToPassive, passive, BACKOFF_STEPS);
    if !ok { return ok, passives; }
    ok, triggers := RetryOnError(Trigger, trigger, BACKOFF_STEPS);
    done, actives := RetryOnError(ChangeToActive, active, BACKOFF_STEPS);
    calls := passives + triggers + actives;
    var p, t := |passives|, |triggers|;
    assert passives[p - 1] == calls[p - 1] == Made(ChangeToPassive, true);
    assert ok ==> calls[p + t - 1] == Made(Trigger, true);
    assert forall i :: 0 <= i < p ==> calls[i] == passives[i];
    assert forall i :: p <= i < p + t ==> calls[i] == triggers[i - p];
    assert forall i :: p + t <= i < |calls| ==> calls[i] == actives[i - p - t];
    forall i | 0 <= i < |calls| && calls[i].call == Trigger ensures Made(ChangeToPassive, true) in calls[..i] {
      assert calls[..i][p - 1] == calls[p - 1];
    }
  }

  // ---------- Watching a member ----------

  /** What a member reports about its backup task. */
  datatype Answer = Unreadable | InProgress | NoTask | Succeeded | FailedTask | Other(state: string)

  /** One answer, and whether the wait after it was cut off by a cancellation. */
  datatype Observation = Observation(answer: Answer, cancelled: bool)

  const MAX_NO_TASK := 10

  datatype WaitResult = Done | Failed | StillWaiting

  function CountNoTask(obs: seq<Observation>, n: nat): nat
    requires n <= |obs|
  {
    if n == 0 then 0 else CountNoTask(obs, n - 1) + if obs[n - 1].answer.NoTask? then 1 else 0
  }

  /** Up to observation k the task is running or not there yet, at most eleven times not
      there, with no cancellation. */
  ghost predicate Waiting(obs: seq<Observation>, k: nat) {
    && k <= |obs|
    && (forall j :: 0 <= j < k ==> (obs[j].answer.InProgress? || obs[j].answer.NoTask?) && !obs[j].cancelled)
    && CountNoTask(obs, k) <= 11
  }

  ghost predicate EndsInSuccess(obs: seq<Observation>) {
    exists k :: SuccessAt(obs, k)
  }

  ghost predicate SuccessAt(obs: seq<Observation>, k: int) {
    0 <= k < |obs| && Waiting(obs, k) && obs[k].answer.Succeeded?
  }

  lemma {:induction false} CountNoTaskGrows(obs: seq<Observation>, k: nat, n: nat)
    requires k <= n <= |obs|
    ensures CountNoTask(obs, k) <= CountNoTask(obs, n)
  {
    if k < n { CountNoTaskGrows(obs, k, n - 1); }
  }

  /** The loop ends without error exactly when the observed trace ends in SUCCESS. */
  method Wait(obs: seq<Observation>) returns (r: WaitResult)
    ensures r == Done <==> EndsInSuccess(obs)
    ensures r == StillWaiting <==> Waiting(obs, |obs|)
  {
    var n := 0;
    for i := 0 to |obs|
      invariant Waiting(obs, i) && n == CountNoTask(obs, i)
    {
      match obs[i].answer {
        case Unreadable => NotBeyond(obs, i); return Failed;
        case FailedTask => NotBeyond(obs, i); return Failed;
        case Other(_) => NotBeyond(obs, i); return Failed;
        case Succeeded =>
          NotBeyond(obs, i);
          assert SuccessAt(obs, i);
          return Done;
        case NoTask =>
          if n > MAX_NO_TASK { NotBeyond(obs, i); return Failed; }
          n := n + 1;
        case InProgress =>
      }
      if obs[i].cancelled { NotBeyond(obs, i); return Failed; }
    }
    return StillWaiting;
  }

  /** When observation i ends the loop, no later observation is waited for. */
  lemma NotBeyond(obs: seq<Observation>, i: nat)
    requires i < |obs| && Waiting(obs, i) && !Waiting(obs, i + 1)
    ensures forall k :: i < k <= |obs| ==> !Waiting(obs, k)
  {
    forall k | i < k <= |obs| && Waiting(obs, k) ensures false {
      CountNoTaskGrows(obs, i + 1, k);
    }
  }

  // ---------- All members ----------

  datatype Member = Member(uuid: string)

  type Traces = map<Member, seq<Observation>>

  /** The error group over all members: it fails exactly when some member's wait fails, and
      then the cluster backup is interrupted exactly once.  Members finish in any order. */
  method WaitForMembers(members: set<Member>, traces: Traces) returns (ok: bool, interrupts: nat)
    requires members <= traces.Keys
    requires forall m :: m in members ==> !Waiting(traces[m], |traces[m]|)
    ensures ok <==> forall m :: m in members ==> EndsInSuccess(traces[m])
    ensures interrupts == if ok then 0 else 1
  {
    ok, interrupts := true, 0;
    var cancelOnce := false;
    var todo := members;
    while todo != {}
      invariant todo <= members
      invariant ok <==> forall m :: m in members - todo ==> EndsInSuccess(traces[m])
      invariant cancelOnce == !ok && interrupts == if ok then 0 else 1
      decreases |todo|
    {
      var m :| m in todo;
      todo := todo - {m};
      var r := Wait(traces[m]);
      if r != Done {
        if !cancelOnce { cancelOnce, interrupts := true, interrupts + 1; }
        ok := false;
      }
      assert members - todo == (members - (todo + {m})) + {m};
    }
    assert members - todo == members;
  }

  /** b.Members() lists the members in some order, another one at every call. */
  ghost predicate Lists(order: seq<Member>, members: set<Member>) {
    NoDuplicates(order) && forall m :: m in order <==> m in members
  }

  /** A slot stays empty when the member's backup cannot be collected. */
  function Slot(backups: map<Member, Option<string>>, m: Member): string {
    if m in backups && backups[m].Some? then backups[m].value else ""
  }

  /** The goroutines finish in this order: every position of the list occurs. */
  ghost predicate Finishes(schedule: seq<nat>, n: nat) {
    (forall t :: 0 <= t < |schedule| ==> schedule[t] < n) && forall i :: 0 <= i < n ==> i in schedule
  }

  /** Collects every member's backup in the slot of its position in `order`, finishing in
      any order; fails when some member's backup cannot be collected. */
  method CollectBackups(order: seq<Member>, backups: map<Member, Option<string>>, schedule: seq<nat>)
    returns (ok: bool, slots: array<string>)
    requires Finishes(schedule, |order|) && forall i :: 0 <= i < |order| ==> order[i] in backups
    ensures fresh(slots) && slots.Length == |order|
    ensures ok <==> forall i :: 0 <= i < |order| ==> backups[order[i]].Some?
    ensures forall i :: 0 <= i < |order| ==> slots[i] == Slot(backups, order[i])
  {
    slots := new string[|order|](_ => "");
    ok := true;
    for t := 0 to |schedule|
      invariant ok <==> forall s :: 0 <= s < t ==> backups[order[schedule[s]]].Some?
      invariant forall i :: 0 <= i < |order| ==> slots[i] == "" || slots[i] == Slot(backups, order[i])
      invariant forall s :: 0 <= s < t ==> slots[schedule[s]] == Slot(backups, order[schedule[s]])
    {
      var i := schedule[t];
      if backups[order[i]].None? {
        ok := false;
      } else {
        slots[i] := backups[order[i]].value;
      }
    }
    forall i | 0 <= i < |order|
      ensures slots[i] == Slot(backups, order[i]) && (ok ==> backups[order[i]].Some?)
    {
      assert i in schedule;
      var s :| 0 <= s < |schedule| && schedule[s] == i;
    }
  }

  datatype Result = Success(uuids: seq<string>) | Failure

  /** Everything after the start: the state written is Success exactly when every member's
      trace ends in SUCCESS and every member's backup is collected, and then the recorded
      list has one slot per member, filled with that member's backup. */
  method FinishBackup(started: bool, members: set<Member>, traces: Traces, connected: bool,
                      order: seq<Member>, schedule: seq<nat>, backups: map<Member, Option<string>>) returns (r: Result)
    requires members <= traces.Keys && members <= backups.Keys && Lists(order, members) && Finishes(schedule, |order|)
    requires forall m :: m in members ==> !Waiting(traces[m], |traces[m]|)
    ensures r.Success? <==> started && connected && forall m :: m in members ==>
              EndsInSuccess(traces[m]) && backups[m].Some?
    ensures r.Success? ==> |r.uuids| == |order| == |members| && forall i :: 0 <= i < |order| ==> backups[order[i]] == Some(r.uuids[i])
  {
    if !started { return Failure; }
    var ok, interrupts := WaitForMembers(members, traces);
    if !ok { return Failure; }
    if !connected { return Failure; }
    var slots;
    ok, slots := CollectBackups(order, backups, schedule);
    if !ok { return Failure; }
    ListLength(order, members);
    return Success(slots[..]);
  }

  lemma {:induction false} ListLength(order: seq<Member>, members: set<Member>)
    requires Lists(order, members)
    ensures |order| == |members|
  {
    if order == [] {
      assert members == {};
    } else {
      var n := |order| - 1;
      ListLength(order[..n], members - {order[n]});
    }
  }
}
