/** The queue of WAN synchronisations: reconcilers add one list of requests per WanSync
    and start a job; every job takes the mutex and drains whatever is queued.  Adds and
    starts of other goroutines interleave with each step of the job holding the mutex. */
module WanSyncQueue {
  import McPolling
  import opened Wrappers

  datatype Request = Request(hz: string, mapName: string, publisherId: string)

  datatype Kind = Started | Closing(event: McPolling.EventType)

  /** A WanSync resource, by its name. */
  datatype WanSync = WanSync(name: string)

  /** The requests of one WanSync. */
  datatype List = List(owner: WanSync, requests: seq<Request>)

  /** An event passed to the callback: for which request of which stored list, and to which
      WanSync the callback writes, the one the job was started for. */
  datatype Emission = Emission(list: nat, index: nat, reporter: WanSync, kind: Kind)

  /** A closing event: one that is not in progress. */
  predicate Closes(kind: Kind) {
    kind.Closing? && !McPolling.IsInProgress(kind.event)
  }

  // ---------- What the callback has seen ----------

  /** The first |b| events of list id, drained by the job of WanSync `job`: one Started and one
      closing event per request, in order. */
  ghost predicate IsBlock(b: seq<Emission>, id: nat, job: WanSync) {
    forall p :: 0 <= p < |b| ==>
      && b[p].list == id && b[p].index == p / 2 && b[p].reporter == job
      && (if p % 2 == 0 then b[p].kind == Started else Closes(b[p].kind))
  }

  /** The events are one complete block per finished list, in that order. */
  ghost predicate IsBlocks(emitted: seq<Emission>, finished: seq<nat>, jobs: seq<WanSync>, lists: seq<List>)
    decreases |finished|
  {
    |jobs| == |finished| &&
    if finished == [] then emitted == []
    else
      var n := |finished| - 1;
      && finished[n] < |lists|
      && 2 * |lists[finished[n]].requests| <= |emitted|
      && var cut := |emitted| - 2 * |lists[finished[n]].requests|;
      && IsBlock(emitted[cut..], finished[n], jobs[n])
      && IsBlocks(emitted[..cut], finished[..n], jobs[..n], lists)
  }

  lemma {:induction false} BlocksLater(emitted: seq<Emission>, finished: seq<nat>, jobs: seq<WanSync>, lists: seq<List>, lists': seq<List>)
    requires IsBlocks(emitted, finished, jobs, lists) && lists <= lists'
    ensures IsBlocks(emitted, finished, jobs, lists')
    decreases |finished|
  {
    if finished != [] {
      var n := |finished| - 1;
      var cut := |emitted| - 2 * |lists[finished[n]].requests|;
      BlocksLater(emitted[..cut], finished[..n], jobs[..n], lists, lists');
    }
  }

  lemma BlockCompletes(emitted: seq<Emission>, b: seq<Emission>, finished: seq<nat>, jobs: seq<WanSync>, lists: seq<List>, id: nat, job: WanSync)
    requires IsBlocks(emitted, finished, jobs, lists) && IsBlock(b, id, job) && id < |lists| && |b| == 2 * |lists[id].requests|
    ensures IsBlocks(emitted + b, finished + [id], jobs + [job], lists)
  {
    assert (finished + [id])[..|finished|] == finished && (jobs + [job])[..|finished|] == jobs;
    assert (emitted + b)[..|emitted|] == emitted && (emitted + b)[|emitted|..] == b;
  }

  function Pair(id: nat, i: nat, job: WanSync, closing: McPolling.EventType): seq<Emission> {
    [Emission(id, i, job, Started), Emission(id, i, job, Closing(closing))]
  }

  lemma PairExtends(b: seq<Emission>, id: nat, i: nat, job: WanSync, closing: McPolling.EventType)
    requires IsBlock(b, id, job) && |b| == 2 * i && !McPolling.IsInProgress(closing)
    ensures IsBlock(b + Pair(id, i, job, closing), id, job)
  {
  }

  ghost predicate Keeps(before: map<WanSync, nat>, after: map<WanSync, nat>) {
    forall key :: key in before ==> key in after && after[key] == before[key]
  }

  /** Every event is of a finished list, and reported by the job that drained it. */
  lemma {:induction false} DrainedBy(emitted: seq<Emission>, finished: seq<nat>, jobs: seq<WanSync>, lists: seq<List>, q: nat) returns (k: nat)
    requires IsBlocks(emitted, finished, jobs, lists) && q < |emitted|
    ensures k < |finished| && emitted[q].list == finished[k] && emitted[q].reporter == jobs[k]
    decreases |finished|
  {
    var n := |finished| - 1;
    var cut := |emitted| - 2 * |lists[finished[n]].requests|;
    if q < cut {
      k := DrainedBy(emitted[..cut], finished[..n], jobs[..n], lists, q);
    } else {
      assert emitted[q] == emitted[cut..][q - cut];
      k := n;
    }
  }

  /** An event reaches the WanSync its request belongs to if and only if the job that drained
      the list was started for that WanSync. */
  lemma ReachesOwnExactlyIf(emitted: seq<Emission>, finished: seq<nat>, jobs: seq<WanSync>, lists: seq<List>, q: nat, k: nat)
    requires IsBlocks(emitted, finished, jobs, lists) && NoDuplicates(finished)
    requires q < |emitted| && k < |finished| && emitted[q].list == finished[k] && finished[k] < |lists|
    ensures emitted[q].reporter == lists[emitted[q].list].owner <==> jobs[k] == lists[finished[k]].owner
  {
    var j := DrainedBy(emitted, finished, jobs, lists, q);
    assert j == k;
  }

  /** emitted[p] and emitted[p + 1] are the only events of request i of list id. */
  ghost predicate OnlyPairAt(emitted: seq<Emission>, id: nat, i: nat, p: nat) {
    && p + 1 < |emitted|
    && emitted[p].list == id && emitted[p].index == i && emitted[p].kind == Started
    && emitted[p + 1].list == id && emitted[p + 1].index == i && Closes(emitted[p + 1].kind)
    && (forall q :: 0 <= q < |emitted| && emitted[q].list == id && emitted[q].index == i ==> q == p || q == p + 1)
  }

  lemma BlockHasRequest(b: seq<Emission>, id: nat, job: WanSync, i: nat)
    requires IsBlock(b, id, job) && 2 * i + 1 < |b|
    ensures OnlyPairAt(b, id, i, 2 * i)
  {
  }

  lemma PairShifts(before: seq<Emission>, b: seq<Emission>, id: nat, i: nat, p: nat)
    requires OnlyPairAt(b, id, i, p) && forall q :: 0 <= q < |before| ==> before[q].list != id
    ensures OnlyPairAt(before + b, id, i, |before| + p)
  {
    assert forall q :: |before| <= q < |before + b| ==> (before + b)[q] == b[q - |before|];
  }

  lemma PairStays(emitted: seq<Emission>, b: seq<Emission>, id: nat, i: nat, p: nat, other: nat, job: WanSync)
    requires OnlyPairAt(emitted, id, i, p) && IsBlock(b, other, job) && other != id
    ensures OnlyPairAt(emitted + b, id, i, p)
  {
    assert forall q :: |emitted| <= q < |emitted + b| ==> (emitted + b)[q] == b[q - |emitted|];
  }

  /** Every request of a finished list has exactly one Started event, and the event right
      after it is the one and only closing event of that request. */
  lemma {:induction false} EachRequestOnce(emitted: seq<Emission>, finished: seq<nat>, jobs: seq<WanSync>, lists: seq<List>, id: nat, i: nat)
    returns (p: nat)
    requires IsBlocks(emitted, finished, jobs, lists) && NoDuplicates(finished)
    requires id in finished && id < |lists| && i < |lists[id].requests|
    ensures OnlyPairAt(emitted, id, i, p)
    decreases |finished|
  {
    var n := |finished| - 1;
    var last := finished[n];
    var cut := |emitted| - 2 * |lists[last].requests|;
    assert emitted == emitted[..cut] + emitted[cut..];
    if last == id {
      p := cut + 2 * i;
      InLastBlock(emitted[..cut], emitted[cut..], finished[..n], jobs[..n], lists, id, jobs[n], i);
    } else {
      p := EachRequestOnce(emitted[..cut], finished[..n], jobs[..n], lists, id, i);
      PairStays(emitted[..cut], emitted[cut..], id, i, p, last, jobs[n]);
    }
  }

  lemma InLastBlock(before: seq<Emission>, b: seq<Emission>, finished: seq<nat>, jobs: seq<WanSync>, lists: seq<List>,
                    id: nat, job: WanSync, i: nat)
    requires IsBlocks(before, finished, jobs, lists) && id !in finished && IsBlock(b, id, job) && 2 * i + 1 < |b|
    ensures OnlyPairAt(before + b, id, i, |before| + 2 * i)
  {
    forall q | 0 <= q < |before| ensures before[q].list != id {
      var k := DrainedBy(before, finished, jobs, lists, q);
    }
    BlockHasRequest(b, id, job, i);
    PairShifts(before, b, id, i, 2 * i);
  }

  /** From position `from` on all lists were drained by this job. */
  ghost predicate AllBy(jobs: seq<WanSync>, from: nat, job: WanSync) {
    forall k :: from <= k < |jobs| ==> jobs[k] == job
  }

  /** More lists were drained, all of them by this job. */
  ghost predicate Drained(finished: seq<nat>, finished': seq<nat>, jobs: seq<WanSync>, jobs': seq<WanSync>, job: WanSync) {
    finished <= finished' && jobs <= jobs' && |jobs| == |finished| && AllBy(jobs', |finished|, job)
  }

  lemma DrainedNothing(finished: seq<nat>, jobs: seq<WanSync>, job: WanSync)
    requires |jobs| == |finished|
    ensures Drained(finished, finished, jobs, jobs, job)
  {
  }

  lemma DrainedStep(finished: seq<nat>, before: seq<nat>, after: seq<nat>,
                    jobs: seq<WanSync>, before': seq<WanSync>, after': seq<WanSync>, job: WanSync)
    requires Drained(finished, before, jobs, before', job)
    requires before <= after && after' == before' + [job]
    ensures Drained(finished, after, jobs, after', job)
  {
  }

  /** What Range may visit next: any key that is queued and was not visited, among the first
      ones or, as long as extra visits are left, a later one. */
  method NextKey(queued: map<WanSync, nat>, todo: set<WanSync>, visited: set<WanSync>, extra: nat) returns (key: Option<WanSync>)
    requires todo <= queued.Keys && todo !! visited
    ensures key.None? ==> todo == {}
    ensures key.Some? ==> key.value in queued && key.value !in visited && (key.value in todo || extra > 0)
  {
    var any: WanSync := *;
    if any in queued && any !in visited && (any in todo || extra > 0) { return Some(any); }
    if todo == {} { return None; }
    any :| any in todo;
    return Some(any);
  }

  /** Every list of `before` is finished, or still queued and to be visited. */
  ghost predicate Visited(before: map<WanSync, nat>, now: map<WanSync, nat>, todo: set<WanSync>, finished: seq<nat>) {
    forall key :: key in before ==> before[key] in finished || (key in todo && key in now && now[key] == before[key])
  }

  lemma VisitedStep(start: map<WanSync, nat>, before: map<WanSync, nat>, now: map<WanSync, nat>, todo: set<WanSync>,
                    key: WanSync, finished: seq<nat>)
    requires Visited(start, before, todo, finished) && key in before
    requires forall k :: k in before && k != key ==> k in now && now[k] == before[k]
    ensures Visited(start, now, todo - {key}, finished + [before[key]])
  {
    forall k | k in start
      ensures start[k] in finished + [before[key]] || (k in todo - {key} && k in now && now[k] == start[k])
    {
      if start[k] !in finished && k == key { assert (finished + [before[key]])[|finished|] == start[k]; }
    }
  }

  lemma FinishedOnce(finished: seq<nat>, id: nat)
    requires NoDuplicates(finished) && id !in finished
    ensures NoDuplicates(finished + [id])
    ensures forall k :: k in finished + [id] <==> k in finished || k == id
  {
  }

  /** What waiting for the members can end with: any outcomes, arriving in any order. */
  method SomeFinishEvent() returns (finish: McPolling.Event)
    ensures !McPolling.IsInProgress(finish.kind)
  {
    var mapName: string := *;
    var outcomes: seq<McPolling.Outcome> := *;
    var arrived: seq<McPolling.Event> := *;
    if !(forall i :: 0 <= i < |outcomes| ==> McPolling.Ended(outcomes[i])) {
      outcomes := [];
    }
    if multiset(arrived) != multiset(McPolling.MemberEvents(outcomes, mapName)) {
      arrived := McPolling.MemberEvents(outcomes, mapName);
    }
    finish := McPolling.WaitWanSyncToFinish(outcomes, mapName, arrived);
  }

  // ---------- The service ----------

  class WanSyncService {
    /** Queued lists by WanSync, as positions in `lists`. */
    var wanSyncs: map<WanSync, nat>
    /** Every list actually stored. */
    var lists: seq<List>
    /** The WanSyncs of callers between AddWanSyncRequests and StartSyncJob, and of the jobs
        waiting for the mutex. */
    var callers: multiset<WanSync>
    var waiting: multiset<WanSync>
    var locked: bool
    /** The WanSyncs of all adds, and of the jobs that got the mutex. */
    ghost var submitted: multiset<WanSync>
    ghost var ran: multiset<WanSync>
    /** The lists drained so far, and the WanSyncs of the jobs that did. */
    var finished: seq<nat>
    var jobs: seq<WanSync>
    var emitted: seq<Emission>

    /** Every add has one job: its caller has not started it, or it waits, or it ran. */
    ghost predicate OneJobEach() reads this`submitted, this`callers, this`waiting, this`ran {
      submitted == callers + waiting + ran
    }

    /** A stored list is either queued under its WanSync or finished, once. */
    ghost predicate Accounted() reads this`wanSyncs, this`lists, this`finished {
      && (forall key :: key in wanSyncs ==>
            wanSyncs[key] < |lists| && wanSyncs[key] !in finished && lists[wanSyncs[key]].owner == key)
      && (forall id :: id in finished ==> id < |lists|)
      && NoDuplicates(finished)
      && (forall id :: 0 <= id < |lists| ==> id in finished || Queued(id))
    }

    ghost predicate Queued(id: nat) reads this`wanSyncs {
      exists key :: key in wanSyncs && wanSyncs[key] == id
    }

    /** Some job has not ranged yet. */
    ghost predicate JobToCome() reads this`callers, this`waiting {
      callers != multiset{} || waiting != multiset{}
    }

    /** Whatever is queued outside `taken` will be seen by such a job. */
    ghost predicate Covered(taken: set<WanSync>) reads this`wanSyncs, this`callers, this`waiting {
      forall key :: key in wanSyncs && key !in taken ==> JobToCome()
    }

    ghost predicate Reported() reads this`emitted, this`finished, this`jobs, this`lists {
      IsBlocks(emitted, finished, jobs, lists)
    }

    /** Between jobs. */
    ghost predicate Valid() reads this {
      Accounted() && OneJobEach() && Reported() && !locked && Covered({})
    }

    constructor ()
      ensures Valid() && wanSyncs == map[] && lists == [] && finished == []
      ensures callers == multiset{} && waiting == multiset{} && submitted == multiset{}
    {
      submitted, ran := multiset{}, multiset{};
      wanSyncs, lists, callers, waiting := map[], [], multiset{}, multiset{};
      locked, finished, jobs, emitted := false, [], [], [];
    }

    /** LoadOrStore: nothing is stored while a list of the WanSync is queued. */
    method AddWanSyncRequests(ws: WanSync, wsrs: seq<Request>)
      requires Accounted()
      modifies `wanSyncs, `lists, `callers, `submitted
      ensures Accounted() && callers == old(callers) + multiset{ws} && submitted == old(submitted) + multiset{ws}
      ensures old(lists) <= lists
      ensures if ws in old(wanSyncs) then wanSyncs == old(wanSyncs) && lists == old(lists)
              else lists == old(lists) + [List(ws, wsrs)] && wanSyncs == old(wanSyncs)[ws := |old(lists)|]
    {
      if ws !in wanSyncs {
        wanSyncs, lists := wanSyncs[ws := |lists|], lists + [List(ws, wsrs)];
        forall id | 0 <= id < |lists| ensures id in finished || Queued(id) {
          if id == |lists| - 1 {
            assert wanSyncs[ws] == id;
          } else if id !in finished {
            var key :| key in old(wanSyncs) && old(wanSyncs)[key] == id;
            assert wanSyncs[key] == id;
          }
        }
      }
      callers, submitted := callers + multiset{ws}, submitted + multiset{ws};
    }

    /** The caller's second step: a new job goroutine waits for the mutex. */
    method StartSyncJob(ws: WanSync)
      requires ws in callers
      modifies `callers, `waiting
      ensures callers == old(callers) - multiset{ws} && waiting == old(waiting) + multiset{ws}
    {
      callers, waiting := callers - multiset{ws}, waiting + multiset{ws};
      assert ws in waiting;
    }

    /** Any number of adds and starts by other goroutines. */
    method Others(ghost taken: set<WanSync>)
      requires OneJobEach() && Accounted() && Covered(taken)
      modifies `wanSyncs, `lists, `callers, `waiting, `submitted
      ensures OneJobEach() && Accounted() && Covered(taken)
      ensures old(lists) <= lists && Keeps(old(wanSyncs), wanSyncs)
    {
      var rounds: nat := *;
      while rounds > 0
        invariant OneJobEach() && Accounted() && Covered(taken)
        invariant old(lists) <= lists && Keeps(old(wanSyncs), wanSyncs)
      {
        var ws: WanSync := *;
        var wsrs: seq<Request> := *;
        var start: bool := *;
        if ws in callers && start {
          StartSyncJob(ws);
          assert ws in waiting;
        } else {
          AddWanSyncRequests(ws, wsrs);
          assert ws in callers;
        }
        rounds := rounds - 1;
      }
    }

    /** One request: a Started event, and an event that closes it whatever happens, an error
        when the request could not be sent. */
    method ProcessRequest(id: nat, i: nat, job: WanSync, ghost taken: set<WanSync>)
      returns (closing: McPolling.EventType, sent: bool)
      requires OneJobEach() && Accounted() && Covered(taken)
      modifies `wanSyncs, `lists, `callers, `waiting, `submitted, `emitted
      ensures OneJobEach() && Accounted() && Covered(taken) && old(lists) <= lists && Keeps(old(wanSyncs), wanSyncs)
      ensures emitted == old(emitted) + Pair(id, i, job, closing) && !McPolling.IsInProgress(closing)
      ensures !sent ==> McPolling.IsError(closing)
    {
      emitted := emitted + [Emission(id, i, job, Started)];
      Others(taken);
      closing, sent := SendAndWait();
      emitted := emitted + [Emission(id, i, job, Closing(closing))];
      Others(taken);
    }

    /** Connects, sends the request and waits for the event that ends it. */
    method SendAndWait() returns (closing: McPolling.EventType, sent: bool)
      ensures !McPolling.IsInProgress(closing) && (!sent ==> McPolling.IsError(closing))
    {
      var connected: bool := *;
      var accepted: bool := *;
      sent := connected && accepted;
      if !connected {
        closing := McPolling.WanSyncIgnored;
      } else if !accepted {
        closing := McPolling.WanSyncIgnored;
      } else {
        var finish := SomeFinishEvent();
        closing := finish.kind;
      }
    }

    /** The requests of one queued list, one after the other, through the job's own callback. */
    method DoStartSyncJob(id: nat, wsrs: seq<Request>, job: WanSync, ghost taken: set<WanSync>) returns (ghost b: seq<Emission>)
      requires OneJobEach() && Accounted() && Covered(taken)
      modifies `wanSyncs, `lists, `callers, `waiting, `submitted, `emitted
      ensures OneJobEach() && Accounted() && Covered(taken) && old(lists) <= lists && Keeps(old(wanSyncs), wanSyncs)
      ensures IsBlock(b, id, job) && |b| == 2 * |wsrs| && emitted == old(emitted) + b
    {
      b := [];
      for i := 0 to |wsrs|
        invariant OneJobEach() && Accounted() && Covered(taken) && old(lists) <= lists && Keeps(old(wanSyncs), wanSyncs)
        invariant IsBlock(b, id, job) && |b| == 2 * i && emitted == old(emitted) + b
      {
        var closing, sent := ProcessRequest(id, i, job, taken);
        PairExtends(b, id, i, job, closing);
        assert old(emitted) + b + Pair(id, i, job, closing) == old(emitted) + (b + Pair(id, i, job, closing));
        b := b + Pair(id, i, job, closing);
      }
    }

    /** What Range does with one key: process its list, then delete the key. */
    method VisitKey(key: WanSync, job: WanSync, ghost taken: set<WanSync>)
      requires OneJobEach() && Accounted() && Covered(taken) && key in wanSyncs && Reported()
      modifies `wanSyncs, `lists, `callers, `waiting, `submitted, `emitted, `finished, `jobs
      ensures OneJobEach() && Accounted() && Covered(taken - {key}) && Reported()
      ensures old(lists) <= lists && finished == old(finished) + [old(wanSyncs)[key]] && jobs == old(jobs) + [job]
      ensures forall k :: k in old(wanSyncs) && k != key ==> k in wanSyncs && wanSyncs[k] == old(wanSyncs)[k]
    {
      var id := wanSyncs[key];
      ghost var b := DoStartSyncJob(id, lists[id].requests, job, taken);
      BlocksLater(old(emitted), finished, jobs, old(lists), lists);
      BlockCompletes(old(emitted), b, finished, jobs, lists, id, job);
      Delete(key);
      jobs := jobs + [job];
    }

    method Delete(key: WanSync)
      requires Accounted() && key in wanSyncs
      modifies `wanSyncs, `finished
      ensures Accounted() && wanSyncs == old(wanSyncs) - {key} && finished == old(finished) + [old(wanSyncs)[key]]
    {
      var id := wanSyncs[key];
      FinishedOnce(finished, id);
      wanSyncs, finished := wanSyncs - {key}, finished + [id];
      forall k | 0 <= k < |lists| ensures k in finished || Queued(k) {
        if k !in finished {
          var other :| other in old(wanSyncs) && old(wanSyncs)[other] == k;
          assert other in wanSyncs && wanSyncs[other] == k;
        }
      }
    }

    /** Range visits every key that is queued when it starts, may visit keys added
        meanwhile, and visits no key twice. */
    method Range(job: WanSync)
      requires locked && OneJobEach() && Accounted() && Reported()
      modifies `wanSyncs, `lists, `callers, `waiting, `submitted, `emitted, `finished, `jobs
      ensures OneJobEach() && Accounted() && Reported() && Covered({})
      ensures old(lists) <= lists && old(finished) <= finished && old(jobs) <= jobs
      ensures AllBy(jobs, |old(finished)|, job)
      ensures forall key :: key in old(wanSyncs) ==> old(wanSyncs)[key] in finished
    {
      DrainedNothing(finished, jobs, job);
      var todo := wanSyncs.Keys;
      var visited: set<WanSync> := {};
      var extra: nat := *;
      while todo != {} || extra > 0
        invariant OneJobEach() && Accounted() && Covered(todo) && Reported()
        invariant todo !! visited && forall key :: key in todo ==> key in wanSyncs
        invariant old(lists) <= lists && Drained(old(finished), finished, old(jobs), jobs, job)
        invariant Visited(old(wanSyncs), wanSyncs, todo, finished)
        decreases |todo| + extra
      {
        var key := NextKey(wanSyncs, todo, visited, extra);
        if key.None? { break; }
        if key.value !in todo { extra := extra - 1; }
        visited := visited + {key.value};
        ghost var before, done, doneBy := wanSyncs, finished, jobs;
        VisitKey(key.value, job, todo);
        VisitedStep(old(wanSyncs), before, wanSyncs, todo, key.value, done);
        DrainedStep(old(finished), done, finished, old(jobs), doneBy, jobs, job);
        todo := todo - {key.value};
      }
    }

    /** The job of WanSync `job` gets the mutex. */
    method RunJob(job: WanSync)
      requires Valid() && job in waiting
      modifies this
      ensures Valid() && old(lists) <= lists && old(finished) <= finished && old(jobs) <= jobs
      ensures AllBy(jobs, |old(finished)|, job)
      ensures forall key :: key in old(wanSyncs) ==> old(wanSyncs)[key] in finished
      ensures ran == old(ran) + multiset{job}
    {
      locked := true;
      waiting, ran := waiting - multiset{job}, ran + multiset{job};
      Range(job);
      locked := false;
    }
  }

  /** Any interleaving of adds, starts and jobs.  When every caller has started its job and
      every job has returned, each add has had one job, and the lists ever stored are exactly the finished ones, each
      finished once, one at a time, with one Started and then one closing event per request. */
  method Run(steps: nat) returns (s: WanSyncService)
    ensures fresh(s) && NoDuplicates(s.finished) && IsBlocks(s.emitted, s.finished, s.jobs, s.lists)
    ensures s.callers == multiset{} && s.waiting == multiset{} ==>
              s.ran == s.submitted && s.wanSyncs == map[] && forall id :: id in s.finished <==> 0 <= id < |s.lists|
  {
    s := new WanSyncService();
    for i := 0 to steps
      invariant fresh(s) && s.Valid()
    {
      var job: WanSync := *;
      if job in s.waiting {
        s.RunJob(job);
      } else {
        ghost var lists := s.lists;
        s.Others({});
        BlocksLater(s.emitted, s.finished, s.jobs, lists, s.lists);
      }
    }
    if s.callers == multiset{} && s.waiting == multiset{} {
      assert forall key :: key !in s.wanSyncs;
      assert s.wanSyncs == map[];
    }
  }

  /** The run in which events go to another WanSync: both queue their lists, and the job of the
      second gets the mutex first.  Every event of the first one's list is written to the second. */
  method ReportedToAnother(first: WanSync, second: WanSync, wsrs: seq<Request>, others: seq<Request>)
    returns (s: WanSyncService, ghost p: nat)
    requires first != second && wsrs != []
    ensures fresh(s) && s.Valid() && |s.lists| > 0 && s.lists[0] == List(first, wsrs) && p < |s.emitted|
    ensures s.emitted[p].list == 0 && s.emitted[p].kind == Started
    ensures forall q :: 0 <= q < |s.emitted| && s.emitted[q].list == 0 ==> s.emitted[q].reporter == second
  {
    s := BothQueued(first, second, wsrs, others);
    assert first in s.wanSyncs && s.wanSyncs[first] == 0;
    s.RunJob(second);
    assert 0 in s.finished && s.lists[0] == List(first, wsrs);
    p := EachRequestOnce(s.emitted, s.finished, s.jobs, s.lists, 0, 0);
    forall q | 0 <= q < |s.emitted| ensures s.emitted[q].reporter == second {
      var k := DrainedBy(s.emitted, s.finished, s.jobs, s.lists, q);
    }
  }

  /** Two WanSyncs have queued their lists and started their jobs. */
  method BothQueued(first: WanSync, second: WanSync, wsrs: seq<Request>, others: seq<Request>) returns (s: WanSyncService)
    requires first != second
    ensures fresh(s) && s.Valid() && s.lists == [List(first, wsrs), List(second, others)] && s.finished == []
    ensures s.wanSyncs == map[first := 0, second := 1] && second in s.waiting
  {
    s := new WanSyncService();
    QueueAndStart(s, first, wsrs);
    QueueAndStart(s, second, others);
  }

  /** A reconcile of a WanSync that is not queued. */
  method QueueAndStart(s: WanSyncService, ws: WanSync, wsrs: seq<Request>)
    requires s.Valid() && ws !in s.wanSyncs
    modifies s
    ensures s.Valid() && s.finished == old(s.finished) && s.lists == old(s.lists) + [List(ws, wsrs)]
    ensures s.wanSyncs == old(s.wanSyncs)[ws := |old(s.lists)|] && ws in s.waiting
  {
    s.AddWanSyncRequests(ws, wsrs);
    BlocksLater(s.emitted, s.finished, s.jobs, old(s.lists), s.lists);
    s.StartSyncJob(ws);
    assert ws in s.waiting;
  }
}
