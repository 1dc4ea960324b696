/** The WanReplication reconciler over whole runs.  One object holds the API server's
    WanReplication and Map resources together with the copy the reconciler works on.
    Every call may be preceded by interference, may be refused, and may take effect
    without its answer arriving; reads may be outdated.  The log records every write to
    the server and every effect on the cluster; a resource version is the position in
    the log of the write that made it. */
module WanLifecycle {
  import opened Wrappers
  import opened Environment
  import opened WanKeys
  import opened WanConfig

  /** What an environment grants: that a call is answered, and that nobody else writes the resource
      between a read and the status write based on it. */
  datatype Call = Answers | SoleWriter

  type Environ = Env<Call>

  datatype MapState = MapSuccess | MapTerminating | MapOther

  datatype MapObject = MapObject(version: nat, name: string, hz: string, mapName: string,
                                 wanFinalizer: bool, ownedByWan: bool, state: MapState)

  datatype WanObject = WanObject(version: nat, spec: WanSpec, entries: map<string, Entry>, status: WanStatus,
                                 lastSuccessful: Option<WanSpec>, deleting: bool, finalizer: bool)

  /** The resources of the server and the reconciler's copy at one moment. */
  datatype Snapshot = Snapshot(stored: WanObject, maps: map<string, MapObject>, wan: WanObject)

  datatype Event =
    | WanWritten                                            // metadata or spec of the WanReplication
    | Annotated(over: map<string, Entry>)                   // ... including its last-successful annotation
    | Stored(entries: map<string, Entry>)                   // its status
    | MapWritten(o: MapObject)
    | FinalizerRemoved(o: MapObject)                        // a map written without the WAN finalizer it had
    | Added(publisherId: string)
    | StopListed(publisherId: string, members: seq<string>)
    | StopAck(publisherId: string, member: string)
    | ClearListed(publisherId: string, members: seq<string>)
    | ClearAck(publisherId: string, member: string)
    | ConfigRead(spec: WanSpec, configs: map<string, WanSection>)

  // ---------- What a run must satisfy ----------

  /** How far a publisher has been shut down: the members listed by the last stop call that
      have not acknowledged it, then those listed by the clear call after a complete stop,
      then the status table stored since the queues were cleared. */
  datatype Phase = Running | Stopping(left: set<string>) | Clearing(left: set<string>) | Closed(entries: map<string, Entry>)

  function PhaseStep(phase: Phase, e: Event, id: string): Phase {
    match e
    case Added(p) => if p == id then Running else phase
    case StopListed(p, ms) => if p == id then Stopping(set m | m in ms) else phase
    case StopAck(p, m) => if p == id && phase.Stopping? then Stopping(phase.left - {m}) else phase
    case ClearListed(p, ms) =>
      if p != id then phase else if phase == Stopping({}) then Clearing(set m | m in ms) else Running
    case ClearAck(p, m) => if p == id && phase.Clearing? then Clearing(phase.left - {m}) else phase
    case Stored(entries) => if phase == Clearing({}) || phase.Closed? then Closed(entries) else phase
    case _ => phase
  }

  function PhaseOf(log: seq<Event>, id: string): Phase {
    if log == [] then Running else PhaseStep(PhaseOf(log[..|log| - 1], id), log[|log| - 1], id)
  }

  /** The publisher was stopped and then cleared on every member listed at those calls, was not
      added again, and the status stored since has the entry of `key` as Terminating. */
  ghost predicate MayRelease(log: seq<Event>, key: string) {
    exists id :: Released(PhaseOf(log, id), key, id)
  }

  predicate Released(phase: Phase, key: string, id: string) {
    phase.Closed? && key in phase.entries &&
    phase.entries[key].status == Terminating && phase.entries[key].publisherId == id
  }

  ghost predicate AllSuccess(entries: map<string, Entry>) {
    entries != map[] && forall key :: key in entries ==> entries[key].status == Success
  }

  ghost predicate ConfirmedBy(e: Event, key: string, publisherId: string) {
    e.ConfigRead? && Confirms(e.configs, e.spec, key, publisherId)
  }

  /** The entry's publisher was found in the clusters' configuration at some point of the run. */
  ghost predicate WasConfirmed(log: seq<Event>, key: string, publisherId: string) {
    log != [] && (ConfirmedBy(log[|log| - 1], key, publisherId) || WasConfirmed(log[..|log| - 1], key, publisherId))
  }

  ghost predicate EntryOk(name: string, key: string, e: Entry, log: seq<Event>) {
    && FindSep(key, 0) != -1
    && (e.publisherId != "" ==> e.publisherId == PublisherId(name, key))
    && (e.status in {Persisting, Success, Terminating} ==> e.publisherId != "")
    && (e.status == Success ==> WasConfirmed(log, key, e.publisherId))
  }

  ghost predicate EntriesOk(name: string, entries: map<string, Entry>, log: seq<Event>) {
    forall key :: key in entries ==> EntryOk(name, key, entries[key], log)
  }

  /** The status table the server has after `log`. */
  function StoredIn(log: seq<Event>): map<string, Entry> {
    if log == [] then map[]
    else if log[|log| - 1].Stored? then log[|log| - 1].entries
    else StoredIn(log[..|log| - 1])
  }

  /** A Terminating entry stays as it is or is deleted. */
  predicate KeepsTerminating(before: map<string, Entry>, after: map<string, Entry>) {
    forall key :: key in before && before[key].status == Terminating && key in after ==>
      after[key].status == Terminating && after[key].publisherId == before[key].publisherId
  }

  /** What every event of a run must satisfy, given the events before it. */
  ghost predicate EventOk(name: string, log: seq<Event>, e: Event) {
    match e
    case FinalizerRemoved(o) => MayRelease(log, WanMapKey(o.hz, o.mapName))
    case Annotated(over) => over == StoredIn(log) && AllSuccess(over)
    case Stored(entries) => KeepsTerminating(StoredIn(log), entries) && EntriesOk(name, entries, log)
    case _ => true
  }

  ghost predicate LogOk(name: string, log: seq<Event>) {
    log != [] ==> LogOk(name, log[..|log| - 1]) && EventOk(name, log[..|log| - 1], log[|log| - 1])
  }

  // ---------- Consequences for a run ----------

  lemma {:induction false} LogOkEverywhere(name: string, log: seq<Event>, i: nat)
    requires LogOk(name, log) && i < |log|
    ensures EventOk(name, log[..i], log[i])
    decreases |log|
  {
    var n := |log| - 1;
    if i < n {
      LogOkEverywhere(name, log[..n], i);
      assert log[..n][..i] == log[..i];
    }
  }

  /** In `log` the publisher was stopped on every member listed at log[a], then its queue
      was cleared on every member listed at log[b], then at log[c] a status was stored;
      the publisher was not added again and `entries` is the last status stored since. */
  ghost predicate StoppedClearedStored(log: seq<Event>, id: string, a: nat, b: nat, c: nat) {
    && a < b < c < |log|
    && log[a].StopListed? && log[a].publisherId == id
    && (forall m :: m in log[a].members ==> StopAck(id, m) in log[a..b])
    && log[b].ClearListed? && log[b].publisherId == id
    && (forall m :: m in log[b].members ==> ClearAck(id, m) in log[b..c])
    && log[c].Stored?
    && (forall i :: a <= i < |log| ==> log[i] != Added(id))
  }

  /** A WAN finalizer leaves a map only after this happened, in this order; at that moment the
      stored entry of the map is Terminating. */
  lemma FinalizerRemovedOnlyAfterStop(name: string, log: seq<Event>, i: nat)
    returns (id: string, a: nat, b: nat, c: nat)
    requires LogOk(name, log) && i < |log| && log[i].FinalizerRemoved?
    ensures StoppedClearedStored(log[..i], id, a, b, c)
    ensures var key := WanMapKey(log[i].o.hz, log[i].o.mapName);
            && key in StoredIn(log[..i])
            && StoredIn(log[..i])[key].status == Terminating
            && StoredIn(log[..i])[key].publisherId == id
  {
    LogOkEverywhere(name, log, i);
    var key := WanMapKey(log[i].o.hz, log[i].o.mapName);
    id :| Released(PhaseOf(log[..i], id), key, id);
    a, b, c := ClosedPositions(log[..i], id);
  }

  /** The positions behind a Stopping phase. */
  lemma {:induction false} StoppingPosition(log: seq<Event>, id: string) returns (a: nat)
    requires PhaseOf(log, id).Stopping?
    ensures a < |log| && log[a].StopListed? && log[a].publisherId == id
    ensures forall m :: m in log[a].members && m !in PhaseOf(log, id).left ==> StopAck(id, m) in log[a..]
    ensures forall i :: a <= i < |log| ==> log[i] != Added(id)
    decreases |log|
  {
    var n := |log| - 1;
    if log[n].StopListed? && log[n].publisherId == id {
      a := n;
    } else {
      a := StoppingPosition(log[..n], id);
      assert log[a..] == log[..n][a..] + [log[n]];
    }
  }

  lemma {:induction false} ClearingPositions(log: seq<Event>, id: string) returns (a: nat, b: nat)
    requires PhaseOf(log, id).Clearing?
    ensures a < b < |log| && log[a].StopListed? && log[a].publisherId == id
    ensures forall m :: m in log[a].members ==> StopAck(id, m) in log[a..b]
    ensures log[b].ClearListed? && log[b].publisherId == id
    ensures forall m :: m in log[b].members && m !in PhaseOf(log, id).left ==> ClearAck(id, m) in log[b..]
    ensures forall i :: a <= i < |log| ==> log[i] != Added(id)
    decreases |log|
  {
    var n := |log| - 1;
    if log[n].ClearListed? && log[n].publisherId == id {
      a := StoppingPosition(log[..n], id);
      b := n;
      assert log[a..b] == log[..n][a..];
    } else {
      a, b := ClearingPositions(log[..n], id);
      assert log[a..b] == log[..n][a..b] && log[b..] == log[..n][b..] + [log[n]];
    }
  }

  lemma {:induction false} ClosedPositions(log: seq<Event>, id: string) returns (a: nat, b: nat, c: nat)
    requires PhaseOf(log, id).Closed?
    ensures StoppedClearedStored(log, id, a, b, c)
    ensures PhaseOf(log, id).entries == StoredIn(log)
    decreases |log|
  {
    var n := |log| - 1;
    if PhaseOf(log[..n], id) == Clearing({}) {
      a, b := ClearingPositions(log[..n], id);
      c := n;
      assert log[a..b] == log[..n][a..b] && log[b..c] == log[..n][b..];
    } else {
      a, b, c := ClosedPositions(log[..n], id);
      assert log[a..b] == log[..n][a..b] && log[b..c] == log[..n][b..c];
    }
  }

  /** Over any stretch of a run during which the entry is there, a Terminating entry stays
      Terminating with the same publisher. */
  lemma {:induction false} TerminatingPersists(name: string, log: seq<Event>, i: nat, j: nat, key: string)
    requires LogOk(name, log) && i <= j <= |log|
    requires forall k :: i <= k <= j ==> key in StoredIn(log[..k])
    requires StoredIn(log[..i])[key].status == Terminating
    ensures StoredIn(log[..j])[key].status == Terminating
    ensures StoredIn(log[..j])[key].publisherId == StoredIn(log[..i])[key].publisherId
    decreases j - i
  {
    if i < j {
      TerminatingPersists(name, log, i, j - 1, key);
      assert log[..j][..j - 1] == log[..j - 1];
      LogOkEverywhere(name, log, j - 1);
    }
  }

  /** An entry whose map was released stays Terminating, with the publisher that was
      stopped and cleared, until it is deleted. */
  lemma ReleasedStaysTerminating(name: string, log: seq<Event>, i: nat, j: nat)
    requires LogOk(name, log) && i < j <= |log| && log[i].FinalizerRemoved?
    requires forall k :: i <= k <= j ==> WanMapKey(log[i].o.hz, log[i].o.mapName) in StoredIn(log[..k])
    ensures var e := StoredIn(log[..j])[WanMapKey(log[i].o.hz, log[i].o.mapName)];
            e.status == Terminating && exists a, b, c :: StoppedClearedStored(log[..i], e.publisherId, a, b, c)
  {
    var id, a, b, c := FinalizerRemovedOnlyAfterStop(name, log, i);
    TerminatingPersists(name, log, i, j, WanMapKey(log[i].o.hz, log[i].o.mapName));
  }

  lemma {:induction false} WasConfirmedLater(log: seq<Event>, log': seq<Event>, key: string, publisherId: string)
    requires WasConfirmed(log, key, publisherId) && log <= log'
    ensures WasConfirmed(log', key, publisherId)
    decreases |log'|
  {
    if log != log' {
      assert log <= log'[..|log'| - 1];
      WasConfirmedLater(log, log'[..|log'| - 1], key, publisherId);
    }
  }

  lemma EntriesOkLater(name: string, entries: map<string, Entry>, log: seq<Event>, log': seq<Event>)
    requires EntriesOk(name, entries, log) && log <= log'
    ensures EntriesOk(name, entries, log')
  {
    forall key | key in entries ensures EntryOk(name, key, entries[key], log') {
      assert EntryOk(name, key, entries[key], log);
      if entries[key].status == Success {
        WasConfirmedLater(log, log', key, entries[key].publisherId);
      }
    }
  }

  /** At every point of a run every stored entry is well formed, and a Success entry was found
      in the configuration before, under its publisher id. */
  lemma {:induction false} StoredEntriesOk(name: string, log: seq<Event>)
    requires LogOk(name, log)
    ensures EntriesOk(name, StoredIn(log), log)
    decreases |log|
  {
    if log != [] {
      var n := |log| - 1;
      if log[n].Stored? {
        EntriesOkLater(name, log[n].entries, log[..n], log);
      } else {
        StoredEntriesOk(name, log[..n]);
        EntriesOkLater(name, StoredIn(log), log[..n], log);
      }
    }
  }

  lemma {:induction false} LogOkPrefix(name: string, log: seq<Event>, k: nat)
    requires LogOk(name, log) && k <= |log|
    ensures LogOk(name, log[..k])
    decreases |log|
  {
    if k < |log| {
      LogOkPrefix(name, log[..|log| - 1], k);
      assert log[..|log| - 1][..k] == log[..k];
    } else {
      assert log[..k] == log;
    }
  }

  lemma StoredEntriesOkEarlier(name: string, log: seq<Event>, k: nat)
    requires LogOk(name, log) && k <= |log|
    ensures EntriesOk(name, StoredIn(log[..k]), log)
  {
    LogOkPrefix(name, log, k);
    StoredEntriesOk(name, log[..k]);
    EntriesOkLater(name, StoredIn(log[..k]), log[..k], log);
  }

  lemma ReleaseUnchanged(log: seq<Event>, log': seq<Event>, key: string)
    requires MayRelease(log, key)
    requires forall id :: PhaseOf(log', id) == PhaseOf(log, id)
    ensures MayRelease(log', key)
  {
    var id :| Released(PhaseOf(log, id), key, id);
    assert Released(PhaseOf(log', id), key, id);
  }

  // ---------- Copies ----------

  /** o is a possibly outdated copy of a map the server stored: versions identify contents. */
  predicate CopyOf(o: MapObject, log: seq<Event>) {
    o.version < |log| && (log[o.version] == MapWritten(o) || log[o.version] == FinalizerRemoved(o))
  }

  /** The maps of a WanReplication grouped by cluster. */
  type Groups = map<string, seq<MapObject>>

  ghost predicate GroupsOk(groups: Groups, log: seq<Event>) {
    forall hz, i :: hz in groups && 0 <= i < |groups[hz]| ==>
      CopyOf(groups[hz][i], log) && groups[hz][i].hz == hz
  }

  /** A version of the map of `key` was stored with the WAN finalizer. */
  ghost predicate HeldBy(log: seq<Event>, key: string, o: MapObject) {
    CopyOf(o, log) && o.wanFinalizer && FindSep(key, 0) != -1 && SplitWanMapKey(key) == (o.hz, o.mapName)
  }

  /** So it is for every entry with a publisher, except those in `todo`. */
  ghost predicate AllHeld(log: seq<Event>, entries: map<string, Entry>, todo: set<string>) {
    forall key :: key in entries && key !in todo && entries[key].publisherId != "" ==> exists o :: HeldBy(log, key, o)
  }

  lemma AllHeldStep(log: seq<Event>, log': seq<Event>, entries: map<string, Entry>, todo: set<string>, key: string, o: MapObject)
    requires AllHeld(log, entries, todo) && log <= log' && HeldBy(log', key, o)
    ensures AllHeld(log', entries, todo - {key})
  {
    forall k | k in entries && k !in todo - {key} && entries[k].publisherId != ""
      ensures exists o :: HeldBy(log', k, o)
    {
      if k != key {
        var h :| HeldBy(log, k, h);
        assert HeldBy(log', k, h);
      }
    }
  }

  /** The first i members have acknowledged; only listed members are waited for. */
  predicate Acknowledged(left: set<string>, members: seq<string>, i: nat)
    requires i <= |members|
  {
    (forall m :: m in left ==> m in members) && (forall k :: 0 <= k < i ==> members[k] !in left)
  }

  datatype ReadResult = Found(o: MapObject) | NotFound | ReadError

  datatype Applier = ToFailed(message: string) | ToPersisting(publisherId: string, resourceName: string) | ToSuccess

  function Apply(a: Applier, e: Entry): Entry {
    match a
    case ToFailed(m) => e.(status := Failed, message := m)
    case ToPersisting(p, r) => Entry(r, p, Persisting, "")
    case ToSuccess => e.(status := Success)
  }

  const NEW_ENTRY := Entry("", "", Unset, "")

  function EntryAt(entries: map<string, Entry>, key: string): Entry {
    if key in entries then entries[key] else NEW_ENTRY
  }

  /** The changes a reconcile asks patchWanMapStatuses for. */
  ghost predicate Admissible(name: string, key: string, a: Applier, e: Entry, log: seq<Event>) {
    match a
    case ToFailed(_) => FindSep(key, 0) != -1 && e.publisherId == ""
    case ToPersisting(p, _) => FindSep(key, 0) != -1 && e.publisherId == "" && p == PublisherId(name, key)
    case ToSuccess => e.status == Persisting && WasConfirmed(log, key, e.publisherId)
  }

  /** No entry is left for the terminating ones of the first n maps. */
  ghost predicate StoppedFor(list: seq<MapObject>, n: nat, entries: map<string, Entry>) {
    n <= |list| && forall i :: 0 <= i < n && list[i].state == MapTerminating ==> WanMapKey(list[i].hz, list[i].mapName) !in entries
  }

  /** Every ready one of the first n maps has an entry, or gets one. */
  ghost predicate StartedFor(hz: string, list: seq<MapObject>, n: nat, entries: set<string>) {
    n <= |list| && forall i :: 0 <= i < n && list[i].state == MapSuccess ==> WanMapKey(hz, list[i].mapName) in entries
  }

  lemma StartedForMore(hz: string, list: seq<MapObject>, entries: set<string>, more: set<string>)
    requires StartedFor(hz, list, |list|, entries) && entries <= more
    ensures StartedFor(hz, list, |list|, more)
  {
  }

  ghost predicate LosesOnlyTerminating(before: map<string, Entry>, after: map<string, Entry>) {
    && (forall key :: key in after ==> key in before && after[key] == before[key])
    && (forall key :: key in before && key !in after ==> before[key].status == Terminating && before[key].publisherId != "")
  }

  /** The changes a start asks for: only for entries without publisher. */
  ghost predicate Requested(name: string, options: map<string, Applier>, entries: map<string, Entry>) {
    forall key :: key in options ==>
      !options[key].ToSuccess? && Admissible(name, key, options[key], EntryAt(entries, key), [])
  }

  ghost predicate KeepsPublished(before: map<string, Entry>, after: map<string, Entry>) {
    forall key :: key in before && before[key].publisherId != "" ==> key in after && after[key] == before[key]
  }

  lemma RequestsApplied(name: string, groups: Groups, before: map<string, Entry>, after: map<string, Entry>, options: map<string, Applier>)
    requires Requested(name, options, before) && Applied(before, after, options, {}) && AllFromGroups(name, groups, options)
    ensures KeepsPublished(before, after) && StartedFromGroups(name, groups, before, after)
    ensures PublishedKeys(before) + options.Keys <= SettledKeys(after)
    ensures AllPersisting(options) ==> PublishedKeys(before) + options.Keys <= PublishedKeys(after)
  {
    forall key | key in after && !(key in before && after[key] == before[key])
      ensures exists a :: FromGroups(name, groups, key, a) && after[key] == Apply(a, EntryAt(before, key))
    {
      assert FromGroups(name, groups, key, options[key]) && after[key] == Apply(options[key], EntryAt(before, key));
    }
    forall key | key in options && options[key].ToPersisting? ensures after[key].publisherId != "" {
      assert Admissible(name, key, options[key], EntryAt(before, key), []);
    }
  }

  /** The first map of each name. */
  method RemoveDuplicate(list: seq<MapObject>) returns (r: seq<MapObject>)
    ensures Deduplicated(list, r)
  {
    var seen: set<string> := {};
    r := [];
    for i := 0 to |list|
      invariant forall k :: 0 <= k < |r| ==> r[k].name in seen
      invariant forall n :: n in seen ==> HasName(r, n)
      invariant NamesDistinct(r)
      invariant forall m :: m in r ==> m in list
      invariant forall k :: 0 <= k < i ==> list[k].name in seen
    {
      if list[i].name !in seen {
        seen := seen + {list[i].name};
        ghost var before := r;
        r := r + [list[i]];
        assert r[|r| - 1].name == list[i].name;
        assert forall k :: 0 <= k < |before| ==> r[k] == before[k];
      }
    }
  }

  /** The first map of a slice with the given map name. */
  method FindMapInSlice(slice: seq<MapObject>, mapName: string) returns (found: bool, i: nat)
    ensures found ==> i < |slice| && slice[i].mapName == mapName && forall k :: 0 <= k < i ==> slice[k].mapName != mapName
    ensures !found ==> forall k :: 0 <= k < |slice| ==> slice[k].mapName != mapName
  {
    i := 0;
    while i < |slice|
      invariant i <= |slice| && forall k :: 0 <= k < i ==> slice[k].mapName != mapName
    {
      if slice[i].mapName == mapName { return true, i; }
      i := i + 1;
    }
    return false, 0;
  }

  lemma GroupsOkLater(groups: Groups, log: seq<Event>, log': seq<Event>)
    requires GroupsOk(groups, log) && log <= log'
    ensures GroupsOk(groups, log')
  {
  }

  function Patched(entries: map<string, Entry>, key: string, a: Applier): map<string, Entry> {
    entries[key := Apply(a, EntryAt(entries, key))]
  }

  /** entries is `before` with the requested changes applied, except those of the keys in `todo`. */
  ghost predicate Applied(before: map<string, Entry>, entries: map<string, Entry>, options: map<string, Applier>, todo: set<string>) {
    && (forall key :: key in entries <==> key in before || (key in options && key !in todo))
    && (forall key :: key in entries && key in options && key !in todo ==>
          entries[key] == Apply(options[key], EntryAt(before, key)))
    && (forall key :: key in before && (key in options ==> key in todo) ==> entries[key] == before[key])
  }

  lemma AppliedStep(before: map<string, Entry>, entries: map<string, Entry>, options: map<string, Applier>,
                    todo: set<string>, key: string)
    requires Applied(before, entries, options, todo)
    requires key in options && key in todo
    ensures Applied(before, Patched(entries, key, options[key]), options, todo - {key})
  {
    assert EntryAt(entries, key) == EntryAt(before, key);
  }

  /** Admissible changes keep the table well formed and its Terminating entries. */
  lemma AppliedKeeps(name: string, before: map<string, Entry>, entries: map<string, Entry>,
                     options: map<string, Applier>, log: seq<Event>)
    requires EntriesOk(name, before, log) && Applied(before, entries, options, {})
    requires forall key :: key in options ==> Admissible(name, key, options[key], EntryAt(before, key), log)
    ensures EntriesOk(name, entries, log) && KeepsTerminating(before, entries)
  {
    forall key | key in entries
      ensures EntryOk(name, key, entries[key], log)
      ensures key in before && before[key].status == Terminating ==> entries[key] == before[key] || entries[key].status == Terminating
    {
      if key in before { assert EntryOk(name, key, before[key], log); }
      if key in options { assert Admissible(name, key, options[key], EntryAt(before, key), log); }
    }
  }

  /** The loop of patchWanMapStatuses, over the requested changes in any order. */
  method ApplyAll(before: map<string, Entry>, options: map<string, Applier>) returns (entries: map<string, Entry>)
    ensures Applied(before, entries, options, {})
  {
    entries := before;
    var todo := options.Keys;
    while todo != {}
      invariant todo <= options.Keys
      invariant Applied(before, entries, options, todo)
      decreases |todo|
    {
      var key :| key in todo;
      AppliedStep(before, entries, options, todo, key);
      entries := Patched(entries, key, options[key]);
      todo := todo - {key};
    }
  }

  /** What a validation against these configurations makes of the table: exactly entries that
      were Persisting and are confirmed become Success. */
  ghost predicate Validated(before: map<string, Entry>, after: map<string, Entry>, spec: WanSpec, configs: map<string, WanSection>) {
    && (forall key :: key in after <==> key in before)
    && (forall key :: key in before && after[key] != before[key] ==>
          && before[key].status == Persisting && Confirms(configs, spec, key, before[key].publisherId)
          && after[key] == before[key].(status := Success))
    && (SectionsDistinct(configs) ==>
          forall key :: key in before && before[key].status == Persisting && Confirms(configs, spec, key, before[key].publisherId) ==>
            after[key].status == Success)
  }

  predicate ReadSecrets(configs: map<string, WanSection>, secrets: map<string, WanSection>) {
    forall hz :: hz in configs && hz in secrets ==> configs[hz] == secrets[hz]
  }

  /** The changes a validation asks for, right after the configurations were read. */
  method ConfirmedOptions(name: string, entries: map<string, Entry>, spec: WanSpec,
                          configs: map<string, WanSection>, ghost log: seq<Event>)
    returns (options: map<string, Applier>)
    requires log != [] && log[|log| - 1] == ConfigRead(spec, configs)
    ensures forall key :: key in options ==> Admissible(name, key, options[key], EntryAt(entries, key), log)
    ensures Confirming(entries, spec, configs, options)
  {
    var confirmed := ConfirmedEntries(entries, spec, configs);
    forall key | key in confirmed ensures WasConfirmed(log, key, entries[key].publisherId) {
      assert ConfirmedBy(log[|log| - 1], key, entries[key].publisherId);
    }
    options := map key | key in confirmed :: ToSuccess;
  }

  /** Success is asked for exactly the confirmed entries, where no two sections share a key. */
  ghost predicate Confirming(entries: map<string, Entry>, spec: WanSpec, configs: map<string, WanSection>, options: map<string, Applier>) {
    && (forall key :: key in options ==>
          options[key] == ToSuccess && key in entries && entries[key].status == Persisting &&
          Confirms(configs, spec, key, entries[key].publisherId))
    && (SectionsDistinct(configs) ==>
          forall key :: key in entries && entries[key].status == Persisting && Confirms(configs, spec, key, entries[key].publisherId) ==>
            key in options)
  }

  lemma {:induction false} ConfirmingValidates(before: map<string, Entry>, after: map<string, Entry>, spec: WanSpec,
                            configs: map<string, WanSection>, options: map<string, Applier>)
    requires Confirming(before, spec, configs, options) && Applied(before, after, options, {})
    ensures Validated(before, after, spec, configs)
  {
    forall key | key in before
      ensures key in after && after[key] == if key in options then before[key].(status := Success) else before[key]
    {
      if key in options { assert after[key] == Apply(options[key], EntryAt(before, key)); }
    }
  }

  /** The table was validated against the configurations; when all entries are Success then, the
      specification is recorded as the last successful one, and nothing else has changed. */
  ghost predicate ConfirmedBySecrets(before: WanObject, after: WanObject, configs: map<string, WanSection>) {
    && Validated(before.entries, after.entries, before.spec, configs)
    && (AllSuccess(after.entries) <==> after.status == Success)
    && after == before.(version := after.version, entries := after.entries, status := after.status,
                        lastSuccessful := if AllSuccess(after.entries) then Some(before.spec) else before.lastSuccessful)
  }

  lemma ConfirmedFrom(before: WanObject, before': WanObject, after: WanObject, configs: map<string, WanSection>)
    requires ConfirmedBySecrets(before', after, configs) && before' == before.(version := before'.version, status := before'.status)
    ensures ConfirmedBySecrets(before, after, configs)
  {
  }

  /** The handshake within a run: configurations regenerated from the current statuses make
      every Persisting entry of their clusters a Success, unless its map name has "__" or
      another key is written under its section. */
  lemma {:induction false} ValidationCompletesHandshake(wrs: seq<WanReplication>, wr: WanReplication, after: map<string, Entry>,
                                     configs: map<string, WanSection>, hz: string, m: string)
    requires WellFormed(wrs) && wr in wrs && Validated(wr.entries, after, wr.spec, configs)
    requires hz in configs && '_' !in hz && Generated(hz, wrs, configs[hz]) && SectionsDistinct(configs)
    requires !HasSep(m) && !Shadowed(hz, wrs, m)
    requires WanMapKey(hz, m) in wr.entries && wr.entries[WanMapKey(hz, m)].status == Persisting
    ensures WanMapKey(hz, m) in after && after[WanMapKey(hz, m)].status == Success
  {
    var key := WanMapKey(hz, m);
    UnshadowedIsConfirmed(hz, wrs, configs[hz], wr, m);
    assert ConfirmedAt(configs, wr.spec, key, wr.entries[key].publisherId, hz, WanName(m));
  }

  /** Each map once. */
  ghost predicate NamesDistinct(list: seq<MapObject>) {
    forall i, j :: 0 <= i < j < |list| ==> list[i].name != list[j].name
  }

  ghost predicate Deduplicated(from: seq<MapObject>, list: seq<MapObject>) {
    && NamesDistinct(list)
    && (forall m :: m in list ==> m in from)
    && (forall m :: m in from ==> HasName(list, m.name))
  }

  ghost predicate HasName(list: seq<MapObject>, name: string) {
    exists k :: 0 <= k < |list| && list[k].name == name
  }

  /** The second loop of getMapsGroupByHazelcastName. */
  method DeduplicateAll(collected: Groups) returns (groups: Groups)
    ensures groups.Keys == collected.Keys
    ensures forall hz :: hz in groups ==> Deduplicated(collected[hz], groups[hz])
  {
    groups := map[];
    var todo := collected.Keys;
    while todo != {}
      invariant todo <= collected.Keys && groups.Keys == collected.Keys - todo
      invariant forall hz :: hz in groups ==> Deduplicated(collected[hz], groups[hz])
      decreases |todo|
    {
      var hz :| hz in todo;
      todo := todo - {hz};
      var list := RemoveDuplicate(collected[hz]);
      groups := groups[hz := list];
    }
  }

  /** How a resource of the spec was looked up: the map of that name, or those of the cluster
      among the maps the server listed. */
  datatype Lookup = OfMap(o: MapObject) | OfCluster(listed: map<string, MapObject>, found: seq<MapObject>)

  function FoundBy(l: Lookup): seq<MapObject> {
    if l.OfMap? then [l.o] else l.found
  }

  ghost predicate LookedUp(resource: ResourceSpec, l: Lookup) {
    match resource.kind
    case KindMap => l.OfMap? && l.o.name == resource.name
    case KindHazelcast => l.OfCluster? && IsSelection(l.listed, resource.name, l.found)
  }

  ghost predicate AllLookedUp(resources: seq<ResourceSpec>, lookups: seq<Lookup>) {
    |lookups| <= |resources| && forall i :: 0 <= i < |lookups| ==> LookedUp(resources[i], lookups[i])
  }

  lemma LookedUpStep(resources: seq<ResourceSpec>, lookups: seq<Lookup>, lookups': seq<Lookup>, maps: map<string, MapObject>)
    requires AllLookedUp(resources, lookups) && lookups <= lookups' && |lookups'| == |lookups| + 1 <= |resources|
    requires LookedUp(resources[|lookups|], lookups'[|lookups|])
    ensures AllLookedUp(resources, lookups')
    ensures LooksUp(resources, maps, lookups) && resources[|lookups|].name in maps && lookups'[|lookups|] == OfMap(maps[resources[|lookups|].name]) ==>
              LooksUp(resources, maps, lookups')
  {
    assert forall i :: 0 <= i < |lookups| ==> lookups'[i] == lookups[i];
  }

  /** Exactly the listed maps of the cluster. */
  ghost predicate IsSelection(listed: map<string, MapObject>, hz: string, found: seq<MapObject>) {
    forall m :: m in found <==> exists n :: n in listed && listed[n] == m && m.hz == hz
  }

  /** The groups hold exactly what was found, each map under its cluster. */
  ghost predicate Collected(groups: Groups, lookups: seq<Lookup>) {
    && (forall hz :: hz in groups ==> groups[hz] != [])
    && (forall i, m :: 0 <= i < |lookups| && m in FoundBy(lookups[i]) ==> m.hz in groups && m in groups[m.hz])
    && (forall hz, m :: hz in groups && m in groups[hz] ==> m.hz == hz && WasFound(lookups, m))
  }

  ghost predicate WasFound(lookups: seq<Lookup>, m: MapObject) {
    exists i :: 0 <= i < |lookups| && m in FoundBy(lookups[i])
  }

  function GroupOf(groups: Groups, hz: string): seq<MapObject> {
    if hz in groups then groups[hz] else []
  }

  /** A lookup that found nothing new, or only maps of one cluster that are appended to its group. */
  lemma CollectedStep(groups: Groups, groups': Groups, lookups: seq<Lookup>, hz: string, l: Lookup)
    requires Collected(groups, lookups) && forall m :: m in FoundBy(l) ==> m.hz == hz
    requires groups' == if FoundBy(l) == [] then groups else groups[hz := GroupOf(groups, hz) + FoundBy(l)]
    ensures Collected(groups', lookups + [l])
  {
    var lookups' := lookups + [l];
    forall i, m | 0 <= i < |lookups'| && m in FoundBy(lookups'[i]) ensures m.hz in groups' && m in groups'[m.hz] {
      if i < |lookups| { assert m in FoundBy(lookups[i]); }
    }
    forall h, m | h in groups' && m in groups'[h] ensures m.hz == h && WasFound(lookups', m) {
      if h in groups && m in groups[h] {
        assert WasFound(lookups, m);
        var i :| 0 <= i < |lookups| && m in FoundBy(lookups[i]);
        assert m in FoundBy(lookups'[i]);
      } else {
        assert m in FoundBy(lookups'[|lookups|]);
      }
    }
  }

  /** Every map that was found is in the group of its cluster, once, and nothing else is. */
  ghost predicate Grouped(groups: Groups, lookups: seq<Lookup>) {
    && (forall hz :: hz in groups ==> groups[hz] != [] && NamesDistinct(groups[hz]))
    && (forall i, m :: 0 <= i < |lookups| && m in FoundBy(lookups[i]) ==>
          m.hz in groups && HasName(groups[m.hz], m.name))
    && (forall hz, m :: hz in groups && m in groups[hz] ==> m.hz == hz && WasFound(lookups, m))
  }

  lemma GroupedAfterDeduplication(collected: Groups, groups: Groups, lookups: seq<Lookup>)
    requires Collected(collected, lookups) && groups.Keys == collected.Keys
    requires forall hz :: hz in groups ==> Deduplicated(collected[hz], groups[hz])
    ensures Grouped(groups, lookups)
  {
    forall i, m | 0 <= i < |lookups| && m in FoundBy(lookups[i])
      ensures m.hz in groups && HasName(groups[m.hz], m.name)
    {
      assert m in collected[m.hz] && Deduplicated(collected[m.hz], groups[m.hz]);
    }
    forall hz, m | hz in groups && m in groups[hz] ensures m.hz == hz && WasFound(lookups, m) {
      assert Deduplicated(collected[hz], groups[hz]) && m in collected[hz];
    }
    forall hz | hz in groups ensures groups[hz] != [] && NamesDistinct(groups[hz]) {
      assert Deduplicated(collected[hz], groups[hz]) && collected[hz][0] in collected[hz];
    }
  }

  /** The maps of one cluster among those of a listing. */
  method SelectMapsOf(listed: map<string, MapObject>, hz: string) returns (found: seq<MapObject>)
    ensures IsSelection(listed, hz, found)
  {
    found := [];
    var todo := listed.Keys;
    while todo != {}
      invariant todo <= listed.Keys
      invariant forall m :: m in found <==> exists n :: n in listed && n !in todo && listed[n] == m && m.hz == hz
      decreases |todo|
    {
      var n :| n in todo;
      todo := todo - {n};
      if listed[n].hz == hz { found := found + [listed[n]]; }
    }
  }

  // ---------- Small cases ----------

  predicate AllThere(resources: seq<ResourceSpec>, maps: map<string, MapObject>) {
    forall i :: 0 <= i < |resources| ==> resources[i].kind == KindMap && resources[i].name in maps
  }

  ghost predicate LooksUp(resources: seq<ResourceSpec>, maps: map<string, MapObject>, lookups: seq<Lookup>) {
    && |lookups| <= |resources|
    && forall i :: 0 <= i < |lookups| ==> resources[i].name in maps && lookups[i] == OfMap(maps[resources[i].name])
  }

  predicate NoneTerminating(list: seq<MapObject>) {
    forall i :: 0 <= i < |list| ==> list[i].state != MapTerminating
  }

  predicate AllPersisting(options: map<string, Applier>) {
    forall key :: key in options ==> options[key].ToPersisting?
  }

  ghost predicate SomeFailed(entries: map<string, Entry>) {
    exists key :: key in entries && entries[key].status == Failed
  }

  /** Some entry failed, and none may still be confirmed. */
  ghost predicate AllFailed(entries: map<string, Entry>) {
    SomeFailed(entries) && forall key :: key in entries ==> entries[key].status != Persisting
  }

  predicate AllPublished(entries: map<string, Entry>) {
    forall key :: key in entries ==> entries[key].publisherId != ""
  }

  predicate Published(entries: map<string, Entry>, key: string) {
    key in entries && entries[key].publisherId != ""
  }

  predicate OnlyMap(groups: Groups, m: MapObject) {
    groups == map[m.hz := [m]]
  }

  predicate Holds(maps: map<string, MapObject>, name: string) {
    name in maps && maps[name].wanFinalizer
  }

  /** The map with the WAN finalizer, owned by the resource unless it had the finalizer already. */
  function TakenMap(m: MapObject, version: nat): MapObject {
    m.(version := version, ownedByWan := m.ownedByWan || !m.wanFinalizer, wanFinalizer := true)
  }

  /** The map was given the WAN finalizer, and nothing else has changed. */
  predicate Taken(before: map<string, MapObject>, after: map<string, MapObject>, m: MapObject) {
    m.name in after && after == before[m.name := TakenMap(m, after[m.name].version)]
  }

  predicate HoldsMap(maps: map<string, MapObject>, m: MapObject) {
    m.name in maps && maps[m.name] == m
  }

  /** The key splits into the cluster and the name of the map. */
  predicate SplitsInto(key: string, m: MapObject) {
    FindSep(key, 0) != -1 && SplitWanMapKey(key) == (m.hz, m.mapName)
  }

  predicate OnlyEntryOf(entries: map<string, Entry>, m: MapObject) {
    var key := WanMapKey(m.hz, m.mapName);
    entries.Keys == {key} && entries[key].publisherId != "" && SplitsInto(key, m)
  }

  /** The keys of the maps in the groups. */
  function SpecKeys(groups: Groups): set<string> {
    set hz, i | hz in groups && 0 <= i < |groups[hz]| :: WanMapKey(hz, groups[hz][i].mapName)
  }

  lemma OnlyMapSelects(groups: Groups, m: MapObject)
    requires OnlyMap(groups, m)
    ensures WanMapKey(m.hz, m.mapName) in SpecKeys(groups)
  {
    assert groups[m.hz][0] == m;
  }

  function PublishedKeys(entries: map<string, Entry>): set<string> {
    set key | key in entries && entries[key].publisherId != ""
  }

  function SettledKeys(entries: map<string, Entry>): set<string> {
    set key | key in entries && (entries[key].publisherId != "" || entries[key].status == Failed)
  }

  /** The change starts the i-th map of the group: under its key, with the publisher id made of the
      resource's name and the key, and naming the map. */
  predicate StartsMap(name: string, groups: Groups, key: string, a: Applier, hz: string, i: nat) {
    && hz in groups && i < |groups[hz]| && groups[hz][i].state == MapSuccess && key == WanMapKey(hz, groups[hz][i].mapName)
    && (a.ToFailed? || a == ToPersisting(PublisherId(name, key), groups[hz][i].name))
  }

  ghost predicate FromGroups(name: string, groups: Groups, key: string, a: Applier) {
    exists hz, i :: StartsMap(name, groups, key, a, hz, i)
  }

  ghost predicate AllFromGroups(name: string, groups: Groups, options: map<string, Applier>) {
    forall key :: key in options ==> FromGroups(name, groups, key, options[key])
  }

  /** An entry without publisher stays as it is or starts a map of the groups. */
  ghost predicate StartedFromGroups(name: string, groups: Groups, before: map<string, Entry>, after: map<string, Entry>) {
    forall key :: key in after ==>
      || (key in before && after[key] == before[key])
      || exists a :: FromGroups(name, groups, key, a) && after[key] == Apply(a, EntryAt(before, key))
  }

  /** The maps are as they are stored, no name twice. */
  ghost predicate AllCurrent(list: seq<MapObject>, maps: map<string, MapObject>) {
    NamesDistinct(list) && forall i :: 0 <= i < |list| ==> HoldsMap(maps, list[i])
  }

  /** Only maps of the list were changed. */
  ghost predicate OthersKept(before: map<string, MapObject>, after: map<string, MapObject>, list: seq<MapObject>) {
    forall n :: n in before ==> n in after && (HasName(list, n) || after[n] == before[n])
  }

  lemma OthersKeptStep(before: map<string, MapObject>, maps: map<string, MapObject>, list: seq<MapObject>, i: nat)
    requires i < |list|
    ensures OthersKept(before, maps, list[..i]) ==> OthersKept(before, maps, list[..i + 1])
    ensures forall n :: HasName(list[..i], n) || n == list[i].name ==> HasName(list[..i + 1], n)
    ensures AllCurrent(list, before) && OthersKept(before, maps, list[..i]) ==> HoldsMap(maps, list[i])
  {
    var shorter, longer := list[..i], list[..i + 1];
    assert longer[i] == list[i];
    forall n | HasName(shorter, n) ensures HasName(longer, n) {
      var k :| 0 <= k < |shorter| && shorter[k].name == n;
      assert longer[k] == shorter[k];
    }
  }

  lemma OthersKeptAfter(before: map<string, MapObject>, mid: map<string, MapObject>, after: map<string, MapObject>, list: seq<MapObject>, i: nat)
    requires i < |list|
    ensures OthersKept(before, mid, list[..i + 1]) && (LetGo(mid, after, list[i], false) || after == mid) ==>
              OthersKept(before, after, list[..i + 1])
  {
    assert list[..i + 1][i] == list[i];
  }

  lemma StoppedForStep(list: seq<MapObject>, i: nat, before: map<string, Entry>, after: map<string, Entry>)
    requires i < |list| && StoppedFor(list, i, before) && after == before - {WanMapKey(list[i].hz, list[i].mapName)}
    ensures StoppedFor(list, i + 1, after)
  {
  }

  lemma StillCurrent(list: seq<MapObject>, other: seq<MapObject>, before: map<string, MapObject>, after: map<string, MapObject>,
                     hz: string, hz': string)
    requires OthersKept(before, after, list) && AllCurrent(list, before) && AllCurrent(other, before) && hz != hz'
    requires (forall i :: 0 <= i < |list| ==> list[i].hz == hz) && forall i :: 0 <= i < |other| ==> other[i].hz == hz'
    ensures AllCurrent(other, after)
  {
    forall i | 0 <= i < |other| ensures HoldsMap(after, other[i]) {
      assert HoldsMap(before, other[i]);
    }
  }

  // ---------- What a stop has done ----------

  /** The map has lost the WAN finalizer, and nothing else has changed. */
  predicate LetGo(before: map<string, MapObject>, after: map<string, MapObject>, m: MapObject, owned: bool) {
    m.name in after && after == before[m.name := m.(version := after[m.name].version, wanFinalizer := false, ownedByWan := owned)]
  }

  /** The WAN finalizer was taken from the map of this name since position `from`. */
  ghost predicate ReleasedSince(log: seq<Event>, from: nat, name: string) {
    exists i :: from <= i < |log| && log[i].FinalizerRemoved? && log[i].o.name == name
  }

  lemma ReleasedSinceLater(log: seq<Event>, log': seq<Event>, from: nat, from': nat, name: string)
    requires ReleasedSince(log, from, name) && log <= log' && from' <= from
    ensures ReleasedSince(log', from', name)
  {
    var i :| from <= i < |log| && log[i].FinalizerRemoved? && log[i].o.name == name;
    assert log'[i] == log[i];
  }

  lemma LetGoAfter(before: map<string, MapObject>, mid: map<string, MapObject>, after: map<string, MapObject>, m: MapObject, m': MapObject)
    requires LetGo(mid, after, m', false) && m' == m.(version := m'.version, ownedByWan := false)
    ensures mid == before[m.name := m'] ==> LetGo(before, after, m, false)
  {
  }

  /** The key whose entry is removed when `key` is visited: the key of the map read for it. */
  function VisitedKey(published: map<string, MapObject>, key: string): string {
    if key in published then WanMapKey(published[key].hz, published[key].mapName) else key
  }

  /** All of these maps that had the finalizer were released since `from`, except those in `todo`. */
  ghost predicate AllReleased(log: seq<Event>, from: nat, published: map<string, MapObject>, todo: set<string>) {
    forall key :: key in published && key !in todo && published[key].wanFinalizer ==> ReleasedSince(log, from, published[key].name)
  }

  lemma AllReleasedLater(log: seq<Event>, log': seq<Event>, from: nat, published: map<string, MapObject>, todo: set<string>)
    requires AllReleased(log, from, published, todo) && log <= log'
    ensures AllReleased(log', from, published, todo)
  {
    forall key | key in published && key !in todo && published[key].wanFinalizer
      ensures ReleasedSince(log', from, published[key].name)
    {
      ReleasedSinceLater(log, log', from, from, published[key].name);
    }
  }

  /** A map of this name has another key. */
  ghost predicate NamesAnother(log: seq<Event>, key: string, name: string) {
    exists o :: CopyOf(o, log) && o.name == name && WanMapKey(o.hz, o.mapName) != key
  }

  /** Entries that are left are selected by the spec, or name a map with another key. */
  ghost predicate Wanted(log: seq<Event>, entries: map<string, Entry>, mapsInSpec: set<string>, todo: set<string>) {
    forall key :: key in entries && key !in todo ==> key in mapsInSpec || NamesAnother(log, key, entries[key].resourceName)
  }

  ghost predicate SubTable(before: map<string, Entry>, after: map<string, Entry>) {
    forall key :: key in after ==> key in before && after[key] == before[key]
  }

  lemma WantedLater(log: seq<Event>, log': seq<Event>, entries: map<string, Entry>, entries': map<string, Entry>,
                    mapsInSpec: set<string>, todo: set<string>)
    requires Wanted(log, entries, mapsInSpec, todo) && log <= log'
    requires SubTable(entries, entries')
    ensures Wanted(log', entries', mapsInSpec, todo)
  {
    forall key | key in entries' && key !in todo && key !in mapsInSpec ensures NamesAnother(log', key, entries'[key].resourceName) {
      var o :| CopyOf(o, log) && o.name == entries[key].resourceName && WanMapKey(o.hz, o.mapName) != key;
      assert CopyOf(o, log');
    }
  }

  /** The entries that are left are those to do, unchanged. */
  ghost predicate LeftOf(before: map<string, Entry>, after: map<string, Entry>, todo: set<string>) {
    && (forall key :: key in after ==> key in before && after[key] == before[key])
    && (forall key :: key in todo ==> key in after)
  }

  /** A visited entry that is still there stands for good; without one, every visited map was released. */
  ghost predicate StoppedSoFar(log: seq<Event>, from: nat, published: map<string, MapObject>, before: map<string, Entry>,
                               entries: map<string, Entry>, todo: set<string>) {
    entries.Keys <= todo ==> AllReleased(log, from, published, todo) && LeftOf(before, entries, todo)
  }

  lemma StoppedSoFarStep(log: seq<Event>, log': seq<Event>, from: nat, published: map<string, MapObject>, before: map<string, Entry>,
                         entries: map<string, Entry>, entries': map<string, Entry>, todo: set<string>, key: string)
    requires StoppedSoFar(log, from, published, before, entries, todo) && key in todo && from <= |log| && log <= log'
    requires forall k :: k in published ==> Published(before, k)
    requires if key in entries then entries' == entries - {VisitedKey(published, key)} else entries' == entries
    requires key in entries && key in published && published[key].wanFinalizer && Published(entries, VisitedKey(published, key)) ==>
               ReleasedSince(log', |log|, published[key].name)
    ensures StoppedSoFar(log', from, published, before, entries', todo - {key})
  {
    if entries'.Keys <= todo - {key} {
      assert key !in entries';
      assert entries.Keys <= entries'.Keys + {key};
      assert key in entries && VisitedKey(published, key) == key;
      AllReleasedLater(log, log', from, published, todo);
      if key in published && published[key].wanFinalizer {
        assert Published(before, key) && Published(entries, key);
        ReleasedSinceLater(log', log', |log|, from, published[key].name);
      }
    }
  }

  predicate IsLeftover(e: Entry) {
    e.publisherId != "" && e.status == Terminating
  }

  ghost predicate NoLeftovers(entries: map<string, Entry>) {
    forall key :: key in entries ==> !IsLeftover(entries[key])
  }

  /** A leftover entry whose map still has the finalizer was met. */
  ghost predicate MetHeld(log: seq<Event>, entries: map<string, Entry>) {
    exists key, o :: key in entries && IsLeftover(entries[key]) && CopyOf(o, log) && o.name == entries[key].resourceName && o.wanFinalizer
  }

  /** The entries with a publisher name maps that are there, each the map of its key. */
  ghost predicate AllNamed(entries: map<string, Entry>, maps: map<string, MapObject>) {
    forall key :: Published(entries, key) ==>
      entries[key].resourceName in maps &&
      WanMapKey(maps[entries[key].resourceName].hz, maps[entries[key].resourceName].mapName) == key
  }

  /** So do those that the spec does not select, all of which have a publisher. */
  ghost predicate Removable(entries: map<string, Entry>, mapsInSpec: set<string>, maps: map<string, MapObject>) {
    AllNamed(entries, maps) && forall key :: key in entries && key !in mapsInSpec ==> entries[key].publisherId != ""
  }

  ghost predicate ReadFrom(published: map<string, MapObject>, entries: map<string, Entry>, maps: map<string, MapObject>) {
    forall key :: key in published ==>
      && Published(entries, key) && published[key].name == entries[key].resourceName
      && HoldsMap(maps, published[key]) && VisitedKey(published, key) == key
  }

  /** Entries that are gone named maps without the finalizer. */
  ghost predicate GoneAreFree(before: map<string, Entry>, after: map<string, Entry>, maps: map<string, MapObject>) {
    forall key :: key in before && key !in after ==> before[key].resourceName in maps && !maps[before[key].resourceName].wanFinalizer
  }

  ghost predicate Visited(published: map<string, MapObject>, todo: set<string>, n: string) {
    exists key :: key in published && key !in todo && published[key].name == n
  }

  /** The maps of the visited entries were let go, and no other map was changed. */
  ghost predicate Cleared(before: map<string, MapObject>, after: map<string, MapObject>, published: map<string, MapObject>, todo: set<string>) {
    && after.Keys == before.Keys
    && forall n :: n in before ==>
         after[n] == if Visited(published, todo, n)
                     then before[n].(version := after[n].version, wanFinalizer := false, ownedByWan := false) else before[n]
  }

  lemma ClearedStep(before: map<string, MapObject>, mid: map<string, MapObject>, after: map<string, MapObject>,
                    entries: map<string, Entry>, published: map<string, MapObject>, todo: set<string>, key: string)
    requires ReadFrom(published, entries, before) && Cleared(before, mid, published, todo) && key in todo
    ensures key in published ==> HoldsMap(mid, published[key])
    ensures (if key in published then LetGo(mid, after, published[key], false) else after == mid) ==>
              Cleared(before, after, published, todo - {key})
  {
    if key in published {
      var m := published[key];
      forall k | k in published && k != key ensures published[k].name != m.name {
        assert HoldsMap(before, published[k]) && VisitedKey(published, k) == k;
      }
      assert !Visited(published, todo, m.name) && Visited(published, todo - {key}, m.name);
    }
    forall n | n in before && !(key in published && published[key].name == n)
      ensures Visited(published, todo, n) <==> Visited(published, todo - {key}, n)
    {
      if Visited(published, todo, n) {
        var k :| k in published && k !in todo && published[k].name == n;
        assert k !in todo - {key};
      }
      if Visited(published, todo - {key}, n) {
        var k :| k in published && k !in todo - {key} && published[k].name == n;
        assert k !in todo;
      }
    }
  }

  predicate Named(entries: map<string, Entry>, n: string) {
    exists key :: key in entries && entries[key].publisherId != "" && entries[key].resourceName == n
  }

  /** Every map named by an entry with a publisher is without the WAN finalizer, and every other
      map is as it was. */
  ghost predicate AllLetGo(entries: map<string, Entry>, before: map<string, MapObject>, after: map<string, MapObject>) {
    && after.Keys == before.Keys
    && (forall n :: n in before && Named(entries, n) ==> !after[n].wanFinalizer)
    && (forall n :: n in before && !Named(entries, n) ==> after[n] == before[n])
    && (forall n :: n in before ==>
          after[n] == before[n] || after[n] == before[n].(version := after[n].version, wanFinalizer := false, ownedByWan := false))
  }

  lemma AllAreLetGo(entries: map<string, Entry>, left: map<string, Entry>, before: map<string, MapObject>, after: map<string, MapObject>,
                    published: map<string, MapObject>)
    requires LosesOnlyTerminating(entries, left) && GoneAreFree(entries, left, before) && ReadFrom(published, left, before)
    requires Cleared(before, after, published, {}) && forall key :: Published(left, key) ==> key in published
    ensures AllLetGo(entries, before, after)
  {
    forall n | n in before && Named(entries, n) ensures !after[n].wanFinalizer {
      var key :| key in entries && entries[key].publisherId != "" && entries[key].resourceName == n;
      if key in left { assert Published(left, key) && Visited(published, {}, n); }
    }
  }

  /** One more entry is stopped. */
  lemma AllLetGoStep(before: map<string, Entry>, mid: map<string, Entry>, mapsBefore: map<string, MapObject>,
                     mapsMid: map<string, MapObject>, mapsAfter: map<string, MapObject>, key: string, m: MapObject)
    requires AllLetGo(before - mid.Keys, mapsBefore, mapsMid) && SubTable(before, mid) && Published(mid, key)
    requires HoldsMap(mapsMid, m) && m.name == mid[key].resourceName && LetGo(mapsMid, mapsAfter, m, false)
    ensures AllLetGo(before - (mid - {key}).Keys, mapsBefore, mapsAfter)
  {
    var gone, more := before - mid.Keys, before - (mid - {key}).Keys;
    forall n ensures Named(more, n) <==> Named(gone, n) || n == m.name {
      if Named(gone, n) {
        var k :| k in gone && gone[k].publisherId != "" && gone[k].resourceName == n;
        assert k in more && more[k] == gone[k];
      }
      if Named(more, n) {
        var k :| k in more && more[k].publisherId != "" && more[k].resourceName == n;
        assert k == key || (k in gone && gone[k] == more[k]);
      }
      if n == m.name { assert key in more && more[key].resourceName == n; }
    }
  }

  // ---------- Which map an entry holds ----------

  ghost predicate SameNames(a: Groups, b: Groups) {
    && a.Keys == b.Keys
    && forall hz :: hz in a ==> |a[hz]| == |b[hz]| && forall i :: 0 <= i < |a[hz]| ==> a[hz][i].mapName == b[hz][i].mapName
  }

  /** The groups have a map under the name the key splits into. */
  ghost predicate FoundIn(groups: Groups, key: string)
    requires FindSep(key, 0) != -1
  {
    var (hz, mapName) := SplitWanMapKey(key);
    hz in groups && exists i :: 0 <= i < |groups[hz]| && groups[hz][i].mapName == mapName
  }

  ghost predicate AllFound(groups: Groups, entries: map<string, Entry>, todo: set<string>) {
    forall key :: key in entries && key !in todo && entries[key].publisherId != "" ==>
      FindSep(key, 0) != -1 && FoundIn(groups, key)
  }

  lemma FoundInSameNames(a: Groups, b: Groups, key: string)
    requires SameNames(a, b) && FindSep(key, 0) != -1 && FoundIn(b, key)
    ensures FoundIn(a, key)
  {
    var (hz, mapName) := SplitWanMapKey(key);
    var i :| 0 <= i < |b[hz]| && b[hz][i].mapName == mapName;
    assert a[hz][i].mapName == mapName;
  }

  /** The map that is held for an entry is the entry's own if and only if its name has no "__". */
  lemma HeldIsOwnExactlyIf(log: seq<Event>, hz: string, mapName: string, o: MapObject)
    requires '_' !in hz && HeldBy(log, WanMapKey(hz, mapName), o)
    ensures o.hz == hz && (o.mapName == mapName <==> !HasSep(mapName))
  {
    SplitKeyRoundTrip(hz, mapName);
  }

  class WanReplicationReconciler {
    const name: string
    // The API server
    var stored: WanObject
    var maps: map<string, MapObject>
    var log: seq<Event>
    // The reconciler's copy of the resource
    var wan: WanObject
    // Whether it has a client of the cluster it is at
    var connected: bool
    // What the reconciler runs in, and the configurations it reads there when all is calm
    var env: Environ
    var secrets: map<string, WanSection>

    ghost predicate Valid() reads this {
      && wan.version <= stored.version < |log|
      && (forall n :: n in maps ==> CopyOf(maps[n], log) && maps[n].name == n)
      && LogOk(name, log)
      && stored.entries == StoredIn(log)
      && EntriesOk(name, wan.entries, log)
    }

    /** The copy holds the stored entries, unless the server has moved on. */
    ghost predicate Current() reads this {
      wan.version == stored.version ==> wan.entries == stored.entries
    }

    /** Storing the copy would be a legal step of the run. */
    ghost predicate Storable() reads this {
      wan.version == stored.version ==> KeepsTerminating(stored.entries, wan.entries)
    }

    /** Calls succeed and nobody interferes, except that someone may delete the resource. */
    predicate Calls() reads this`env {
      env == Cooperative({}) || env == Cooperative({SoleWriter})
    }

    /** Calls succeed and nobody interferes. */
    predicate Alone() reads this`env {
      env == Cooperative({})
    }

    /** Nothing of the resource was changed but its entries, and the copy is what is stored. */
    twostate predicate EntriesOnly() reads this {
      Follows(old(stored))
    }

    ghost predicate Follows(start: WanObject) reads this {
      wan == stored && stored == start.(version := stored.version, entries := stored.entries)
    }

    /** Only the status of the resource was changed, and the copy is what is stored. */
    twostate predicate OnlyStatus() reads this {
      && maps == old(maps) && wan == stored
      && stored == old(stored).(version := stored.version, entries := stored.entries, status := stored.status)
    }

    /** ... and no map was changed. */
    twostate predicate OnlyEntries() reads this {
      maps == old(maps) && EntriesOnly()
    }

    /** The resource is deleted before every status write. */
    predicate Races() reads this`env {
      env == Cooperative({SoleWriter})
    }

    ghost function Now(): Snapshot reads this {
      Snapshot(stored, maps, wan)
    }

    twostate predicate Calm() reads this {
      Now() == old(Now())
    }

    /** Nothing happened to the server's resources but that the WanReplication is deleting. */
    twostate predicate OnlyDeleted() reads this {
      maps == old(maps) && stored == old(stored).(version := stored.version, deleting := true)
    }

    /** The copy is superseded, and nothing but deletions happened. */
    twostate predicate RacedOn() reads this {
      && maps == old(maps) && wan.version != stored.version
      && stored == old(stored).(version := stored.version, deleting := stored.deleting) && (old(stored).deleting ==> stored.deleting)
    }

    constructor (name: string, spec: WanSpec)
      ensures Valid() && Current() && log == [WanWritten] && this.name == name && env == Whatever
      ensures maps == map[] && stored == WanObject(0, spec, map[], Unset, None, false, false)
    {
      this.name := name;
      env, secrets, connected := Whatever, map[], false;
      maps := map[];
      log := [WanWritten];
      stored := WanObject(0, spec, map[], Unset, None, false, false);
      wan := WanObject(0, spec, map[], Unset, None, false, false);
    }

    /** Appends an event that is not a status write. */
    method Record(e: Event)
      requires Valid() && EventOk(name, log, e) && !e.Stored?
      modifies `log
      ensures Valid() && log == old(log) + [e]
      ensures forall id :: PhaseOf(log, id) == PhaseStep(PhaseOf(old(log), id), e, id)
    {
      EntriesOkLater(name, wan.entries, log, log + [e]);
      assert (log + [e])[..|log|] == log;
      log := log + [e];
    }

    /** Users, other controllers and the garbage collector: they edit and delete the
        WanReplication, and create, change or delete maps; they do not write its status. */
    method Interfere()
      requires Valid()
      modifies `stored, `maps, `log
      ensures Valid() && old(log) <= log
      ensures stored.entries == old(stored.entries)
      ensures stored == old(stored) || stored.version >= |old(log)|
      ensures forall id :: PhaseOf(log, id) == PhaseOf(old(log), id)
      ensures env.Cooperative? ==> Calm()
    {
      if env.Cooperative? { return; }
      var rounds: nat := *;
      while rounds > 0
        invariant Valid() && old(log) <= log
        invariant stored.entries == old(stored.entries)
        invariant stored == old(stored) || stored.version >= |old(log)|
        invariant forall id :: PhaseOf(log, id) == PhaseOf(old(log), id)
      {
        if * {
          var spec: WanSpec := *;
          var deleting: bool := *;
          Record(WanWritten);
          stored := stored.(version := |log| - 1, spec := spec, deleting := stored.deleting || deleting);
        } else if * {
          var o: MapObject := *;
          o := o.(version := |log|);
          Record(MapWritten(o));
          maps := maps[o.name := o];
        } else {
          var n: string := *;
          maps := maps - {n};
        }
        rounds := rounds - 1;
      }
    }

    /** Someone deletes the resource, where the environment says so. */
    method DeletedMeanwhile()
      requires Valid()
      modifies `stored, `log
      ensures Valid() && old(log) <= log
      ensures stored.entries == old(stored.entries)
      ensures stored == old(stored) || stored.version >= |old(log)|
      ensures forall id :: PhaseOf(log, id) == PhaseOf(old(log), id)
      ensures if Races() then OnlyDeleted() && stored.version >= |old(log)| else stored == old(stored)
    {
      if env != Cooperative({SoleWriter}) { return; }
      Record(WanWritten);
      stored := stored.(version := |log| - 1, deleting := true);
    }

    /** A user creates or changes a map. */
    method WriteMap(o: MapObject)
      requires Valid()
      modifies `maps, `log
      ensures Valid() && old(log) <= log && maps == old(maps)[o.name := o.(version := |old(log)|)]
    {
      var written := o.(version := |log|);
      Record(MapWritten(written));
      maps := maps[o.name := written];
    }

    method RunIn(e: Environ)
      requires Valid()
      modifies `env
      ensures Valid() && env == e
    {
      env := e;
    }

    /** The cluster's configuration is written anew. */
    method WriteConfig(hz: string, section: WanSection)
      requires Valid()
      modifies `secrets
      ensures Valid() && secrets == old(secrets)[hz := section]
    {
      secrets := secrets[hz := section];
    }

    /** A user deletes the resource. */
    method Delete()
      requires Valid()
      modifies `stored, `log
      ensures Valid() && old(log) <= log && stored == old(stored).(version := stored.version, deleting := true)
    {
      Record(WanWritten);
      stored := stored.(version := |log| - 1, deleting := true);
    }

    // ---------- API calls ----------

    /** The server accepts the copy's status. */
    method CommitStatus()
      requires Valid() && wan.version == stored.version && KeepsTerminating(stored.entries, wan.entries)
      modifies `stored, `log
      ensures Valid() && log == old(log) + [Stored(wan.entries)]
      ensures stored == old(stored).(version := |old(log)|, entries := wan.entries, status := wan.status)
      ensures forall id :: PhaseOf(log, id) == PhaseStep(PhaseOf(old(log), id), Stored(wan.entries), id)
    {
      var e := Stored(wan.entries);
      EntriesOkLater(name, wan.entries, log, log + [e]);
      assert (log + [e])[..|log|] == log;
      stored := stored.(version := |log|, entries := wan.entries, status := wan.status);
      log := log + [e];
    }

    /** Status().Update of the copy: all of its status, guarded by its version. */
    method StatusUpdate() returns (r: WriteResult)
      requires Valid() && Storable()
      modifies `stored, `maps, `log, `wan
      ensures Valid() && Storable() && old(log) <= log
      ensures wan == old(wan).(version := wan.version)
      ensures r == Ok ==> wan.version == stored.version && stored.entries == wan.entries
      ensures r == Ok ==> forall id :: PhaseOf(log, id) == PhaseStep(PhaseOf(old(log), id), Stored(wan.entries), id)
      ensures r == Conflict ==> wan == old(wan) && wan.version != stored.version && stored.entries == old(stored.entries)
      ensures old(Current()) ==> Current()
      ensures Races() ==> r == Conflict && OnlyDeleted()
      ensures env == Cooperative({}) && old(wan.version == stored.version) ==>
                r == Ok && maps == old(maps) && stored == old(stored).(version := stored.version, entries := wan.entries, status := wan.status)
    {
      Interfere();
      DeletedMeanwhile();
      if wan.version != stored.version { return Conflict; }
      var applied := Granted(env, Answers);
      if !applied { return Error; }
      CommitStatus();
      var answered := Granted(env, Answers);
      if !answered { return Error; }
      wan := wan.(version := stored.version);
      return Ok;
    }

    /** Update of the copy's metadata and spec; the answer carries the stored status. */
    method UpdateWan(after: WanObject) returns (ok: bool)
      requires Valid() && Current()
      requires after.lastSuccessful != wan.lastSuccessful ==> AllSuccess(wan.entries)
      modifies `stored, `maps, `log, `wan
      ensures Valid() && Current() && old(log) <= log
      ensures if ok then wan.spec == after.spec && wan.finalizer == after.finalizer && wan.lastSuccessful == after.lastSuccessful
              else wan == old(wan)
      ensures ok && after.lastSuccessful != old(wan.lastSuccessful) ==> log[|log| - 1] == Annotated(wan.entries)
      ensures Calls() ==> maps == old(maps) && (ok <==> old(wan.version == stored.version)) && (ok ==> wan == stored)
      ensures Calls() ==> stored == if ok then old(stored).(version := stored.version, spec := after.spec,
                                                            lastSuccessful := after.lastSuccessful, finalizer := after.finalizer)
                                    else old(stored)
    {
      Interfere();
      if wan.version != stored.version { return false; }
      var applied := Granted(env, Answers);
      if !applied { return false; }
      CommitWan(after);
      var answered := Granted(env, Answers);
      if !answered { return false; }
      wan := stored;
      return true;
    }

    /** The server accepts the copy's metadata and spec. */
    method CommitWan(after: WanObject)
      requires Valid() && wan.version == stored.version && wan.entries == stored.entries
      requires after.lastSuccessful != wan.lastSuccessful ==> AllSuccess(wan.entries)
      modifies `stored, `log
      ensures Valid() && EntriesOk(name, stored.entries, log)
      ensures log == old(log) + [if after.lastSuccessful != wan.lastSuccessful then Annotated(old(stored.entries)) else WanWritten]
      ensures stored == old(stored).(version := |old(log)|, spec := after.spec, lastSuccessful := after.lastSuccessful,
                                     finalizer := after.finalizer)
    {
      if after.lastSuccessful != wan.lastSuccessful {
        Record(Annotated(stored.entries));
      } else {
        Record(WanWritten);
      }
      stored := stored.(version := |log| - 1, spec := after.spec, lastSuccessful := after.lastSuccessful,
                        finalizer := after.finalizer);
    }

    /** The reconciler's own Get: any version the server has had, with the status it had then. */
    method GetWan() returns (ok: bool)
      requires Valid()
      modifies `stored, `maps, `log, `wan
      ensures Valid() && Current() && old(log) <= log
      ensures Calls() ==> ok && stored == old(stored) && maps == old(maps) && wan == stored
    {
      Interfere();
      StoredEntriesOk(name, log);
      var fetched := Granted(env, Answers);
      if !fetched {
        wan := stored;
        return false;
      }
      var recent := Granted(env, Answers);
      if !recent && stored.version > 0 {
        var o: WanObject := *;
        var k: nat := *;
        if 0 <= k <= |log| && o.version < stored.version {
          StoredEntriesOkEarlier(name, log, k);
          var earlier := StoredIn(log[..k]);
          wan := o.(entries := earlier);
          return true;
        }
      }
      wan := stored;
      return true;
    }

    method GetMap(n: string) returns (r: ReadResult)
      requires Valid()
      modifies `stored, `maps, `log
      ensures Valid() && old(log) <= log
      ensures old(Current()) ==> Current()
      ensures r.Found? ==> CopyOf(r.o, log) && r.o.name == n
      ensures Calls() ==> Calm() && (n in maps ==> r == Found(maps[n]))
    {
      Interfere();
      var o: MapObject := *;
      if env.Cooperative? && n in maps { o := maps[n]; }
      if o.name == n && CopyOf(o, log) { return Found(o); }
      if * { return NotFound; } else { return ReadError; }
    }

    /** Update of a Map, guarded by the version of the copy `before`. */
    method UpdateMap(before: MapObject, after: MapObject) returns (ok: bool, o: MapObject)
      requires Valid() && Current() && CopyOf(before, log)
      requires after == before.(wanFinalizer := after.wanFinalizer, ownedByWan := after.ownedByWan)
      requires before.wanFinalizer && !after.wanFinalizer ==> MayRelease(log, WanMapKey(before.hz, before.mapName))
      modifies `stored, `maps, `log
      ensures Valid() && Current() && old(log) <= log
      ensures forall id :: PhaseOf(log, id) == PhaseOf(old(log), id)
      ensures ok ==> o == after.(version := o.version) && CopyOf(o, log)
      ensures stored.entries == old(stored.entries)
      ensures Calls() && before.name in old(maps) && old(maps)[before.name] == before ==>
                ok && stored == old(stored) && maps == old(maps)[before.name := o]
      ensures ok && before.wanFinalizer && !after.wanFinalizer ==> ReleasedSince(log, |old(log)|, before.name)
    {
      o := after;
      Interfere();
      if before.name !in maps || maps[before.name].version != before.version { return false, o; }
      if before.wanFinalizer && !after.wanFinalizer {
        ReleaseUnchanged(old(log), log, WanMapKey(before.hz, before.mapName));
      }
      ok, o := TryMap(before, after, |old(log)|);
    }

    /** The copy is up to date: the write may be refused, and its answer may be lost. */
    method TryMap(before: MapObject, after: MapObject, ghost from: nat) returns (ok: bool, o: MapObject)
      requires from <= |log| && Valid() && Current() && before.name in maps && maps[before.name] == before
      requires after == before.(wanFinalizer := after.wanFinalizer, ownedByWan := after.ownedByWan)
      requires before.wanFinalizer && !after.wanFinalizer ==> MayRelease(log, WanMapKey(before.hz, before.mapName))
      modifies `maps, `log
      ensures Valid() && Current() && old(log) <= log
      ensures forall id :: PhaseOf(log, id) == PhaseOf(old(log), id)
      ensures ok ==> o == after.(version := o.version) && CopyOf(o, log)
      ensures Calls() ==> ok && maps == old(maps)[before.name := o]
      ensures ok && before.wanFinalizer && !after.wanFinalizer ==> ReleasedSince(log, from, before.name)
    {
      o := after;
      var applied := Granted(env, Answers);
      if !applied { return false, o; }
      o := CommitMap(before, after, from);
      ok := Granted(env, Answers);
    }

    /** The server accepts the new version of a map. */
    method CommitMap(before: MapObject, after: MapObject, ghost from: nat) returns (o: MapObject)
      requires from <= |log| && Valid() && before.name in maps && maps[before.name] == before && after.name == before.name
      requires after.hz == before.hz && after.mapName == before.mapName
      requires before.wanFinalizer && !after.wanFinalizer ==> MayRelease(log, WanMapKey(before.hz, before.mapName))
      modifies `maps, `log
      ensures Valid() && old(log) <= log
      ensures forall id :: PhaseOf(log, id) == PhaseOf(old(log), id)
      ensures o == after.(version := |old(log)|) && CopyOf(o, log) && maps == old(maps)[before.name := o]
      ensures before.wanFinalizer && !after.wanFinalizer ==> ReleasedSince(log, from, before.name)
    {
      o := after.(version := |log|);
      if before.wanFinalizer && !after.wanFinalizer {
        Record(FinalizerRemoved(o));
      } else {
        Record(MapWritten(o));
      }
      maps := maps[before.name := o];
      assert before.wanFinalizer && !after.wanFinalizer ==> log[|old(log)|] == FinalizerRemoved(o);
    }

    // ---------- Calls to the cluster ----------

    /** A call that either fails or has the effect e. */
    method CallMember(e: Event) returns (ok: bool)
      requires connected && Valid() && Current() && !e.Stored? && !e.Annotated? && !e.FinalizerRemoved?
      modifies `stored, `maps, `log
      ensures Valid() && Current() && old(log) <= log
      ensures ok ==> forall id :: PhaseOf(log, id) == PhaseStep(PhaseOf(old(log), id), e, id)
      ensures Calls() ==> ok && Calm()
    {
      Interfere();
      ok := Granted(env, Answers);
      if ok { Record(e); }
    }

    method ChangeWanState(publisherId: string) returns (ok: bool)
      requires connected && Valid() && Current()
      modifies `stored, `maps, `log
      ensures Valid() && Current() && old(log) <= log
      ensures ok ==> PhaseOf(log, publisherId) == Stopping({})
      ensures Calls() ==> ok && Calm()
    {
      var members: seq<string> := *;
      var listed := CallMember(StopListed(publisherId, members));
      if !listed { return false; }
      for i := 0 to |members|
        invariant Valid() && Current() && old(log) <= log
        invariant PhaseOf(log, publisherId).Stopping?
        invariant Acknowledged(PhaseOf(log, publisherId).left, members, i)
        invariant Calls() ==> Calm()
      {
        var accepted := CallMember(StopAck(publisherId, members[i]));
        if !accepted { return false; }
      }
      return true;
    }

    method ClearWanQueue(publisherId: string) returns (ok: bool)
      requires connected && Valid() && Current()
      modifies `stored, `maps, `log
      ensures Valid() && Current() && old(log) <= log
      ensures ok && PhaseOf(old(log), publisherId) == Stopping({}) ==> PhaseOf(log, publisherId) == Clearing({})
      ensures Calls() ==> ok && Calm()
    {
      var members: seq<string> := *;
      var listed := CallMember(ClearListed(publisherId, members));
      if !listed { return false; }
      for i := 0 to |members|
        invariant Valid() && Current() && old(log) <= log
        invariant PhaseOf(old(log), publisherId) == Stopping({}) ==>
                    PhaseOf(log, publisherId).Clearing? && Acknowledged(PhaseOf(log, publisherId).left, members, i)
        invariant Calls() ==> Calm()
      {
        var accepted := CallMember(ClearAck(publisherId, members[i]));
        if !accepted { return false; }
      }
      return true;
    }

    // ---------- Status writes ----------

    method DeleteWanMapStatus(key: string) returns (ok: bool)
      requires Valid() && Current()
      modifies `stored, `maps, `log, `wan
      ensures Valid() && Storable() && old(log) <= log && (ok ==> Current())
      ensures wan.entries == old(wan.entries) - {key}
      ensures Alone() && old(wan == stored) ==> ok && OnlyEntries()
    {
      var absent: bool := *;      // an empty table may be stored as no table
      if wan.entries == map[] && absent { return true; }
      wan := wan.(entries := wan.entries - {key});
      var r := StatusUpdate();
      return r == Ok;
    }

    method MarkTerminating(key: string) returns (ok: bool)
      requires Valid() && Current() && key in wan.entries && wan.entries[key].publisherId != ""
      modifies `stored, `maps, `log, `wan
      ensures Valid() && Storable() && old(log) <= log && (ok ==> Current())
      ensures ok && PhaseOf(old(log), old(wan.entries[key].publisherId)) == Clearing({}) ==> MayRelease(log, key)
      ensures wan.entries == old(wan.entries)[key := old(wan.entries)[key].(status := Terminating)]
      ensures Alone() && old(wan == stored) ==> ok && OnlyEntries()
    {
      var id := wan.entries[key].publisherId;
      wan := wan.(entries := wan.entries[key := wan.entries[key].(status := Terminating)]);
      var r := StatusUpdate();
      assert r == Ok && PhaseOf(old(log), id) == Clearing({}) ==> Released(PhaseOf(log, id), key, id);
      return r == Ok;
    }

    // ---------- Stopping replication ----------

    /** The entry of the map is gone, and the map is let go if the entry had a publisher; nothing
        else has changed, and the copy is what is stored. */
    twostate predicate Stopped(m: MapObject) reads this {
      var key := WanMapKey(m.hz, m.mapName);
      && wan == stored && stored == old(stored).(version := stored.version, entries := old(stored.entries) - {key})
      && if Published(old(stored.entries), key) then LetGo(old(maps), maps, m, false) else maps == old(maps)
    }

    method RemoveOwnerReference(m: MapObject) returns (ok: bool, m': MapObject)
      requires Valid() && Current() && CopyOf(m, log)
      modifies `stored, `maps, `log
      ensures Valid() && Current() && old(log) <= log
      ensures forall id :: PhaseOf(log, id) == PhaseOf(old(log), id)
      ensures ok ==> CopyOf(m', log) && m' == m.(version := m'.version, ownedByWan := false)
      ensures Calls() && HoldsMap(old(maps), m) ==> ok && stored == old(stored) && maps == old(maps)[m.name := m']
    {
      if !m.ownedByWan { return true, m; }
      ok, m' := UpdateMap(m, m.(ownedByWan := false));
    }

    method RemoveWanRepFinalizerFromMap(m: MapObject) returns (ok: bool)
      requires Valid() && Current() && CopyOf(m, log)
      requires MayRelease(log, WanMapKey(m.hz, m.mapName))
      modifies `stored, `maps, `log
      ensures Valid() && Current() && old(log) <= log
      ensures ok && m.wanFinalizer ==> ReleasedSince(log, |old(log)|, m.name)
      ensures Calls() && HoldsMap(old(maps), m) ==> ok && stored == old(stored) && LetGo(old(maps), maps, m, m.ownedByWan)
    {
      if !m.wanFinalizer { return true; }
      var released;
      ok, released := UpdateMap(m, m.(wanFinalizer := false));
    }

    /** Stop, clear, drop the owner reference, store Terminating, release the map, delete the
        entry: in this order, giving up at the first call that fails. */
    method StopWanReplicationMap(m: MapObject) returns (ok: bool)
      requires connected && Valid() && Current() && CopyOf(m, log)
      modifies `stored, `maps, `log, `wan
      ensures Valid() && Storable() && old(log) <= log && (ok ==> Current())
      ensures ok ==> wan.entries == old(wan.entries) - {WanMapKey(m.hz, m.mapName)}
      ensures ok && m.wanFinalizer && Published(old(wan.entries), WanMapKey(m.hz, m.mapName)) ==>
                ReleasedSince(log, |old(log)|, m.name)
      ensures Alone() && old(wan == stored && HoldsMap(maps, m)) ==> ok && Stopped(m)
    {
      var key := WanMapKey(m.hz, m.mapName);
      if key !in wan.entries { assert wan.entries - {key} == wan.entries; return true; }
      var publisherId := wan.entries[key].publisherId;
      if publisherId == "" {
        ok := DeleteWanMapStatus(key);
        return;
      }
      ok := ChangeWanState(publisherId);
      if !ok { return false; }
      ok := ClearWanQueue(publisherId);
      if !ok { return false; }
      ghost var from := |log|;
      ok := ReleaseMap(m, key);
      if ok && m.wanFinalizer { ReleasedSinceLater(log, log, from, |old(log)|, m.name); }
    }

    /** The part after the publisher was stopped and its queue cleared. */
    method ReleaseMap(m: MapObject, key: string) returns (ok: bool)
      requires Valid() && Current() && CopyOf(m, log)
      requires key == WanMapKey(m.hz, m.mapName) && key in wan.entries && wan.entries[key].publisherId != ""
      requires PhaseOf(log, wan.entries[key].publisherId) == Clearing({})
      modifies `stored, `maps, `log, `wan
      ensures Valid() && Storable() && old(log) <= log && (ok ==> Current())
      ensures ok ==> wan.entries == old(wan.entries) - {key}
      ensures ok && m.wanFinalizer ==> ReleasedSince(log, |old(log)|, m.name)
      ensures Alone() && old(wan == stored && HoldsMap(maps, m)) ==> ok && Stopped(m)
    {
      var m';
      ok, m' := DisownAndMark(m, key);
      if !ok { return false; }
      ghost var from, mid := |log|, maps;
      ok := ReleaseAndDelete(m', key);
      if LetGo(mid, maps, m', false) { LetGoAfter(old(maps), mid, maps, m, m'); }
      if ok && m.wanFinalizer { ReleasedSinceLater(log, log, from, |old(log)|, m.name); }
    }

    method DisownAndMark(m: MapObject, key: string) returns (ok: bool, m': MapObject)
      requires Valid() && Current() && CopyOf(m, log)
      requires key == WanMapKey(m.hz, m.mapName) && key in wan.entries && wan.entries[key].publisherId != ""
      requires PhaseOf(log, wan.entries[key].publisherId) == Clearing({})
      modifies `stored, `maps, `log, `wan
      ensures Valid() && Storable() && old(log) <= log
      ensures wan.entries.Keys == old(wan.entries.Keys) && (ok ==> wan.entries - {key} == old(wan.entries) - {key})
      ensures ok ==> Current() && CopyOf(m', log) && MayRelease(log, key)
      ensures ok ==> m' == m.(version := m'.version, ownedByWan := false)
      ensures Alone() && old(wan == stored && HoldsMap(maps, m)) ==>
                && ok && wan == stored && maps == old(maps)[m.name := m']
                && stored == old(stored).(version := stored.version, entries := wan.entries)
    {
      ok, m' := RemoveOwnerReference(m);
      if !ok { return; }
      ok := MarkTerminating(key);
    }

    method ReleaseAndDelete(m: MapObject, key: string) returns (ok: bool)
      requires Valid() && Current() && CopyOf(m, log) && key == WanMapKey(m.hz, m.mapName) && MayRelease(log, key)
      modifies `stored, `maps, `log, `wan
      ensures Valid() && Storable() && old(log) <= log && (ok ==> Current())
      ensures wan.entries == old(wan.entries) - {key} || !ok
      ensures ok && m.wanFinalizer ==> ReleasedSince(log, |old(log)|, m.name)
      ensures Alone() && old(wan == stored && HoldsMap(maps, m)) ==>
                && ok && wan == stored && LetGo(old(maps), maps, m, m.ownedByWan)
                && stored == old(stored).(version := stored.version, entries := old(stored.entries) - {key})
    {
      ok := RemoveWanRepFinalizerFromMap(m);
      if !ok { return false; }
      ghost var before := log;
      ok := DeleteWanMapStatus(key);
      if m.wanFinalizer { ReleasedSinceLater(before, log, |old(log)|, |old(log)|, m.name); }
    }

    // ---------- The parts of a reconcile ----------

    method GetHazelcastClient() returns (ok: bool)
      requires Valid()
      modifies `connected, `stored, `maps, `log
      ensures Valid() && old(log) <= log && (old(Current()) ==> Current())
      ensures stored.entries == old(stored.entries) && (Calls() ==> ok && Calm())
      ensures ok <==> connected
    {
      Interfere();
      ok := Granted(env, Answers);
      connected := ok;
    }

    /** Only Terminating entries go. */
    method DeleteLeftoverMapsFromStatus() returns (ok: bool)
      requires Valid() && Current()
      modifies `stored, `maps, `log, `wan
      ensures Valid() && Storable() && old(log) <= log && (ok ==> Current())
      ensures LosesOnlyTerminating(old(wan.entries), wan.entries)
      ensures ok ==> (forall key :: key in wan.entries ==> !IsLeftover(wan.entries[key])) || MetHeld(log, wan.entries)
      ensures NoLeftovers(old(wan.entries)) ==> ok && Calm()
      ensures Alone() && old(wan == stored && AllNamed(wan.entries, maps)) ==>
                ok && OnlyEntries() && GoneAreFree(old(wan.entries), wan.entries, maps)
    {
      ghost var before := Now();
      var todo := wan.entries.Keys;
      while todo != {}
        invariant Valid() && Current() && old(log) <= log
        invariant LosesLeftovers(before) && LeftoversIn(todo)
        decreases |todo|
      {
        var key :| key in todo;
        var done;
        done, ok := LeftoverStep(key, todo, before);
        if done { return; }
        todo := todo - {key};
      }
      return true;
    }

    /** What a deletion of leftovers does from `before` on. */
    ghost predicate LosesLeftovers(before: Snapshot) reads this {
      && LosesOnlyTerminating(before.wan.entries, wan.entries)
      && (NoLeftovers(before.wan.entries) ==> Now() == before)
      && (Alone() && before.wan == before.stored && AllNamed(before.wan.entries, before.maps) ==>
            maps == before.maps && Follows(before.stored) && GoneAreFree(before.wan.entries, wan.entries, maps))
    }

    ghost predicate LeftoversIn(todo: set<string>) reads this {
      forall key :: key in wan.entries && key !in todo ==> !IsLeftover(wan.entries[key])
    }

    /** `done` ends the loop. */
    method LeftoverStep(key: string, ghost todo: set<string>, ghost before: Snapshot) returns (done: bool, ok: bool)
      requires Valid() && Current() && LosesLeftovers(before) && LeftoversIn(todo) && key in todo
      modifies `stored, `maps, `log, `wan
      ensures Valid() && Storable() && old(log) <= log && (ok ==> Current()) && (!done ==> ok)
      ensures LosesLeftovers(before)
      ensures if !done then LeftoversIn(todo - {key}) else ok ==> MetHeld(log, wan.entries)
      ensures done ==> !NoLeftovers(before.wan.entries)
      ensures Alone() && before.wan == before.stored && AllNamed(before.wan.entries, before.maps) ==> ok
    {
      if key !in wan.entries { return false, true; }
      done, ok := VisitLeftover(key);
    }

    method VisitLeftover(key: string) returns (done: bool, ok: bool)
      requires Valid() && Current() && key in wan.entries
      modifies `stored, `maps, `log, `wan
      ensures Valid() && Storable() && old(log) <= log && (ok ==> Current())
      ensures wan.entries == old(wan.entries) || (IsLeftover(old(wan.entries)[key]) && wan.entries == old(wan.entries) - {key})
      ensures if done then ok ==> MetHeld(log, wan.entries) else ok && (key in wan.entries ==> !IsLeftover(wan.entries[key]))
      ensures !IsLeftover(old(wan.entries)[key]) ==> !done && Calm()
      ensures Alone() && old(wan == stored && wan.entries[key].resourceName in maps) ==>
                ok && OnlyEntries() && (key !in wan.entries ==> !maps[old(wan.entries)[key].resourceName].wanFinalizer)
    {
      var e := wan.entries[key];
      if e.publisherId == "" || e.status != Terminating { return false, true; }
      var r := GetMap(e.resourceName);
      match r
      case ReadError => return true, false;
      case NotFound =>
        // The entry is deleted, and the error of the read is returned all the same.
        var deleted := DeleteWanMapStatus(key);
        return true, false;
      case Found(m) =>
        if m.wanFinalizer { return true, true; }
        ok := DeleteWanMapStatus(key);
        done := !ok;
    }

    method GetPublishedMapsFromStatus() returns (ok: bool, published: map<string, MapObject>)
      requires Valid() && Current()
      modifies `stored, `maps, `log
      ensures Valid() && Current() && old(log) <= log
      ensures forall key :: key in published ==> CopyOf(published[key], log)
      ensures ok ==> forall key :: key in published <==> Published(wan.entries, key)
      ensures ok ==> forall key :: key in published && key in wan.entries ==> published[key].name == wan.entries[key].resourceName
      ensures Calls() && old(AllNamed(wan.entries, maps)) ==> ok && Calm() && ReadFrom(published, wan.entries, maps)
    {
      ghost var before := Now();
      published := map[];
      var todo := wan.entries.Keys;
      while todo != {}
        invariant Valid() && Current() && old(log) <= log && todo <= wan.entries.Keys
        invariant forall key :: key in published ==> CopyOf(published[key], log)
        invariant IsRead(published, todo) && ReadCalmly(before, published)
        decreases |todo|
      {
        var key :| key in todo;
        ok, published := ReadNext(key, published, todo, before);
        if !ok { return; }
        todo := todo - {key};
      }
      return true, published;
    }

    /** The maps of the entries with a publisher were read, except for those in `todo`. */
    ghost predicate IsRead(published: map<string, MapObject>, todo: set<string>) reads this {
      && (forall key :: key in published <==> Published(wan.entries, key) && key !in todo)
      && (forall key :: key in published && key in wan.entries ==> published[key].name == wan.entries[key].resourceName)
    }

    ghost predicate ReadCalmly(before: Snapshot, published: map<string, MapObject>) reads this {
      && wan == before.wan
      && (Calls() && AllNamed(before.wan.entries, before.maps) ==> Now() == before && ReadFrom(published, wan.entries, maps))
    }

    method ReadNext(key: string, published: map<string, MapObject>, ghost todo: set<string>, ghost before: Snapshot)
      returns (ok: bool, published': map<string, MapObject>)
      requires Valid() && Current() && key in todo && key in wan.entries
      requires forall k :: k in published ==> CopyOf(published[k], log)
      requires IsRead(published, todo) && ReadCalmly(before, published)
      modifies `stored, `maps, `log
      ensures Valid() && Current() && old(log) <= log && ReadCalmly(before, published')
      ensures forall k :: k in published' ==> CopyOf(published'[k], log)
      ensures ok ==> IsRead(published', todo - {key})
      ensures Calls() && AllNamed(before.wan.entries, before.maps) ==> ok
    {
      if wan.entries[key].publisherId == "" { return true, published; }
      var r := GetMap(wan.entries[key].resourceName);
      if !r.Found? { return false, published; }
      return true, published[key := r.o];
    }

    /** Success means that no entry is left and that the maps of all entries with a publisher are
        released.  Alone, it succeeds when the entries name their maps, and changes no other map. */
    method StopWanReplicationAllMaps() returns (ok: bool, ghost published: map<string, MapObject>)
      requires Valid() && Current()
      modifies `connected, `stored, `maps, `log, `wan
      ensures Valid() && Storable() && old(log) <= log && (ok ==> Current() && wan.entries == map[])
      ensures ok ==> forall key :: Published(old(wan.entries), key) ==> key in published
      ensures ok ==> AllReleased(log, |old(log)|, published, {})
      ensures Alone() && old(wan == stored && AllNamed(wan.entries, maps)) ==>
                && ok && EntriesOnly() && ReadFrom(published, old(wan.entries), old(maps))
                && Cleared(old(maps), maps, published, {})
    {
      var found;
      ok, found := GetPublishedMapsFromStatus();
      published := found;
      if !ok { return; }
      ok := StopEntries(found, |old(log)|);
      if ok { ok := |wan.entries| == 0; }
    }

    method StopEntries(published: map<string, MapObject>, ghost from: nat) returns (ok: bool)
      requires Valid() && Current() && from <= |log|
      requires forall key :: key in published ==> CopyOf(published[key], log) && Published(wan.entries, key)
      modifies `connected, `stored, `maps, `log, `wan
      ensures Valid() && Storable() && old(log) <= log && (ok ==> Current())
      ensures ok && wan.entries == map[] ==> AllReleased(log, from, published, {})
      ensures Alone() && old(wan == stored && ReadFrom(published, wan.entries, maps)) ==>
                ok && EntriesOnly() && Cleared(old(maps), maps, published, {}) && wan.entries == map[]
    {
      ghost var start, mapsBefore := wan, maps;
      ghost var named := Alone() && wan == stored && ReadFrom(published, wan.entries, maps);
      var todo := wan.entries.Keys;
      while todo != {}
        invariant Valid() && Current() && old(log) <= log
        invariant forall key :: key in published ==> CopyOf(published[key], log)
        invariant StoppedSoFar(log, from, published, start.entries, wan.entries, todo)
        invariant named ==> ClearedSoFar(start, mapsBefore, published, todo)
        decreases |todo|
      {
        var key :| key in todo;
        ok := StopEntry(key, published, todo, from, start, mapsBefore, named);
        if !ok { return; }
        todo := todo - {key};
      }
      ok := true;
    }

    /** The entries in `todo` are left, and the maps of the others were let go. */
    ghost predicate ClearedSoFar(start: WanObject, mapsBefore: map<string, MapObject>, published: map<string, MapObject>, todo: set<string>)
      reads this
    {
      && Follows(start) && wan.entries.Keys == todo && LeftOf(start.entries, wan.entries, todo)
      && ReadFrom(published, start.entries, mapsBefore) && Cleared(mapsBefore, maps, published, todo)
    }

    /** One entry: deleted when it has no publisher, stopped when it has one. */
    method StopEntry(key: string, published: map<string, MapObject>, ghost todo: set<string>, ghost from: nat,
                     ghost start: WanObject, ghost mapsBefore: map<string, MapObject>, ghost named: bool)
      returns (ok: bool)
      requires Valid() && Current() && from <= |log| && key in todo
      requires forall k :: k in published ==> CopyOf(published[k], log) && Published(start.entries, k)
      requires StoppedSoFar(log, from, published, start.entries, wan.entries, todo)
      requires named ==> Alone() && ClearedSoFar(start, mapsBefore, published, todo)
      modifies `connected, `stored, `maps, `log, `wan
      ensures Valid() && Storable() && old(log) <= log && (ok ==> Current())
      ensures ok ==> StoppedSoFar(log, from, published, start.entries, wan.entries, todo - {key})
      ensures named ==> ok && ClearedSoFar(start, mapsBefore, published, todo - {key})
      ensures forall k :: k in published ==> CopyOf(published[k], log)
    {
      ghost var mid := maps;
      if named { ClearedStep(mapsBefore, mid, mid, start.entries, published, todo, key); }
      ok := VisitEntry(key, published);
      if ok { StoppedSoFarStep(old(log), log, from, published, start.entries, old(wan.entries), wan.entries, todo, key); }
      if named { ClearedStep(mapsBefore, mid, maps, start.entries, published, todo, key); }
      forall k | k in published ensures CopyOf(published[k], log) {
        assert CopyOf(published[k], old(log));
      }
    }

    method VisitEntry(key: string, published: map<string, MapObject>) returns (ok: bool)
      requires Valid() && Current()
      requires key in published ==> CopyOf(published[key], log)
      modifies `connected, `stored, `maps, `log, `wan
      ensures Valid() && Storable() && old(log) <= log && (ok ==> Current())
      ensures key !in old(wan.entries) ==> ok && Calm()
      ensures ok && key in old(wan.entries) ==> wan.entries == old(wan.entries) - {VisitedKey(published, key)}
      ensures ok && key in old(wan.entries) && key in published && published[key].wanFinalizer &&
              Published(old(wan.entries), VisitedKey(published, key)) ==>
                ReleasedSince(log, |old(log)|, published[key].name)
      ensures Alone() && old(wan == stored) && key in old(wan.entries) && (key in published ==> HoldsMap(old(maps), published[key])) ==>
                && ok && EntriesOnly()
                && if key in published && Published(old(wan.entries), VisitedKey(published, key))
                   then LetGo(old(maps), maps, published[key], false) else maps == old(maps)
    {
      if key !in wan.entries { return true; }
      if key !in published {
        ok := DeleteWanMapStatus(key);
        return;
      }
      ok := GetHazelcastClient();
      if !ok { return; }
      ghost var from := |log|;
      ok := StopWanReplicationMap(published[key]);
      if ok && published[key].wanFinalizer && Published(old(wan.entries), VisitedKey(published, key)) {
        ReleasedSinceLater(log, log, from, |old(log)|, published[key].name);
      }
    }

    /** Success means that no entry is left that the spec does not select, apart from entries that
        name a map with another key. */
    method StopWanRepForRemovedResources(groups: Groups) returns (ok: bool)
      requires Valid() && Current() && GroupsOk(groups, log)
      modifies `connected, `stored, `maps, `log, `wan
      ensures Valid() && Storable() && old(log) <= log && (ok ==> Current())
      ensures ok ==> Wanted(log, wan.entries, SpecKeys(groups), {})
      ensures old(wan.entries.Keys) <= SpecKeys(groups) ==> ok && Calm()
      ensures Alone() && old(wan == stored && Removable(wan.entries, SpecKeys(groups), maps)) ==> ok && CutFrom(old(Now()), SpecKeys(groups))
    {
      ghost var before := Now();
      var mapsInSpec := SpecKeys(groups);
      var todo := wan.entries.Keys;
      while todo != {}
        invariant Valid() && Current() && old(log) <= log
        invariant Wanted(log, wan.entries, mapsInSpec, todo)
        invariant before.wan.entries.Keys <= mapsInSpec ==> Now() == before
        invariant Cuts(before, mapsInSpec) ==> CutFrom(before, mapsInSpec + todo)
        decreases |todo|
      {
        var key :| key in todo;
        ok := StopUnlessInSpec(key, mapsInSpec, todo, before);
        if !ok { return false; }
        todo := todo - {key};
      }
      return true;
    }

    ghost predicate Cuts(before: Snapshot, mapsInSpec: set<string>) reads this`env {
      Alone() && before.wan == before.stored && Removable(before.wan.entries, mapsInSpec, before.maps)
    }

    /** The entries outside `keys` are gone and their maps let go; nothing else has changed. */
    ghost predicate CutFrom(before: Snapshot, keys: set<string>) reads this {
      && Follows(before.stored) && SubTable(before.wan.entries, wan.entries)
      && (forall key :: key in wan.entries <==> key in before.wan.entries && key in keys)
      && AllLetGo(before.wan.entries - wan.entries.Keys, before.maps, maps)
    }

    method StopUnlessInSpec(key: string, mapsInSpec: set<string>, ghost todo: set<string>, ghost before: Snapshot) returns (ok: bool)
      requires Valid() && Current() && Wanted(log, wan.entries, mapsInSpec, todo) && key in todo
      requires Cuts(before, mapsInSpec) ==> CutFrom(before, mapsInSpec + todo)
      modifies `connected, `stored, `maps, `log, `wan
      ensures Valid() && Storable() && old(log) <= log && (ok ==> Current())
      ensures ok ==> Wanted(log, wan.entries, mapsInSpec, todo - {key})
      ensures old(wan.entries.Keys) <= mapsInSpec ==> ok && Calm()
      ensures Cuts(before, mapsInSpec) ==> ok && CutFrom(before, mapsInSpec + (todo - {key}))
    {
      if key !in wan.entries || key in mapsInSpec { return true; }
      ghost var m;
      ok, m := StopMapOf(key);
      if !ok { return false; }
      WantedLater(old(log), log, old(wan.entries), wan.entries, mapsInSpec, todo);
      assert key in wan.entries ==> CopyOf(m, log) && WanMapKey(m.hz, m.mapName) != key;
      if Cuts(before, mapsInSpec) {
        AllLetGoStep(before.wan.entries, old(wan.entries), before.maps, old(maps), maps, key, m);
      }
    }

    /** Reads the map an entry names and stops it. */
    method StopMapOf(key: string) returns (ok: bool, ghost m: MapObject)
      requires Valid() && Current() && key in wan.entries
      modifies `connected, `stored, `maps, `log, `wan
      ensures Valid() && Storable() && old(log) <= log && (ok ==> Current())
      ensures ok ==> CopyOf(m, log) && m.name == old(wan.entries)[key].resourceName
      ensures ok ==> wan.entries == old(wan.entries) - {WanMapKey(m.hz, m.mapName)}
      ensures Alone() && old(wan == stored && wan.entries[key].resourceName in maps) ==>
                ok && m == old(maps)[old(wan.entries)[key].resourceName] && Stopped(m)
    {
      var r := GetMap(wan.entries[key].resourceName);
      if !r.Found? { m := *; return false, m; }
      m := r.o;
      ok := GetHazelcastClient();
      if !ok { return; }
      ok := StopWanReplicationMap(r.o);
    }

    method CleanupTerminatingMapCRs(groups: Groups) returns (ok: bool)
      requires Valid() && Current() && GroupsOk(groups, log)
      modifies `connected, `stored, `maps, `log, `wan
      ensures Valid() && Storable() && old(log) <= log && (ok ==> Current())
      ensures ok ==> forall hz :: hz in groups ==> StoppedFor(groups[hz], |groups[hz]|, wan.entries)
      ensures ok ==> SubTable(old(wan.entries), wan.entries)
      ensures Calls() && (forall hz :: hz in groups ==> NoneTerminating(groups[hz])) ==> ok && Calm()
      ensures Alone() && old(wan == stored && (forall hz :: hz in groups ==> AllCurrent(groups[hz], maps))) ==> ok && EntriesOnly()
    {
      ghost var before := Now();
      var todo := groups.Keys;
      while todo != {}
        invariant Valid() && Current() && old(log) <= log && todo <= groups.Keys && GroupsOk(groups, log)
        invariant GroupsCleaned(before, groups, todo)
        decreases |todo|
      {
        var hz :| hz in todo;
        ok := CleanupGroup(hz, groups, todo, before);
        if !ok { return false; }
        todo := todo - {hz};
      }
      return true;
    }

    /** What a cleanup has done from `before` on, except for the clusters in `todo`. */
    ghost predicate GroupsCleaned(before: Snapshot, groups: Groups, todo: set<string>) reads this {
      && SubTable(before.wan.entries, wan.entries)
      && (forall hz :: hz in groups && hz !in todo ==> StoppedFor(groups[hz], |groups[hz]|, wan.entries))
      && (Calls() && (forall hz :: hz in groups ==> NoneTerminating(groups[hz])) ==> Now() == before)
      && (Cleans(before, groups) ==> Follows(before.stored) && forall hz :: hz in groups && hz in todo ==> AllCurrent(groups[hz], maps))
    }

    ghost predicate Cleans(before: Snapshot, groups: Groups) reads this`env {
      Alone() && before.wan == before.stored && forall hz :: hz in groups ==> AllCurrent(groups[hz], before.maps)
    }

    method CleanupGroup(hz: string, groups: Groups, ghost todo: set<string>, ghost before: Snapshot) returns (ok: bool)
      requires Valid() && Current() && GroupsOk(groups, log) && hz in groups && hz in todo && GroupsCleaned(before, groups, todo)
      modifies `connected, `stored, `maps, `log, `wan
      ensures Valid() && Storable() && old(log) <= log && (ok ==> Current()) && GroupsOk(groups, log)
      ensures ok ==> GroupsCleaned(before, groups, todo - {hz})
      ensures Calls() && (forall h :: h in groups ==> NoneTerminating(groups[h])) ==> ok
      ensures Cleans(before, groups) ==> ok
    {
      ok := ConnectAndCleanup(hz, groups[hz], groups);
      GroupsOkLater(groups, old(log), log);
      if !ok { return false; }
      forall h | h in groups && h !in todo - {hz} ensures StoppedFor(groups[h], |groups[h]|, wan.entries) {
        if h != hz { assert StoppedFor(groups[h], |groups[h]|, old(wan.entries)); }
      }
      if Cleans(before, groups) {
        forall h | h in groups && h in todo - {hz} ensures AllCurrent(groups[h], maps) {
          StillCurrent(groups[hz], groups[h], old(maps), maps, hz, h);
        }
      }
    }

    method ConnectAndCleanup(hz: string, list: seq<MapObject>, ghost groups: Groups) returns (ok: bool)
      requires Valid() && Current() && GroupsOk(groups, log) && hz in groups && list == groups[hz]
      modifies `connected, `stored, `maps, `log, `wan
      ensures Valid() && Storable() && old(log) <= log && (ok ==> Current())
      ensures ok ==> SubTable(old(wan.entries), wan.entries) && StoppedFor(list, |list|, wan.entries)
      ensures Calls() && NoneTerminating(list) ==> ok && Calm()
      ensures Alone() && old(wan == stored && AllCurrent(list, maps)) ==> ok && EntriesOnly() && OthersKept(old(maps), maps, list)
    {
      ok := GetHazelcastClient();
      if !ok { return false; }
      GroupsOkLater(groups, old(log), log);
      ok := CleanupMapsOf(list);
    }

    /** The terminating maps of one cluster. */
    method CleanupMapsOf(list: seq<MapObject>) returns (ok: bool)
      requires connected && Valid() && Current() && forall i :: 0 <= i < |list| ==> CopyOf(list[i], log)
      modifies `stored, `maps, `log, `wan
      ensures Valid() && Storable() && old(log) <= log && (ok ==> Current())
      ensures ok ==> SubTable(old(wan.entries), wan.entries) && StoppedFor(list, |list|, wan.entries)
      ensures NoneTerminating(list) ==> ok && Calm()
      ensures Alone() && old(wan == stored && AllCurrent(list, maps)) ==> ok && EntriesOnly() && OthersKept(old(maps), maps, list)
    {
      ghost var before := Now();
      for i := 0 to |list|
        invariant Valid() && Current() && old(log) <= log && MapsCleaned(before, list, i)
        invariant forall k :: 0 <= k < |list| ==> CopyOf(list[k], log)
      {
        ok := CleanupMap(list[i], list, i, before);
        if !ok { return false; }
        forall k | 0 <= k < |list| ensures CopyOf(list[k], log) { assert CopyOf(list[k], old(log)); }
      }
      assert list[..|list|] == list;
      return true;
    }

    /** So far for the first maps of a list. */
    ghost predicate MapsCleaned(before: Snapshot, list: seq<MapObject>, i: nat) reads this
      requires i <= |list|
    {
      && SubTable(before.wan.entries, wan.entries) && StoppedFor(list, i, wan.entries)
      && (NoneTerminating(list) ==> Now() == before)
      && (Alone() && before.wan == before.stored && AllCurrent(list, before.maps) ==>
            Follows(before.stored) && OthersKept(before.maps, maps, list[..i]))
    }

    method CleanupMap(m: MapObject, ghost list: seq<MapObject>, ghost i: nat, ghost before: Snapshot) returns (ok: bool)
      requires connected && Valid() && Current() && CopyOf(m, log) && i < |list| && m == list[i] && MapsCleaned(before, list, i)
      modifies `stored, `maps, `log, `wan
      ensures Valid() && Storable() && old(log) <= log && (ok ==> Current() && MapsCleaned(before, list, i + 1))
      ensures NoneTerminating(list) ==> ok
      ensures Alone() && before.wan == before.stored && AllCurrent(list, before.maps) ==> ok
    {
      OthersKeptStep(before.maps, maps, list, i);
      if m.state != MapTerminating { return true; }
      ghost var was, mid := wan.entries, maps;
      ok := StopWanReplicationMap(m);
      if ok { StoppedForStep(list, i, was, wan.entries); }
      OthersKeptAfter(before.maps, mid, maps, list, i);
    }

    /** The maps selected by the spec, each once, under its own cluster. */
    method GetMapsGroupByHazelcastName() returns (ok: bool, groups: Groups, ghost lookups: seq<Lookup>)
      requires Valid() && Current()
      modifies `stored, `maps, `log
      ensures Valid() && Current() && old(log) <= log && GroupsOk(groups, log)
      ensures ok ==> |lookups| == |wan.spec.resources| && AllLookedUp(wan.spec.resources, lookups)
      ensures ok ==> Grouped(groups, lookups)
      ensures Calls() && old(AllThere(wan.spec.resources, maps)) ==> ok && Calm() && LooksUp(wan.spec.resources, maps, lookups)
    {
      var collected;
      ok, collected, lookups := CollectMaps();
      if !ok { return false, map[], []; }
      groups := DeduplicateAll(collected);
      forall hz, i | hz in groups && 0 <= i < |groups[hz]|
        ensures CopyOf(groups[hz][i], log) && groups[hz][i].hz == hz
      {
        assert Deduplicated(collected[hz], groups[hz]) && groups[hz][i] in collected[hz];
      }
      GroupedAfterDeduplication(collected, groups, lookups);
    }

    method CollectMaps() returns (ok: bool, collected: Groups, ghost lookups: seq<Lookup>)
      requires Valid() && Current()
      modifies `stored, `maps, `log
      ensures Valid() && Current() && old(log) <= log && GroupsOk(collected, log)
      ensures ok ==> |lookups| == |wan.spec.resources| && AllLookedUp(wan.spec.resources, lookups) && Collected(collected, lookups)
      ensures Calls() && old(AllThere(wan.spec.resources, maps)) ==> ok && Calm() && LooksUp(wan.spec.resources, maps, lookups)
    {
      collected, lookups := map[], [];
      for i := 0 to |wan.spec.resources|
        invariant Valid() && Current() && old(log) <= log && GroupsOk(collected, log)
        invariant |lookups| == i && AllLookedUp(wan.spec.resources, lookups) && Collected(collected, lookups)
        invariant Calls() && old(AllThere(wan.spec.resources, maps)) ==> Calm() && LooksUp(wan.spec.resources, maps, lookups)
      {
        ghost var before := lookups;
        ok, collected, lookups := CollectNext(wan.spec.resources[i], collected, lookups);
        if !ok { return false, map[], []; }
        LookedUpStep(wan.spec.resources, before, lookups, maps);
      }
      return true, collected, lookups;
    }

    /** One resource of the spec. */
    method CollectNext(resource: ResourceSpec, groups: Groups, ghost lookups: seq<Lookup>)
      returns (ok: bool, collected: Groups, ghost lookups': seq<Lookup>)
      requires Valid() && Current() && GroupsOk(groups, log) && Collected(groups, lookups)
      modifies `stored, `maps, `log
      ensures Valid() && Current() && old(log) <= log
      ensures ok ==> GroupsOk(collected, log) && Collected(collected, lookups')
      ensures ok ==> |lookups'| == |lookups| + 1 && lookups <= lookups' && LookedUp(resource, lookups'[|lookups|])
      ensures Calls() && resource.kind == KindMap && resource.name in old(maps) ==>
                ok && Calm() && lookups'[|lookups|] == OfMap(maps[resource.name])
    {
      ghost var before := log;
      ghost var l;
      var hz, found;
      ok, hz, found, l := LookUp(resource);
      lookups' := lookups + [l];
      if !ok { return ok, groups, lookups'; }
      GroupsOkLater(groups, before, log);
      collected := if found == [] then groups else groups[hz := GroupOf(groups, hz) + found];
      CollectedStep(groups, collected, lookups, hz, l);
    }

    /** The maps one resource of the spec stands for: all of one cluster. */
    method LookUp(resource: ResourceSpec) returns (ok: bool, hz: string, found: seq<MapObject>, ghost l: Lookup)
      requires Valid() && Current()
      modifies `stored, `maps, `log
      ensures Valid() && Current() && old(log) <= log
      ensures ok ==> LookedUp(resource, l) && FoundBy(l) == found
      ensures ok ==> forall i :: 0 <= i < |found| ==> CopyOf(found[i], log) && found[i].hz == hz
      ensures Calls() && resource.kind == KindMap && resource.name in old(maps) ==> ok && Calm() && l == OfMap(maps[resource.name])
    {
      match resource.kind
      case KindMap =>
        var r := GetMap(resource.name);
        if !r.Found? { return false, "", [], OfCluster(map[], []); }
        return true, r.o.hz, [r.o], OfMap(r.o);
      case KindHazelcast =>
        ghost var listed;
        ok, found, listed := GetAllMapsInHazelcast(resource.name);
        return ok, resource.name, found, OfCluster(listed, found);
    }

    /** The listing may be outdated too. */
    method GetAllMapsInHazelcast(hz: string) returns (ok: bool, found: seq<MapObject>, ghost listed: map<string, MapObject>)
      requires Valid() && Current()
      modifies `stored, `maps, `log
      ensures Valid() && Current() && old(log) <= log
      ensures IsSelection(listed, hz, found)
      ensures forall i :: 0 <= i < |found| ==> CopyOf(found[i], log) && found[i].hz == hz
    {
      Interfere();
      ok := *;
      var items: map<string, MapObject> := *;
      if !(forall n :: n in items ==> CopyOf(items[n], log)) { items := maps; }
      found := SelectMapsOf(items, hz);
      listed := items;
      forall i | 0 <= i < |found| ensures CopyOf(found[i], log) && found[i].hz == hz {
        assert found[i] in found;
      }
    }

    /** Applies the changes to the copy and stores it; a conflict is not reported. */
    method PatchWanMapStatuses(options: map<string, Applier>) returns (ok: bool, ghost accepted: bool)
      requires Valid() && Current()
      requires forall key :: key in options ==> Admissible(name, key, options[key], EntryAt(wan.entries, key), log)
      modifies `stored, `maps, `log, `wan
      ensures Valid() && Storable() && old(log) <= log && (ok ==> Current())
      ensures (wan.status == Success <==> AllSuccess(wan.entries)) && (wan.status == Failed <==> AllFailed(wan.entries))
      ensures Applied(old(wan.entries), wan.entries, options, {}) && wan.spec == old(wan.spec)
      ensures Alone() && old(wan == stored) ==> ok && accepted && OnlyStatus()
      ensures ok ==> stored.entries == if accepted then wan.entries else old(stored.entries)
      ensures Races() ==> ok && !accepted && OnlyDeleted() && wan.version != stored.version
    {
      var entries := ApplyAll(wan.entries, options);
      AppliedKeeps(name, wan.entries, entries, options, log);
      var status := WanStatusFromMapStatuses(entries);
      wan := wan.(entries := entries, status := status);
      var r := StatusUpdate();
      return r != Error, r == Ok;
    }

    /** Asks the cluster to add the publisher; it may have been added when an error is reported. */
    method ApplyWanReplication(key: string) returns (ok: bool)
      requires connected && Valid() && Current()
      modifies `stored, `maps, `log
      ensures Valid() && Current() && old(log) <= log
      ensures ok ==> log[|log| - 1] == Added(PublisherId(name, key))
      ensures stored.entries == old(stored.entries) && (Calls() ==> ok && Calm())
    {
      Interfere();
      var applied := Granted(env, Answers);
      if applied { Record(Added(PublisherId(name, key))); }
      ok := Granted(env, Answers);
      ok := ok && applied;
    }

    /** The ready maps of one cluster that have no publisher yet. */
    method StartMapsOf(hz: string, list: seq<MapObject>, requested: map<string, Applier>, ghost groups: Groups)
      returns (options: map<string, Applier>)
      requires connected && Valid() && Current() && Requested(name, requested, wan.entries)
      requires hz in groups && groups[hz] == list && AllFromGroups(name, groups, requested)
      modifies `stored, `maps, `log
      ensures Valid() && Current() && old(log) <= log && Requested(name, options, wan.entries)
      ensures requested.Keys <= options.Keys && StartedFor(hz, list, |list|, PublishedKeys(wan.entries) + options.Keys)
      ensures stored.entries == old(stored.entries) && AllFromGroups(name, groups, options)
      ensures Calls() ==> Calm() && (AllPersisting(requested) ==> AllPersisting(options))
    {
      options := requested;
      for i := 0 to |list|
        invariant Valid() && Current() && old(log) <= log && Requested(name, options, wan.entries)
        invariant requested.Keys <= options.Keys && StartedFor(hz, list, i, PublishedKeys(wan.entries) + options.Keys)
        invariant stored.entries == old(stored.entries) && AllFromGroups(name, groups, options)
        invariant Calls() ==> Calm() && (AllPersisting(requested) ==> AllPersisting(options))
      {
        options := StartMap(hz, i, list[i], options, groups);
      }
    }

    method StartMap(hz: string, i: nat, m: MapObject, requested: map<string, Applier>, ghost groups: Groups)
      returns (options: map<string, Applier>)
      requires connected && Valid() && Current() && Requested(name, requested, wan.entries)
      requires hz in groups && i < |groups[hz]| && groups[hz][i] == m && AllFromGroups(name, groups, requested)
      modifies `stored, `maps, `log
      ensures Valid() && Current() && old(log) <= log && Requested(name, options, wan.entries)
      ensures requested.Keys <= options.Keys
      ensures m.state == MapSuccess ==> WanMapKey(hz, m.mapName) in PublishedKeys(wan.entries) + options.Keys
      ensures stored.entries == old(stored.entries) && AllFromGroups(name, groups, options)
      ensures Calls() ==> Calm() && (AllPersisting(requested) ==> AllPersisting(options))
    {
      var key := WanMapKey(hz, m.mapName);
      if EntryAt(wan.entries, key).publisherId != "" { return requested; }
      if m.state != MapSuccess { return requested; }
      assert SepAt(key, |hz|);
      var added := ApplyWanReplication(key);
      var a := if added then ToPersisting(PublisherId(name, key), m.name) else ToFailed("failed to apply WAN configuration");
      assert StartsMap(name, groups, key, a, hz, i);
      options := requested[key := a];
    }

    /** Afterwards the copy has an entry for every ready map, with a publisher or Failed; entries
        with a publisher are as they were, and every other change starts a map of the groups. */
    method StartWanReplication(groups: Groups) returns (ok: bool, ghost accepted: bool)
      requires Valid() && Current() && GroupsOk(groups, log)
      modifies `connected, `stored, `maps, `log, `wan
      ensures Valid() && Storable() && old(log) <= log && (ok ==> Current())
      ensures ok ==> forall hz :: hz in groups ==> StartedFor(hz, groups[hz], |groups[hz]|, SettledKeys(wan.entries))
      ensures KeepsPublished(old(wan.entries), wan.entries)
      ensures ok ==> stored.entries == if accepted then wan.entries else old(stored.entries)
      ensures Races() ==> ok && !accepted && OnlyDeleted() && wan.version != stored.version
      ensures StartedFromGroups(name, groups, old(wan.entries), wan.entries)
      ensures Calls() ==> forall hz :: hz in groups ==> StartedFor(hz, groups[hz], |groups[hz]|, PublishedKeys(wan.entries))
      ensures Alone() && old(wan == stored) ==> ok && OnlyStatus()
    {
      accepted := false;
      var options;
      ok, options := RequestAll(groups);
      if !ok { return; }
      ghost var before := wan.entries;
      ok, accepted := PatchWanMapStatuses(options);
      RequestsApplied(name, groups, before, wan.entries, options);
      forall hz | hz in groups ensures StartedFor(hz, groups[hz], |groups[hz]|, SettledKeys(wan.entries)) {
        StartedForMore(hz, groups[hz], PublishedKeys(before) + options.Keys, SettledKeys(wan.entries));
      }
      forall hz | hz in groups && AllPersisting(options) ensures StartedFor(hz, groups[hz], |groups[hz]|, PublishedKeys(wan.entries)) {
        StartedForMore(hz, groups[hz], PublishedKeys(before) + options.Keys, PublishedKeys(wan.entries));
      }
    }

    /** The changes for all clusters. */
    method RequestAll(groups: Groups) returns (ok: bool, options: map<string, Applier>)
      requires Valid() && Current() && GroupsOk(groups, log)
      modifies `connected, `stored, `maps, `log
      ensures Valid() && Current() && old(log) <= log && Requested(name, options, wan.entries)
      ensures ok ==> forall hz :: hz in groups ==> StartedFor(hz, groups[hz], |groups[hz]|, PublishedKeys(wan.entries) + options.Keys)
      ensures stored.entries == old(stored.entries) && (Calls() ==> ok && Calm() && AllPersisting(options))
      ensures AllFromGroups(name, groups, options)
    {
      options := map[];
      var todo := groups.Keys;
      while todo != {}
        invariant Valid() && Current() && old(log) <= log && todo <= groups.Keys && Requested(name, options, wan.entries)
        invariant stored.entries == old(stored.entries) && (Calls() ==> Calm() && AllPersisting(options))
        invariant AllFromGroups(name, groups, options)
        invariant forall hz :: hz in groups && hz !in todo ==>
                    StartedFor(hz, groups[hz], |groups[hz]|, PublishedKeys(wan.entries) + options.Keys)
        decreases |todo|
      {
        var hz :| hz in todo;
        todo := todo - {hz};
        ok := GetHazelcastClient();
        if !ok { return false, options; }
        ghost var before := options;
        options := StartMapsOf(hz, groups[hz], options, groups);
        forall h | h in groups && h !in todo
          ensures StartedFor(h, groups[h], |groups[h]|, PublishedKeys(wan.entries) + options.Keys)
        {
          if h != hz { StartedForMore(h, groups[h], PublishedKeys(wan.entries) + before.Keys, PublishedKeys(wan.entries) + options.Keys); }
        }
      }
      return true, options;
    }

    /** Afterwards every entry with a publisher has, under the map name its key splits into, a map
        among the groups that is held by the WAN finalizer. */
    method AddWanRepFinalizerToReplicatedMaps(groups: Groups, ghost m: MapObject) returns (ok: bool)
      requires Valid() && Current() && GroupsOk(groups, log)
      modifies `stored, `maps, `log
      ensures Valid() && Current() && old(log) <= log
      ensures ok ==> AllHeld(log, wan.entries, {}) && AllFound(groups, wan.entries, {})
      ensures stored.entries == old(stored.entries)
      ensures Calls() && OnlyMap(groups, m) && HoldsMap(old(maps), m) && OnlyEntryOf(wan.entries, m) ==>
                ok && stored == old(stored) && Taken(old(maps), maps, m)
    {
      ghost var single := Calls() && OnlyMap(groups, m) && HoldsMap(maps, m) && OnlyEntryOf(wan.entries, m);
      var slices := groups;
      var todo := wan.entries.Keys;
      while todo != {}
        invariant Valid() && Current() && old(log) <= log && todo <= wan.entries.Keys && GroupsOk(slices, log)
        invariant AllHeld(log, wan.entries, todo) && AllFound(groups, wan.entries, todo) && SameNames(groups, slices)
        invariant stored.entries == old(stored.entries)
        invariant single ==> stored == old(stored)
        invariant single ==> if todo == {} then Taken(old(maps), maps, m) else todo == wan.entries.Keys && maps == old(maps) && slices == groups
        decreases |todo|
      {
        var key :| key in todo;
        ok, slices := HoldNext(key, groups, slices, todo, m);
        if !ok { return false; }
        todo := todo - {key};
      }
      return true;
    }

    /** One entry of the table; those without publisher are passed over. */
    method HoldNext(key: string, ghost groups: Groups, slices: Groups, ghost todo: set<string>, ghost m: MapObject)
      returns (ok: bool, slices': Groups)
      requires Valid() && Current() && GroupsOk(slices, log) && key in wan.entries
      requires AllHeld(log, wan.entries, todo) && AllFound(groups, wan.entries, todo) && SameNames(groups, slices)
      modifies `stored, `maps, `log
      ensures Valid() && Current() && old(log) <= log && stored.entries == old(stored.entries)
      ensures ok ==> GroupsOk(slices', log) && SameNames(groups, slices')
      ensures ok ==> AllHeld(log, wan.entries, todo - {key}) && AllFound(groups, wan.entries, todo - {key})
      ensures wan.entries[key].publisherId == "" ==> ok && Calm() && slices' == slices
      ensures Calls() && OnlyMap(slices, m) && HoldsMap(old(maps), m) && SplitsInto(key, m) && wan.entries[key].publisherId != "" ==>
                ok && stored == old(stored) && Taken(old(maps), maps, m)
    {
      if wan.entries[key].publisherId == "" { return true, slices; }
      ghost var before := log;
      ghost var o;
      ok, slices', o := HoldMapOf(key, slices, m);
      if !ok { return; }
      AllHeldStep(before, log, wan.entries, todo, key, o);
      FoundInSameNames(groups, slices, key);
    }

    /** The map of one entry, found in the slices and kept up to date there. */
    method HoldMapOf(key: string, slices: Groups, ghost m: MapObject) returns (ok: bool, slices': Groups, ghost o: MapObject)
      requires Valid() && Current() && GroupsOk(slices, log) && key in wan.entries
      modifies `stored, `maps, `log
      ensures Valid() && Current() && old(log) <= log
      ensures ok ==> GroupsOk(slices', log) && HeldBy(log, key, o)
      ensures ok ==> SameNames(slices, slices') && FindSep(key, 0) != -1 && FoundIn(slices, key)
      ensures stored.entries == old(stored.entries)
      ensures Calls() && OnlyMap(slices, m) && HoldsMap(old(maps), m) && SplitsInto(key, m) ==>
                ok && stored == old(stored) && Taken(old(maps), maps, m)
    {
      assert EntryOk(name, key, wan.entries[key], log);
      slices', o := slices, *;
      var (hzName, mapName) := SplitWanMapKey(key);
      var slice := if hzName in slices then slices[hzName] else [];
      var found, i := FindMapInSlice(slice, mapName);
      if !found { return false, slices, o; }
      ghost var before := log;
      var m';
      ok, m' := AddWanRepFinalizerToMap(slice[i]);
      if !ok { return false, slices, o; }
      GroupsOkLater(slices, before, log);
      slices', o := slices[hzName := slice[i := m']], m';
    }

    method AddWanRepFinalizerToMap(m: MapObject) returns (ok: bool, m': MapObject)
      requires Valid() && Current() && CopyOf(m, log)
      modifies `stored, `maps, `log
      ensures Valid() && Current() && old(log) <= log
      ensures ok ==> CopyOf(m', log) && m' == TakenMap(m, m'.version)
      ensures stored.entries == old(stored.entries)
      ensures Calls() && HoldsMap(old(maps), m) ==> ok && stored == old(stored) && Taken(old(maps), maps, m) && maps[m.name] == m'
    {
      if m.wanFinalizer { return true, m; }
      ok, m' := UpdateMap(m, m.(ownedByWan := true, wanFinalizer := true));
    }

    method ReadConfig(hz: string) returns (ok: bool, section: WanSection)
      requires Valid() && Current()
      modifies `connected, `stored, `maps, `log
      ensures Valid() && Current() && old(log) <= log && (Calls() ==> ok && Calm() && (hz in secrets ==> section == secrets[hz]))
    {
      ok := GetHazelcastClient();
      section := *;
      if env.Cooperative? && hz in secrets { section := secrets[hz]; }
    }

    /** Reads the configuration of every cluster from its secret. */
    method ReadConfigs(groups: Groups) returns (ok: bool, configs: map<string, WanSection>)
      requires Valid() && Current()
      modifies `connected, `stored, `maps, `log
      ensures Valid() && Current() && old(log) <= log
      ensures ok ==> configs.Keys == groups.Keys && log != [] && log[|log| - 1] == ConfigRead(wan.spec, configs)
      ensures Calls() ==> ok && Calm() && ReadSecrets(configs, secrets)
    {
      configs := map[];
      var todo := groups.Keys;
      while todo != {}
        invariant todo <= groups.Keys && (forall hz :: hz in configs <==> hz in groups && hz !in todo)
        invariant Calls() ==> Calm() && ReadSecrets(configs, secrets)
        invariant Valid() && Current() && old(log) <= log
        decreases |todo|
      {
        var hz :| hz in todo;
        todo := todo - {hz};
        var section;
        ok, section := ReadConfig(hz);
        if !ok { return false, configs; }
        configs := configs[hz := section];
      }
      assert configs.Keys == groups.Keys;
      Record(ConfigRead(wan.spec, configs));
      return true, configs;
    }

    /** Moves the entries confirmed by the clusters' configurations to Success; `persisted`
        tells whether all entries of the copy then are Success. */
    method ValidateWanConfigPersistence(groups: Groups)
      returns (ok: bool, persisted: bool, ghost configs: map<string, WanSection>)
      requires Valid() && Current()
      modifies `connected, `stored, `maps, `log, `wan
      ensures Valid() && Storable() && old(log) <= log && (ok ==> Current())
      ensures ok ==> (persisted <==> AllSuccess(wan.entries)) && (persisted <==> wan.status == Success) && wan.status != Failed
      ensures ok ==> configs.Keys == groups.Keys && Validated(old(wan.entries), wan.entries, wan.spec, configs)
      ensures Alone() && old(wan == stored && !SomeFailed(wan.entries)) ==> ok && OnlyStatus() && ReadSecrets(configs, secrets)
      ensures Races() && old(wan.version != stored.version) ==> RacedOn()
    {
      var read;
      ok, read := ReadConfigs(groups);
      configs := read;
      if !ok { return false, false, configs; }
      var options := ConfirmedOptions(name, wan.entries, wan.spec, read, log);
      ghost var before := wan.entries;
      ghost var accepted;
      ok, accepted := PatchWanMapStatuses(options);
      ConfirmingValidates(before, wan.entries, wan.spec, configs, options);
      if !ok || wan.status == Failed { return false, false, configs; }
      return true, wan.status == Success, configs;
    }

    method UpdateWanStatus(status: WanStatus)
      requires Valid() && Storable()
      modifies `stored, `maps, `log, `wan
      ensures Valid() && old(log) <= log && (old(Current()) ==> Current())
      ensures wan == old(wan).(status := status, version := wan.version)
      ensures Races() ==> OnlyDeleted()
      ensures env == Cooperative({}) && old(wan.version == stored.version) ==>
                maps == old(maps) && wan.version == stored.version &&
                stored == old(stored).(version := stored.version, entries := wan.entries, status := status)
    {
      wan := wan.(status := status);
      var r := StatusUpdate();
    }

    /** Endpoints without a port get the default one; only then is the resource updated. */
    method CheckWanEndpoint() returns (ok: bool)
      requires Valid() && Current()
      modifies `stored, `maps, `log, `wan
      ensures Valid() && Current() && old(log) <= log
      ensures wan.spec.resources == old(wan.spec.resources)
      ensures Calls() ==> ok && Calm()
    {
      var endpoints: string := *;
      if env.Cooperative? { endpoints := wan.spec.endpoints; }
      if endpoints == wan.spec.endpoints { return true; }
      ok := UpdateWan(wan.(spec := wan.spec.(endpoints := endpoints)));
    }

    method UpdateLastSuccessfulConfiguration() returns (ok: bool)
      requires Valid() && Current() && AllSuccess(wan.entries)
      modifies `stored, `maps, `log, `wan
      ensures Valid() && Current() && old(log) <= log
      ensures ok ==> wan.lastSuccessful == Some(wan.spec)
      ensures Calls() && old(wan.version != stored.version) ==> Calm()
      ensures if old(wan.lastSuccessful == Some(wan.spec)) then ok && Calm() else ok ==> log[|log| - 1] == Annotated(wan.entries)
      ensures Alone() && old(wan == stored) ==>
                && ok && maps == old(maps) && wan == stored
                && stored == old(stored).(version := stored.version, lastSuccessful := Some(stored.spec))
    {
      if wan.lastSuccessful == Some(wan.spec) { return true; }
      ok := UpdateWan(wan.(lastSuccessful := Some(wan.spec)));
    }

    /** A spec is valid when it builds the publisher that was last applied, apart from its
        consistency check strategy. */
    method ValidateWanReplicationSpec() returns (ok: bool)
      ensures ok <==> SpecAllowed(wan)
    {
      if wan.lastSuccessful.None? { return true; }
      var last := wan.lastSuccessful.value;
      return wan.spec == last.(resources := wan.spec.resources,
                               syncConsistencyCheckStrategy := wan.spec.syncConsistencyCheckStrategy);
    }

    // ---------- The reconcile ----------

    /** The part of a reconcile that ends by storing a Failed status when it is cut short. */
    method Prepare(ghost m: MapObject) returns (ok: bool, groups: Groups)
      requires Valid() && Current()
      modifies `connected, `stored, `maps, `log, `wan
      ensures Valid() && Storable() && old(log) <= log
      ensures ok ==> Current() && GroupsOk(groups, log) && NoneUnwanted(groups)
      ensures Calls() && old(Ready(m)) ==> ok && Calm() && OnlyMap(groups, m)
      ensures Calls() && old(Refused(wan, maps)) ==> !ok && Calm()
    {
      groups := map[];
      ok := DeleteLeftoverMapsFromStatus();
      if ok { ok, groups := SelectAndStop(m); }
    }

    method SelectAndStop(ghost m: MapObject) returns (ok: bool, groups: Groups)
      requires Valid() && Current()
      modifies `connected, `stored, `maps, `log, `wan
      ensures Valid() && Storable() && old(log) <= log
      ensures ok ==> Current() && GroupsOk(groups, log) && NoneUnwanted(groups)
      ensures Calls() && old(Ready(m)) ==> ok && Calm() && OnlyMap(groups, m)
      ensures Calls() && old(Refused(wan, maps)) ==> !ok && Calm()
    {
      ghost var lookups;
      ok, groups, lookups := SelectMaps(m);
      if !ok { return; }
      if OnlyMap(groups, m) { OnlyMapSelects(groups, m); }
      ok := StopUnwanted(groups);
    }

    method SelectMaps(ghost m: MapObject) returns (ok: bool, groups: Groups, ghost lookups: seq<Lookup>)
      requires Valid() && Current()
      modifies `stored, `maps, `log, `wan
      ensures Valid() && Current() && old(log) <= log
      ensures ok ==> GroupsOk(groups, log) && old(SpecAllowed(wan))
      ensures ok ==> |lookups| == |wan.spec.resources| && AllLookedUp(wan.spec.resources, lookups) && Grouped(groups, lookups)
      ensures Calls() && old(Ready(m)) ==> ok && Calm() && OnlyMap(groups, m)
      ensures Calls() && old(Refused(wan, maps)) ==> !ok && Calm()
    {
      ok, groups, lookups := GetMapsGroupByHazelcastName();
      if !ok { return; }
      if Calls() && old(Ready(m)) {
        assert lookups == [OfMap(m)];
        SingleGroup(groups, lookups, m);
      }
      ok := ValidateWanReplicationSpec();
      if !ok { return; }
      ghost var before := log;
      ok := CheckWanEndpoint();
      GroupsOkLater(groups, before, log);
    }

    method StopUnwanted(groups: Groups) returns (ok: bool)
      requires Valid() && Current() && GroupsOk(groups, log)
      modifies `connected, `stored, `maps, `log, `wan
      ensures Valid() && Storable() && old(log) <= log && GroupsOk(groups, log)
      ensures ok ==> Current() && NoneUnwanted(groups)
      ensures Calls() && old(wan.entries.Keys) <= SpecKeys(groups) && (forall hz :: hz in groups ==> NoneTerminating(groups[hz])) ==> ok && Calm()
    {
      ghost var before := log;
      ok := StopWanRepForRemovedResources(groups);
      GroupsOkLater(groups, before, log);
      if !ok { return; }
      ok := CleanupAndConnect(groups);
    }

    /** What is left after stopping: entries the spec selects, and none of a terminating map. */
    ghost predicate NoneUnwanted(groups: Groups) reads this {
      && Wanted(log, wan.entries, SpecKeys(groups), {})
      && forall hz :: hz in groups ==> StoppedFor(groups[hz], |groups[hz]|, wan.entries)
    }

    method CleanupAndConnect(groups: Groups) returns (ok: bool)
      requires Valid() && Current() && GroupsOk(groups, log) && Wanted(log, wan.entries, SpecKeys(groups), {})
      modifies `connected, `stored, `maps, `log, `wan
      ensures Valid() && Storable() && old(log) <= log && GroupsOk(groups, log)
      ensures ok ==> Current() && NoneUnwanted(groups)
      ensures Calls() && (forall hz :: hz in groups ==> NoneTerminating(groups[hz])) ==> ok && Calm()
    {
      ok := CleanupTerminatingMapCRs(groups);
      GroupsOkLater(groups, old(log), log);
      if !ok { return; }
      ghost var before := log;
      ok := GetHazelcastClient();      // checkConnectivity
      GroupsOkLater(groups, before, log);
      WantedLater(old(log), log, old(wan.entries), wan.entries, SpecKeys(groups), {});
    }

    ghost predicate Ready(m: MapObject) reads this {
      Replicable(wan, maps, m)
    }

    /** Starts replication and adds the WAN finalizers.  A new entry, whose map is held by then,
        is stored if and only if the status write of the start was accepted, not a conflict. */
    method StartAndHold(groups: Groups, ghost m: MapObject) returns (ok: bool, ghost accepted: bool)
      requires Valid() && Current() && GroupsOk(groups, log)
      modifies `connected, `stored, `maps, `log, `wan
      ensures Valid() && Storable() && old(log) <= log && (ok ==> Current())
      ensures ok ==> AllHeld(log, wan.entries, {}) && AllFound(groups, wan.entries, {})
      ensures ok ==> stored.entries == if accepted then wan.entries else old(stored.entries)
      ensures ok ==> forall key :: key in wan.entries && key !in old(stored.entries) ==> (key in stored.entries <==> accepted)
      ensures Calls() && old(wan == stored && Ready(m)) && OnlyMap(groups, m) ==> ok && StartedFrom(old(stored), m) && Taken(old(maps), maps, m)
    {
      ghost var single := Calls() && old(wan == stored && Ready(m)) && OnlyMap(groups, m);
      ok, accepted := StartGroups(groups, m);
      if !ok { return; }
      assert single ==> HoldsMap(maps, m) && OnlyEntryOf(wan.entries, m);
      ok := AddWanRepFinalizerToReplicatedMaps(groups, m);
    }

    /** Replication of the map was started: this is stored, unless the resource is deleted first. */
    ghost predicate StartedFrom(start: WanObject, m: MapObject) reads this {
      && wan.entries == StartedWith(start, m).entries && !SomeFailed(wan.entries)
      && if Races() then wan.version != stored.version && stored == start.(version := stored.version, deleting := true)
         else wan == stored && stored == StartedWith(start, m).(version := stored.version, status := stored.status)
    }

    method StartGroups(groups: Groups, ghost m: MapObject) returns (ok: bool, ghost accepted: bool)
      requires Valid() && Current() && GroupsOk(groups, log)
      modifies `connected, `stored, `maps, `log, `wan
      ensures Valid() && Storable() && old(log) <= log && (ok ==> Current()) && GroupsOk(groups, log)
      ensures ok ==> stored.entries == if accepted then wan.entries else old(stored.entries)
      ensures Calls() && old(wan == stored && Ready(m)) && OnlyMap(groups, m) ==> ok && StartedFrom(old(stored), m) && maps == old(maps)
    {
      ok, accepted := StartWanReplication(groups);
      GroupsOkLater(groups, old(log), log);
      if Calls() && old(Ready(m)) && OnlyMap(groups, m) { SingleEntry(name, groups, old(wan.entries), wan.entries, m); }
    }

    /** The part of a reconcile after the maps are held. */
    method Confirm(groups: Groups) returns (ok: bool, ghost configs: map<string, WanSection>)
      requires Valid() && Current()
      modifies `connected, `stored, `maps, `log, `wan
      ensures Valid() && old(log) <= log
      ensures Races() && old(wan.version != stored.version) ==>
                maps == old(maps) && stored == old(stored).(version := stored.version, deleting := stored.deleting) &&
                (old(stored).deleting ==> stored.deleting)
      ensures !ok ==> wan.status == Failed
      ensures Alone() && old(wan == stored && !SomeFailed(wan.entries)) ==>
                && ok && maps == old(maps) && configs.Keys == groups.Keys && ReadSecrets(configs, secrets)
                && ConfirmedBySecrets(old(stored), stored, configs)
    {
      var persisted;
      ok, persisted, configs := ValidateWanConfigPersistence(groups);
      if !ok { UpdateWanStatus(Failed); return; }
      if !persisted { return; }
      ok := UpdateLastSuccessfulConfiguration();
      if !ok { UpdateWanStatus(Failed); }
    }

    /** Deletes the leftovers and stops everything else. */
    method StopAll() returns (ok: bool)
      requires Valid() && Current()
      modifies `connected, `stored, `maps, `log, `wan
      ensures Valid() && Storable() && old(log) <= log && (ok ==> Current() && wan.entries == map[])
      ensures Alone() && old(wan == stored && AllNamed(wan.entries, maps)) ==>
                ok && EntriesOnly() && AllLetGo(old(wan.entries), old(maps), maps)
    {
      ok := DeleteLeftoverMapsFromStatus();
      if !ok { return; }
      ghost var left := wan.entries;
      ghost var published;
      ok, published := StopWanReplicationAllMaps();
      if Alone() && old(wan == stored && AllNamed(wan.entries, maps)) {
        AllAreLetGo(old(wan.entries), left, old(maps), maps, published);
      }
    }

    /** Alone, when the entries name their maps, one reconcile of a deleted resource stops all
        entries, lets their maps go and removes the finalizer. */
    method ReconcileDeleted() returns (stopped: bool)
      requires Valid() && Current()
      modifies `connected, `stored, `maps, `log, `wan
      ensures Valid() && old(log) <= log
      ensures if stopped then old(!wan.finalizer) || wan.entries == map[] || !wan.finalizer else wan.status == Terminating
      ensures Alone() && old(wan == stored && !stored.finalizer) ==>
                maps == old(maps) && stored == old(stored).(version := stored.version, status := Terminating)
      ensures Alone() && old(wan == stored && stored.finalizer && AllNamed(stored.entries, maps)) ==>
                && stored == old(stored).(version := stored.version, entries := map[], status := Terminating, finalizer := false)
                && AllLetGo(old(stored.entries), old(maps), maps)
    {
      UpdateWanStatus(Terminating);
      if !wan.finalizer { return true; }
      stopped := StopAll();
      if !stopped { UpdateWanStatus(Terminating); return; }
      var ok := UpdateWan(wan.(finalizer := false));
    }

    /** Whatever the environment does, a reconcile extends a correct run to a correct run.  In
        cooperative environments it adds the finalizer of a new resource, removes that of a
        deleted one without entries, and, when the resource is deleted before the first status
        write, leaves its map held without an entry. */
    method Reconcile(ghost m: MapObject)
      requires Valid()
      modifies `connected, `stored, `maps, `log, `wan
      ensures Valid() && old(log) <= log
      ensures Calls() && old(!stored.finalizer && !stored.deleting) ==>
                maps == old(maps) && stored == old(stored).(version := stored.version, finalizer := true)
      ensures Alone() && old(stored.deleting && !stored.finalizer) ==>
                maps == old(maps) && stored == old(stored).(version := stored.version, status := Terminating)
      ensures Alone() && old(stored.deleting && stored.finalizer && AllNamed(stored.entries, maps)) ==>
                && stored == old(stored).(version := stored.version, entries := map[], status := Terminating, finalizer := false)
                && AllLetGo(old(stored.entries), old(maps), maps)
      ensures Alone() && old(stored.finalizer && !stored.deleting && Refused(stored, maps)) ==>
                maps == old(maps) && stored == old(stored).(version := stored.version, status := Failed)
      ensures Races() && old(stored.finalizer && !stored.deleting && Replicable(stored, maps, m)) ==>
                && stored == old(stored).(version := stored.version, deleting := true)
                && Taken(old(maps), maps, m)
      ensures Alone() && old(stored.finalizer && !stored.deleting && Replicable(stored, maps, m)) && m.hz in secrets ==>
                Taken(old(maps), maps, m) && ConfirmedBySecrets(StartedWith(old(stored), m), stored, map[m.hz := secrets[m.hz]])
    {
      var ok := GetWan();
      if !ok { return; }
      if !wan.finalizer && !wan.deleting {
        ok := UpdateWan(wan.(finalizer := true));
        return;
      }
      if wan.deleting {
        var stopped := ReconcileDeleted();
        return;
      }
      ReconcileLive(m);
    }

    /** The reconcile of a resource that is not being deleted. */
    method ReconcileLive(ghost m: MapObject)
      requires Valid() && Current()
      modifies `connected, `stored, `maps, `log, `wan
      ensures Valid() && old(log) <= log
      ensures Alone() && old(wan == stored && Refused(wan, maps)) ==>
                maps == old(maps) && stored == old(stored).(version := stored.version, status := Failed)
      ensures Races() && old(wan == stored && Ready(m)) ==>
                stored == old(stored).(version := stored.version, deleting := true) && Taken(old(maps), maps, m)
      ensures Alone() && old(wan == stored && Ready(m)) && m.hz in secrets ==>
                Taken(old(maps), maps, m) && ConfirmedBySecrets(StartedWith(old(stored), m), stored, map[m.hz := secrets[m.hz]])
    {
      var groups;
      var ok;
      ok, groups := Prepare(m);
      if !ok { UpdateWanStatus(Failed); return; }
      StartAndConfirm(groups, m);
    }

    method StartAndConfirm(groups: Groups, ghost m: MapObject)
      requires Valid() && Current() && GroupsOk(groups, log)
      modifies `connected, `stored, `maps, `log, `wan
      ensures Valid() && old(log) <= log
      ensures Calls() && old(wan == stored && Ready(m)) && OnlyMap(groups, m) ==> Taken(old(maps), maps, m)
      ensures Races() && old(wan == stored && Ready(m)) && OnlyMap(groups, m) ==>
                stored == old(stored).(version := stored.version, deleting := true)
      ensures Alone() && old(wan == stored && Ready(m)) && OnlyMap(groups, m) && m.hz in secrets ==>
                ConfirmedBySecrets(StartedWith(old(stored), m), stored, map[m.hz := secrets[m.hz]])
    {
      var ok;
      ghost var accepted;
      ok, accepted := StartAndHold(groups, m);
      if !ok { return; }
      ConfirmStarted(groups, m, old(stored));
    }

    method ConfirmStarted(groups: Groups, ghost m: MapObject, ghost start: WanObject)
      requires Valid() && Current()
      modifies `connected, `stored, `maps, `log, `wan
      ensures Valid() && old(log) <= log
      ensures Calls() && old(StartedFrom(start, m)) ==> maps == old(maps)
      ensures Races() && old(StartedFrom(start, m)) ==> stored == start.(version := stored.version, deleting := true)
      ensures Alone() && old(StartedFrom(start, m)) && OnlyMap(groups, m) && m.hz in secrets ==>
                ConfirmedBySecrets(StartedWith(start, m), stored, map[m.hz := secrets[m.hz]])
    {
      ghost var configs;
      var ok;
      ok, configs := Confirm(groups);
      if Alone() && old(StartedFrom(start, m)) && OnlyMap(groups, m) && m.hz in secrets {
        assert configs == map[m.hz := secrets[m.hz]];
        ConfirmedFrom(StartedWith(start, m), old(stored), stored, configs);
      }
    }

    /** The resource with the entry of its map started. */
    ghost function StartedWith(w: WanObject, m: MapObject): WanObject {
      w.(entries := map[WanMapKey(m.hz, m.mapName) := StartedEntry(name, w.entries, m)])
    }
  }

  /** The specification builds the publisher that was last applied, apart from its consistency
      check strategy. */
  predicate SpecAllowed(w: WanObject) {
    w.lastSuccessful.Some? ==>
      CreateBatchPublisherConfig(w.spec).(sync := None) == CreateBatchPublisherConfig(w.lastSuccessful.value).(sync := None)
  }

  /** A resource whose maps are there and whose specification is refused. */
  ghost predicate Refused(w: WanObject, maps: map<string, MapObject>) {
    NoLeftovers(w.entries) && AllThere(w.spec.resources, maps) && !SpecAllowed(w)
  }

  /** A resource that names just one map, which is ready to be replicated, and whose entry, if it
      has one, is not being stopped. */
  predicate Replicable(w: WanObject, maps: map<string, MapObject>, m: MapObject) {
    var key := WanMapKey(m.hz, m.mapName);
    && w.spec.resources == [ResourceSpec(KindMap, m.name)] && (w.lastSuccessful.None? || w.lastSuccessful == Some(w.spec))
    && HoldsMap(maps, m) && m.state == MapSuccess && SplitsInto(key, m)
    && w.entries.Keys <= {key} && (Published(w.entries, key) ==> w.entries[key].status == Persisting || w.entries[key].status == Success)
  }

  /** The entry of the map once its replication was started. */
  function StartedEntry(name: string, entries: map<string, Entry>, m: MapObject): Entry {
    var key := WanMapKey(m.hz, m.mapName);
    if Published(entries, key) then entries[key] else Entry(m.name, PublisherId(name, key), Persisting, "")
  }

  lemma SingleEntry(name: string, groups: Groups, before: map<string, Entry>, after: map<string, Entry>, m: MapObject)
    requires OnlyMap(groups, m) && m.state == MapSuccess && before.Keys <= {WanMapKey(m.hz, m.mapName)}
    requires KeepsPublished(before, after) && StartedFromGroups(name, groups, before, after)
    requires forall hz :: hz in groups ==> StartedFor(hz, groups[hz], |groups[hz]|, PublishedKeys(after))
    ensures after == map[WanMapKey(m.hz, m.mapName) := StartedEntry(name, before, m)]
  {
    var key := WanMapKey(m.hz, m.mapName);
    assert StartedFor(m.hz, groups[m.hz], 1, PublishedKeys(after)) && groups[m.hz][0] == m;
    forall k | k in after ensures k == key {
      if k !in before {
        var a :| FromGroups(name, groups, k, a) && after[k] == Apply(a, EntryAt(before, k));
      }
    }
    if !Published(before, key) {
      var a :| FromGroups(name, groups, key, a) && after[key] == Apply(a, EntryAt(before, key));
      var hz, i :| StartsMap(name, groups, key, a, hz, i);
    }
  }

  lemma SingleGroup(groups: Groups, lookups: seq<Lookup>, m: MapObject)
    requires Grouped(groups, lookups) && lookups == [OfMap(m)]
    ensures OnlyMap(groups, m)
  {
    assert m in FoundBy(lookups[0]);
    forall hz, x | hz in groups && x in groups[hz] ensures hz == m.hz && x == m {
      assert WasFound(lookups, x);
      var i :| 0 <= i < |lookups| && x in FoundBy(lookups[i]);
      assert lookups[i] == OfMap(m);
    }
    forall hz | hz in groups ensures hz == m.hz {
      assert groups[hz][0] in groups[hz];
    }
    var list := groups[m.hz];
    assert forall i :: 0 <= i < |list| ==> list[i] in list && list[i] == m;
    assert |list| > 1 ==> list[0].name != list[1].name;
    assert list == [m];
    assert groups.Keys == {m.hz};
  }

  /** Any number of reconciles of one WanReplication, each resuming from what is stored:
      what LogOk says holds of the whole run. */
  method Run(name: string, spec: WanSpec, reconciles: nat) returns (r: WanReplicationReconciler)
    ensures fresh(r) && r.Valid() && r.name == name && LogOk(name, r.log)
  {
    r := new WanReplicationReconciler(name, spec);
    for i := 0 to reconciles
      invariant fresh(r) && r.Valid() && r.name == name
    {
      r.Interfere();
      ghost var any: MapObject := *;
      r.Reconcile(any);
    }
  }

  /** A resource with the one entry of the map `m`, which is Persisting under its publisher id. */
  ghost predicate OnePersisting(wr: WanReplication, hz: string, m: string) {
    && '_' !in hz && !HasSep(m) && wr.entries.Keys == {WanMapKey(hz, m)}
    && wr.entries[WanMapKey(hz, m)].status == Persisting
    && wr.entries[WanMapKey(hz, m)].publisherId == PublisherId(wr.name, WanMapKey(hz, m))
  }

  lemma OnePersistingWellFormed(wr: WanReplication, hz: string, m: string)
    requires OnePersisting(wr, hz, m)
    ensures WellFormed([wr])
  {
    assert IsKeyOf(WanMapKey(hz, m), hz, m);
    SplitKeyRoundTrip(hz, m);
  }

  lemma OnePersistingUnshadowed(wr: WanReplication, hz: string, m: string)
    requires OnePersisting(wr, hz, m)
    ensures !Shadowed(hz, [wr], m)
  {
    OnePersistingWellFormed(wr, hz, m);
    forall hz', m' | '_' !in hz' && WanMapKey(hz', m') in wr.entries ensures !HasSep(m') {
      WanMapKeyInjective(hz, m, hz', m');
    }
    NoSepNoShadow(hz, [wr], m);
  }

  /** A validation against the section makes the entry of the map Success. */
  ghost predicate Completes(entries: map<string, Entry>, spec: WanSpec, hz: string, section: WanSection, key: string) {
    forall after: map<string, Entry> :: Validated(entries, after, spec, map[hz := section]) ==> key in after && after[key].status == Success
  }

  /** What the cluster regenerates from the stored table confirms the entry. */
  lemma SingleHandshake(wr: WanReplication, section: WanSection, hz: string, m: string)
    requires OnePersisting(wr, hz, m) && Generated(hz, [wr], section)
    ensures Completes(wr.entries, wr.spec, hz, section, WanMapKey(hz, m))
  {
    forall after: map<string, Entry> | Validated(wr.entries, after, wr.spec, map[hz := section])
      ensures WanMapKey(hz, m) in after && after[WanMapKey(hz, m)].status == Success
    {
      OneBecomesSuccess(wr, after, map[hz := section], hz, m);
    }
  }

  lemma OneBecomesSuccess(wr: WanReplication, after: map<string, Entry>, configs: map<string, WanSection>, hz: string, m: string)
    requires OnePersisting(wr, hz, m) && AllGenerated(configs, [wr]) && hz in configs && Validated(wr.entries, after, wr.spec, configs)
    ensures WanMapKey(hz, m) in after && after[WanMapKey(hz, m)].status == Success
  {
    OnePersistingWellFormed(wr, hz, m);
    OnePersistingUnshadowed(wr, hz, m);
    GeneratedSectionsDistinct(configs, [wr]);
    ValidationCompletesHandshake([wr], wr, after, configs, hz, m);
  }

  lemma NothingConfirmed(before: map<string, Entry>, after: map<string, Entry>, spec: WanSpec, hz: string)
    requires Validated(before, after, spec, map[hz := map[]])
    ensures after == before
  {
  }

  /** The map and the resource are created, and the first reconcile adds the finalizer. */
  method Create(name: string, spec: WanSpec, m: MapObject) returns (r: WanReplicationReconciler)
    ensures fresh(r) && r.Valid() && r.Alone() && r.name == name
    ensures r.stored == WanObject(r.stored.version, spec, map[], Unset, None, false, true)
    ensures m.name in r.maps && r.maps == map[m.name := m.(version := r.maps[m.name].version)]
  {
    r := new WanReplicationReconciler(name, spec);
    r.WriteMap(m);
    r.RunIn(Cooperative({}));
    r.Reconcile(m);
  }

  /** The first reconciles of a resource where all goes well: the map is held, and its entry is
      stored as Persisting. */
  method ReplicateOne(name: string, spec: WanSpec, m: MapObject) returns (r: WanReplicationReconciler)
    requires spec.resources == [ResourceSpec(KindMap, m.name)] && m.state == MapSuccess
    requires '_' !in m.hz && !HasSep(m.mapName)
    ensures fresh(r) && r.Valid() && r.Alone() && r.name == name
    ensures !r.stored.deleting && r.stored.finalizer && r.stored.spec == spec && r.stored.lastSuccessful == None
    ensures r.stored.entries == map[WanMapKey(m.hz, m.mapName) := StartedEntry(name, map[], m)]
    ensures m.name in r.maps && r.maps[m.name] == TakenMap(m, r.maps[m.name].version)
  {
    SplitKeyRoundTrip(m.hz, m.mapName);
    r := Create(name, spec, m);
    r.WriteConfig(m.hz, map[]);
    ghost var start := r.stored;
    r.Reconcile(r.maps[m.name]);
    NothingConfirmed(r.StartedWith(start, m).entries, r.stored.entries, spec, m.hz);
  }

  /** ... then the cluster regenerates its configuration, and the next reconcile makes the entry
      Success and records the specification. */
  method Replicate(name: string, spec: WanSpec, m: MapObject) returns (r: WanReplicationReconciler)
    requires spec.resources == [ResourceSpec(KindMap, m.name)] && m.state == MapSuccess
    requires '_' !in m.hz && !HasSep(m.mapName)
    ensures fresh(r) && r.Valid() && r.Alone() && !r.stored.deleting && r.stored.finalizer
    ensures var key := WanMapKey(m.hz, m.mapName);
            r.stored.entries == map[key := Entry(m.name, PublisherId(name, key), Success, "")]
    ensures r.stored.status == Success && r.stored.lastSuccessful == Some(spec)
    ensures m.name in r.maps && r.maps[m.name] == TakenMap(m, r.maps[m.name].version)
  {
    r := ReplicateOne(name, spec, m);
    var wr := WanReplication(name, spec, r.stored.entries);
    var section := RegenerateFor(wr, m.hz, m.mapName);
    r.WriteConfig(m.hz, section);
    SplitKeyRoundTrip(m.hz, m.mapName);
    ghost var start := r.stored;
    ReconcileStarted(r, section, r.maps[m.name]);
    OneConfirmed(start, r.stored, m.hz, section, WanMapKey(m.hz, m.mapName));
  }

  lemma OneConfirmed(before: WanObject, after: WanObject, hz: string, section: WanSection, key: string)
    requires ConfirmedBySecrets(before, after, map[hz := section]) && Completes(before.entries, before.spec, hz, section, key)
    requires before.entries.Keys == {key} && before.entries[key].status == Persisting
    ensures after == before.(version := after.version, status := Success, lastSuccessful := Some(before.spec),
                             entries := map[key := before.entries[key].(status := Success)])
  {
    assert after.entries.Keys == {key};
    assert AllSuccess(after.entries);
  }

  lemma StartedAlready(r: WanReplicationReconciler, w: WanObject, m: MapObject)
    requires w.entries.Keys <= {WanMapKey(m.hz, m.mapName)} && Published(w.entries, WanMapKey(m.hz, m.mapName))
    ensures r.StartedWith(w, m) == w
  {
    assert w.entries == map[WanMapKey(m.hz, m.mapName) := w.entries[WanMapKey(m.hz, m.mapName)]];
  }

  method ReconcileStarted(r: WanReplicationReconciler, section: WanSection, m: MapObject)
    requires r.Valid() && r.Alone() && r.stored.finalizer && !r.stored.deleting && Replicable(r.stored, r.maps, m)
    requires Published(r.stored.entries, WanMapKey(m.hz, m.mapName)) && m.hz in r.secrets && r.secrets[m.hz] == section
    modifies r
    ensures r.Valid() && r.env == old(r.env)
    ensures ConfirmedBySecrets(old(r.stored), r.stored, map[m.hz := section]) && Taken(old(r.maps), r.maps, m)
  {
    StartedAlready(r, r.stored, m);
    r.Reconcile(m);
  }

  method RegenerateFor(wr: WanReplication, hz: string, m: string) returns (section: WanSection)
    requires OnePersisting(wr, hz, m)
    ensures Completes(wr.entries, wr.spec, hz, section, WanMapKey(hz, m))
  {
    OnePersistingWellFormed(wr, hz, m);
    ghost var keys;
    section, keys := FillHazelcastConfigWithWanReplications(hz, [wr]);
    SingleHandshake(wr, section, hz, m);
  }

  /** ... and when the resource is deleted, the next reconcile undoes all of it. */
  method ReplicateAndStop(name: string, spec: WanSpec, m: MapObject) returns (r: WanReplicationReconciler)
    requires spec.resources == [ResourceSpec(KindMap, m.name)] && m.state == MapSuccess
    requires '_' !in m.hz && !HasSep(m.mapName)
    ensures fresh(r) && r.Valid() && r.stored.deleting && !r.stored.finalizer && r.stored.entries == map[]
    ensures m.name in r.maps &&
            r.maps[m.name] == m.(version := r.maps[m.name].version, wanFinalizer := false, ownedByWan := false)
  {
    r := Replicate(name, spec, m);
    r.Delete();
    assert Named(r.stored.entries, m.name) by {
      assert r.stored.entries[WanMapKey(m.hz, m.mapName)].resourceName == m.name;
    }
    r.Reconcile(m);
  }

  /** The run that leaves a map held for ever: the WanReplication is deleted while its first
      reconcile starts replication, so that the status write is a conflict, which is not reported;
      the map is held all the same, and the next reconcile finds no entry to stop and lets the
      WanReplication go. */
  method AbandonedMap(name: string, spec: WanSpec, m: MapObject) returns (r: WanReplicationReconciler)
    requires spec.resources == [ResourceSpec(KindMap, m.name)] && m.state == MapSuccess
    requires '_' !in m.hz && !HasSep(m.mapName)
    ensures fresh(r) && r.Valid()
    ensures r.stored.deleting && !r.stored.finalizer && r.stored.entries == map[]
    ensures Holds(r.maps, m.name)
  {
    r := Create(name, spec, m);
    r.RunIn(Cooperative({SoleWriter}));
    SplitKeyRoundTrip(m.hz, m.mapName);
    r.Reconcile(r.maps[m.name]);
    r.RunIn(Cooperative({}));
    r.Reconcile(m);
  }
}
