/** The status of a WanSync, written by its reconciler and by the event callback of the
    synchronisation jobs under optimistic concurrency: every writer reads a version,
    applies its change to it, and the server accepts it only on the latest version. */
module WanSyncStatus {
  import opened Wrappers
  import opened Environment
  import WanKeys
  import McPolling

  datatype Phase = Unset | NotStarted | Pending | Failed | Completed

  datatype MapStatus = MapStatus(phase: Phase, resourceName: string, publisherId: string, message: string)

  type Table = map<string, MapStatus>

  datatype Status = Status(phase: Phase, message: string, maps: Table)

  const NO_STATUS := Status(Unset, "", map[])

  datatype Change =
    | MapEvent(key: string, event: McPolling.Event)
    | Reconciled(phase: Phase, message: string, keys: set<string>)   // the maps listed as not started
    | Metadata            // anything written outside the status
    | Recreated           // the resource was deleted and created again

  /** The entries of maps whose synchronisation has not started. */
  function Listed(keys: set<string>): Table {
    map key | key in keys :: MapStatus(NotStarted, "", "", "")
  }

  predicate AllCompleted(maps: Table) {
    forall key :: key in maps ==> maps[key].phase == Completed
  }

  /** Some entry that is not Completed has this phase and message. */
  predicate Unfinished(maps: Table, phase: Phase, message: string) {
    exists key :: key in maps && maps[key].phase != Completed && maps[key].phase == phase && maps[key].message == message
  }

  /** The overall phase and message after an event of one map. */
  predicate Aggregated(ms: MapStatus, after: Status) {
    if ms.phase != Completed then after.phase == ms.phase && after.message == ms.message
    else if AllCompleted(after.maps) then after.phase == Completed && after.message == ""
    else Unfinished(after.maps, after.phase, after.message)
  }

  ghost predicate Changed(c: Change, before: Status, after: Status) {
    match c
    case MapEvent(key, e) =>
      && StatusOfEvent(e).Some?
      && after.maps == before.maps[key := StatusOfEvent(e).value] && Aggregated(StatusOfEvent(e).value, after)
    case Reconciled(phase, message, keys) =>
      (phase == NotStarted || phase == Failed || phase == Pending) && after == Status(phase, message, before.maps + Listed(keys))
    case Metadata => after == before
    case Recreated => after == NO_STATUS
  }

  // ---------- What an event means ----------

  /** stateEventUpdate: the entry an event of a map is written as; None when it is ignored. */
  function StatusOfEvent(e: McPolling.Event): Option<MapStatus> {
    if !McPolling.IsWanSync(e.kind) then None
    else if McPolling.IsDone(e.kind) then Some(MapStatus(Completed, "", e.publisherId, ""))
    else if McPolling.IsError(e.kind) then Some(MapStatus(Failed, "", e.publisherId, e.reason))
    else Some(MapStatus(Pending, "", "", ""))
  }

  /** What an event of a synchronisation makes of its map: Pending exactly while it is in
      progress, Failed exactly for an error, with its reason, and Completed exactly when it is
      done; other events are ignored. */
  lemma EventDecidesPhase(e: McPolling.Event)
    ensures StatusOfEvent(e).Some? <==> McPolling.IsWanSync(e.kind)
    ensures StatusOfEvent(e).Some? ==>
              var ms := StatusOfEvent(e).value;
              && (ms.phase == Pending <==> McPolling.IsInProgress(e.kind))
              && (ms.phase == Failed <==> McPolling.IsError(e.kind)) && (ms.phase == Failed ==> ms.message == e.reason)
              && (ms.phase == Completed <==> McPolling.IsDone(e.kind))
              && (ms.phase != Pending ==> ms.publisherId == e.publisherId)
  {
    McPolling.SyncEventClasses(e.kind);
  }

  /** The whole wait for a map, for any order of arrival: it closes the map if and only if a
      member was listed, and then as Failed exactly when some member's outcome is an error,
      and as Completed otherwise. */
  method CloseMap(outcomes: seq<McPolling.Outcome>, mapName: string, arrived: seq<McPolling.Event>) returns (ms: Option<MapStatus>)
    requires forall i :: 0 <= i < |outcomes| ==> McPolling.Ended(outcomes[i])
    requires multiset(arrived) == multiset(McPolling.MemberEvents(outcomes, mapName))
    ensures ms.Some? <==> outcomes != []
    ensures ms.Some? ==> ms.value.phase == if SomeOutcomeFails(outcomes) then Failed else Completed
  {
    var finish := McPolling.WaitWanSyncToFinish(outcomes, mapName, arrived);
    EventDecidesPhase(finish);
    ms := StatusOfEvent(finish);
  }

  ghost predicate SomeOutcomeFails(outcomes: seq<McPolling.Outcome>) {
    exists i :: 0 <= i < |outcomes| && (outcomes[i].Returned? ==> McPolling.IsError(outcomes[i].event.kind))
  }

  // ---------- Whole histories ----------

  /** Every stored status is the change of its writer applied to the one stored before. */
  ghost predicate IsHistory(history: seq<Status>, changes: seq<Change>) {
    && |history| == |changes| + 1
    && history[0] == NO_STATUS
    && forall i :: 0 <= i < |changes| ==> ChangedAt(history, changes, i)
  }

  ghost predicate ChangedAt(history: seq<Status>, changes: seq<Change>, i: nat)
    requires i < |changes| && |history| == |changes| + 1
  {
    Changed(changes[i], history[i], history[i + 1])
  }

  lemma HistoryGrows(history: seq<Status>, changes: seq<Change>, c: Change, after: Status)
    requires IsHistory(history, changes) && Changed(c, history[|history| - 1], after)
    ensures IsHistory(history + [after], changes + [c])
  {
    forall i | 0 <= i < |changes + [c]| ensures ChangedAt(history + [after], changes + [c], i) {
      if i < |changes| { assert ChangedAt(history, changes, i); }
    }
  }

  /** The table that results from the changes alone. */
  function TableOf(changes: seq<Change>): Table {
    if changes == [] then map[]
    else
      var before := TableOf(changes[..|changes| - 1]);
      match changes[|changes| - 1]
      case MapEvent(key, e) => if StatusOfEvent(e).Some? then before[key := StatusOfEvent(e).value] else before
      case Reconciled(_, _, keys) => before + Listed(keys)
      case Metadata => before
      case Recreated => map[]
  }

  /** No change is lost: at every moment the stored table is that of all changes so far. */
  lemma {:induction false} NothingLost(history: seq<Status>, changes: seq<Change>, i: nat)
    requires IsHistory(history, changes) && i <= |changes|
    ensures history[i].maps == TableOf(changes[..i])
  {
    if i > 0 {
      NothingLost(history, changes, i - 1);
      assert ChangedAt(history, changes, i - 1);
      assert changes[..i][..i - 1] == changes[..i - 1];
    }
  }

  predicate Touches(c: Change, key: string) {
    (c.MapEvent? && c.key == key) || (c.Reconciled? && key in c.keys) || c.Recreated?
  }

  /** The event of a map stays stored until the map's entry is written again. */
  lemma {:induction false} EventStays(history: seq<Status>, changes: seq<Change>, i: nat, j: nat)
    requires IsHistory(history, changes) && i < j <= |changes| && changes[i].MapEvent?
    requires forall k :: i < k < j ==> !Touches(changes[k], changes[i].key)
    ensures changes[i].key in history[j].maps && Some(history[j].maps[changes[i].key]) == StatusOfEvent(changes[i].event)
    decreases j
  {
    assert ChangedAt(history, changes, j - 1);
    if i + 1 < j {
      EventStays(history, changes, i, j - 1);
      assert !Touches(changes[j - 1], changes[i].key);
    }
  }

  /** Stored as Completed means that there are maps and that all of them are Completed. */
  lemma {:induction false} CompletedIsTrue(history: seq<Status>, changes: seq<Change>, i: nat)
    requires IsHistory(history, changes) && i <= |changes|
    ensures history[i].phase == Completed ==> history[i].maps != map[] && AllCompleted(history[i].maps)
  {
    if i > 0 {
      CompletedIsTrue(history, changes, i - 1);
      assert ChangedAt(history, changes, i - 1);
      if changes[i - 1].MapEvent? { assert changes[i - 1].key in history[i].maps; }
    }
  }

  /** The status after an event of a map: Pending while it is in progress, Failed with the
      reason of an error, and after a done event Completed if and only if all maps are. */
  lemma StatusAfterEvent(history: seq<Status>, changes: seq<Change>, i: nat)
    requires IsHistory(history, changes) && i < |changes| && changes[i].MapEvent?
    ensures var e, after := changes[i].event, history[i + 1];
            && (McPolling.IsInProgress(e.kind) ==> after.phase == Pending)
            && (McPolling.IsError(e.kind) ==> after.phase == Failed && after.message == e.reason)
            && (after.phase == Completed <==> AllCompleted(after.maps))
  {
    assert ChangedAt(history, changes, i);
    EventDecidesPhase(changes[i].event);
    assert changes[i].key in history[i + 1].maps;
  }

  /** A map is stored as Completed only after a done event of its own, and nothing has touched its
      entry since. */
  lemma {:induction false} CompletedOnlyAfterDone(history: seq<Status>, changes: seq<Change>, i: nat, key: string) returns (j: nat)
    requires IsHistory(history, changes) && i <= |changes|
    requires key in history[i].maps && history[i].maps[key].phase == Completed
    ensures j < i && changes[j].MapEvent? && changes[j].key == key && McPolling.IsDone(changes[j].event.kind)
    ensures forall k :: j < k < i ==> !Touches(changes[k], key)
    decreases i
  {
    j := i - 1;
    assert ChangedAt(history, changes, j);
    if Touches(changes[j], key) {
      if changes[j].MapEvent? { EventDecidesPhase(changes[j].event); }
    } else {
      j := CompletedOnlyAfterDone(history, changes, j, key);
    }
  }

  // ---------- The writers ----------

  /** The loop over the table, in any order: the last entry that is not Completed decides. */
  method Aggregate(maps: Table) returns (phase: Phase, message: string)
    ensures Aggregated(MapStatus(Completed, "", "", ""), Status(phase, message, maps))
  {
    phase, message := Completed, "";
    var todo := maps.Keys;
    while todo != {}
      invariant todo <= maps.Keys
      invariant if forall key :: key in maps && key !in todo ==> maps[key].phase == Completed
                then phase == Completed && message == ""
                else Unfinished(maps, phase, message)
      decreases |todo|
    {
      var key :| key in todo;
      todo := todo - {key};
      if maps[key].phase != Completed {
        phase, message := maps[key].phase, maps[key].message;
      }
    }
  }

  /** The listed maps written over `table`, one by one. */
  method Merge(table: Table, keys: set<string>) returns (merged: Table)
    ensures merged == table + Listed(keys)
  {
    merged := table;
    var todo := keys;
    while todo != {}
      invariant todo <= keys
      invariant merged.Keys == table.Keys + (keys - todo)
      invariant forall key :: key in merged ==>
                  merged[key] == if key in keys && key !in todo then MapStatus(NotStarted, "", "", "") else table[key]
      decreases |todo|
    {
      var key :| key in todo;
      merged, todo := merged[key := MapStatus(NotStarted, "", "", "")], todo - {key};
    }
  }

  /** The calls that can fail. */
  datatype Call = Read | Write

  /** The WanSync at the server; a resource version is an index into `history`. */
  class WanSyncCell {
    var history: seq<Status>
    ghost var changes: seq<Change>

    ghost predicate Valid() reads this {
      IsHistory(history, changes)
    }

    constructor ()
      ensures Valid()
    {
      history, changes := [NO_STATUS], [];
    }

    method Commit(ghost c: Change, after: Status)
      requires Valid() && Changed(c, history[|history| - 1], after)
      modifies this
      ensures Valid() && history == old(history) + [after] && changes == old(changes) + [c]
    {
      HistoryGrows(history, changes, c, after);
      history, changes := history + [after], changes + [c];
    }

    /** Any number of writes by other writers. */
    method Others(env: Env<Call>)
      requires Valid()
      modifies this
      ensures Valid() && old(history) <= history && old(changes) <= changes
      ensures env.Cooperative? ==> history == old(history) && changes == old(changes)
    {
      if env.Cooperative? { return; }
      var rounds: nat := *;
      while rounds > 0
        invariant Valid() && old(history) <= history && old(changes) <= changes
      {
        OtherWrite();
        rounds := rounds - 1;
      }
    }

    /** One write of another writer that read the latest version. */
    method OtherWrite()
      requires Valid()
      modifies this
      ensures Valid() && old(history) <= history && old(changes) <= changes
    {
      var key: string := *;
      var event: McPolling.Event := *;
      var phase: Phase := *;
      var keys: set<string> := *;
      var latest := history[|history| - 1];
      if * {
        Commit(Metadata, latest);
      } else if * {
        Commit(Recreated, NO_STATUS);
      } else if phase in {NotStarted, Failed, Pending} {
        Commit(Reconciled(phase, event.reason, keys), Status(phase, event.reason, latest.maps + Listed(keys)));
      } else if McPolling.IsWanSync(event.kind) {
        var after := WithEvent(latest, key, event);
        Commit(MapEvent(key, event), after);
      }
    }

    /** Update of the status with `after`, computed from version `version`. */
    method StatusUpdate(env: Env<Call>, version: nat, ghost c: Change, after: Status) returns (r: WriteResult)
      requires Valid() && version < |history| && Changed(c, history[version], after)
      modifies this
      ensures Valid() && old(history) <= history && old(changes) <= changes
      ensures r == Ok ==> |changes| > |old(changes)| && changes[|changes| - 1] == c && history[|history| - 1] == after
      ensures r == Conflict ==> |history| > version + 1
      ensures env == Cooperative({}) && version + 1 == |old(history)| ==>
                r == Ok && history == old(history) + [after] && changes == old(changes) + [c]
    {
      Others(env);
      if version + 1 != |history| { return Conflict; }
      var applied := Granted(env, Write);
      if !applied { return Error; }
      Commit(c, after);
      var answered := Granted(env, Write);
      return if answered then Ok else Error;
    }

    /** stateEventUpdate: the callback of a synchronisation job.  Events of other kinds are ignored;
        in a cooperative environment every event of a synchronisation is stored under the key
        of its cluster and map. */
    method StateEventUpdate(env: Env<Call>, hz: string, event: McPolling.Event) returns (r: WriteResult)
      requires Valid()
      modifies this
      ensures Valid() && old(history) <= history && old(changes) <= changes
      ensures !McPolling.IsWanSync(event.kind) ==> history == old(history)
      ensures env == Cooperative({}) && McPolling.IsWanSync(event.kind) ==>
                r == Ok && changes == old(changes) + [MapEvent(WanKeys.WanMapKey(hz, event.mapName), event)]
    {
      if !McPolling.IsWanSync(event.kind) { return Ok; }
      r := UpdateWanSyncMapStatus(env, WanKeys.WanMapKey(hz, event.mapName), event);
    }

    /** The callback's write: read, change, write, and again after a conflict. */
    method UpdateWanSyncMapStatus(env: Env<Call>, key: string, event: McPolling.Event) returns (r: WriteResult)
      requires Valid() && McPolling.IsWanSync(event.kind)
      modifies this
      ensures Valid() && old(history) <= history && old(changes) <= changes
      ensures r == Ok ==> |changes| > |old(changes)| && changes[|changes| - 1] == MapEvent(key, event)
      ensures env == Cooperative({}) ==> r == Ok && changes == old(changes) + [MapEvent(key, event)]
    {
      r := Conflict;
      for attempt := 0 to DEFAULT_RETRY_STEPS
        invariant Valid() && old(history) <= history && old(changes) <= changes
        invariant env == Cooperative({}) ==> attempt == 0 && changes == old(changes)
      {
        Others(env);
        var version: nat := *;
        if env.Cooperative? { version := |history| - 1; }
        var found := Granted(env, Read);
        if !(found && 0 <= version < |history|) { return Error; }
        var after := WithEvent(history[version], key, event);
        r := StatusUpdate(env, version, MapEvent(key, event), after);
        if r != Conflict { return r; }
      }
      return Conflict;
    }

    /** The reconciler's write, on the version it read before. */
    method UpdateWanSyncStatus(env: Env<Call>, version: nat, phase: Phase, message: string, keys: set<string>) returns (r: WriteResult)
      requires Valid() && version < |history| && phase in {NotStarted, Failed, Pending}
      modifies this
      ensures Valid() && old(history) <= history && old(changes) <= changes
      ensures r == Ok ==> |changes| > |old(changes)| && changes[|changes| - 1] == Reconciled(phase, message, keys)
      ensures env == Cooperative({}) && version + 1 == |old(history)| ==>
                r == Ok && changes == old(changes) + [Reconciled(phase, message, keys)]
    {
      var merged := Merge(history[version].maps, keys);
      var after := Status(phase, message, merged);
      r := StatusUpdate(env, version, Reconciled(phase, message, keys), after);
    }
  }

  /** What updateWanSyncMapStatus makes of the status it has read. */
  method WithEvent(before: Status, key: string, event: McPolling.Event) returns (after: Status)
    requires McPolling.IsWanSync(event.kind)
    ensures Changed(MapEvent(key, event), before, after)
  {
    EventDecidesPhase(event);
    var ms := StatusOfEvent(event).value;
    var maps := before.maps[key := ms];
    if ms.phase != Completed {
      return Status(ms.phase, ms.message, maps);
    }
    var phase, message := Aggregate(maps);
    return Status(phase, message, maps);
  }
}
