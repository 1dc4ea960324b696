/** Waiting for a WAN synchronisation to finish: every member is polled for Management
    Center events until one closes the synchronisation, too many polls fail in a row, or
    nothing is heard for too long. */
module McPolling {

  datatype EventType =
    | WanConsistencyCheckStarted | WanConsistencyCheckFinished | WanSyncStarted | WanSyncFinishedFull
    | WanConsistencyCheckIgnored | WanSyncProgressUpdate | WanSyncFinishedMerkle | WanConfigurationAdded
    | AddWanConfigurationIgnored | WanSyncIgnored | WanConfigurationExtended
    | Unknown        // any other number, and that of the empty event

  datatype Event = Event(kind: EventType, uuid: string, mapName: string, publisherId: string, reason: string)

  const EMPTY_EVENT := Event(Unknown, "", "", "", "")

  predicate IsWanSync(t: EventType) {
    t.WanSyncIgnored? || t.WanSyncFinishedFull? || t.WanSyncStarted? || t.WanSyncFinishedMerkle? || t.WanSyncProgressUpdate?
  }

  predicate IsInProgress(t: EventType) {
    t.WanConsistencyCheckStarted? || t.WanSyncStarted? || t.WanSyncProgressUpdate?
  }

  predicate IsDone(t: EventType) {
    t.WanConsistencyCheckFinished? || t.WanSyncFinishedFull? || t.WanSyncFinishedMerkle? ||
    t.WanConfigurationAdded? || t.WanConfigurationExtended?
  }

  predicate IsError(t: EventType) {
    t.WanSyncIgnored? || t.AddWanConfigurationIgnored? || t.WanConsistencyCheckIgnored?
  }

  /** The events of a synchronisation are exactly these, and each is in
      progress, done or an error; so is every other event with a known number, and only one of them. */
  lemma SyncEventClasses(t: EventType)
    ensures IsWanSync(t) <==> t in {WanSyncStarted, WanSyncProgressUpdate, WanSyncFinishedFull, WanSyncFinishedMerkle, WanSyncIgnored}
    ensures IsWanSync(t) ==> (IsInProgress(t) <==> t == WanSyncStarted || t == WanSyncProgressUpdate)
    ensures IsWanSync(t) ==> (IsDone(t) <==> t == WanSyncFinishedFull || t == WanSyncFinishedMerkle)
    ensures IsWanSync(t) ==> (IsError(t) <==> t == WanSyncIgnored)
    ensures !(IsInProgress(t) && IsDone(t)) && !(IsInProgress(t) && IsError(t)) && !(IsDone(t) && IsError(t))
    ensures t != Unknown <==> IsInProgress(t) || IsDone(t) || IsError(t)
  {
  }

  predicate Matching(e: Event, uuid: string) {
    IsWanSync(e.kind) && e.uuid == uuid
  }

  /** The events of one poll, or that it failed. */
  datatype Poll = PollError | Events(events: seq<Event>)

  predicate SomeMatching(p: Poll, uuid: string) {
    p.Events? && exists e :: e in p.events && Matching(e, uuid)
  }

  /** A poll with matching events, all of them in progress. */
  predicate Progress(p: Poll, uuid: string) {
    SomeMatching(p, uuid) && forall e :: e in p.events && Matching(e, uuid) ==> IsInProgress(e.kind)
  }

  /** A poll that was answered without any matching event. */
  predicate Silent(p: Poll, uuid: string) {
    p.Events? && !SomeMatching(p, uuid)
  }

  /** A poll with a matching event that is not in progress. */
  predicate Decides(p: Poll, uuid: string) {
    SomeMatching(p, uuid) && !Progress(p, uuid)
  }

  method FilterWanSyncEvents(events: seq<Event>, uuid: string) returns (r: seq<Event>)
    ensures forall e :: e in r <==> e in events && Matching(e, uuid)
  {
    r := [];
    for i := 0 to |events|
      invariant forall e :: e in r <==> e in events[..i] && Matching(e, uuid)
    {
      if IsWanSync(events[i].kind) && events[i].uuid == uuid { r := r + [events[i]]; }
    }
  }

  /** The events of an answered poll: none matching, one that closes the synchronisation, or progress. */
  datatype Heard = Nothing | InProgress | Closing(event: Event)

  predicate Closes(p: Poll, uuid: string, e: Event) {
    p.Events? && e in p.events && Matching(e, uuid) && !IsInProgress(e.kind)
  }

  method ReadEvents(p: Poll, uuid: string) returns (h: Heard)
    requires p.Events?
    ensures h.Nothing? <==> Silent(p, uuid)
    ensures h.InProgress? <==> Progress(p, uuid)
    ensures h.Closing? ==> Closes(p, uuid, h.event)
  {
    var events := FilterWanSyncEvents(p.events, uuid);
    if |events| == 0 { return Nothing; }
    assert events[0] in p.events;
    for i := 0 to |events|
      invariant forall k :: 0 <= k < i ==> IsInProgress(events[k].kind)
    {
      if !IsInProgress(events[i].kind) {
        assert events[i] in p.events;
        return Closing(events[i]);
      }
    }
    return InProgress;
  }

  /** How waiting for one member ends; StillPolling when the given polls do not end it. */
  datatype Outcome = Returned(event: Event) | PollsFailed | NothingHeard | StillPolling

  /** Silent polls among polls[from..to]. */
  function CountSilent(polls: seq<Poll>, from: nat, to: nat, uuid: string): nat
    requires from <= to <= |polls|
  {
    if from == to then 0
    else CountSilent(polls, from, to - 1, uuid) + if Silent(polls[to - 1], uuid) then 1 else 0
  }

  const MAX_ERRORS := 3
  const MAX_SILENT := 24

  /** `used` polls were made; `heard` of them up to and including the last one with progress.
      No more than 100 polls are made after that one, or in all when there is none. */
  method WaitMemberFinishEvent(polls: seq<Poll>, uuid: string) returns (r: Outcome, used: nat, ghost heard: nat)
    ensures heard <= used <= |polls|
    ensures heard > 0 ==> Progress(polls[heard - 1], uuid)
    ensures forall k :: heard <= k < used ==> !Progress(polls[k], uuid)
    ensures used - heard <= 100
    ensures r.StillPolling? ==> used == |polls| && used - heard < 100
    ensures forall k :: 0 <= k < (if r.Returned? then used - 1 else used) ==> !Decides(polls[k], uuid)
    ensures r.Returned? ==> used > 0 && Closes(polls[used - 1], uuid, r.event)
    ensures r.StillPolling? || Ended(r)
    ensures r.PollsFailed? ==> used >= 4 && forall k :: used - 4 <= k < used ==> polls[k].PollError?
    ensures r.NothingHeard? ==> used > 0 && Silent(polls[used - 1], uuid) && CountSilent(polls, heard, used, uuid) == 25
  {
    var errorCount, noEventsCount := 0, 0;
    used, heard := 0, 0;
    while used < |polls|
      invariant heard <= used <= |polls|
      invariant heard > 0 ==> Progress(polls[heard - 1], uuid)
      invariant forall k :: heard <= k < used ==> !Progress(polls[k], uuid)
      invariant forall k :: 0 <= k < used ==> !Decides(polls[k], uuid)
      invariant 0 <= errorCount <= MAX_ERRORS && 0 <= noEventsCount <= MAX_SILENT
      invariant errorCount <= used && forall k :: used - errorCount <= k < used ==> polls[k].PollError?
      invariant CountSilent(polls, heard, used, uuid) == noEventsCount
      invariant used - heard <= 4 * noEventsCount + errorCount
    {
      var p := polls[used];
      used := used + 1;
      if p.PollError? {
        errorCount := errorCount + 1;
        if errorCount > MAX_ERRORS { return PollsFailed, used, heard; }
        continue;
      }
      errorCount := 0;
      var h := ReadEvents(p, uuid);
      match h
      case Nothing =>
        noEventsCount := noEventsCount + 1;
        if noEventsCount > MAX_SILENT { return NothingHeard, used, heard; }
      case Closing(event) =>
        return Returned(event), used, heard;
      case InProgress =>
        noEventsCount := 0;
        heard := used;
    }
    return StillPolling, used, heard;
  }

  // ---------- All members ----------

  /** What a member's goroutine sends: its event, or an Ignored event for an error. */
  function MemberEvent(r: Outcome, mapName: string): Event
    requires !r.StillPolling?
  {
    match r
    case Returned(e) => e
    case _ => Event(WanSyncIgnored, "", mapName, "", "error")
  }

  /** The wait has ended; an event it returned is one of a synchronisation and not in progress. */
  predicate Ended(r: Outcome) {
    !r.StillPolling? && (r.Returned? ==> IsWanSync(r.event.kind) && !IsInProgress(r.event.kind))
  }

  function MemberEvents(outcomes: seq<Outcome>, mapName: string): seq<Event>
    requires forall i :: 0 <= i < |outcomes| ==> Ended(outcomes[i])
  {
    seq(|outcomes|, i requires 0 <= i < |outcomes| && Ended(outcomes[i]) => MemberEvent(outcomes[i], mapName))
  }

  predicate SomeError(events: seq<Event>) {
    exists i :: 0 <= i < |events| && IsError(events[i].kind)
  }

  /** Reads the events in the order they arrived. */
  method FinishEvent(arrived: seq<Event>) returns (finish: Event)
    ensures IsError(finish.kind) <==> SomeError(arrived)
    ensures if arrived == [] then finish == EMPTY_EVENT else finish in arrived
  {
    finish := EMPTY_EVENT;
    for i := 0 to |arrived|
      invariant if i == 0 then finish == EMPTY_EVENT else finish in arrived
      invariant !IsError(finish.kind) && forall k :: 0 <= k < i ==> !IsError(arrived[k].kind)
    {
      if IsError(arrived[i].kind) { return arrived[i]; }
      finish := arrived[i];
    }
  }

  /** Every order in which the members' events can arrive has an error or none has. */
  lemma ErrorInEveryOrder(sent: seq<Event>, arrived: seq<Event>)
    requires multiset(sent) == multiset(arrived)
    ensures SomeError(sent) <==> SomeError(arrived)
  {
    if SomeError(sent) {
      var i :| 0 <= i < |sent| && IsError(sent[i].kind);
      assert sent[i] in multiset(arrived);
    }
    if SomeError(arrived) {
      var i :| 0 <= i < |arrived| && IsError(arrived[i].kind);
      assert arrived[i] in multiset(sent);
    }
  }

  /** The combined event, for any order of arrival: an error exactly when some member's
      waiting ended in an error or with an error event; otherwise, with at least one member,
      an event that is neither an error nor in progress. */
  method WaitWanSyncToFinish(outcomes: seq<Outcome>, mapName: string, arrived: seq<Event>) returns (finish: Event)
    requires forall i :: 0 <= i < |outcomes| ==> Ended(outcomes[i])
    requires multiset(arrived) == multiset(MemberEvents(outcomes, mapName))
    ensures IsError(finish.kind) <==>
              exists i :: 0 <= i < |outcomes| && (outcomes[i].Returned? ==> IsError(outcomes[i].event.kind))
    ensures !IsInProgress(finish.kind)
    ensures IsWanSync(finish.kind) <==> outcomes != []
    ensures |outcomes| > 0 ==> exists i :: 0 <= i < |outcomes| && finish == MemberEvent(outcomes[i], mapName)
  {
    ghost var sent := MemberEvents(outcomes, mapName);
    finish := FinishEvent(arrived);
    ErrorInEveryOrder(sent, arrived);
    assert forall i :: 0 <= i < |outcomes| ==> sent[i] == MemberEvent(outcomes[i], mapName);
    assert |multiset(sent)| == |sent| && |multiset(arrived)| == |arrived|;
    if arrived != [] {
      assert finish in multiset(sent);
      ghost var i :| 0 <= i < |sent| && sent[i] == finish;
      assert finish == MemberEvent(outcomes[i], mapName);
    }
    forall i | 0 <= i < |outcomes| && (outcomes[i].Returned? ==> IsError(outcomes[i].event.kind))
      ensures SomeError(sent)
    {
      assert IsError(sent[i].kind);
    }
  }
}
