/** The history of scheduled backups: which finished HotBackup resources are deleted when
    there are more of them than the limits of their CronHotBackup allow. */
module BackupHistory {
  import opened Wrappers
  import HotBackupStart

  datatype Backup = Backup(name: string, state: HotBackupStart.State, created: int)

  /** Restores are the backups the Hazelcast resources of the namespace restore from. */
  type Restores = seq<Option<string>>

  method FindRestoreResourceName(restores: Restores, name: string) returns (found: bool)
    ensures found <==> Some(name) in restores
  {
    for i := 0 to |restores|
      invariant Some(name) !in restores[..i]
    {
      if restores[i] == Some(name) { return true; }
    }
    return false;
  }

  function FailedOf(list: seq<Backup>): seq<Backup> {
    if list == [] then []
    else
      var n := |list| - 1;
      FailedOf(list[..n]) + if list[n].state == HotBackupStart.Failure then [list[n]] else []
  }

  function SuccessfulOf(list: seq<Backup>): seq<Backup> {
    if list == [] then []
    else
      var n := |list| - 1;
      SuccessfulOf(list[..n]) + if list[n].state == HotBackupStart.Success then [list[n]] else []
  }

  function UnreferencedOf(list: seq<Backup>, restores: Restores): seq<Backup> {
    if list == [] then []
    else
      var n := |list| - 1;
      UnreferencedOf(list[..n], restores) + if Some(list[n].name) !in restores then [list[n]] else []
  }

  method Classify(list: seq<Backup>) returns (failed: seq<Backup>, successful: seq<Backup>)
    ensures failed == FailedOf(list) && successful == SuccessfulOf(list)
  {
    failed, successful := [], [];
    for i := 0 to |list|
      invariant failed == FailedOf(list[..i]) && successful == SuccessfulOf(list[..i])
    {
      assert list[..i + 1][..i] == list[..i];
      match list[i].state {
        case Failure => failed := failed + [list[i]];
        case Success => successful := successful + [list[i]];
        case _ =>
      }
    }
    assert list[..|list|] == list;
  }

  method Unreferenced(list: seq<Backup>, restores: Restores) returns (r: seq<Backup>)
    ensures r == UnreferencedOf(list, restores)
  {
    r := [];
    for i := 0 to |list|
      invariant r == UnreferencedOf(list[..i], restores)
    {
      assert list[..i + 1][..i] == list[..i];
      var found := FindRestoreResourceName(restores, list[i].name);
      if !found { r := r + [list[i]]; }
    }
    assert list[..|list|] == list;
  }

  lemma {:induction false} ClassMembers(list: seq<Backup>, restores: Restores)
    ensures forall b :: b in FailedOf(list) <==> b in list && b.state == HotBackupStart.Failure
    ensures forall b :: b in SuccessfulOf(list) <==> b in list && b.state == HotBackupStart.Success
    ensures forall b :: b in UnreferencedOf(list, restores) <==> b in list && Some(b.name) !in restores
  {
    if list != [] {
      var n := |list| - 1;
      ClassMembers(list[..n], restores);
      assert list == list[..n] + [list[n]];
    }
  }

  /** What backups are sorted by. */
  function Created(b: Backup): int {
    b.created
  }

  /** The selected ones of a class: exactly as many as exceed the limit, and none of them
      newer than one that is kept. */
  ghost predicate OldestBeyond(selected: seq<Backup>, backups: seq<Backup>, limit: nat) {
    && |selected| == (if |backups| > limit then |backups| - limit else 0)
    && multiset(selected) <= multiset(backups)
    && forall b, k :: b in selected && k in multiset(backups) - multiset(selected) ==> b.created <= k.created
  }

  /** The backups deletion is attempted for. */
  method DeleteHotBackupHistory(limit: nat, backups: seq<Backup>, order: seq<Backup>) returns (selected: seq<Backup>)
    requires SortedForm(order, backups, Created)
    ensures OldestBeyond(selected, backups, limit)
  {
    var diff := |backups| - limit;
    if diff <= 0 {
      return [];
    }
    assert |multiset(order)| == |multiset(backups)|;
    selected := order[..diff];
    assert order == order[..diff] + order[diff..];
    assert multiset(backups) - multiset(selected) == multiset(order[diff..]);
    forall b, k | b in selected && k in order[diff..] ensures b.created <= k.created {
      var i :| 0 <= i < diff && order[i] == b;
      var j :| diff <= j < |order| && order[j] == k;
      assert Created(order[i]) <= Created(order[j]);
    }
  }

  /** cleanupResources; without the list of Hazelcast resources (`listed`) only failed
      backups are deleted.  Never is an unfinished backup selected, nor a successful one
      that some Hazelcast restores from. */
  method CleanupResources(list: seq<Backup>, restores: Restores, listed: bool, failedLimit: nat, successfulLimit: nat,
                          failedOrder: seq<Backup>, successfulOrder: seq<Backup>)
    returns (failed: seq<Backup>, successful: seq<Backup>)
    requires SortedForm(failedOrder, FailedOf(list), Created)
    requires SortedForm(successfulOrder, UnreferencedOf(SuccessfulOf(list), restores), Created)
    ensures OldestBeyond(failed, FailedOf(list), failedLimit)
    ensures if listed then OldestBeyond(successful, UnreferencedOf(SuccessfulOf(list), restores), successfulLimit)
            else successful == []
    ensures forall b :: b in failed ==> b in list && b.state == HotBackupStart.Failure
    ensures forall b :: b in successful ==> b in list && b.state == HotBackupStart.Success && Some(b.name) !in restores
  {
    if |list| == 0 { return [], []; }
    var failures, successes := Classify(list);
    failed := DeleteHotBackupHistory(failedLimit, failures, failedOrder);
    ClassMembers(list, restores);
    forall b | b in failed ensures b in FailedOf(list) {
      assert b in multiset(failed);
    }
    if !listed { return failed, []; }
    var unreferenced := Unreferenced(successes, restores);
    successful := DeleteHotBackupHistory(successfulLimit, unreferenced, successfulOrder);
    ClassMembers(SuccessfulOf(list), restores);
    forall b | b in successful ensures b in UnreferencedOf(SuccessfulOf(list), restores) {
      assert b in multiset(successful);
    }
  }
}
