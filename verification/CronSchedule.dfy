/** The registry of scheduled backups: one cron entry per CronHotBackup, remembered under
    the name of the resource. */
module CronSchedule {
  import opened Wrappers

  class CronHotBackupReconciler {
    /** sync.Map from resource to its cron entry. */
    var scheduled: map<string, nat>
    /** The entries of the cron library: which schedule each live entry runs, and the next id. */
    var entries: map<nat, string>
    var nextId: nat

    ghost predicate Registered(id: nat) reads this`scheduled {
      exists key :: key in scheduled && scheduled[key] == id
    }

    /** The live entries are exactly the registered ones, one per resource. */
    ghost predicate Valid() reads this {
      && (forall id :: id in entries ==> id < nextId)
      && (forall key :: key in scheduled ==> scheduled[key] in entries)
      && (forall key, key' :: key in scheduled && key' in scheduled && scheduled[key] == scheduled[key'] ==> key == key')
      && (forall id :: id in entries ==> Registered(id))
    }

    /** The schedule that runs for a resource, if any. */
    ghost function Running(key: string): Option<string>
      requires Valid()
      reads this
    {
      if key in scheduled then Some(entries[scheduled[key]]) else None
    }

    constructor ()
      ensures Valid() && entries == map[]
    {
      scheduled, entries, nextId := map[], map[], 0;
    }

    /** cron.AddFunc: a bad schedule is refused. */
    method AddFunc(schedule: string, parses: bool) returns (id: Option<nat>)
      requires forall id :: id in entries ==> id < nextId
      modifies `entries, `nextId
      ensures id.Some? <==> parses
      ensures parses ==> id == Some(old(nextId)) && nextId == old(nextId) + 1 && entries == old(entries)[old(nextId) := schedule]
      ensures !parses ==> entries == old(entries) && nextId == old(nextId)
    {
      if !parses { return None; }
      entries, nextId, id := entries[nextId := schedule], nextId + 1, Some(nextId);
    }

    method RemoveSchedule(key: string)
      requires Valid()
      modifies `scheduled, `entries
      ensures Valid() && Running(key) == None
      ensures forall other :: other != key ==> Running(other) == old(Running(other))
    {
      if key in scheduled {
        var jobId := scheduled[key];
        ghost var before := scheduled;
        scheduled := scheduled - {key};
        entries := entries - {jobId};
        forall id | id in entries ensures Registered(id) {
          var k :| k in before && before[k] == id;
          assert k in scheduled;
        }
      }
    }

    /** Schedules, reschedules or suspends a resource: afterwards it runs its new schedule,
        none when it is suspended, and what it ran before when the schedule is refused. */
    method UpdateSchedule(key: string, suspend: bool, schedule: string, parses: bool) returns (ok: bool)
      requires Valid()
      modifies this
      ensures Valid()
      ensures ok <==> suspend || parses
      ensures Running(key) == if suspend then None else if parses then Some(schedule) else old(Running(key))
      ensures forall other :: other != key ==> Running(other) == old(Running(other))
    {
      if suspend {
        RemoveSchedule(key);
        return true;
      }
      var entry := AddFunc(schedule, parses);
      if entry.None? { return false; }
      Register(key, entry.value);
      return true;
    }

    /** LoadOrStore, and when an older entry was registered, its removal. */
    method Register(key: string, entry: nat)
      requires entry in entries && (forall id :: id in entries ==> id < nextId)
      requires forall k :: k in scheduled ==> scheduled[k] in entries && scheduled[k] != entry
      requires forall k, k' :: k in scheduled && k' in scheduled && scheduled[k] == scheduled[k'] ==> k == k'
      requires forall id :: id in entries && id != entry ==> Registered(id)
      modifies `scheduled, `entries
      ensures Valid() && scheduled == old(scheduled)[key := entry]
      ensures entries == if key in old(scheduled) then old(entries) - {old(scheduled)[key]} else old(entries)
    {
      ghost var before := scheduled;
      if key in scheduled {
        entries := entries - {scheduled[key]};
      }
      scheduled := scheduled[key := entry];
      forall id | id in entries ensures Registered(id) {
        if id == entry {
          assert scheduled[key] == id;
        } else {
          var k :| k in before && before[k] == id;
          assert k != key && scheduled[k] == id;
        }
      }
    }
  }

  datatype Step = Schedule(key: string, schedule: string, parses: bool) | Suspend(key: string) | Remove(key: string)

  /** What runs for a resource after these steps. */
  function RunningAfter(steps: seq<Step>, key: string): Option<string> {
    if steps == [] then None
    else
      var before, last := RunningAfter(steps[..|steps| - 1], key), steps[|steps| - 1];
      if last.key != key then before
      else if last.Schedule? then (if last.parses then Some(last.schedule) else before)
      else None
  }

  /** After any sequence of steps every resource runs exactly what its own steps say, and
      no cron entry is left that is not registered for a resource. */
  method Run(steps: seq<Step>) returns (r: CronHotBackupReconciler)
    ensures fresh(r) && r.Valid()
    ensures forall key :: r.Running(key) == RunningAfter(steps, key)
  {
    r := new CronHotBackupReconciler();
    for i := 0 to |steps|
      invariant fresh(r) && r.Valid()
      invariant forall key :: r.Running(key) == RunningAfter(steps[..i], key)
    {
      assert steps[..i + 1][..i] == steps[..i];
      match steps[i] {
        case Schedule(key, schedule, parses) => var ok := r.UpdateSchedule(key, false, schedule, parses);
        case Suspend(key) => var ok := r.UpdateSchedule(key, true, "", false);
        case Remove(key) => r.RemoveSchedule(key);
      }
    }
    assert steps[..|steps|] == steps;
  }
}
