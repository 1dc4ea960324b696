/** When a hot backup is started.  One name in one namespace: HotBackup resources are
    created, edited, deleted and created again under it, each incarnation with its own
    number; the reconciler reads them through a cache that lags behind and guards the
    start by the stored state and by a lock it loses when the operator restarts. */
module HotBackupStart {
  import opened Wrappers
  import opened Environment

  datatype State = Unset | Unknown | Pending | NotStarted | InProgress | Failure | Success

  predicate IsFinished(s: State) {
    s == Failure || s == Success
  }

  predicate IsRunning(s: State) {
    s == InProgress || s == NotStarted
  }

  /** One stored version of the resource. */
  datatype Version = Version(inc: nat, spec: string, state: State, lastSuccessful: Option<string>, deleting: bool, finalizer: bool)

  /** Versions the guards on state and deletion stop at. */
  predicate Blocked(v: Version) {
    IsRunning(v.state) || IsFinished(v.state) || v.deleting
  }

  /** Versions at which a reconcile that reads them, when they are not the latest ones, stops
      before it starts a backup: also those it would have to add the finalizer to, and
      those whose spec is annotated as applied. */
  predicate Stops(v: Version) {
    Blocked(v) || !v.finalizer || v.lastSuccessful == Some(v.spec)
  }

  /** Incarnations follow each other, and a deletion is not taken back. */
  ghost predicate Ordered(history: seq<Version>) {
    forall i, j :: 0 <= i <= j < |history| ==>
      history[i].inc <= history[j].inc &&
      (history[i].inc == history[j].inc && history[i].deleting ==> history[j].deleting)
  }

  predicate Follows(v: Version, next: Version) {
    next.inc > v.inc || (next.inc == v.inc && (v.deleting ==> next.deleting))
  }

  lemma OrderedGrows(history: seq<Version>, next: Version)
    requires Ordered(history) && history != [] && Follows(history[|history| - 1], next)
    ensures Ordered(history + [next])
  {
    var n := |history| - 1;
    forall i | 0 <= i < |history|
      ensures history[i].inc <= next.inc && (history[i].inc == next.inc && history[i].deleting ==> next.deleting)
    {
      assert history[i].inc <= history[n].inc && (history[i].inc == history[n].inc && history[i].deleting ==> history[n].deleting);
    }
  }

  /** Histories and caches only grow. */
  ghost predicate Later(before: seq<Version>, after: seq<Version>, cached: nat, cached': nat) {
    && before != [] && before <= after && cached <= cached' < |after|
    && before[|before| - 1].inc <= after[|after| - 1].inc
  }

  /** A version as the user creates it. */
  predicate FreshVersion(v: Version) {
    v.state == Unset && v.lastSuccessful.None? && !v.deleting && !v.finalizer
  }

  predicate Granting(env: Environ) {
    env == Cooperative({})
  }

  /** All writes succeed, whatever the cluster is like. */
  predicate Writes(env: Environ) {
    env.Cooperative? && Write !in env.refused
  }

  /** The calls a cooperative environment may refuse; the witnesses need none refused. */
  datatype Call = Write | Cluster | Persistence | Unreferenced

  function Annotated(v: Version): Version {
    v.(lastSuccessful := Some(v.spec))
  }

  /** Since then a version was stored whose specification is recorded as applied. */
  ghost predicate AnnotatedSince(history: seq<Version>, from: nat) {
    exists i :: from <= i < |history| && history[i].lastSuccessful == Some(history[i].spec)
  }

  /** The versions a reconcile stores right before it starts the backup: first the annotation that
      keeps the specification from being backed up again, then the state. */
  function StartVersions(v: Version): seq<Version> {
    [Annotated(v), Annotated(v).(state := NotStarted)]
  }

  type Environ = Env<Call>

  class HotBackupReconciler {
    // The server: all versions so far, and whether the latest one still exists
    var history: seq<Version>
    var present: bool
    // The cache shows some version, in one process never an older one than before
    var cached: nat
    // The lock of this name
    var locked: bool
    // The incarnations for which a backup was started, in order
    ghost var starts: seq<nat>
    // Whether every restart so far was a safe one
    ghost var restartsSafe: bool

    ghost function Latest(): Version reads this`history
      requires history != []
    {
      history[|history| - 1]
    }

    /** Every version from k on stops a reconcile. */
    ghost predicate StopsFrom(k: nat) reads this`history {
      forall i :: k <= i < |history| ==> Stops(history[i])
    }

    /** A backup was started for the resource that is there now. */
    ghost predicate AlreadyStarted() reads this`history, this`present, this`starts {
      history != [] && present && Latest().inc in starts
    }

    /** Filling the cache from version k is safe. */
    ghost predicate SafeAfter(k: nat) reads this`history, this`present, this`starts {
      AlreadyStarted() ==> StopsFrom(k)
    }

    ghost predicate Valid() reads this {
      && cached < |history| && Ordered(history) && (forall b :: b in starts ==> b <= Latest().inc)
      && (restartsSafe ==>
            && NoDuplicates(starts)
            && (AlreadyStarted() ==> Blocked(Latest()))
            && (if locked then forall b :: b in starts ==> b <= history[cached].inc else SafeAfter(cached)))
    }

    /** A start now would be the first of its incarnation. */
    ghost predicate Eligible() reads this {
      !locked && !AlreadyStarted()
    }

    constructor (spec: string)
      ensures Valid() && starts == [] && restartsSafe && present && !locked && cached == 0
      ensures history == [Version(0, spec, Unset, None, false, false)]
    {
      history, present := [Version(0, spec, Unset, None, false, false)], true;
      cached, locked, starts, restartsSafe := 0, false, [], true;
    }

    /** The server stores a new version.  A started incarnation only gets versions that
        stop a reconcile. */
    method Store(next: Version)
      requires Valid() && Follows(Latest(), next)
      requires restartsSafe && next.inc in starts ==> Blocked(next)
      modifies `history
      ensures Valid() && history == old(history) + [next]
    {
      OrderedGrows(history, next);
      history := history + [next];
    }

    // ---------- The environment ----------

    /** Users, the garbage collector, running backups and the cache, any number of steps.  A
        cooperative environment only lets the cache catch up, when asked to. */
    method Others(env: Environ, catchUp: bool)
      requires Valid()
      modifies `history, `present, `cached
      ensures Valid() && Later(old(history), history, old(cached), cached)
      ensures old(!AlreadyStarted()) ==> !AlreadyStarted()
      ensures env.Cooperative? ==> history == old(history) && present == old(present) &&
                                   cached == if catchUp then |history| - 1 else old(cached)
    {
      if env.Cooperative? {
        if catchUp { CatchUp(|history| - 1); }
        return;
      }
      var rounds: nat := *;
      while rounds > 0
        invariant Valid() && Later(old(history), history, old(cached), cached)
        invariant old(!AlreadyStarted()) ==> !AlreadyStarted()
      {
        Another();
        rounds := rounds - 1;
      }
    }

    method CatchUp(k: nat)
      requires Valid() && cached <= k < |history|
      modifies `cached
      ensures Valid() && cached == k
    {
      cached := k;
    }

    method Another()
      requires Valid()
      modifies `history, `present, `cached
      ensures Valid() && Later(old(history), history, old(cached), cached)
      ensures old(!AlreadyStarted()) ==> !AlreadyStarted()
    {
      if * {
        var k: nat := *;
        if cached <= k < |history| { CatchUp(k); }
      } else if * {
        // the resource goes away, normally when it is deleting and has no finalizer
        present := false;
      } else if !present {
        Create();
      } else {
        Overwrite();
      }
    }

    method Create()
      requires Valid() && !present
      modifies `history, `present
      ensures Valid() && Later(old(history), history, cached, cached) && !AlreadyStarted()
    {
      var spec: string := *;
      Store(Version(history[|history| - 1].inc + 1, spec, Unset, None, false, false));
      present := true;
    }

    /** An edit, a deletion, or a running backup, possibly of an earlier incarnation, that
        writes its state by name. */
    method Overwrite()
      requires Valid() && present
      modifies `history
      ensures Valid() && Later(old(history), history, cached, cached)
      ensures old(!AlreadyStarted()) ==> !AlreadyStarted()
    {
      var spec: string := *;
      var state: State := *;
      var next := history[|history| - 1].(spec := spec);
      if * {
        next := next.(deleting := true);
      } else if state in {InProgress, Failure, Success} {
        next := next.(state := state);
      }
      Store(next);
    }

    /** The operator restarts: the lock is lost, and the cache is filled from a version that
        may be old. */
    method Restart(k: nat)
      requires Valid() && k < |history|
      modifies `locked, `cached, `restartsSafe
      ensures Valid() && !locked && cached == k
      ensures restartsSafe <==> old(restartsSafe) && SafeAfter(k)
    {
      restartsSafe := restartsSafe && SafeAfter(k);
      locked, cached := false, k;
    }

    // ---------- API calls ----------

    /** Reads through the cache, and whether what was read is still the latest version when
        the write arrives. */
    method ReadForWrite(env: Environ) returns (r: WriteResult)
      requires Valid()
      modifies `history, `present, `cached
      ensures Valid() && Later(old(history), history, old(cached), cached)
      ensures old(!AlreadyStarted()) ==> !AlreadyStarted()
      ensures r == Ok ==> present && cached + 1 == |history|
      ensures Writes(env) && old(present) ==> r == Ok && history == old(history)
    {
      Others(env, true);
      var found := Granted(env, Write);
      if !found { return Error; }
      var read := cached;
      Others(env, false);
      if !present { return Error; }
      if read + 1 != |history| { return Conflict; }
      var applied := Granted(env, Write);
      return if applied then Ok else Error;
    }

    /** Reads again after every conflict, up to the number of retries. */
    method RetryOnConflict(env: Environ) returns (ok: bool)
      requires Valid()
      modifies `history, `present, `cached
      ensures Valid() && Later(old(history), history, old(cached), cached)
      ensures old(!AlreadyStarted()) ==> !AlreadyStarted()
      ensures ok ==> present && cached + 1 == |history|
      ensures Writes(env) && old(present) ==> ok && history == old(history)
    {
      for attempt := 0 to DEFAULT_RETRY_STEPS
        invariant Valid() && Later(old(history), history, old(cached), cached)
        invariant old(!AlreadyStarted()) ==> !AlreadyStarted()
        invariant Writes(env) && old(present) ==> attempt == 0 && present && history == old(history)
      {
        var r := ReadForWrite(env);
        if r != Conflict { return r == Ok; }
      }
      return false;
    }

    /** updateStatus: read, set the state and write, again after a conflict.  `at` is the
        incarnation written to. */
    method UpdateStatus(env: Environ, state: State) returns (ok: bool, ghost at: nat)
      requires Valid() && (restartsSafe ==> IsRunning(state) || IsFinished(state) || Eligible())
      modifies `history, `present, `cached
      ensures Valid() && Later(old(history), history, old(cached), cached)
      ensures old(!AlreadyStarted()) ==> !AlreadyStarted()
      ensures ok ==> present && Latest().state == state && Latest().inc == at == history[cached].inc && |old(history)| < |history|
      ensures Writes(env) && old(present) ==> ok && history == old(history) + [old(Latest()).(state := state)]
    {
      ok := RetryOnConflict(env);
      at := Latest().inc;
      if !ok { return; }
      Store(history[cached].(state := state));
      ok := Granted(env, Write);
    }

    /** Update of metadata by name: the annotation, read through the cache and retried. */
    method UpdateLastSuccessfulConfiguration(env: Environ) returns (ok: bool)
      requires Valid()
      modifies `history, `present, `cached
      ensures Valid() && Later(old(history), history, old(cached), cached)
      ensures old(!AlreadyStarted()) ==> !AlreadyStarted()
      ensures ok ==> present && |old(history)| < |history| && Latest().lastSuccessful == Some(Latest().spec)
      ensures Writes(env) && old(present) ==> ok && history == old(history) + [Annotated(old(Latest()))]
    {
      ok := RetryOnConflict(env);
      if !ok { return; }
      var v := history[cached];
      Store(Annotated(v));
      ok := Granted(env, Write);
    }

    /** Update of the finalizer of the copy read at version `read`.  It succeeds only on the
        latest version, so an unblocked one is not yet started. */
    method UpdateFinalizer(env: Environ, read: nat, finalizer: bool) returns (ok: bool)
      requires Valid() && read < |history|
      modifies `history, `present, `cached
      ensures Valid() && Later(old(history), history, old(cached), cached)
      ensures old(!AlreadyStarted()) ==> !AlreadyStarted()
      ensures ok && restartsSafe && !Blocked(old(history)[read]) ==> !AlreadyStarted()
      ensures ok ==> present && Latest() == old(history)[read].(finalizer := finalizer)
      ensures Writes(env) && old(present) && read + 1 == |old(history)| ==>
                ok && present && history == old(history) + [old(Latest()).(finalizer := finalizer)]
    {
      Others(env, false);
      if !present || read + 1 != |history| { return false; }
      var applied := Granted(env, Write);
      if !applied { return false; }
      Store(history[read].(finalizer := finalizer));
      ok := Granted(env, Write);
    }

    // ---------- Deletion ----------

    /** The lock goes when the finalizer is about to be removed, and only then. */
    method ExecuteFinalizer(env: Environ) returns (ok: bool)
      requires Valid() && history[cached].deleting
      modifies `history, `present, `cached, `locked
      ensures Valid() && old(history) <= history
      ensures if old(history[cached].finalizer) then ok ==> !locked else locked == old(locked)
      ensures locked ==> old(locked)
      ensures !old(history[cached].finalizer) ==> ok && history == old(history)
      ensures env == Cooperative({Unreferenced}) && old(history[cached].finalizer) ==>
                !ok && history == old(history) && present == old(present) && locked == old(locked)
      ensures Granting(env) && old(present && cached + 1 == |history| && history[cached].finalizer) ==>
                ok && history == old(history) + [old(Latest()).(finalizer := false)]
    {
      var read := cached;
      if !history[read].finalizer { return true; }
      var unreferenced := Granted(env, Unreferenced);      // no Hazelcast restores from it
      if !unreferenced { return false; }
      Unlock();
      ok := UpdateFinalizer(env, read, false);
    }

    /** Every version the cache can still show of the resource that is there is deleting. */
    method Unlock()
      requires Valid() && history[cached].deleting
      modifies `locked
      ensures Valid() && !locked
    {
      if locked && AlreadyStarted() && restartsSafe {
        forall i | cached <= i < |history| ensures Stops(history[i]) {
          assert history[cached].inc <= history[i].inc <= Latest().inc;
        }
      }
      locked := false;
    }

    method ReconcileDeleted(env: Environ)
      requires Valid() && history[cached].deleting
      modifies `history, `present, `cached, `locked
      ensures Valid() && old(history) <= history && (locked ==> old(locked))
      ensures !old(history[cached].finalizer) ==> history == old(history) && locked == old(locked)
      ensures env == Cooperative({Unreferenced}) && old(present && history[cached].finalizer) ==>
                Latest() == old(Latest()).(state := Failure) && locked == old(locked)
      ensures Granting(env) && old(present && cached + 1 == |history| && history[cached].finalizer) ==>
                !locked && history == old(history) + [old(Latest()).(finalizer := false)]
    {
      var ok := ExecuteFinalizer(env);
      if !ok { ghost var at; ok, at := UpdateStatus(env, Failure); }
    }

    // ---------- The reconcile ----------

    /** In a cooperative environment a version that does not stop it has a backup started, for
        the resource that is there. */
    method Reconcile(env: Environ) returns (started: bool)
      requires Valid()
      modifies `history, `present, `cached, `locked, `starts
      ensures Valid() && old(history) <= history
      ensures started ==> AnnotatedSince(history, |old(history)|)
      ensures if started then locked && |starts| == |old(starts)| + 1 && old(starts) <= starts else starts == old(starts)
      ensures !started && locked ==> old(locked)
      ensures Granting(env) && old(present && !locked && !Stops(history[cached])) ==>
                started && starts == old(starts) + [old(Latest().inc)] && history == old(history) + StartVersions(old(Latest()))
      ensures Granting(env) && old(present && !locked && cached + 1 == |history|) && old(FreshVersion(history[cached])) ==>
                && started && starts == old(starts) + [old(Latest().inc)] && present
                && history == old(history) + [old(Latest()).(finalizer := true)] + StartVersions(old(Latest()).(finalizer := true))
      ensures env == Cooperative({Cluster}) && old(present && !locked && !Stops(history[cached])) ==>
                !started && present && Latest() == old(Latest()).(state := Pending)
      ensures Granting(env) && old(present && cached + 1 == |history| && history[cached].deleting && history[cached].finalizer) ==>
                !locked && history == old(history) + [old(Latest()).(finalizer := false)]
      ensures env == Cooperative({Unreferenced}) && old(present && history[cached].deleting && history[cached].finalizer) ==>
                Latest() == old(Latest()).(state := Failure) && locked == old(locked)
    {
      started := false;
      Others(env, false);
      var found := Granted(env, Write);
      if !found {
        ghost var at;
        var ok;
        ok, at := UpdateStatus(env, Failure);
        return;
      }
      var shown: bool := *;             // whether the cache still holds a resource of the name
      if !shown && !env.Cooperative? { return; }
      started := ReconcileShown(env);
    }

    method ReconcileShown(env: Environ) returns (started: bool)
      requires Valid()
      modifies `history, `present, `cached, `locked, `starts
      ensures Valid() && old(history) <= history
      ensures started ==> AnnotatedSince(history, |old(history)|)
      ensures if started then locked && |starts| == |old(starts)| + 1 && old(starts) <= starts else starts == old(starts)
      ensures !started && locked ==> old(locked)
      ensures Granting(env) && old(present && !locked && !Stops(history[cached])) ==>
                started && starts == old(starts) + [old(Latest().inc)] && history == old(history) + StartVersions(old(Latest()))
      ensures Granting(env) && old(present && !locked && cached + 1 == |history|) && old(FreshVersion(history[cached])) ==>
                && started && starts == old(starts) + [old(Latest().inc)] && present
                && history == old(history) + [old(Latest()).(finalizer := true)] + StartVersions(old(Latest()).(finalizer := true))
      ensures env == Cooperative({Cluster}) && old(present && !locked && !Stops(history[cached])) ==>
                !started && present && Latest() == old(Latest()).(state := Pending)
      ensures Granting(env) && old(present && cached + 1 == |history| && history[cached].deleting && history[cached].finalizer) ==>
                !locked && history == old(history) + [old(Latest()).(finalizer := false)]
      ensures env == Cooperative({Unreferenced}) && old(present && history[cached].deleting && history[cached].finalizer) ==>
                Latest() == old(Latest()).(state := Failure) && locked == old(locked)
    {
      started := false;
      if history[cached].deleting {
        ReconcileDeleted(env);
        return;
      }
      started := ReconcileExisting(env);
    }

    method ReconcileExisting(env: Environ) returns (started: bool)
      requires Valid() && !history[cached].deleting
      modifies `history, `present, `cached, `locked, `starts
      ensures Valid() && old(history) <= history
      ensures started ==> AnnotatedSince(history, |old(history)|)
      ensures if started then locked && |starts| == |old(starts)| + 1 && old(starts) <= starts else starts == old(starts)
      ensures !started && locked ==> old(locked)
      ensures Granting(env) && old(present && !locked && !Stops(history[cached])) ==>
                started && starts == old(starts) + [old(Latest().inc)] && history == old(history) + StartVersions(old(Latest()))
      ensures Granting(env) && old(present && !locked && cached + 1 == |history|) && old(FreshVersion(history[cached])) ==>
                && started && starts == old(starts) + [old(Latest().inc)] && present
                && history == old(history) + [old(Latest()).(finalizer := true)] + StartVersions(old(Latest()).(finalizer := true))
      ensures env == Cooperative({Cluster}) && old(present && !locked && !Stops(history[cached])) ==>
                !started && present && Latest() == old(Latest()).(state := Pending)
    {
      started := false;
      var hb := history[cached];
      if !hb.finalizer {
        var ok := UpdateFinalizer(env, cached, true);
        if !ok { ghost var at; ok, at := UpdateStatus(env, Failure); return; }
      }
      if IsRunning(hb.state) || locked { return; }
      if IsFinished(hb.state) { return; }
      if hb.lastSuccessful == Some(hb.spec) { return; }
      started := StartBackup(env);
    }

    /** The part of a reconcile after all guards. */
    method StartBackup(env: Environ) returns (started: bool)
      requires Valid() && !locked && (restartsSafe ==> Eligible())
      modifies `history, `present, `cached, `locked, `starts
      ensures Valid() && old(history) <= history
      ensures started ==> AnnotatedSince(history, |old(history)|)
      ensures if started then locked && |starts| == |old(starts)| + 1 && old(starts) <= starts else starts == old(starts)
      ensures !started && locked ==> old(locked)
      ensures Granting(env) && old(present) ==>
                started && starts == old(starts) + [old(Latest().inc)] && present && history == old(history) + StartVersions(old(Latest()))
      ensures env == Cooperative({Cluster}) && old(present) ==> !started && present && Latest() == old(Latest()).(state := Pending)
      ensures env == Cooperative({Persistence}) && old(present) ==> !started && present && Latest() == old(Latest()).(state := Failure)
    {
      started := false;
      var ready := CheckCluster(env);
      if ready { started := AnnotateAndStart(env); }
    }

    method AnnotateAndStart(env: Environ) returns (started: bool)
      requires Valid() && !locked && (restartsSafe ==> Eligible())
      modifies `history, `present, `cached, `locked, `starts
      ensures Valid() && old(history) <= history
      ensures started ==> AnnotatedSince(history, |old(history)|)
      ensures if started then locked && |starts| == |old(starts)| + 1 && old(starts) <= starts else starts == old(starts) && !locked
      ensures Granting(env) && old(present) ==>
                started && starts == old(starts) + [old(Latest().inc)] && present && history == old(history) + StartVersions(old(Latest()))
    {
      var ok;
      ghost var at;
      ok, at := AnnotateAndMark(env);
      started := ok;
      if ok { LockAndStart(env, at); }
    }

    method AnnotateAndMark(env: Environ) returns (ok: bool, ghost at: nat)
      requires Valid() && (restartsSafe ==> Eligible())
      modifies `history, `present, `cached
      ensures Valid() && Later(old(history), history, old(cached), cached)
      ensures old(!AlreadyStarted()) ==> !AlreadyStarted()
      ensures ok ==> AnnotatedSince(history, |old(history)|) && present && Latest().state == NotStarted && Latest().inc == at == history[cached].inc
      ensures Writes(env) && old(present) ==> ok && history == old(history) + StartVersions(old(Latest()))
    {
      at := 0;
      ok := UpdateLastSuccessfulConfiguration(env);
      if !ok { return; }
      ghost var annotated := |history| - 1;
      ok, at := UpdateStatus(env, NotStarted);
      assert history[annotated].lastSuccessful == Some(history[annotated].spec);
    }

    /** A cluster that is not running is waited for; one without persistence fails the backup. */
    method CheckCluster(env: Environ) returns (ready: bool)
      requires Valid() && !locked && (restartsSafe ==> Eligible())
      modifies `history, `present, `cached
      ensures Valid() && Later(old(history), history, old(cached), cached)
      ensures old(!AlreadyStarted()) ==> !AlreadyStarted()
      ensures ready ==> history == old(history) && present == old(present)
      ensures env.Cooperative? ==> (ready <==> Cluster !in env.refused && Persistence !in env.refused)
      ensures Writes(env) && old(present) && Cluster in env.refused ==> present && Latest() == old(Latest()).(state := Pending)
      ensures Writes(env) && old(present) && Cluster !in env.refused && Persistence in env.refused ==>
                present && Latest() == old(Latest()).(state := Failure)
    {
      ghost var at;
      var ok;
      var running := Granted(env, Cluster);           // the cluster exists and is running
      if !running { ok, at := UpdateStatus(env, Pending); return false; }
      var persistent := Granted(env, Persistence);    // it has persistence enabled
      if !persistent { ok, at := UpdateStatus(env, Failure); return false; }
      return true;
    }

    /** The backup is started for the incarnation whose state was set, while others go on. */
    method LockAndStart(env: Environ, ghost at: nat)
      requires Valid() && at == Latest().inc == history[cached].inc && Blocked(Latest()) && present
      requires restartsSafe ==> at !in starts
      modifies `history, `present, `cached, `locked, `starts
      ensures Valid() && old(history) <= history && locked && starts == old(starts) + [at]
      ensures env.Cooperative? ==> present && history == old(history)
    {
      ghost var before := starts;
      locked, starts := true, starts + [at];
      assert forall b :: b in starts ==> b in before || b == at;
      Others(env, false);
    }
  }

  /** Any sequence of reconciles and restarts, with everything else interleaved: as long as
      every restart is safe, no incarnation has its backup started twice. */
  method Run(spec: string, steps: nat) returns (r: HotBackupReconciler)
    ensures fresh(r) && r.Valid() && (r.restartsSafe ==> NoDuplicates(r.starts))
  {
    r := new HotBackupReconciler(spec);
    for i := 0 to steps
      invariant fresh(r) && r.Valid()
    {
      r.Others(Whatever, false);
      var k: nat := *;
      if 0 <= k < |r.history| {
        r.Restart(k);
      } else {
        var started := r.Reconcile(Whatever);
      }
    }
  }

  /** A backup that had to wait for its cluster is started as soon as the cluster runs. */
  method StartedAfterWaiting(r: HotBackupReconciler) returns (waited: bool, started: bool)
    requires r.Valid() && r.present && !r.locked && r.cached + 1 == |r.history| && !Stops(r.Latest())
    modifies r
    ensures r.Valid() && !waited && started && r.starts == old(r.starts) + [old(r.Latest().inc)]
  {
    waited := r.Reconcile(Cooperative({Cluster}));
    r.CatchUp(|r.history| - 1);
    started := r.Reconcile(Cooperative({}));
  }

  /** A restart that is not safe: some version the cache can show does not stop a reconcile,
      although a backup was started.  One reconcile later it has been started again. */
  method UnsafeRestartStartsAgain(r: HotBackupReconciler, k: nat) returns (b: nat)
    requires r.Valid() && k < |r.history| && !r.SafeAfter(k)
    modifies r
    ensures r.Valid() && r.starts == old(r.starts) + [b] && b in old(r.starts) && b == old(r.Latest().inc)
  {
    b := r.history[|r.history| - 1].inc;
    var i := FirstNotStopping(r.history, k);
    r.Restart(k);
    r.CatchUp(i);
    var started := r.Reconcile(Cooperative({}));
  }

  method FirstNotStopping(history: seq<Version>, k: nat) returns (i: nat)
    requires exists j :: k <= j < |history| && !Stops(history[j])
    ensures k <= i < |history| && !Stops(history[i])
  {
    i := k;
    while Stops(history[i])
      invariant k <= i < |history| && exists j :: i <= j < |history| && !Stops(history[j])
      decreases |history| - i
    {
      i := i + 1;
    }
  }

  /** The whole run from the creation of the resource: it is started, the operator restarts with
      a cache that shows the version with the finalizer and nothing else, and it is started again. */
  method StartedTwice(spec: string) returns (r: HotBackupReconciler)
    ensures fresh(r) && r.starts == [0, 0]
  {
    r := new HotBackupReconciler(spec);
    var started := r.Reconcile(Cooperative({}));
    assert r.starts == [0] && !Stops(r.history[1]);
    var b := UnsafeRestartStartsAgain(r, 1);
  }
}
