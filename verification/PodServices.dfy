/** The per-pod services of a cluster exposed with the Smart type, and their bookkeeping:
    the number of services is kept in an annotation of the StatefulSet, which tells later
    reconciles how many services may be left over from an earlier specification. */
module PodServices {
  import opened Wrappers
  import opened Environment

  /** `userCount` is what the user's own annotations say about the count annotation. */
  datatype Spec = Spec(smart: bool, clusterSize: nat, userCount: Option<int>)

  /** The calls that can fail. */
  datatype Call = ApplyService | DeleteService | ReadStatefulSet | WriteStatefulSet

  type Environ = Env<Call>

  function Needed(spec: Spec): nat {
    if spec.smart then spec.clusterSize else 0
  }

  class HazelcastReconciler {
    // The cluster: the numbers of the services that exist, and the StatefulSet
    var services: set<nat>
    var statefulSet: bool
    var count: Option<int>

    /** Exactly the services 0 to n-1 exist. */
    ghost predicate Exactly(n: nat) reads this`services {
      forall i: nat :: i in services <==> i < n
    }

    predicate BelowCount(i: nat) reads this {
      statefulSet && count.Some? && i < count.value
    }

    /** Services beyond the first n can be found through the annotation. */
    ghost predicate Cleanable(n: nat) reads this {
      forall i :: i in services && i >= n ==> BelowCount(i)
    }

    /** All services can be: what holds whenever the specification may change. */
    ghost predicate Settled() reads this {
      forall i :: i in services ==> BelowCount(i)
    }

    /** Service i is there and cannot be found through the annotation. */
    ghost predicate Overlooked(i: nat) reads this {
      i in services && !BelowCount(i)
    }

    constructor ()
      ensures Settled() && Exactly(0) && !statefulSet
    {
      services, statefulSet, count := {}, false, None;
    }

    /** Creates or updates the services in order and gives up at the first failure. */
    method ReconcileServicePerPod(env: Environ, spec: Spec) returns (ok: bool)
      modifies `services
      ensures old(services) <= services
      ensures forall i :: i in services && i !in old(services) ==> i < Needed(spec)
      ensures ok ==> forall i: nat :: i < Needed(spec) ==> i in services
      ensures env.Cooperative? && ApplyService !in env.refused ==> ok
    {
      if !spec.smart { return true; }
      for i := 0 to spec.clusterSize
        invariant old(services) <= services
        invariant forall k :: k in services && k !in old(services) ==> k < Needed(spec)
        invariant forall k: nat :: k < i ==> k in services
      {
        var applied := Granted(env, ApplyService);
        if applied { services := services + {i}; }
        var answered := Granted(env, ApplyService);
        if !applied || !answered { return false; }
      }
      return true;
    }

    /** Deletes the services from the number needed up to the annotated number. */
    method ReconcileUnusedServicePerPod(env: Environ, spec: Spec) returns (ok: bool)
      modifies `services
      ensures services <= old(services)
      ensures forall i :: i in old(services) && i !in services ==> i >= Needed(spec) && BelowCount(i)
      ensures ok ==> forall i :: i in old(services) ==> (i in services <==> i < Needed(spec) || !BelowCount(i))
      ensures env.Cooperative? && ReadStatefulSet !in env.refused && DeleteService !in env.refused ==> ok
    {
      var s: nat := Needed(spec);
      var readable := Granted(env, ReadStatefulSet);
      if !readable { return false; }
      if !statefulSet { return true; }
      if count.None? { return true; }
      var p := count.value;
      var i: nat := s;
      while i < p
        invariant s <= i && (i <= p || i == s)
        invariant services <= old(services)
        invariant forall k :: k in old(services) ==> (k in services <==> k < s || k >= i)
        decreases p - i
      {
        var applied := Granted(env, DeleteService);
        if i in services && applied { services := services - {i}; }
        var answered := Granted(env, DeleteService);
        if !answered || i in services { return false; }
        i := i + 1;
      }
      return true;
    }

    /** The annotations: the old ones, over them the user's, over them the number of services. */
    method ReconcileStatefulset(env: Environ, spec: Spec) returns (ok: bool)
      modifies `statefulSet, `count
      ensures ok ==> statefulSet && count == Annotated(spec, if old(statefulSet) then old(count) else None)
      ensures (statefulSet == old(statefulSet) && count == old(count)) ||
              (statefulSet && count == Annotated(spec, if old(statefulSet) then old(count) else None))
      ensures env.Cooperative? ==> (ok <==> WriteStatefulSet !in env.refused)
      ensures env.Cooperative? && !ok ==> statefulSet == old(statefulSet) && count == old(count)
    {
      var annotation := if statefulSet then count else None;
      if spec.userCount.Some? { annotation := spec.userCount; }
      if spec.smart { annotation := Some(spec.clusterSize as int); }
      var applied := Granted(env, WriteStatefulSet);
      if !applied { return false; }
      statefulSet, count := true, annotation;
      ok := Granted(env, WriteStatefulSet);
    }

    /** One reconcile, possibly cut short.  A complete one leaves exactly the services
        needed if and only if, before it, every service beyond them was below the annotated
        number; and then they all are below the number annotated by it.  A service that is
        overlooked stays so until it is needed or the user annotates a larger number. */
    method Reconcile(env: Environ, spec: Spec) returns (complete: bool)
      modifies this
      ensures old(Cleanable(Needed(spec))) ==> Cleanable(Needed(spec))
      ensures complete ==> (Exactly(Needed(spec)) <==> old(Cleanable(Needed(spec))))
      ensures complete && Exactly(Needed(spec)) ==> Settled()
      ensures forall i: nat :: old(Overlooked(i)) && i >= Needed(spec) && !UserCounts(spec, i) ==> Overlooked(i)
      ensures complete ==> forall i: nat :: old(Overlooked(i)) && i >= Needed(spec) ==> (Overlooked(i) <==> !UserCounts(spec, i))
      ensures env == Cooperative({}) ==> complete
      ensures env == Cooperative({WriteStatefulSet}) ==> statefulSet == old(statefulSet) && count == old(count)
      ensures env == Cooperative({WriteStatefulSet}) ==> forall i: nat :: i < Needed(spec) ==> i in services
    {
      ghost var n := Needed(spec);
      complete := ReconcileServicePerPod(env, spec);
      if !complete { return; }
      ghost var created := services;
      assert forall i :: i in created && i >= n ==> i in old(services);
      complete := ReconcileUnusedServicePerPod(env, spec);
      if !complete { return; }
      assert forall i :: BelowCount(i) == old(BelowCount(i));
      if Exactly(n) {
        forall i | i in old(services) && i >= n ensures old(BelowCount(i)) {
          assert i in created && i !in services;
        }
        assert old(Cleanable(n));
      }
      complete := ReconcileStatefulset(env, spec);
    }
  }

  /** The count annotation the StatefulSet gets. */
  function Annotated(spec: Spec, before: Option<int>): Option<int> {
    if spec.smart then Some(spec.clusterSize as int)
    else if spec.userCount.Some? then spec.userCount
    else before
  }

  /** The user's own annotation covers service i, and the operator does not overwrite it. */
  predicate UserCounts(spec: Spec, i: nat) {
    !spec.smart && spec.userCount.Some? && spec.userCount.value > i
  }

  /** For any sequence of specifications, each reconciled with any number of attempts until
      one is complete before the next is given: every complete reconcile leaves exactly the
      services needed. */
  method Run(specs: seq<Spec>, attempts: seq<nat>) returns (r: HazelcastReconciler, done: nat)
    requires |attempts| == |specs|
    ensures fresh(r) && done <= |specs|
    ensures done > 0 && done == |specs| ==> r.Exactly(Needed(specs[done - 1])) && r.Settled()
  {
    r := new HazelcastReconciler();
    done := 0;
    while done < |specs|
      invariant fresh(r) && done <= |specs| && r.Settled()
      invariant done > 0 ==> r.Exactly(Needed(specs[done - 1]))
    {
      var spec, tries, complete := specs[done], attempts[done], false;
      while !complete && tries > 0
        invariant fresh(r) && r.Cleanable(Needed(spec))
        invariant complete ==> r.Exactly(Needed(spec)) && r.Settled()
        decreases tries
      {
        complete := r.Reconcile(Whatever, spec);
        tries := tries - 1;
      }
      if !complete { return; }
      done := done + 1;
    }
  }

  /** Changing the specification after a reconcile that was cut short leaves services behind:
      `large` of them are created, the StatefulSet is not written, and `small` are then asked
      for.  The next reconcile is complete, and the last service is still there. */
  method ChangedTooEarly(large: nat, small: nat) returns (r: HazelcastReconciler, complete: bool)
    requires small < large
    ensures fresh(r) && complete && !r.Exactly(small) && r.Overlooked(large - 1)
  {
    r := new HazelcastReconciler();
    var cut := r.Reconcile(Cooperative({WriteStatefulSet}), Spec(true, large, None));
    assert r.Overlooked(large - 1);
    complete := r.Reconcile(Cooperative({}), Spec(true, small, None));
  }

  /** From then on it stays there through any number of reconciles of specifications that do not
      need it. */
  method StaysOverlooked(r: HazelcastReconciler, i: nat, specs: seq<Spec>)
    requires r.Overlooked(i)
    requires forall k :: 0 <= k < |specs| ==> Needed(specs[k]) <= i && !UserCounts(specs[k], i)
    modifies r
    ensures r.Overlooked(i)
  {
    for k := 0 to |specs|
      invariant r.Overlooked(i)
    {
      var complete := r.Reconcile(Whatever, specs[k]);
    }
  }
}
