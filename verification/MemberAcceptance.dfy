/** Pushing the configuration of a map or data structure to the members of its cluster,
    in rounds.  A round skips the members whose Success is stored from earlier rounds. */
module MemberAcceptance {
  import opened Wrappers
  import opened Environment

  datatype ConfigState = Unset | Success | Failed | Pending | Persisting

  type Statuses = map<string, ConfigState>

  predicate Recorded(statuses: Statuses, u: string) {
    u in statuses && statuses[u] == Success
  }

  /** The member is skipped as recorded, or it accepts. */
  predicate Takes(statuses: Statuses, u: string, answer: bool) {
    Recorded(statuses, u) || answer
  }

  function StatusesAfter(members: seq<string>, statuses: Statuses, answers: seq<bool>, n: nat): Statuses
    requires n <= |members| == |answers|
  {
    if n == 0 then map[]
    else
      StatusesAfter(members, statuses, answers, n - 1)
        [members[n - 1] := if Takes(statuses, members[n - 1], answers[n - 1]) then Success else Failed]
  }

  /** The last listing of a member decides its status. */
  lemma {:induction false} LastListingDecides(members: seq<string>, statuses: Statuses, answers: seq<bool>, n: nat, u: string)
    returns (k: nat)
    requires n <= |members| == |answers| && u in members[..n]
    ensures k < n && members[k] == u && u !in members[k + 1..n]
    ensures Recorded(StatusesAfter(members, statuses, answers, n), u) <==> Takes(statuses, u, answers[k])
  {
    if members[n - 1] == u {
      k := n - 1;
    } else {
      k := LastListingDecides(members, statuses, answers, n - 1, u);
      assert members[k + 1..n] == members[k + 1..n - 1] + [members[n - 1]];
    }
  }

  lemma {:induction false} OnlyListed(members: seq<string>, statuses: Statuses, answers: seq<bool>, n: nat)
    requires n <= |members| == |answers|
    ensures forall u :: u in StatusesAfter(members, statuses, answers, n) <==> u in members[..n]
  {
    if n > 0 {
      OnlyListed(members, statuses, answers, n - 1);
      assert members[..n] == members[..n - 1] + [members[n - 1]];
    }
  }

  /** The round succeeds: every listed member is skipped or accepts. */
  predicate RoundSucceeds(members: seq<string>, statuses: Statuses, answers: seq<bool>)
    requires |answers| == |members|
  {
    forall i :: 0 <= i < |members| ==> Takes(statuses, members[i], answers[i])
  }

  /** The members that are asked and accept. */
  function AcceptedIn(members: seq<string>, statuses: Statuses, answers: seq<bool>): set<string>
    requires |answers| == |members|
  {
    set i | 0 <= i < |members| && !Recorded(statuses, members[i]) && answers[i] :: members[i]
  }

  /** One round: `answers[i]` is whether the i-th listed member accepts if it is asked.
      `accepted` are the members that accepted in this round. */
  method SendCodecRequest(members: seq<string>, statuses: Statuses, answers: seq<bool>)
    returns (ms: Statuses, ok: bool, accepted: set<string>)
    requires |answers| == |members|
    ensures ms == StatusesAfter(members, statuses, answers, |members|)
    ensures ok <==> RoundSucceeds(members, statuses, answers)
    ensures accepted == AcceptedIn(members, statuses, answers)
  {
    ms, ok, accepted := map[], true, {};
    for i := 0 to |members|
      invariant ms == StatusesAfter(members, statuses, answers, i)
      invariant ok <==> forall k :: 0 <= k < i ==> Takes(statuses, members[k], answers[k])
      invariant accepted == set k | 0 <= k < i && !Recorded(statuses, members[k]) && answers[k] :: members[k]
    {
      var u := members[i];
      if Recorded(statuses, u) {
        ms := ms[u := Success];
      } else if !answers[i] {
        ms := ms[u := Failed];
        ok := false;
      } else {
        ms := ms[u := Success];
        accepted := accepted + {u};
      }
    }
  }

  /** What a round means: it succeeds only when every listed member is recorded, and it
      records only members that were recorded before or accepted now. */
  lemma RoundRecordsAcceptances(members: seq<string>, statuses: Statuses, answers: seq<bool>)
    requires |answers| == |members|
    ensures var ms := StatusesAfter(members, statuses, answers, |members|);
            && (forall u :: Recorded(ms, u) && !Recorded(statuses, u) ==> u in AcceptedIn(members, statuses, answers))
            && (RoundSucceeds(members, statuses, answers) ==> forall u :: u in members ==> Recorded(ms, u))
  {
    OnlyListed(members, statuses, answers, |members|);
    assert members[..|members|] == members;
    forall u | u in members
      ensures exists k :: 0 <= k < |members| && members[k] == u &&
                (Recorded(StatusesAfter(members, statuses, answers, |members|), u) <==> Takes(statuses, u, answers[k]))
    {
      var k := LastListingDecides(members, statuses, answers, |members|, u);
    }
  }

  // ---------- Rounds over a run ----------

  datatype Resource = Resource(spec: string, statuses: Statuses, state: ConfigState, lastSuccessful: Option<string>)

  /** Which member accepted which spec. */
  type Acceptances = set<(string, string)>

  /** Every stored Success stands for an acceptance of the spec it is stored with. */
  ghost predicate Sound(o: Resource, accepted: Acceptances) {
    forall u :: Recorded(o.statuses, u) ==> (u, o.spec) in accepted
  }

  lemma SoundLater(o: Resource, accepted: Acceptances, more: Acceptances)
    requires Sound(o, accepted) && accepted <= more
    ensures Sound(o, more)
  {
  }

  ghost predicate NothingRecorded(o: Resource) {
    forall u :: !Recorded(o.statuses, u)
  }

  /** Who has accepted which spec after a round that sends `spec`. */
  function AcceptancesAfter(accepted: Acceptances, spec: string, members: seq<string>, statuses: Statuses, answers: seq<bool>): Acceptances
    requires |answers| == |members|
  {
    accepted + set u | u in AcceptedIn(members, statuses, answers) :: (u, spec)
  }

  /** Every successful round of o leaves all listed members with its spec accepted. */
  ghost predicate RoundsReachAll(o: Resource, accepted: Acceptances) {
    forall members: seq<string>, answers: seq<bool>, u ::
      |answers| == |members| && RoundSucceeds(members, o.statuses, answers) && u in members ==>
        (u, o.spec) in AcceptancesAfter(accepted, o.spec, members, o.statuses, answers)
  }

  /** Whatever else is listed, a round can succeed with a recorded member listed, not asked,
      and refusing if it were. */
  lemma RecordedIsSkipped(members: seq<string>, statuses: Statuses, u: string) returns (answers: seq<bool>)
    requires Recorded(statuses, u) && u in members
    ensures |answers| == |members| && RoundSucceeds(members, statuses, answers) && u !in AcceptedIn(members, statuses, answers)
    ensures forall i :: 0 <= i < |members| && members[i] == u ==> !answers[i]
  {
    answers := seq(|members|, i requires 0 <= i < |members| => members[i] != u);
  }

  /** An edit to a spec that no member has accepted yet is safe, in that every successful round
      afterwards reaches all listed members, if and only if no member's Success is stored. */
  lemma EditIsSafeExactlyIf(o: Resource, spec: string, accepted: Acceptances)
    requires forall u :: (u, spec) !in accepted
    ensures RoundsReachAll(o.(spec := spec), accepted) <==> NothingRecorded(o)
  {
    var edited := o.(spec := spec);
    if NothingRecorded(o) {
      forall members: seq<string>, answers: seq<bool>, u |
        |answers| == |members| && RoundSucceeds(members, edited.statuses, answers) && u in members
        ensures (u, spec) in AcceptancesAfter(accepted, spec, members, edited.statuses, answers)
      {
        var i :| 0 <= i < |members| && members[i] == u;
        assert Takes(edited.statuses, members[i], answers[i]) && !Recorded(o.statuses, u);
        assert u in AcceptedIn(members, edited.statuses, answers);
      }
    } else {
      var u :| Recorded(o.statuses, u);
      var members := [u];
      var answers := RecordedIsSkipped(members, edited.statuses, u);
      assert (u, spec) !in AcceptancesAfter(accepted, spec, members, edited.statuses, answers);
    }
  }

  /** The run that breaks it, for every list with two members or more: u accepts, the others fail,
      the spec is edited, and the next round succeeds although u never accepts the new spec. */
  method EditedBetweenRounds(members: seq<string>, u: string)
    returns (first: Statuses, okFirst: bool, ok: bool, acceptedNew: set<string>)
    requires u in members && exists i :: 0 <= i < |members| && members[i] != u
    ensures Recorded(first, u) && !okFirst && ok && u !in acceptedNew
  {
    var onlyU := seq(|members|, i requires 0 <= i < |members| => members[i] == u);
    var butU := seq(|members|, i requires 0 <= i < |members| => members[i] != u);
    var acceptedOld, second;
    first, okFirst, acceptedOld := SendCodecRequest(members, map[], onlyU);
    assert members[..|members|] == members;
    forall v | v in members ensures Recorded(first, v) <==> v == u {
      var k := LastListingDecides(members, map[], onlyU, |members|, v);
    }
    ghost var other :| 0 <= other < |members| && members[other] != u;
    assert !Takes(map[], members[other], onlyU[other]);
    second, ok, acceptedNew := SendCodecRequest(members, first, butU);
  }

  // ---------- The reconciler ----------

  /** A complete round that takes the structure to Persisting: who was listed, which spec was
      sent, and how many versions were stored by then. */
  datatype Entered = Entered(members: seq<string>, spec: string, at: nat)

  /** A complete round of this spec came before version k. */
  ghost predicate RoundBefore(entered: seq<Entered>, spec: string, k: nat) {
    exists i :: 0 <= i < |entered| && entered[i].spec == spec && entered[i].at <= k
  }

  lemma RoundStaysBefore(entered: seq<Entered>, entered': seq<Entered>, spec: string, k: nat, k': nat)
    requires RoundBefore(entered, spec, k) && entered <= entered' && k <= k'
    ensures RoundBefore(entered', spec, k')
  {
    var i :| 0 <= i < |entered| && entered[i].spec == spec && entered[i].at <= k;
    assert entered'[i] == entered[i];
  }

  ghost predicate CompleteRound(entered: seq<Entered>, members: seq<string>, spec: string) {
    entered != [] && entered[|entered| - 1].members == members && entered[|entered| - 1].spec == spec
  }

  /** The state becomes Persisting or Success only after a complete round of the spec. */
  ghost predicate FollowsRound(before: Resource, after: Resource, entered: seq<Entered>, k: nat) {
    (after.state == Persisting || after.state == Success) && before.state != after.state ==> RoundBefore(entered, after.spec, k)
  }

  /** So is the annotation written. */
  ghost predicate AnnotatedAfterRound(o: Resource, entered: seq<Entered>, k: nat) {
    o.lastSuccessful.Some? ==> RoundBefore(entered, o.lastSuccessful.value, k)
  }

  /** The answers that a cooperative environment may refuse: that the structure can be
      configured, and that its configuration is found persisted. */
  datatype Call = Prepared | Persisted | Answers

  type Environ = Env<Call>

  /** Where a cooperative environment leads, for these members and answers.  Maps do not store the
      statuses of a complete round and fail after an incomplete one; the other structures
      store them and stay pending. */
  function Reconciled(storesComplete: bool, o: Resource, members: seq<string>, answers: seq<bool>, refused: set<Call>): Resource
    requires |answers| == |members|
  {
    var ms := StatusesAfter(members, o.statuses, answers, |members|);
    if Prepared in refused then o.(state := Failed)
    else if o.lastSuccessful == Some(o.spec) then o.(state := Success)
    else if !RoundSucceeds(members, o.statuses, answers) then o.(state := if storesComplete then Pending else Failed, statuses := ms)
    else if Persisted in refused then o.(state := Persisting, statuses := if storesComplete then ms else o.statuses)
    else o.(state := Success, statuses := map[], lastSuccessful := Some(o.spec))
  }

  /** A map or data structure and its reconciler.  `history` are the stored versions; a
      resource version is an index into it. */
  class Reconciler {
    const storesComplete: bool
    var history: seq<Resource>
    // The reconciler's copy
    var copy: Resource
    var version: nat
    // All acceptances so far, the complete rounds, and whether every edit was made while no
    // Success was stored
    ghost var accepted: Acceptances
    ghost var entered: seq<Entered>
    ghost var editsHarmless: bool
    ghost var edits: nat

    /** Stored Successes are true, and complete rounds had every listed member accept the spec
        in them or in an earlier round, unless an edit spoilt it; and the state becomes
        Persisting or Success only after a complete round. */
    ghost predicate Valid() reads this {
      && version < |history|
      && (edits == 0 ==> editsHarmless)
      && (editsHarmless ==> AllSound() && AllReached())
      && (forall k :: 0 < k < |history| ==> FollowsRound(history[k - 1], history[k], entered, k))
      && (forall k :: 0 <= k < |history| ==> AnnotatedAfterRound(history[k], entered, k))
    }

    ghost predicate AllSound() reads this`history, this`accepted {
      forall k :: 0 <= k < |history| ==> Sound(history[k], accepted)
    }

    ghost predicate AllReached() reads this`entered, this`accepted {
      forall k, u :: 0 <= k < |entered| && u in entered[k].members ==> (u, entered[k].spec) in accepted
    }

    /** The copy has the spec and annotation of its version. */
    ghost predicate Faithful() reads this
      requires version < |history|
    {
      && copy.spec == history[version].spec && copy.lastSuccessful == history[version].lastSuccessful
      && (editsHarmless ==> Sound(copy, accepted))
    }

    predicate UpToDate() reads this {
      version + 1 == |history|
    }

    ghost function Latest(): Resource reads this`history
      requires history != []
    {
      history[|history| - 1]
    }

    constructor (spec: string, storesComplete: bool)
      ensures Valid() && edits == 0 && history == [Resource(spec, map[], Unset, None)] && this.storesComplete == storesComplete
    {
      this.storesComplete := storesComplete;
      var created := Resource(spec, map[], Unset, None);
      history, copy, version := [created], created, 0;
      accepted, entered, editsHarmless, edits := {}, [], true, 0;
    }

    /** The server stores a new version. */
    method Store(next: Resource)
      requires Valid() && (editsHarmless ==> Sound(next, accepted))
      requires FollowsRound(Latest(), next, entered, |history|) && AnnotatedAfterRound(next, entered, |history|)
      modifies `history
      ensures Valid() && history == old(history) + [next]
    {
      history := history + [next];
    }

    method Edit(spec: string)
      requires Valid()
      modifies `history, `editsHarmless, `edits
      ensures Valid() && old(history) < history
      ensures editsHarmless <==> old(editsHarmless) && NothingRecorded(old(history)[|old(history)| - 1])
    {
      var o := history[|history| - 1];
      editsHarmless, edits := editsHarmless && NothingRecorded(o), edits + 1;
      if o.lastSuccessful.Some? {
        RoundStaysBefore(entered, entered, o.lastSuccessful.value, |history| - 1, |history|);
      }
      Store(o.(spec := spec));
    }

    /** Users edit the spec at any time. */
    method Interfere(env: Environ)
      requires Valid()
      modifies `history, `editsHarmless, `edits
      ensures Valid() && old(history) <= history && (editsHarmless ==> old(editsHarmless))
      ensures env.Cooperative? ==> history == old(history) && editsHarmless == old(editsHarmless) && edits == old(edits)
    {
      if env.Cooperative? { return; }
      var rounds: nat := *;
      while rounds > 0
        invariant Valid() && old(history) <= history && (editsHarmless ==> old(editsHarmless))
      {
        var spec: string := *;
        Edit(spec);
        rounds := rounds - 1;
      }
    }

    method Get(env: Environ) returns (ok: bool)
      requires Valid()
      modifies `copy, `version
      ensures Valid() && (ok ==> Faithful())
      ensures env.Cooperative? ==> ok && UpToDate() && copy == Latest()
    {
      var k: nat := *;
      if env.Cooperative? { k := |history| - 1; }
      if !(0 <= k < |history|) { return false; }
      copy, version := history[k], k;
      return true;
    }

    /** A status write: guarded by the version, a conflict is not reported, and the answer
        may be lost. */
    method UpdateStatus(env: Environ, state: ConfigState, ms: Option<Statuses>) returns (ok: bool)
      requires Valid() && Faithful()
      requires editsHarmless && ms.Some? ==> Sound(copy.(statuses := ms.value), accepted)
      requires state == Persisting || state == Success ==> RoundBefore(entered, copy.spec, |history|)
      modifies `history, `copy, `version, `editsHarmless, `edits
      ensures Valid() && Faithful() && old(history) <= history && (editsHarmless ==> old(editsHarmless))
      ensures copy == old(copy).(state := state, statuses := if ms.Some? then ms.value else old(copy).statuses)
      ensures ok || UpToDate() || Latest() == copy
      ensures env.Cooperative? && Answers in env.refused && old(UpToDate()) ==> !ok && history == old(history)
      ensures env.Cooperative? && Answers !in env.refused && old(UpToDate()) ==>
                ok && UpToDate() && history == old(history) + [copy] && editsHarmless == old(editsHarmless)
      ensures env.Cooperative? ==> edits == old(edits)
    {
      copy := copy.(state := state);
      if ms.Some? { copy := copy.(statuses := ms.value); }
      ghost var before := history;
      Interfere(env);
      if !UpToDate() { return true; }
      if state == Persisting || state == Success {
        RoundStaysBefore(entered, entered, copy.spec, |before|, |history|);
      }
      ok := Commit(env, copy);
    }

    /** The copy is up to date: the write may be refused, and its answer may be lost. */
    method Commit(env: Environ, next: Resource) returns (ok: bool)
      requires Valid() && UpToDate() && next.spec == history[version].spec && (editsHarmless ==> Sound(next, accepted))
      requires next.lastSuccessful == history[version].lastSuccessful ||
               (next.lastSuccessful == Some(next.spec) && RoundBefore(entered, next.spec, |history|))
      requires next.state == history[version].state || (next.state != Persisting && next.state != Success) ||
               RoundBefore(entered, next.spec, |history|)
      modifies `history, `version
      ensures Valid() && old(history) <= history
      ensures history == old(history) + [next] || (!ok && history == old(history))
      ensures if ok then UpToDate() else version == old(version)
      ensures env.Cooperative? ==> (ok <==> Answers !in env.refused) && (!ok ==> history == old(history))
    {
      var applied := Granted(env, Answers);
      if !applied { return false; }
      if next.lastSuccessful.Some? && next.lastSuccessful == history[version].lastSuccessful {
        RoundStaysBefore(entered, entered, next.lastSuccessful.value, version, |history|);
      }
      Store(next);
      ok := Granted(env, Answers);
      if ok { version := version + 1; }
    }

    /** The annotation is the spec of the copy; the answer brings the stored statuses back. */
    method UpdateLastSuccessfulConfiguration(env: Environ)
      requires Valid() && Faithful() && RoundBefore(entered, copy.spec, |history|)
      modifies `history, `copy, `version, `editsHarmless, `edits
      ensures Valid() && Faithful() && old(history) <= history && (editsHarmless ==> old(editsHarmless))
      ensures copy.spec == old(copy.spec)
      ensures env.Cooperative? && Answers !in env.refused && old(UpToDate()) ==>
                UpToDate() && copy == old(Latest()).(lastSuccessful := Some(old(copy.spec))) && history == old(history) + [copy]
      ensures env.Cooperative? ==> edits == old(edits)
    {
      ghost var before := history;
      Interfere(env);
      if !UpToDate() { return; }
      RoundStaysBefore(entered, entered, copy.spec, |before|, |history|);
      var ok := Commit(env, history[version].(lastSuccessful := Some(copy.spec)));
      if ok { copy := history[version]; }
    }

    /** One round, with any list of members and any answers. */
    method Round(members: seq<string>, answers: seq<bool>) returns (ms: Statuses, ok: bool)
      requires Valid() && Faithful() && |answers| == |members|
      modifies `accepted, `entered
      ensures Valid() && Faithful() && old(accepted) <= accepted
      ensures editsHarmless ==> Sound(copy.(statuses := ms), accepted)
      ensures ms == StatusesAfter(members, copy.statuses, answers, |members|)
      ensures ok <==> RoundSucceeds(members, copy.statuses, answers)
      ensures if ok then entered == old(entered) + [Entered(members, copy.spec, |history|)] && RoundBefore(entered, copy.spec, |history|)
              else entered == old(entered)
    {
      var now;
      ms, ok, now := SendCodecRequest(members, copy.statuses, answers);
      RoundRecordsAcceptances(members, copy.statuses, answers);
      ghost var more := accepted + set u | u in now :: (u, copy.spec);
      forall k | 0 <= k < |history| && editsHarmless ensures Sound(history[k], more) {
        SoundLater(history[k], accepted, more);
      }
      accepted := more;
      if ok { Enter(members, ms); }
    }

    /** A complete round takes the structure to Persisting. */
    ghost method Enter(members: seq<string>, ms: Statuses)
      requires Valid() && Faithful() && (editsHarmless ==> Sound(copy.(statuses := ms), accepted))
      requires forall u :: u in members ==> Recorded(ms, u)
      modifies `entered
      ensures Valid() && Faithful() && entered == old(entered) + [Entered(members, copy.spec, |history|)]
      ensures RoundBefore(entered, copy.spec, |history|)
    {
      var e := Entered(members, copy.spec, |history|);
      forall u | u in members && editsHarmless ensures (u, copy.spec) in accepted {
        assert Recorded(copy.(statuses := ms).statuses, u);
      }
      forall k | 0 < k < |history| ensures FollowsRound(history[k - 1], history[k], entered + [e], k) {
        assert FollowsRound(history[k - 1], history[k], entered, k);
        if RoundBefore(entered, history[k].spec, k) { RoundStaysBefore(entered, entered + [e], history[k].spec, k, k); }
      }
      forall k | 0 <= k < |history| ensures AnnotatedAfterRound(history[k], entered + [e], k) {
        if history[k].lastSuccessful.Some? { RoundStaysBefore(entered, entered + [e], history[k].lastSuccessful.value, k, k); }
      }
      entered := entered + [e];
      assert entered[|entered| - 1] == e;
    }

    /** Whatever the environment does, Valid is kept; in a cooperative one the versions stored
        are those of Versions, which end with what Reconciled says. */
    method Reconcile(env: Environ, members: seq<string>, answers: seq<bool>)
      requires Valid() && |answers| == |members|
      modifies this
      ensures Valid() && old(history) <= history
      ensures env.Cooperative? && Answers !in env.refused ==>
                && history == old(history) + Versions(storesComplete, old(Latest()), members, answers, env.refused)
                && Latest() == Reconciled(storesComplete, old(Latest()), members, answers, env.refused)
      ensures env.Cooperative? && Answers in env.refused && NeedsPending(storesComplete, old(Latest())) ==>
                history == old(history) && accepted == old(accepted) && entered == old(entered)
      ensures env.Cooperative? ==> edits == old(edits)
      ensures env.Cooperative? && Answers !in env.refused && Prepared !in env.refused &&
              old(Latest().lastSuccessful != Some(Latest().spec)) && RoundSucceeds(members, old(Latest().statuses), answers) ==>
                CompleteRound(entered, members, old(Latest().spec))
    {
      EndsReconciled(storesComplete, Latest(), members, answers, env);
      var ok := Get(env);
      if ok { ReconcileCopy(env, members, answers); }
    }

    method ReconcileCopy(env: Environ, members: seq<string>, answers: seq<bool>)
      requires Valid() && Faithful() && |answers| == |members|
      modifies this
      ensures Valid() && old(history) <= history
      ensures env.Cooperative? && Answers !in env.refused && old(UpToDate() && copy == Latest()) ==>
                history == old(history) + Versions(storesComplete, old(Latest()), members, answers, env.refused)
      ensures env.Cooperative? && Answers in env.refused && old(UpToDate() && copy == Latest() && NeedsPending(storesComplete, copy)) ==>
                history == old(history) && accepted == old(accepted) && entered == old(entered)
      ensures env.Cooperative? ==> edits == old(edits)
      ensures env.Cooperative? && Answers !in env.refused && Prepared !in env.refused && old(UpToDate() && copy == Latest()) &&
              old(copy.lastSuccessful != Some(copy.spec)) && RoundSucceeds(members, old(copy.statuses), answers) ==>
                CompleteRound(entered, members, old(copy.spec))
    {
      var ok;
      var prepared := Granted(env, Prepared);
      if !prepared { ok := UpdateStatus(env, Failed, None); return; }
      if copy.lastSuccessful == Some(copy.spec) {
        RoundStaysBefore(entered, entered, copy.spec, version, |history|);
        ok := UpdateStatus(env, Success, None);
        return;
      }
      PendAndPush(env, members, answers);
    }

    /** A new spec is applied: Pending first, where that is needed, and then the round. */
    method PendAndPush(env: Environ, members: seq<string>, answers: seq<bool>)
      requires Valid() && Faithful() && |answers| == |members|
      modifies this
      ensures Valid() && old(history) <= history
      ensures env.Cooperative? && Answers !in env.refused && old(UpToDate() && copy == Latest()) ==>
                && (RoundSucceeds(members, old(copy.statuses), answers) ==> CompleteRound(entered, members, old(copy.spec)))
                && history == old(history) + VersionsApplying(storesComplete, old(Latest()), members, answers, env.refused)
      ensures env.Cooperative? && Answers in env.refused && old(UpToDate() && copy == Latest() && NeedsPending(storesComplete, copy)) ==>
                history == old(history) && accepted == old(accepted) && entered == old(entered)
      ensures env.Cooperative? ==> edits == old(edits)
    {
      if NeedsPending(storesComplete, copy) {
        var ok := UpdateStatus(env, Pending, None);
        if !ok { return; }
      }
      Push(env, members, answers);
    }

    /** The round and what follows it. */
    method Push(env: Environ, members: seq<string>, answers: seq<bool>)
      requires Valid() && Faithful() && |answers| == |members|
      modifies this
      ensures Valid() && old(history) <= history
      ensures env.Cooperative? && Answers !in env.refused && old(UpToDate() && copy == Latest()) ==>
                history == old(history) + VersionsPushing(storesComplete, old(Latest()), members, answers, env.refused)
      ensures env.Cooperative? ==> edits == old(edits)
      ensures if RoundSucceeds(members, old(copy.statuses), answers)
              then entered == old(entered) + [Entered(members, old(copy.spec), |old(history)|)] else entered == old(entered)
    {
      var ms, ok := Round(members, answers);
      if !ok { ok := UpdateStatus(env, if storesComplete then Pending else Failed, Some(ms)); return; }
      Persist(env, if storesComplete then Some(ms) else None);
    }

    /** The part after a complete round. */
    method Persist(env: Environ, ms: Option<Statuses>)
      requires Valid() && Faithful() && RoundBefore(entered, copy.spec, |history|)
      requires editsHarmless && ms.Some? ==> Sound(copy.(statuses := ms.value), accepted)
      modifies `history, `copy, `version, `editsHarmless, `edits
      ensures Valid() && old(history) <= history
      ensures env.Cooperative? && Answers !in env.refused && old(UpToDate() && copy == Latest()) ==>
                history == old(history) + VersionsPersisting(old(Latest()), ms, env.refused)
      ensures env.Cooperative? ==> edits == old(edits)
    {
      ghost var spec, at := copy.spec, |history|;
      var ok := UpdateStatus(env, Persisting, ms);
      if !ok { return; }
      RoundStaysBefore(entered, entered, spec, at, |history|);
      var persisted := Granted(env, Persisted);
      if !persisted {
        ok := UpdateStatus(env, Persisting, None);
        return;
      }
      Conclude(env);
    }

    /** The part after the configuration was found persisted. */
    method Conclude(env: Environ)
      requires Valid() && Faithful() && RoundBefore(entered, copy.spec, |history|)
      modifies `history, `copy, `version, `editsHarmless, `edits
      ensures Valid() && old(history) <= history
      ensures env.Cooperative? && Answers !in env.refused && old(UpToDate() && copy == Latest()) ==>
                var annotated := old(Latest()).(lastSuccessful := Some(old(copy.spec)));
                history == old(history) + [annotated, annotated.(state := Success, statuses := map[])]
      ensures env.Cooperative? ==> edits == old(edits)
    {
      ghost var spec, at := copy.spec, |history|;
      UpdateLastSuccessfulConfiguration(env);
      RoundStaysBefore(entered, entered, spec, at, |history|);
      var ok := UpdateStatus(env, Success, Some(map[]));
    }
  }

  /** The versions stored after a complete round. */
  function VersionsPersisting(o: Resource, ms: Option<Statuses>, refused: set<Call>): seq<Resource> {
    var persisting := o.(state := Persisting, statuses := if ms.Some? then ms.value else o.statuses);
    if Persisted in refused then [persisting, persisting]
    else
      var annotated := persisting.(lastSuccessful := Some(o.spec));
      [persisting, annotated, annotated.(state := Success, statuses := map[])]
  }

  function VersionsPushing(storesComplete: bool, o: Resource, members: seq<string>, answers: seq<bool>, refused: set<Call>): seq<Resource>
    requires |answers| == |members|
  {
    var ms := StatusesAfter(members, o.statuses, answers, |members|);
    if RoundSucceeds(members, o.statuses, answers) then VersionsPersisting(o, if storesComplete then Some(ms) else None, refused)
    else [o.(state := if storesComplete then Pending else Failed, statuses := ms)]
  }

  /** Before the round a map that has no state, and any other structure that is not Persisting,
      becomes Pending; no member is asked when this cannot be stored. */
  predicate NeedsPending(storesComplete: bool, o: Resource) {
    if storesComplete then o.state != Persisting else o.state == Unset
  }

  /** The versions a reconcile stores in a cooperative environment. */
  function Versions(storesComplete: bool, o: Resource, members: seq<string>, answers: seq<bool>, refused: set<Call>): seq<Resource>
    requires |answers| == |members|
  {
    if Prepared in refused then [o.(state := Failed)]
    else if o.lastSuccessful == Some(o.spec) then [o.(state := Success)]
    else VersionsApplying(storesComplete, o, members, answers, refused)
  }

  function VersionsApplying(storesComplete: bool, o: Resource, members: seq<string>, answers: seq<bool>, refused: set<Call>): seq<Resource>
    requires |answers| == |members|
  {
    if NeedsPending(storesComplete, o) then
      [o.(state := Pending)] + VersionsPushing(storesComplete, o.(state := Pending), members, answers, refused)
    else VersionsPushing(storesComplete, o, members, answers, refused)
  }

  lemma EndsReconciled(storesComplete: bool, o: Resource, members: seq<string>, answers: seq<bool>, env: Environ)
    requires |answers| == |members|
    ensures env.Cooperative? ==>
              var versions := Versions(storesComplete, o, members, answers, env.refused);
              versions != [] && versions[|versions| - 1] == Reconciled(storesComplete, o, members, answers, env.refused)
  {
  }

  /** Any number of rounds: unless the spec was edited while a Success was stored, every
      stored Success and every complete round stands for acceptances of that spec; and the
      state becomes Persisting or Success only after a complete round of its spec. */
  method Run(spec: string, storesComplete: bool, rounds: nat) returns (r: Reconciler)
    ensures fresh(r) && (r.edits == 0 ==> r.editsHarmless)
    ensures r.editsHarmless ==> forall k, u :: 0 <= k < |r.history| && Recorded(r.history[k].statuses, u) ==>
              (u, r.history[k].spec) in r.accepted
    ensures r.editsHarmless ==> forall k, u :: 0 <= k < |r.entered| && u in r.entered[k].members ==>
              (u, r.entered[k].spec) in r.accepted
    ensures forall k :: 0 < k < |r.history| ==> FollowsRound(r.history[k - 1], r.history[k], r.entered, k)
  {
    r := new Reconciler(spec, storesComplete);
    for i := 0 to rounds
      invariant fresh(r) && r.Valid()
    {
      r.Interfere(Whatever);
      var members: seq<string> := *;
      var answers: seq<bool> := *;
      if |answers| != |members| { answers := seq(|members|, _ => false); }
      r.Reconcile(Whatever, members, answers);
    }
    assert r.editsHarmless ==> forall k :: 0 <= k < |r.history| ==> Sound(r.history[k], r.accepted);
  }

  /** A structure that some listed member refused is Failed, for a map, or Pending; once the
      members accept, the next reconcile makes it a Success, and every one has accepted it. */
  method AcceptedInTheEnd(spec: string, storesComplete: bool, members: seq<string>, answers: seq<bool>)
    returns (r: Reconciler, ghost first: Resource)
    requires |answers| == |members| && false in answers
    ensures fresh(r) && r.Valid() && first in r.history && first.state == if storesComplete then Pending else Failed
    ensures r.Latest().state == Success && r.Latest().lastSuccessful == Some(spec)
    ensures forall u :: u in members ==> (u, spec) in r.accepted
  {
    r := new Reconciler(spec, storesComplete);
    assert exists i :: 0 <= i < |answers| && !answers[i];
    r.Reconcile(Cooperative({}), members, answers);
    first := r.Latest();
    ghost var k := |r.history| - 1;
    var all := seq(|members|, _ => true);
    assert RoundSucceeds(members, r.Latest().statuses, all);
    r.Reconcile(Cooperative({}), members, all);
    assert r.history[k] == first;
  }
}
