/** The configuration handshake of WAN replication.  The Hazelcast reconciler writes
    the publishers of every persisted status entry into the cluster's configuration;
    the WanReplication reconciler reads that configuration back and confirms its
    Persisting entries against it. */
module WanConfig {
  import opened Wrappers
  import opened WanKeys

  datatype WanStatus = Unset | Failed | Pending | Success | Persisting | Terminating

  /** One entry of status.wanReplicationMapsStatus. */
  datatype Entry = Entry(resourceName: string, publisherId: string, status: WanStatus, message: string)

  datatype ResourceKind = KindMap | KindHazelcast
  datatype ResourceSpec = ResourceSpec(kind: ResourceKind, name: string)

  datatype WanSpec = WanSpec(
    resources: seq<ResourceSpec>, targetClusterName: string, endpoints: string,
    queueCapacity: int, queueFullBehavior: string, batchSize: int, batchMaximumDelay: int,
    ackType: string, ackTimeout: int, syncConsistencyCheckStrategy: string)

  datatype WanReplication = WanReplication(name: string, spec: WanSpec, entries: map<string, Entry>)

  datatype Publisher = Publisher(
    clusterName: string, targetEndpoints: string, responseTimeoutMillis: int, acknowledgementType: string,
    queueCapacity: int, queueFullBehavior: string, batchSize: int, batchMaxDelayMillis: int,
    sync: Option<string>)

  /** The batch publishers of one WAN configuration, by publisher id. */
  type Publishers = map<string, Publisher>
  /** The wan-replication section of a cluster configuration, by WAN configuration name. */
  type WanSection = map<string, Publishers>

  function CreateBatchPublisherConfig(spec: WanSpec): Publisher {
    Publisher(spec.targetClusterName, spec.endpoints, spec.ackTimeout, spec.ackType,
              spec.queueCapacity, spec.queueFullBehavior, spec.batchSize, spec.batchMaximumDelay,
              if spec.syncConsistencyCheckStrategy != "" then Some(spec.syncConsistencyCheckStrategy) else None)
  }

  /** What a start of replication asks the cluster for at run time. */
  datatype BatchPublisherRequest = BatchPublisherRequest(
    targetCluster: string, endpoints: string, queueCapacity: int, batchSize: int, batchMaxDelayMillis: int,
    responseTimeoutMillis: int, ackType: string, queueFullBehavior: string, merkleTrees: bool)

  const MERKLE_TREES := "MERKLE_TREES"

  function CreateBatchPublisherRequest(spec: WanSpec): BatchPublisherRequest {
    BatchPublisherRequest(spec.targetClusterName, spec.endpoints, spec.queueCapacity, spec.batchSize, spec.batchMaximumDelay,
                          spec.ackTimeout, spec.ackType, spec.queueFullBehavior, spec.syncConsistencyCheckStrategy == MERKLE_TREES)
  }

  /** The publisher in the configuration is the one the cluster was asked for, field by field
      that of the spec, so that a restart of the cluster changes nothing. */
  lemma ConfigAgreesWithRequest(spec: WanSpec)
    ensures var c, r := CreateBatchPublisherConfig(spec), CreateBatchPublisherRequest(spec);
            && c.clusterName == r.targetCluster == spec.targetClusterName
            && c.targetEndpoints == r.endpoints == spec.endpoints
            && c.responseTimeoutMillis == r.responseTimeoutMillis == spec.ackTimeout
            && c.acknowledgementType == r.ackType == spec.ackType
            && c.queueCapacity == r.queueCapacity == spec.queueCapacity
            && c.queueFullBehavior == r.queueFullBehavior == spec.queueFullBehavior
            && c.batchSize == r.batchSize == spec.batchSize
            && c.batchMaxDelayMillis == r.batchMaxDelayMillis == spec.batchMaximumDelay
            && (r.merkleTrees <==> c.sync == Some(MERKLE_TREES))
            && (c.sync.None? <==> spec.syncConsistencyCheckStrategy == "")
            && (c.sync.Some? ==> c.sync.value == spec.syncConsistencyCheckStrategy)
  {
  }

  // ---------- Generating the configuration ----------

  predicate InConfig(status: WanStatus) {
    status == Persisting || status == Success
  }

  /** wr contributes a publisher for `key` to the configuration of cluster h. */
  predicate Contributes(wr: WanReplication, h: string, key: string) {
    && key in wr.entries
    && FindSep(key, 0) != -1
    && SplitWanMapKey(key).0 == h
    && InConfig(wr.entries[key].status)
  }

  /** The resources that contribute under `key`, in listing order. */
  function Selected(wrs: seq<WanReplication>, h: string, key: string): seq<WanReplication> {
    if wrs == [] then []
    else
      var rest := Selected(wrs[..|wrs| - 1], h, key);
      var wr := wrs[|wrs| - 1];
      if Contributes(wr, h, key) then rest + [wr] else rest
  }

  lemma {:induction false} SelectedMembers(wrs: seq<WanReplication>, h: string, key: string)
    ensures forall wr :: wr in Selected(wrs, h, key) <==> wr in wrs && Contributes(wr, h, key)
  {
    if wrs != [] {
      var n := |wrs| - 1;
      assert wrs == wrs[..n] + [wrs[n]];
      SelectedMembers(wrs[..n], h, key);
    }
  }

  /** A key is selected for the cluster it names exactly when some resource has a Persisting
      or Success entry under it. */
  lemma SelectedExactlyIf(wrs: seq<WanReplication>, h: string, key: string)
    ensures Selected(wrs, h, key) != [] <==>
              && FindSep(key, 0) != -1 && SplitWanMapKey(key).0 == h
              && exists wr :: wr in wrs && key in wr.entries && (wr.entries[key].status == Persisting || wr.entries[key].status == Success)
  {
    SelectedMembers(wrs, h, key);
    if Selected(wrs, h, key) != [] {
      var wr := Selected(wrs, h, key)[0];
      assert wr in Selected(wrs, h, key);
    }
    if wr :| wr in wrs && key in wr.entries && (wr.entries[key].status == Persisting || wr.entries[key].status == Success) {
      assert FindSep(key, 0) != -1 && SplitWanMapKey(key).0 == h ==> wr in Selected(wrs, h, key);
    }
  }

  /** Every status key was built by WanMapKey; the source relies on it when it splits keys. */
  predicate KeysSplit(wrs: seq<WanReplication>) {
    forall wr, key :: wr in wrs && key in wr.entries ==> FindSep(key, 0) != -1
  }

  function Get(l: map<string, seq<WanReplication>>, key: string): seq<WanReplication> {
    if key in l then l[key] else []
  }

  function Extended(l: map<string, seq<WanReplication>>, key: string, wr: WanReplication): seq<WanReplication> {
    Get(l, key) + [wr]
  }

  /** l' is l with wr appended under the keys in `done`. */
  ghost predicate Appended(l: map<string, seq<WanReplication>>, l': map<string, seq<WanReplication>>,
                           done: set<string>, wr: WanReplication)
  {
    && (forall key :: key in l' ==> l'[key] != [])
    && (forall key :: Get(l', key) == if key in done then Extended(l, key, wr) else Get(l, key))
  }

  lemma AppendedStep(l: map<string, seq<WanReplication>>, l': map<string, seq<WanReplication>>,
                     done: set<string>, wr: WanReplication, k: string)
    requires Appended(l, l', done, wr) && k !in done
    ensures Appended(l, l'[k := Extended(l', k, wr)], done + {k}, wr)
  {
    var l'' := l'[k := Extended(l', k, wr)];
    assert Get(l', k) == Get(l, k);
    assert forall key :: key != k ==> Get(l'', key) == Get(l', key);
  }

  /** The inner loop: the status entries of one resource, in any order. */
  method AppendContributions(h: string, wr: WanReplication, l: map<string, seq<WanReplication>>)
    returns (l': map<string, seq<WanReplication>>)
    requires forall key :: key in wr.entries ==> FindSep(key, 0) != -1
    requires forall key :: key in l ==> l[key] != []
    ensures Appended(l, l', (set key | key in wr.entries && Contributes(wr, h, key)), wr)
  {
    l' := l;
    ghost var done := {};
    var todo := wr.entries.Keys;
    while todo != {}
      invariant todo <= wr.entries.Keys && todo !! done
      invariant Appended(l, l', done, wr)
      invariant forall key :: key in done ==> key in wr.entries && Contributes(wr, h, key)
      invariant forall key :: key in wr.entries && Contributes(wr, h, key) ==> key in todo || key in done
      decreases |todo|
    {
      var wanKey :| wanKey in todo;
      todo := todo - {wanKey};
      var (hzName, _) := SplitWanMapKey(wanKey);
      if hzName == h && InConfig(wr.entries[wanKey].status) {
        AppendedStep(l, l', done, wr, wanKey);
        l' := l'[wanKey := Extended(l', wanKey, wr)];
        done := done + {wanKey};
      }
    }
    assert done == set key | key in wr.entries && Contributes(wr, h, key);
  }

  method FilterPersistedWanReplications(h: string, wrs: seq<WanReplication>)
    returns (l: map<string, seq<WanReplication>>)
    requires KeysSplit(wrs)
    ensures forall key :: key in l ==> l[key] != []
    ensures forall key :: Get(l, key) == Selected(wrs, h, key)
  {
    l := map[];
    for i := 0 to |wrs|
      invariant forall key :: key in l ==> l[key] != []
      invariant forall key :: Get(l, key) == Selected(wrs[..i], h, key)
    {
      assert wrs[..i + 1][..i] == wrs[..i];
      l := AppendContributions(h, wrs[i], l);
    }
    assert wrs[..|wrs|] == wrs;
  }

  /** Later resources win when two share a publisher id. */
  function PublishersOf(key: string, wrs: seq<WanReplication>): Publishers
    requires forall wr :: wr in wrs ==> key in wr.entries
  {
    if wrs == [] then map[]
    else
      var wr := wrs[|wrs| - 1];
      PublishersOf(key, wrs[..|wrs| - 1])[wr.entries[key].publisherId := CreateBatchPublisherConfig(wr.spec)]
  }

  method CreateWanReplicationConfig(key: string, wrs: seq<WanReplication>) returns (cfg: Publishers)
    requires forall wr :: wr in wrs ==> key in wr.entries
    ensures cfg == PublishersOf(key, wrs)
  {
    cfg := map[];
    for i := 0 to |wrs|
      invariant cfg == PublishersOf(key, wrs[..i])
    {
      assert wrs[..i + 1][..i] == wrs[..i];
      cfg := cfg[wrs[i].entries[key].publisherId := CreateBatchPublisherConfig(wrs[i].spec)];
    }
    assert wrs[..|wrs|] == wrs;
  }

  /** The publishers of a shared map do not shadow each other when their ids differ. */
  lemma {:induction false} PublishersOfDistinct(key: string, wrs: seq<WanReplication>, wr: WanReplication)
    requires forall w :: w in wrs ==> key in w.entries
    requires forall w, w' :: w in wrs && w' in wrs && w.entries[key].publisherId == w'.entries[key].publisherId
                             ==> w == w'
    requires wr in wrs
    ensures wr.entries[key].publisherId in PublishersOf(key, wrs)
    ensures PublishersOf(key, wrs)[wr.entries[key].publisherId] == CreateBatchPublisherConfig(wr.spec)
  {
    var n := |wrs| - 1;
    if wrs[n] != wr {
      assert wr in wrs[..n];
      PublishersOfDistinct(key, wrs[..n], wr);
    }
  }

  /** cfg is a wan-replication section the Hazelcast reconciler of cluster h can write for wrs. */
  ghost predicate Generated(h: string, wrs: seq<WanReplication>, cfg: WanSection) {
    && (forall name :: name in cfg ==> exists key :: WrittenFor(h, wrs, cfg, name, key))
    && (forall key :: Selected(wrs, h, key) != [] ==>
          FindSep(key, 0) != -1 && WanName(SplitWanMapKey(key).1) in cfg)
  }

  /** The section `name` of cfg was written for the status key `key`. */
  ghost predicate WrittenFor(h: string, wrs: seq<WanReplication>, cfg: WanSection, name: string, key: string)
    requires name in cfg
  {
    && Selected(wrs, h, key) != []
    && FindSep(key, 0) != -1
    && name == WanName(SplitWanMapKey(key).1)
    && (forall wr :: wr in Selected(wrs, h, key) ==> key in wr.entries)
    && cfg[name] == PublishersOf(key, Selected(wrs, h, key))
  }

  /** The section of a status key. */
  function SectionName(key: string): string {
    if FindSep(key, 0) != -1 then WanName(SplitWanMapKey(key).1) else ""
  }

  /** `keys` lists every key that some resource contributes under exactly once: an order in
      which the fill loop can visit them. */
  ghost predicate IsOrder(h: string, wrs: seq<WanReplication>, keys: seq<string>) {
    && NoDuplicates(keys)
    && forall key :: key in keys <==> Selected(wrs, h, key) != []
  }

  /** What the fill loop writes for one key. */
  function SectionFor(h: string, wrs: seq<WanReplication>, key: string): Publishers {
    SelectedMembers(wrs, h, key);
    PublishersOf(key, Selected(wrs, h, key))
  }

  /** The wan-replication section when the keys are visited in this order: each key replaces
      what an earlier one wrote under its section. */
  function FillInOrder(h: string, wrs: seq<WanReplication>, keys: seq<string>): WanSection {
    if keys == [] then map[]
    else
      var key := keys[|keys| - 1];
      FillInOrder(h, wrs, keys[..|keys| - 1])[SectionName(key) := SectionFor(h, wrs, key)]
  }

  /** keys[i] is the last key of section `name`. */
  predicate LastOf(keys: seq<string>, name: string, i: int) {
    0 <= i < |keys| && SectionName(keys[i]) == name && forall j :: i < j < |keys| ==> SectionName(keys[j]) != name
  }

  /** The last key of a section decides it. */
  lemma {:induction false} LastKeyDecides(h: string, wrs: seq<WanReplication>, keys: seq<string>, name: string) returns (i: int)
    ensures name in FillInOrder(h, wrs, keys) ==> LastOf(keys, name, i) && FillInOrder(h, wrs, keys)[name] == SectionFor(h, wrs, keys[i])
    ensures name !in FillInOrder(h, wrs, keys) ==> forall j :: 0 <= j < |keys| ==> SectionName(keys[j]) != name
    decreases |keys|
  {
    i := |keys| - 1;
    if keys != [] && SectionName(keys[i]) != name {
      var n := i;
      i := LastKeyDecides(h, wrs, keys[..n], name);
      assert forall j :: 0 <= j < n ==> keys[..n][j] == keys[j];
    }
  }

  /** Every key that is contributed under can be split. */
  lemma SelectedKeySplits(h: string, wrs: seq<WanReplication>, key: string)
    requires Selected(wrs, h, key) != []
    ensures FindSep(key, 0) != -1 && SectionName(key) == WanName(SplitWanMapKey(key).1)
    ensures forall wr :: wr in Selected(wrs, h, key) ==> key in wr.entries
  {
    SelectedMembers(wrs, h, key);
    assert Selected(wrs, h, key)[0] in Selected(wrs, h, key);
  }

  /** Whatever order the keys are visited in, the result is generated. */
  lemma OrderGenerates(h: string, wrs: seq<WanReplication>, keys: seq<string>)
    requires IsOrder(h, wrs, keys)
    ensures Generated(h, wrs, FillInOrder(h, wrs, keys))
  {
    var cfg := FillInOrder(h, wrs, keys);
    forall name | name in cfg ensures exists key :: WrittenFor(h, wrs, cfg, name, key) {
      var i := LastKeyDecides(h, wrs, keys, name);
      assert keys[i] in keys;
      SelectedKeySplits(h, wrs, keys[i]);
      assert WrittenFor(h, wrs, cfg, name, keys[i]);
    }
    forall key | Selected(wrs, h, key) != [] ensures FindSep(key, 0) != -1 && WanName(SplitWanMapKey(key).1) in cfg {
      SelectedKeySplits(h, wrs, key);
      var i := LastKeyDecides(h, wrs, keys, SectionName(key));
      assert key in keys;
    }
  }

  lemma ConcatNoDuplicates(a: seq<string>, b: seq<string>)
    requires NoDuplicates(a) && NoDuplicates(b) && forall x :: x in a ==> x !in b
    ensures NoDuplicates(a + b)
  {
    forall i, j | 0 <= i < j < |a + b| ensures (a + b)[i] != (a + b)[j] {
      if i < |a| <= j { assert a[i] in a && b[j - |a|] in b; }
    }
  }

  /** Whatever order the keys are visited in, exactly the Persisting and Success entries of the
      cluster have their section: one that was confirmed stays in the configuration. */
  lemma SectionsOfOrder(h: string, wrs: seq<WanReplication>, keys: seq<string>, name: string)
    requires IsOrder(h, wrs, keys)
    ensures name in FillInOrder(h, wrs, keys) <==> exists wr, key :: HasSection(h, wrs, wr, key, name)
  {
    var i := LastKeyDecides(h, wrs, keys, name);
    if name in FillInOrder(h, wrs, keys) {
      var key := keys[i];
      assert key in keys;
      SelectedExactlyIf(wrs, h, key);
      var wr :| wr in wrs && key in wr.entries && (wr.entries[key].status == Persisting || wr.entries[key].status == Success);
      assert HasSection(h, wrs, wr, key, name);
    }
    forall wr, key | HasSection(h, wrs, wr, key, name) ensures name in FillInOrder(h, wrs, keys) {
      SelectedExactlyIf(wrs, h, key);
      assert key in keys;
    }
  }

  /** wr has a Persisting or Success entry of cluster h, written under section `name`. */
  ghost predicate HasSection(h: string, wrs: seq<WanReplication>, wr: WanReplication, key: string, name: string) {
    && wr in wrs && key in wr.entries && (wr.entries[key].status == Persisting || wr.entries[key].status == Success)
    && FindSep(key, 0) != -1 && SplitWanMapKey(key).0 == h && name == WanName(SplitWanMapKey(key).1)
  }

  /** A finite set listed in some order. */
  lemma {:induction false} Enumerate(s: set<string>) returns (list: seq<string>)
    ensures NoDuplicates(list) && forall x :: x in list <==> x in s
  {
    if s == {} {
      list := [];
    } else {
      var x :| x in s;
      var rest := Enumerate(s - {x});
      list := rest + [x];
    }
  }

  /** The keys the resources contribute under. */
  lemma SelectedKeys(h: string, wrs: seq<WanReplication>) returns (keys: set<string>)
    ensures forall key :: key in keys <==> Selected(wrs, h, key) != []
  {
    keys := set wr, key | wr in wrs && key in wr.entries && Contributes(wr, h, key) :: key;
    forall key ensures key in keys <==> Selected(wrs, h, key) != [] {
      SelectedMembers(wrs, h, key);
      if Selected(wrs, h, key) != [] {
        assert Selected(wrs, h, key)[0] in Selected(wrs, h, key);
      } else {
        assert forall wr :: wr !in Selected(wrs, h, key);
      }
    }
  }

  /** The key a generated section was written for. */
  ghost function Writer(h: string, wrs: seq<WanReplication>, cfg: WanSection, name: string): (key: string)
    requires Generated(h, wrs, cfg) && name in cfg
    ensures WrittenFor(h, wrs, cfg, name, key)
  {
    var key :| WrittenFor(h, wrs, cfg, name, key); key
  }

  /** The keys whose publishers the sections hold, one per section. */
  ghost predicate AreWriters(h: string, wrs: seq<WanReplication>, cfg: WanSection, writers: set<string>)
    requires Generated(h, wrs, cfg)
  {
    && (forall name :: name in cfg ==> Writer(h, wrs, cfg, name) in writers)
    && (forall key :: key in writers ==>
          Selected(wrs, h, key) != [] && SectionName(key) in cfg && Writer(h, wrs, cfg, SectionName(key)) == key)
  }

  lemma WritersOf(h: string, wrs: seq<WanReplication>, cfg: WanSection) returns (writers: set<string>)
    requires Generated(h, wrs, cfg)
    ensures AreWriters(h, wrs, cfg, writers)
  {
    writers := set name | name in cfg :: Writer(h, wrs, cfg, name);
    forall key | key in writers
      ensures Selected(wrs, h, key) != [] && SectionName(key) in cfg && Writer(h, wrs, cfg, SectionName(key)) == key
    {
      var name :| name in cfg && key == Writer(h, wrs, cfg, name);
      SelectedKeySplits(h, wrs, key);
    }
  }

  /** An order that ends with the given keys. */
  lemma OrderEndingWith(h: string, wrs: seq<WanReplication>, keys: set<string>) returns (first: seq<string>, last: seq<string>)
    requires forall key :: key in keys ==> Selected(wrs, h, key) != []
    ensures IsOrder(h, wrs, first + last) && forall key :: key in last <==> key in keys
  {
    var selected := SelectedKeys(h, wrs);
    first := Enumerate(selected - keys);
    last := Enumerate(keys);
    ConcatNoDuplicates(first, last);
    forall key ensures key in first + last <==> Selected(wrs, h, key) != [] {
      assert key in first + last <==> key in first || key in last;
    }
  }

  /** Everything generated comes from an order of the keys: the keys that were overwritten
      first, then those the sections were written for. */
  lemma GeneratedHasOrder(h: string, wrs: seq<WanReplication>, cfg: WanSection) returns (keys: seq<string>)
    requires Generated(h, wrs, cfg)
    ensures IsOrder(h, wrs, keys) && FillInOrder(h, wrs, keys) == cfg
  {
    var writers := WritersOf(h, wrs, cfg);
    var first, last := OrderEndingWith(h, wrs, writers);
    keys := first + last;
    forall name ensures name in FillInOrder(h, wrs, keys) <==> name in cfg {
      OrderHasName(h, wrs, cfg, keys, name);
    }
    forall name | name in cfg ensures FillInOrder(h, wrs, keys)[name] == cfg[name] {
      WritersDecide(h, wrs, cfg, first, last, writers, name);
    }
    SameSections(FillInOrder(h, wrs, keys), cfg);
  }

  lemma SameSections(a: WanSection, b: WanSection)
    requires forall name :: name in a <==> name in b
    requires forall name :: name in b ==> a[name] == b[name]
    ensures a == b
  {
  }

  /** What the fill loop can produce is exactly what some order of the keys produces. */
  lemma GeneratedExactlyByOrders(h: string, wrs: seq<WanReplication>, cfg: WanSection)
    ensures Generated(h, wrs, cfg) <==> exists keys :: IsOrder(h, wrs, keys) && FillInOrder(h, wrs, keys) == cfg
  {
    if Generated(h, wrs, cfg) {
      var keys := GeneratedHasOrder(h, wrs, cfg);
    }
    forall keys | IsOrder(h, wrs, keys) && FillInOrder(h, wrs, keys) == cfg ensures Generated(h, wrs, cfg) {
      OrderGenerates(h, wrs, keys);
    }
  }

  lemma OrderHasName(h: string, wrs: seq<WanReplication>, cfg: WanSection, keys: seq<string>, name: string)
    requires Generated(h, wrs, cfg) && IsOrder(h, wrs, keys)
    ensures name in FillInOrder(h, wrs, keys) <==> name in cfg
  {
    var i := LastKeyDecides(h, wrs, keys, name);
    if name in FillInOrder(h, wrs, keys) {
      assert keys[i] in keys;
      SelectedKeySplits(h, wrs, keys[i]);
    }
    if name in cfg {
      var key := Writer(h, wrs, cfg, name);
      SelectedKeySplits(h, wrs, key);
      assert key in keys;
    }
  }

  lemma WritersDecide(h: string, wrs: seq<WanReplication>, cfg: WanSection, first: seq<string>, last: seq<string>,
                      writers: set<string>, name: string)
    requires Generated(h, wrs, cfg) && IsOrder(h, wrs, first + last) && name in cfg
    requires AreWriters(h, wrs, cfg, writers) && forall key :: key in last <==> key in writers
    ensures name in FillInOrder(h, wrs, first + last) && FillInOrder(h, wrs, first + last)[name] == cfg[name]
  {
    var keys := first + last;
    var key := Writer(h, wrs, cfg, name);
    SelectedKeySplits(h, wrs, key);
    assert key in last;
    var w :| 0 <= w < |last| && last[w] == key;
    assert keys[|first| + w] == key;
    var i := LastKeyDecides(h, wrs, keys, name);
    assert i >= |first| + w;
    assert keys[i] == last[i - |first|];
    assert keys[i] in last;
  }

  /** Listing, filtering and filling, in that order; keys are visited in any order. */
  method FillHazelcastConfigWithWanReplications(h: string, wrs: seq<WanReplication>)
    returns (cfg: WanSection, ghost keys: seq<string>)
    requires KeysSplit(wrs)
    ensures IsOrder(h, wrs, keys) && cfg == FillInOrder(h, wrs, keys)
    ensures Generated(h, wrs, cfg)
  {
    var wrl := FilterPersistedWanReplications(h, wrs);
    cfg, keys := map[], [];
    var todo := wrl.Keys;
    while todo != {}
      invariant todo <= wrl.Keys && NoDuplicates(keys)
      invariant forall key :: key in keys <==> key in wrl && key !in todo
      invariant cfg == FillInOrder(h, wrs, keys)
      decreases |todo|
    {
      var wanKey :| wanKey in todo;
      todo := todo - {wanKey};
      assert Get(wrl, wanKey) == Selected(wrs, h, wanKey);
      SelectedKeySplits(h, wrs, wanKey);
      var (_, mapName) := SplitWanMapKey(wanKey);
      var wanConfig := CreateWanReplicationConfig(wanKey, wrl[wanKey]);
      assert (keys + [wanKey])[..|keys|] == keys;
      cfg, keys := cfg[WanName(mapName) := wanConfig], keys + [wanKey];
    }
    forall key ensures key in keys <==> Selected(wrs, h, key) != [] {
      assert Get(wrl, key) == Selected(wrs, h, key);
    }
    OrderGenerates(h, wrs, keys);
  }

  // ---------- Validating the configuration ----------

  /** The configuration read from the clusters' secrets holds, under the entry's key and
      publisher id, exactly the publisher built from `spec`. */
  ghost predicate Confirms(configs: map<string, WanSection>, spec: WanSpec, key: string, publisherId: string) {
    exists hz, name :: ConfirmedAt(configs, spec, key, publisherId, hz, name)
  }

  predicate ConfirmedAt(configs: map<string, WanSection>, spec: WanSpec, key: string, publisherId: string,
                        hz: string, name: string)
  {
    && hz in configs && name in configs[hz]
    && key == WanMapKey(hz, SplitWanName(name))
    && publisherId in configs[hz][name]
    && configs[hz][name][publisherId] == CreateBatchPublisherConfig(spec)
  }

  /** No two sections of the configurations are looked up under the same key. */
  ghost predicate SectionsDistinct(configs: map<string, WanSection>) {
    forall hz, name, hz', name' ::
      hz in configs && name in configs[hz] && hz' in configs && name' in configs[hz'] &&
      WanMapKey(hz, SplitWanName(name)) == WanMapKey(hz', SplitWanName(name'))
      ==> hz == hz' && name == name'
  }

  /** Where a key's publishers were found. */
  ghost predicate FoundAt(configs: map<string, WanSection>, cmMap: WanSection, key: string, hz: string, name: string)
    requires key in cmMap
  {
    hz in configs && name in configs[hz] && key == WanMapKey(hz, SplitWanName(name)) &&
    cmMap[key] == configs[hz][name]
  }

  /** Fills the table from status key to publishers out of all cluster configurations. */
  method CollectSections(configs: map<string, WanSection>) returns (cmMap: WanSection)
    ensures forall key :: key in cmMap ==> exists hz, name :: FoundAt(configs, cmMap, key, hz, name)
    ensures forall hz, name :: hz in configs && name in configs[hz] ==> WanMapKey(hz, SplitWanName(name)) in cmMap
  {
    cmMap := map[];
    var clusters := configs.Keys;
    while clusters != {}
      invariant clusters <= configs.Keys
      invariant forall key :: key in cmMap ==> exists hz, name :: FoundAt(configs, cmMap, key, hz, name)
      invariant forall hz, name :: hz in configs && hz !in clusters && name in configs[hz] ==>
                  WanMapKey(hz, SplitWanName(name)) in cmMap
      decreases |clusters|
    {
      var hz :| hz in clusters;
      clusters := clusters - {hz};
      var names := configs[hz].Keys;
      while names != {}
        invariant names <= configs[hz].Keys
        invariant forall key :: key in cmMap ==> exists hz, name :: FoundAt(configs, cmMap, key, hz, name)
        invariant forall hz', name ::
                    (hz' in configs && name in configs[hz'] &&
                     (if hz' == hz then name !in names else hz' !in clusters)) ==>
                      WanMapKey(hz', SplitWanName(name)) in cmMap
        decreases |names|
      {
        var name :| name in names;
        names := names - {name};
        ghost var before := cmMap;
        var k := WanMapKey(hz, SplitWanName(name));
        cmMap := cmMap[k := configs[hz][name]];
        forall key | key in cmMap ensures exists hz, name :: FoundAt(configs, cmMap, key, hz, name) {
          if key == k {
            assert FoundAt(configs, cmMap, key, hz, name);
          } else {
            var h, m :| FoundAt(configs, before, key, h, m);
            assert FoundAt(configs, cmMap, key, h, m);
          }
        }
      }
    }
  }

  /** Validation of one entry against the collected table. */
  predicate Matches(cmMap: WanSection, spec: WanSpec, key: string, publisherId: string) {
    key in cmMap && publisherId in cmMap[key] && cmMap[key][publisherId] == CreateBatchPublisherConfig(spec)
  }

  lemma MatchesConfirms(configs: map<string, WanSection>, cmMap: WanSection, spec: WanSpec, key: string, publisherId: string)
    requires forall key :: key in cmMap ==> exists hz, name :: FoundAt(configs, cmMap, key, hz, name)
    requires forall hz, name :: hz in configs && name in configs[hz] ==> WanMapKey(hz, SplitWanName(name)) in cmMap
    ensures Matches(cmMap, spec, key, publisherId) ==> Confirms(configs, spec, key, publisherId)
    ensures SectionsDistinct(configs) ==> Confirms(configs, spec, key, publisherId) ==> Matches(cmMap, spec, key, publisherId)
  {
    if Matches(cmMap, spec, key, publisherId) {
      var hz, name :| FoundAt(configs, cmMap, key, hz, name);
      assert ConfirmedAt(configs, spec, key, publisherId, hz, name);
    }
    if SectionsDistinct(configs) && Confirms(configs, spec, key, publisherId) {
      var hz, name :| ConfirmedAt(configs, spec, key, publisherId, hz, name);
      var hz', name' :| FoundAt(configs, cmMap, key, hz', name');
    }
  }

  /** The keys that validation moves from Persisting to Success.  Whatever the
      configurations hold, a key is confirmed only when they hold its publisher; when no
      two sections share a key, it is confirmed whenever they do. */
  method ConfirmedEntries(entries: map<string, Entry>, spec: WanSpec, configs: map<string, WanSection>)
    returns (confirmed: set<string>)
    ensures confirmed <= entries.Keys
    ensures forall key :: key in confirmed ==>
              entries[key].status == Persisting && Confirms(configs, spec, key, entries[key].publisherId)
    ensures SectionsDistinct(configs) ==>
              forall key :: key in entries && entries[key].status == Persisting ==>
                Confirms(configs, spec, key, entries[key].publisherId) ==> key in confirmed
  {
    var cmMap := CollectSections(configs);
    confirmed := {};
    var todo := entries.Keys;
    while todo != {}
      invariant todo <= entries.Keys && confirmed <= entries.Keys
      invariant forall key :: key in confirmed <==>
                  key in entries && key !in todo && entries[key].status == Persisting &&
                  Matches(cmMap, spec, key, entries[key].publisherId)
      decreases |todo|
    {
      var key :| key in todo;
      todo := todo - {key};
      if entries[key].status == Persisting && Matches(cmMap, spec, key, entries[key].publisherId) {
        confirmed := confirmed + {key};
      }
    }
    forall key | key in entries
      ensures Matches(cmMap, spec, key, entries[key].publisherId) ==>
                Confirms(configs, spec, key, entries[key].publisherId)
      ensures SectionsDistinct(configs) ==> Confirms(configs, spec, key, entries[key].publisherId) ==>
                Matches(cmMap, spec, key, entries[key].publisherId)
    {
      MatchesConfirms(configs, cmMap, spec, key, entries[key].publisherId);
    }
  }

  // ---------- The handshake ----------

  /** What the status entries of a cluster's WanReplications satisfy (see WanLifecycle):
      each key belongs to a cluster named without underscore, and a publisher id is made
      of the resource's name and the key. */
  ghost predicate WellFormed(wrs: seq<WanReplication>) {
    && KeysSplit(wrs)
    && (forall wr, wr' :: wr in wrs && wr' in wrs && wr.name == wr'.name ==> wr == wr')
    && (forall wr, key :: wr in wrs && key in wr.entries ==> exists hz, mapName :: IsKeyOf(key, hz, mapName))
    && (forall wr, key :: wr in wrs && key in wr.entries && (wr.entries[key].status == Persisting || wr.entries[key].status == Success) ==>
          wr.entries[key].publisherId == PublisherId(wr.name, key))
  }

  predicate IsKeyOf(key: string, hz: string, mapName: string) {
    '_' !in hz && key == WanMapKey(hz, mapName)
  }

  /** Every configuration read back was generated from the current statuses. */
  ghost predicate AllGenerated(configs: map<string, WanSection>, wrs: seq<WanReplication>) {
    forall hz :: hz in configs ==> '_' !in hz && Generated(hz, wrs, configs[hz])
  }

  /** Generated names are map names without separator followed by the suffix. */
  lemma GeneratedNames(h: string, wrs: seq<WanReplication>, cfg: WanSection, name: string) returns (key: string)
    requires Generated(h, wrs, cfg) && name in cfg && '_' !in h
    ensures WrittenFor(h, wrs, cfg, name, key)
    ensures SplitWanName(name) == SplitWanMapKey(key).1
    ensures !HasSep(SplitWanName(name))
    ensures name == WanName(SplitWanName(name))
  {
    key :| WrittenFor(h, wrs, cfg, name, key);
    WanNameRoundTrip(SplitWanMapKey(key).1);
    SplitPartHasNoSep(key);
  }

  lemma GeneratedSectionsDistinct(configs: map<string, WanSection>, wrs: seq<WanReplication>)
    requires AllGenerated(configs, wrs)
    ensures SectionsDistinct(configs)
  {
    forall hz, name, hz', name' |
      hz in configs && name in configs[hz] && hz' in configs && name' in configs[hz'] &&
      WanMapKey(hz, SplitWanName(name)) == WanMapKey(hz', SplitWanName(name'))
      ensures hz == hz' && name == name'
    {
      WanMapKeyInjective(hz, SplitWanName(name), hz', SplitWanName(name'));
      var _ := GeneratedNames(hz, wrs, configs[hz], name);
      var _ := GeneratedNames(hz, wrs, configs[hz'], name');
    }
  }

  /** Another key of the cluster is written under the same section as the map `mapName`. */
  ghost predicate Shadowed(h: string, wrs: seq<WanReplication>, mapName: string) {
    exists key :: Shadows(h, wrs, mapName, key)
  }

  ghost predicate Shadows(h: string, wrs: seq<WanReplication>, mapName: string, key: string) {
    && Selected(wrs, h, key) != []
    && key != WanMapKey(h, mapName)
    && FindSep(key, 0) != -1
    && SplitWanMapKey(key).1 == mapName
  }

  /** When no map name contains "__", nothing is shadowed. */
  lemma NoSepNoShadow(h: string, wrs: seq<WanReplication>, mapName: string)
    requires WellFormed(wrs) && '_' !in h
    requires forall wr, hz, m :: wr in wrs && '_' !in hz && WanMapKey(hz, m) in wr.entries ==> !HasSep(m)
    ensures !Shadowed(h, wrs, mapName)
  {
    forall key | Selected(wrs, h, key) != [] && FindSep(key, 0) != -1 && SplitWanMapKey(key).1 == mapName
      ensures key == WanMapKey(h, mapName)
    {
      SelectedMembers(wrs, h, key);
      var wr := Selected(wrs, h, key)[0];
      assert wr in wrs && key in wr.entries;
      var hz, m :| IsKeyOf(key, hz, m);
      SplitKeyRoundTrip(hz, m);
    }
  }

  /** An unshadowed map without "__" in its name finds its own publisher, whatever other
      WanReplications replicate the same map. */
  lemma UnshadowedIsConfirmed(h: string, wrs: seq<WanReplication>, cfg: WanSection, wr: WanReplication, mapName: string)
    requires WellFormed(wrs) && Generated(h, wrs, cfg) && '_' !in h && wr in wrs
    requires var key := WanMapKey(h, mapName); key in wr.entries && (wr.entries[key].status == Persisting || wr.entries[key].status == Success)
    requires !HasSep(mapName) && !Shadowed(h, wrs, mapName)
    ensures var key := WanMapKey(h, mapName);
            ConfirmedAt(map[h := cfg], wr.spec, key, wr.entries[key].publisherId, h, WanName(mapName))
  {
    var key := WanMapKey(h, mapName);
    SplitKeyRoundTrip(h, mapName);
    WanNameRoundTrip(mapName);
    SelectedMembers(wrs, h, key);
    assert wr in Selected(wrs, h, key);
    var other := GeneratedNames(h, wrs, cfg, WanName(mapName));
    assert !Shadows(h, wrs, mapName, other);
    assert other == key;
    DistinctIds(wrs, h, key);
    PublishersOfDistinct(key, Selected(wrs, h, key), wr);
  }

  /** Resources selected under one key have different publisher ids. */
  lemma DistinctIds(wrs: seq<WanReplication>, h: string, key: string)
    requires WellFormed(wrs)
    ensures var sel := Selected(wrs, h, key);
            && (forall w :: w in sel ==> key in w.entries)
            && forall w, w' :: w in sel && w' in sel && w.entries[key].publisherId == w'.entries[key].publisherId ==> w == w'
  {
    SelectedMembers(wrs, h, key);
    var sel := Selected(wrs, h, key);
    forall w, w' | w in sel && w' in sel && w.entries[key].publisherId == w'.entries[key].publisherId
      ensures w == w'
    {
      PublisherIdInjective(w.name, w'.name, key);
    }
  }

  /** A map whose name contains "__" is looked up under a key no generated section has. */
  lemma SepIsNeverConfirmed(h: string, wrs: seq<WanReplication>, cfg: WanSection, spec: WanSpec,
                            mapName: string, publisherId: string)
    requires Generated(h, wrs, cfg) && '_' !in h && HasSep(mapName)
    ensures !Confirms(map[h := cfg], spec, WanMapKey(h, mapName), publisherId)
  {
    forall hz, name | hz == h && name in cfg && WanMapKey(h, mapName) == WanMapKey(hz, SplitWanName(name))
      ensures false
    {
      WanMapKeyInjective(h, mapName, hz, SplitWanName(name));
      var _ := GeneratedNames(h, wrs, cfg, name);
    }
  }

  /** All publisher ids of a section come from resources selected under its key. */
  lemma {:induction false} PublishersOfIds(key: string, wrs: seq<WanReplication>)
    requires forall wr :: wr in wrs ==> key in wr.entries
    ensures forall id :: id in PublishersOf(key, wrs) ==> exists wr :: wr in wrs && wr.entries[key].publisherId == id
  {
    if wrs != [] {
      var n := |wrs| - 1;
      PublishersOfIds(key, wrs[..n]);
      assert wrs[n] in wrs;
    }
  }

  /** Overwriting a section by another key written under it gives a configuration that can be generated too. */
  lemma Overwritten(h: string, wrs: seq<WanReplication>, cfg: WanSection, mapName: string, other: string)
    returns (lost: WanSection)
    requires Generated(h, wrs, cfg) && Shadows(h, wrs, mapName, other)
    ensures Generated(h, wrs, lost) && WanName(mapName) in lost
    ensures WrittenFor(h, wrs, lost, WanName(mapName), other)
  {
    SelectedMembers(wrs, h, other);
    lost := cfg[WanName(mapName) := PublishersOf(other, Selected(wrs, h, other))];
    assert WrittenFor(h, wrs, lost, WanName(mapName), other);
    forall name | name in lost ensures exists k :: WrittenFor(h, wrs, lost, name, k) {
      if name != WanName(mapName) {
        var k :| WrittenFor(h, wrs, cfg, name, k);
        assert WrittenFor(h, wrs, lost, name, k);
      }
    }
  }

  /** A shadowed map loses its section for one of the orders the keys can be visited in. */
  lemma ShadowedCanBeLost(h: string, wrs: seq<WanReplication>, wr: WanReplication, mapName: string)
    returns (keys: seq<string>)
    requires WellFormed(wrs) && '_' !in h && wr in wrs
    requires forall w :: w in wrs ==> '_' !in w.name
    requires var key := WanMapKey(h, mapName); key in wr.entries && (wr.entries[key].status == Persisting || wr.entries[key].status == Success)
    requires !HasSep(mapName) && Shadowed(h, wrs, mapName)
    ensures IsOrder(h, wrs, keys)
    ensures var key := WanMapKey(h, mapName);
            !Confirms(map[h := FillInOrder(h, wrs, keys)], wr.spec, key, wr.entries[key].publisherId)
  {
    var key := WanMapKey(h, mapName);
    var id := wr.entries[key].publisherId;
    var some := SomeGenerated(h, wrs);
    var other :| Shadows(h, wrs, mapName, other);
    var lost := Overwritten(h, wrs, some, mapName, other);
    OtherSectionLacksId(h, wrs, wr, mapName, other);
    MissingIdIsNotConfirmed(h, wrs, lost, wr.spec, mapName, id);
    keys := GeneratedHasOrder(h, wrs, lost);
  }

  lemma SomeGenerated(h: string, wrs: seq<WanReplication>) returns (cfg: WanSection)
    ensures Generated(h, wrs, cfg)
  {
    var first, last := OrderEndingWith(h, wrs, {});
    OrderGenerates(h, wrs, first + last);
    cfg := FillInOrder(h, wrs, first + last);
  }

  lemma MissingIdIsNotConfirmed(h: string, wrs: seq<WanReplication>, cfg: WanSection, spec: WanSpec,
                                mapName: string, id: string)
    requires Generated(h, wrs, cfg) && '_' !in h
    requires WanName(mapName) in cfg && id !in cfg[WanName(mapName)]
    ensures !Confirms(map[h := cfg], spec, WanMapKey(h, mapName), id)
  {
    forall name | name in cfg && WanMapKey(h, mapName) == WanMapKey(h, SplitWanName(name))
      ensures name == WanName(mapName)
    {
      OnlySection(h, wrs, cfg, mapName, name);
    }
  }

  /** A generated section looked up under the key of a map is the section named after the map. */
  lemma OnlySection(h: string, wrs: seq<WanReplication>, cfg: WanSection, mapName: string, name: string)
    requires Generated(h, wrs, cfg) && name in cfg && '_' !in h
    requires WanMapKey(h, mapName) == WanMapKey(h, SplitWanName(name))
    ensures name == WanName(mapName)
  {
    WanMapKeyInjective(h, mapName, h, SplitWanName(name));
    var _ := GeneratedNames(h, wrs, cfg, name);
  }

  lemma OtherSectionLacksId(h: string, wrs: seq<WanReplication>, wr: WanReplication, mapName: string, other: string)
    requires WellFormed(wrs) && '_' !in h && wr in wrs
    requires forall w :: w in wrs ==> '_' !in w.name
    requires var key := WanMapKey(h, mapName); key in wr.entries && (wr.entries[key].status == Persisting || wr.entries[key].status == Success)
    requires Shadows(h, wrs, mapName, other)
    ensures forall w :: w in Selected(wrs, h, other) ==> other in w.entries
    ensures wr.entries[WanMapKey(h, mapName)].publisherId !in PublishersOf(other, Selected(wrs, h, other))
  {
    SelectedMembers(wrs, h, other);
    PublishersOfIds(other, Selected(wrs, h, other));
    forall w | w in Selected(wrs, h, other)
      ensures w.entries[other].publisherId != PublisherId(wr.name, WanMapKey(h, mapName))
    {
      ShadowIdsDiffer(h, wr.name, mapName, w.name, other, w, wrs);
    }
  }

  /** Publisher ids of different maps of one cluster differ when resource names have no underscore. */
  lemma ShadowIdsDiffer(h: string, wan: string, mapName: string, wan': string, other: string,
                        w: WanReplication, wrs: seq<WanReplication>)
    requires WellFormed(wrs) && w in wrs && w.name == wan' && Contributes(w, h, other)
    requires '_' !in h && '_' !in wan && '_' !in wan' && other != WanMapKey(h, mapName)
    ensures w.entries[other].publisherId != PublisherId(wan, WanMapKey(h, mapName))
  {
    var hz, m :| IsKeyOf(other, hz, m);
    SplitKeyRoundTrip(hz, m);
    assert PublisherId(wan, WanMapKey(h, mapName)) == WanMapKey(wan + "-" + h, mapName);
    assert PublisherId(wan', other) == WanMapKey(wan' + "-" + h, m);
    if WanMapKey(wan + "-" + h, mapName) == WanMapKey(wan' + "-" + h, m) {
      WanMapKeyInjective(wan + "-" + h, mapName, wan' + "-" + h, m);
    }
  }

  /** The handshake is exact: whatever order the keys of cluster h are visited in, regenerating
      it from the current statuses confirms the entry of a map, if and only if the map name
      has no "__" and no other key of the cluster is written under the same section. */
  lemma HandshakeExact(h: string, wrs: seq<WanReplication>, wr: WanReplication, mapName: string)
    requires WellFormed(wrs) && '_' !in h && wr in wrs
    requires forall w :: w in wrs ==> '_' !in w.name
    requires var key := WanMapKey(h, mapName); key in wr.entries && (wr.entries[key].status == Persisting || wr.entries[key].status == Success)
    ensures var key := WanMapKey(h, mapName);
            (forall keys :: IsOrder(h, wrs, keys) ==>
                Confirms(map[h := FillInOrder(h, wrs, keys)], wr.spec, key, wr.entries[key].publisherId))
            <==> !HasSep(mapName) && !Shadowed(h, wrs, mapName)
  {
    var key := WanMapKey(h, mapName);
    if HasSep(mapName) {
      var first, last := OrderEndingWith(h, wrs, {});
      OrderGenerates(h, wrs, first + last);
      SepIsNeverConfirmed(h, wrs, FillInOrder(h, wrs, first + last), wr.spec, mapName, wr.entries[key].publisherId);
    } else if Shadowed(h, wrs, mapName) {
      var keys := ShadowedCanBeLost(h, wrs, wr, mapName);
    } else {
      forall keys | IsOrder(h, wrs, keys)
        ensures Confirms(map[h := FillInOrder(h, wrs, keys)], wr.spec, key, wr.entries[key].publisherId)
      {
        OrderGenerates(h, wrs, keys);
        UnshadowedIsConfirmed(h, wrs, FillInOrder(h, wrs, keys), wr, mapName);
      }
    }
  }

  /** One regeneration of every cluster named in `clusters` followed by one validation.
      With map names free of "__", every Persisting entry of those clusters is confirmed,
      and nothing else is. */
  method RegenerateAndValidate(clusters: set<string>, wrs: seq<WanReplication>, wr: WanReplication)
    returns (confirmed: set<string>)
    requires WellFormed(wrs) && wr in wrs
    requires forall hz :: hz in clusters ==> '_' !in hz
    requires forall w, hz, m :: w in wrs && '_' !in hz && WanMapKey(hz, m) in w.entries ==> !HasSep(m)
    ensures forall hz, m :: '_' !in hz ==>
              (WanMapKey(hz, m) in confirmed <==>
                 hz in clusters && WanMapKey(hz, m) in wr.entries && wr.entries[WanMapKey(hz, m)].status == Persisting)
  {
    var configs: map<string, WanSection> := map[];
    var todo := clusters;
    while todo != {}
      invariant todo <= clusters && configs.Keys == clusters - todo
      invariant AllGenerated(configs, wrs)
      decreases |todo|
    {
      var hz :| hz in todo;
      todo := todo - {hz};
      ghost var keys;
      var cfg;
      cfg, keys := FillHazelcastConfigWithWanReplications(hz, wrs);
      configs := configs[hz := cfg];
    }
    confirmed := ConfirmedEntries(wr.entries, wr.spec, configs);
    GeneratedSectionsDistinct(configs, wrs);
    forall hz, m | '_' !in hz
      ensures WanMapKey(hz, m) in confirmed <==>
                hz in clusters && WanMapKey(hz, m) in wr.entries && wr.entries[WanMapKey(hz, m)].status == Persisting
    {
      var key := WanMapKey(hz, m);
      if key in confirmed {
        var h, name :| ConfirmedAt(configs, wr.spec, key, wr.entries[key].publisherId, h, name);
        WanMapKeyInjective(hz, m, h, SplitWanName(name));
      } else if hz in clusters && key in wr.entries && wr.entries[key].status == Persisting {
        NoSepNoShadow(hz, wrs, m);
        UnshadowedIsConfirmed(hz, wrs, configs[hz], wr, m);
        assert ConfirmedAt(configs, wr.spec, key, wr.entries[key].publisherId, hz, WanName(m));
        assert false;
      }
    }
  }

  // ---------- The aggregated status ----------

  lemma Singleton<T>(s: set<T>, x: T)
    requires x in s && |s| == 1
    ensures s == {x}
  {
    assert |s - {x}| == 0;
  }

  /** The status of a WanReplication as a function of the statuses of its maps. */
  method WanStatusFromMapStatuses(entries: map<string, Entry>) returns (status: WanStatus)
    ensures status == Success <==>
              entries != map[] && forall key :: key in entries ==> entries[key].status == Success
    ensures status == Persisting <==> exists key :: key in entries && entries[key].status == Persisting
    ensures status == Failed <==>
              && (exists key :: key in entries && entries[key].status == Failed)
              && (forall key :: key in entries ==> entries[key].status != Persisting)
    ensures status in {Success, Persisting, Failed, Pending}
  {
    var statuses: set<WanStatus> := {};
    var todo := entries.Keys;
    while todo != {}
      invariant todo <= entries.Keys
      invariant forall s :: s in statuses <==> exists key :: key in entries && key !in todo && entries[key].status == s
      decreases |todo|
    {
      var key :| key in todo;
      todo := todo - {key};
      statuses := statuses + {entries[key].status};
    }
    assert forall key :: key in entries ==> entries[key].status in statuses;
    assert (forall key :: key in entries ==> entries[key].status == Success) ==> statuses == {} || statuses == {Success};
    if Success in statuses && |statuses| == 1 {
      Singleton(statuses, Success);
      return Success;
    }
    if Persisting in statuses { return Persisting; }
    if Failed in statuses { return Failed; }
    return Pending;
  }
}
