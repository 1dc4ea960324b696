/** What keeps a map in the configuration of its cluster.  The Map reconciler drives the
    state of the resource and records its last successful spec in an annotation; the
    Hazelcast reconciler decides from both which spec goes into the configuration. */
module MapRetention {
  import opened Wrappers
  import opened Environment

  // ---------- The resource ----------

  datatype Eviction = Eviction(maxSize: int, maxSizePolicy: string, evictionPolicy: string)
  datatype BitmapOptions = BitmapOptions(uniqueKey: string, transformation: string)
  datatype Index = Index(name: string, kind: string, attributes: seq<string>, bitmap: Option<BitmapOptions>)
  datatype Attribute = Attribute(name: string, extractor: string)
  datatype MapStore = MapStore(initialMode: string, className: string, writeCoalescing: Option<bool>,
                               writeDelay: int, writeBatch: int, propertiesSecret: string)
  datatype Listener = Listener(className: string, includeValues: Option<bool>, local: bool)
  datatype NearCache = NearCache(name: string, inMemoryFormat: string, invalidateOnChange: bool, timeToLive: int,
                                 maxIdle: int, eviction: Eviction, cacheLocalEntries: bool)
  datatype EventJournal = EventJournal(capacity: int, timeToLive: int)
  datatype TieredStore = TieredStore(memoryCapacity: int, diskDevice: string)

  datatype MapSpec = MapSpec(
    name: string, hazelcast: string, backupCount: int, asyncBackupCount: int, timeToLive: int, maxIdle: int,
    eviction: Eviction, indexes: seq<Index>, attributes: seq<Attribute>, persistenceEnabled: bool,
    inMemoryFormat: string, mapStore: Option<MapStore>, listeners: seq<Listener>, nearCache: Option<NearCache>,
    eventJournal: Option<EventJournal>, tieredStore: Option<TieredStore>, merkleTreeDepth: Option<int>,
    userCodeNamespace: string)

  datatype MapState = Unset | Success | Failed | Pending | Persisting | Terminating

  datatype MapResource = MapResource(
    name: string, spec: MapSpec, state: MapState, lastSuccessful: Option<MapSpec>, deleting: bool, finalizer: bool)

  function MapName(m: MapResource): string {
    if m.spec.name != "" then m.spec.name else m.name
  }

  /** The fields validateNotUpdatableMapFields compares. */
  predicate SameFixedFields(current: MapSpec, last: MapSpec) {
    && current.name == last.name
    && current.backupCount == last.backupCount
    && current.asyncBackupCount == last.asyncBackupCount
    && current.indexes == last.indexes
    && current.persistenceEnabled == last.persistenceEnabled
    && current.hazelcast == last.hazelcast
    && current.inMemoryFormat == last.inMemoryFormat
    && current.eventJournal == last.eventJournal
    && current.nearCache == last.nearCache
    && current.tieredStore == last.tieredStore
  }

  /** An update is admitted against the annotation the resource has. */
  predicate Admitted(m: MapResource, spec: MapSpec) {
    m.lastSuccessful.Some? ==> SameFixedFields(spec, m.lastSuccessful.value)
  }

  /** What every stored version of the resource satisfies. */
  predicate Retained(m: MapResource) {
    m.lastSuccessful.Some? ==> m.state != Unset && SameFixedFields(m.spec, m.lastSuccessful.value)
  }

  // ---------- The generated configuration ----------

  datatype IndexConfig = IndexConfig(name: string, kind: string, attributes: seq<string>, uniqueKey: string, transformation: string)
  datatype MapStoreConfig = MapStoreConfig(writeCoalescing: Option<bool>, writeDelay: int, writeBatch: int,
                                           className: string, properties: map<string, string>, initialMode: string)
  datatype ListenerConfig = ListenerConfig(className: string, includeValue: bool, local: bool)
  datatype NearCacheConfig = NearCacheConfig(inMemoryFormat: string, invalidateOnChange: bool, timeToLive: int,
                                             maxIdle: int, eviction: Eviction, cacheLocalEntries: bool)

  datatype MapConfig = MapConfig(
    backupCount: int, asyncBackupCount: int, timeToLive: int, readBackupData: bool, inMemoryFormat: string,
    indexes: seq<IndexConfig>, attributes: seq<Attribute>, statisticsEnabled: bool, persistenceEnabled: bool,
    eviction: Eviction, userCodeNamespace: string, wanReference: string, mapStore: Option<MapStoreConfig>,
    listeners: seq<ListenerConfig>, nearCache: Option<NearCacheConfig>, eventJournal: Option<EventJournal>,
    tieredStore: Option<TieredStore>, merkleTreeDepth: Option<int>)

  type Secrets = map<string, map<string, string>>

  /** The properties of a map store; None when the secret cannot be read. */
  function MapStoreProperties(secrets: Secrets, name: string): Option<map<string, string>> {
    if name == "" then Some(map[])
    else if name in secrets then Some(secrets[name])
    else None
  }

  function IndexConfigOf(index: Index): IndexConfig {
    match index.bitmap
    case None => IndexConfig(index.name, index.kind, index.attributes, "", "")
    case Some(b) => IndexConfig(index.name, index.kind, index.attributes, b.uniqueKey, b.transformation)
  }

  function IndexConfigs(indexes: seq<Index>): seq<IndexConfig> {
    seq(|indexes|, i requires 0 <= i < |indexes| => IndexConfigOf(indexes[i]))
  }

  function ListenerConfigs(listeners: seq<Listener>): seq<ListenerConfig> {
    seq(|listeners|, i requires 0 <= i < |listeners| => ListenerConfigOf(listeners[i]))
  }

  function ListenerConfigOf(l: Listener): ListenerConfig {
    ListenerConfig(l.className, if l.includeValues.None? then true else l.includeValues.value, l.local)
  }

  /** The configuration of a map; None when its map store's secret cannot be read. */
  function CreateMapConfig(secrets: Secrets, m: MapResource): Option<MapConfig> {
    var s := m.spec;
    var store :=
      if s.mapStore.None? then Some(None)
      else
        var ms := s.mapStore.value;
        match MapStoreProperties(secrets, ms.propertiesSecret)
        case None => None
        case Some(p) => Some(Some(MapStoreConfig(ms.writeCoalescing, ms.writeDelay, ms.writeBatch, ms.className, p, ms.initialMode)));
    if store.None? then None
    else Some(MapConfig(
      s.backupCount, s.asyncBackupCount, s.timeToLive, false, s.inMemoryFormat,
      IndexConfigs(s.indexes),
      s.attributes, true, s.persistenceEnabled, s.eviction, s.userCodeNamespace, MapName(m) + "-default",
      store.value,
      ListenerConfigs(s.listeners),
      if s.nearCache.None? then None
      else var c := s.nearCache.value;
           Some(NearCacheConfig(c.inMemoryFormat, c.invalidateOnChange, c.timeToLive, c.maxIdle, c.eviction, c.cacheLocalEntries)),
      s.eventJournal, s.tieredStore, s.merkleTreeDepth))
  }

  // ---------- The configuration at run time ----------

  datatype MapStoreInput = MapStoreInput(className: string, writeCoalescing: bool, writeDelay: int, writeBatch: int,
                                         properties: map<string, string>, initialMode: string)

  /** What the members of a running cluster are sent for a new map. */
  datatype MapConfigInput = MapConfigInput(
    name: string, backupCount: int, asyncBackupCount: int, timeToLive: int, maxIdle: int, eviction: Eviction,
    indexes: seq<IndexConfig>, attributes: seq<Attribute>, persistenceEnabled: bool, wanReference: string,
    inMemoryFormat: string, userCodeNamespace: string, merkleTreeDepth: Option<int>, mapStore: Option<MapStoreInput>,
    listeners: seq<ListenerConfig>, nearCacheName: string, nearCache: Option<NearCacheConfig>,
    eventJournal: Option<EventJournal>, tieredStore: Option<TieredStore>)

  const NO_PROPERTIES := map["no_empty_props_allowed" := ""]

  function MapStoreInputOf(secrets: Secrets, ms: MapStore): Option<MapStoreInput> {
    match MapStoreProperties(secrets, ms.propertiesSecret)
    case None => None
    case Some(p) =>
      Some(MapStoreInput(ms.className, if ms.writeCoalescing.None? then true else ms.writeCoalescing.value,
                         ms.writeDelay, ms.writeBatch, if p == map[] then NO_PROPERTIES else p, ms.initialMode))
  }

  function FillAddMapConfigInput(secrets: Secrets, m: MapResource): Option<MapConfigInput> {
    var s := m.spec;
    var store := if s.mapStore.None? then None else MapStoreInputOf(secrets, s.mapStore.value);
    if s.mapStore.Some? && store.None? then None
    else
      Some(MapConfigInput(
        MapName(m), s.backupCount, s.asyncBackupCount, s.timeToLive, s.maxIdle,
        Eviction(s.eviction.maxSize, s.eviction.maxSizePolicy, s.eviction.evictionPolicy),
        IndexConfigs(s.indexes), s.attributes, s.persistenceEnabled, MapName(m) + "-default", s.inMemoryFormat,
        s.userCodeNamespace, s.merkleTreeDepth, store, ListenerConfigs(s.listeners),
        if s.nearCache.None? then "" else s.nearCache.value.name,
        if s.nearCache.None? then None
        else var c := s.nearCache.value;
             Some(NearCacheConfig(c.inMemoryFormat, c.invalidateOnChange, c.timeToLive, c.maxIdle, c.eviction, c.cacheLocalEntries)),
        s.eventJournal, s.tieredStore))
  }

  /** What the configuration says agrees, field by field, with what the members were sent and
      with the spec; only the idle time is missing in it, and a write coalescing that is not
      set and empty properties are written differently. */
  lemma ConfigAgreesWithInput(secrets: Secrets, m: MapResource)
    ensures CreateMapConfig(secrets, m).Some? <==> FillAddMapConfigInput(secrets, m).Some?
    ensures CreateMapConfig(secrets, m).Some? <==>
              (m.spec.mapStore.Some? && m.spec.mapStore.value.propertiesSecret != "" ==> m.spec.mapStore.value.propertiesSecret in secrets)
    ensures CreateMapConfig(secrets, m).Some? ==>
              Agrees(secrets, m.name, m.spec, CreateMapConfig(secrets, m).value, FillAddMapConfigInput(secrets, m).value)
  {
  }

  predicate Agrees(secrets: Secrets, name: string, s: MapSpec, c: MapConfig, i: MapConfigInput) {
    && (s.name != "" ==> i.name == s.name) && (s.name == "" ==> i.name == name)
    && c.backupCount == i.backupCount == s.backupCount
    && c.asyncBackupCount == i.asyncBackupCount == s.asyncBackupCount
    && c.timeToLive == i.timeToLive == s.timeToLive
    && i.maxIdle == s.maxIdle
    && c.eviction == i.eviction == s.eviction
    && c.indexes == i.indexes && |c.indexes| == |s.indexes|
    && (forall k :: 0 <= k < |s.indexes| ==>
          && c.indexes[k].name == s.indexes[k].name && c.indexes[k].kind == s.indexes[k].kind
          && c.indexes[k].attributes == s.indexes[k].attributes
          && (s.indexes[k].bitmap.Some? ==>
                c.indexes[k].uniqueKey == s.indexes[k].bitmap.value.uniqueKey &&
                c.indexes[k].transformation == s.indexes[k].bitmap.value.transformation))
    && c.attributes == i.attributes == s.attributes
    && c.persistenceEnabled == i.persistenceEnabled == s.persistenceEnabled
    && c.wanReference == i.wanReference == i.name + "-default"
    && c.inMemoryFormat == i.inMemoryFormat == s.inMemoryFormat
    && c.userCodeNamespace == i.userCodeNamespace == s.userCodeNamespace
    && c.merkleTreeDepth == i.merkleTreeDepth == s.merkleTreeDepth
    && (c.mapStore.Some? <==> s.mapStore.Some?) && (i.mapStore.Some? <==> s.mapStore.Some?)
    && (s.mapStore.Some? ==>
          var cs, st, ms := c.mapStore.value, i.mapStore.value, s.mapStore.value;
          && cs.className == st.className == ms.className && cs.initialMode == st.initialMode == ms.initialMode
          && cs.writeDelay == st.writeDelay == ms.writeDelay && cs.writeBatch == st.writeBatch == ms.writeBatch
          && cs.writeCoalescing == ms.writeCoalescing && (cs.writeCoalescing.Some? ==> st.writeCoalescing == cs.writeCoalescing.value)
          && (cs.writeCoalescing.None? ==> st.writeCoalescing)
          && (cs.properties != map[] ==> st.properties == cs.properties)
          && (ms.propertiesSecret == "" ==> cs.properties == map[])
          && (ms.propertiesSecret != "" ==> ms.propertiesSecret in secrets && cs.properties == secrets[ms.propertiesSecret]))
    && c.listeners == i.listeners && |c.listeners| == |s.listeners|
    && (forall k :: 0 <= k < |s.listeners| ==>
          && c.listeners[k].className == s.listeners[k].className && c.listeners[k].local == s.listeners[k].local
          && (c.listeners[k].includeValue <==> s.listeners[k].includeValues != Some(false)))
    && c.nearCache == i.nearCache && (c.nearCache.Some? <==> s.nearCache.Some?)
    && (s.nearCache.Some? ==>
          var cn, n := c.nearCache.value, s.nearCache.value;
          && cn.inMemoryFormat == n.inMemoryFormat && cn.invalidateOnChange == n.invalidateOnChange
          && cn.timeToLive == n.timeToLive && cn.maxIdle == n.maxIdle && cn.eviction == n.eviction
          && cn.cacheLocalEntries == n.cacheLocalEntries && i.nearCacheName == n.name)
    && c.eventJournal == i.eventJournal == s.eventJournal
    && c.tieredStore == i.tieredStore == s.tieredStore
    && !c.readBackupData && c.statisticsEnabled
  }

  /** An edit that is admitted changes nothing in the cluster the map is configured in, and of its
      configuration only the part that can be changed at run time: the rest is what was last
      applied. */
  lemma FixedInConfiguration(secrets: Secrets, m: MapResource, last: MapResource)
    requires m.lastSuccessful.Some? && Admitted(m, m.spec) && last == m.(spec := m.lastSuccessful.value)
    ensures m.spec.hazelcast == last.spec.hazelcast && MapName(m) == MapName(last)
    ensures CreateMapConfig(secrets, m).Some? && CreateMapConfig(secrets, last).Some? ==>
              var c, c' := CreateMapConfig(secrets, m).value, CreateMapConfig(secrets, last).value;
              c == c'.(timeToLive := c.timeToLive, eviction := c.eviction, attributes := c.attributes,
                       userCodeNamespace := c.userCodeNamespace, mapStore := c.mapStore, listeners := c.listeners,
                       merkleTreeDepth := c.merkleTreeDepth)
  {
  }

  /** The version of a listed map that goes into the configuration, if any. */
  function Chosen(m: MapResource): Option<MapResource> {
    match m.state
    case Persisting => Some(m)
    case Success => Some(m)
    case Failed => if m.lastSuccessful.Some? then Some(m.(spec := m.lastSuccessful.value)) else None
    case Pending => if m.lastSuccessful.Some? then Some(m.(spec := m.lastSuccessful.value)) else None
    case _ => None
  }

  function ChosenOf(list: seq<MapResource>): seq<MapResource> {
    if list == [] then []
    else
      var n := |list| - 1;
      ChosenOf(list[..n]) + (if Chosen(list[n]).Some? then [Chosen(list[n]).value] else [])
  }

  method FilterPersistedMaps(list: seq<MapResource>) returns (l: seq<MapResource>)
    ensures l == ChosenOf(list)
  {
    l := [];
    for i := 0 to |list|
      invariant l == ChosenOf(list[..i])
    {
      assert list[..i + 1][..i] == list[..i];
      var mp := list[i];
      match mp.state
      case Persisting => l := l + [mp];
      case Success => l := l + [mp];
      case Failed =>
        if mp.lastSuccessful.Some? { l := l + [mp.(spec := mp.lastSuccessful.value)]; }
      case Pending =>
        if mp.lastSuccessful.Some? { l := l + [mp.(spec := mp.lastSuccessful.value)]; }
      case Unset =>
      case Terminating =>
    }
    assert list[..|list|] == list;
  }

  lemma {:induction false} ChosenOfMembers(list: seq<MapResource>, c: MapResource)
    ensures c in ChosenOf(list) <==> exists m :: m in list && Chosen(m) == Some(c)
  {
    if list != [] {
      var n := |list| - 1;
      ChosenOfMembers(list[..n], c);
      assert list == list[..n] + [list[n]];
    }
  }

  /** c goes into the configuration for m: m itself while it is Persisting or a Success, and
      with its last successful spec while it is Failed or Pending. */
  predicate GoesIn(m: MapResource, c: MapResource) {
    || ((m.state == Persisting || m.state == Success) && c == m)
    || ((m.state == Failed || m.state == Pending) && m.lastSuccessful.Some? && c == m.(spec := m.lastSuccessful.value))
  }

  /** In every listing the filter selects exactly these. */
  lemma ChosenExactly(list: seq<MapResource>, c: MapResource)
    ensures c in ChosenOf(list) <==> exists m :: m in list && GoesIn(m, c)
  {
    ChosenOfMembers(list, c);
    assert forall m :: Chosen(m) == Some(c) <==> GoesIn(m, c);
  }

  type Creator = MapResource -> Option<MapConfig>

  /** The map section for a list of maps: later maps win when two share a name; None
      when one of them cannot be configured. */
  function SectionOf(create: Creator, l: seq<MapResource>): Option<map<string, MapConfig>> {
    if l == [] then Some(map[])
    else
      var n := |l| - 1;
      var before, c := SectionOf(create, l[..n]), create(l[n]);
      if before.None? || c.None? then None else Some(before.value[MapName(l[n]) := c.value])
  }

  lemma {:induction false} SectionStaysNone(create: Creator, l: seq<MapResource>, i: nat)
    requires i <= |l| && SectionOf(create, l[..i]).None?
    ensures SectionOf(create, l).None?
  {
    if i == |l| {
      assert l[..i] == l;
    } else {
      assert l[..|l| - 1][..i] == l[..i];
      SectionStaysNone(create, l[..|l| - 1], i);
    }
  }

  method FillHazelcastConfigWithMaps(create: Creator, l: seq<MapResource>) returns (r: Option<map<string, MapConfig>>)
    ensures r == SectionOf(create, l)
  {
    var cfg: map<string, MapConfig> := map[];
    for i := 0 to |l|
      invariant SectionOf(create, l[..i]) == Some(cfg)
    {
      assert l[..i + 1][..i] == l[..i];
      var m := create(l[i]);
      if m.None? {
        SectionStaysNone(create, l, i + 1);
        return None;
      }
      cfg := cfg[MapName(l[i]) := m.value];
    }
    assert l[..|l|] == l;
    return Some(cfg);
  }

  /** Exactly the maps' names are there; a map alone under its name decides the entry. */
  lemma {:induction false} SectionEntries(create: Creator, l: seq<MapResource>)
    ensures SectionOf(create, l).Some? <==> forall m :: m in l ==> create(m).Some?
    ensures SectionOf(create, l).Some? ==>
              forall name :: name in SectionOf(create, l).value <==> exists m :: m in l && MapName(m) == name
    ensures SectionOf(create, l).Some? ==>
              forall name :: name in SectionOf(create, l).value ==>
                exists m :: m in l && MapName(m) == name && create(m) == Some(SectionOf(create, l).value[name])
  {
    if l != [] {
      var n := |l| - 1;
      SectionEntries(create, l[..n]);
      assert l == l[..n] + [l[n]];
    }
  }

  /** When several maps have a name, the last one decides its entry. */
  lemma {:induction false} LastOfNameDecides(create: Creator, l: seq<MapResource>, k: nat)
    requires SectionOf(create, l).Some? && k < |l| && forall j :: k < j < |l| ==> MapName(l[j]) != MapName(l[k])
    ensures MapName(l[k]) in SectionOf(create, l).value && Some(SectionOf(create, l).value[MapName(l[k])]) == create(l[k])
    decreases |l|
  {
    var n := |l| - 1;
    if k < n { LastOfNameDecides(create, l[..n], k); }
  }

  // ---------- Retention ----------

  /** No other listed map goes into the configuration under the name m has there. */
  ghost predicate OnlyOfName(list: seq<MapResource>, m: MapResource) {
    && Chosen(m).Some?
    && forall o :: o in list && Chosen(o).Some? && MapName(Chosen(o).value) == MapName(Chosen(m).value) ==>
         Chosen(o) == Chosen(m)
  }

  /** No other map of the listing goes into the configuration under the name of m. */
  ghost predicate AloneUnderName(list: seq<MapResource>, m: MapResource) {
    forall o :: o in list && Chosen(o).Some? && MapName(Chosen(o).value) == MapName(m) ==> o == m
  }

  /** Every configuration generated from versions that satisfy Retained: a map with
      annotation has an entry under its name in every state but Terminating, and while it
      is Failed or Pending, and alone under its name, that entry is the configuration of
      its last successful spec. */
  lemma EntryIsRetained(create: Creator, list: seq<MapResource>, m: MapResource)
    requires m in list && Retained(m) && m.lastSuccessful.Some? && m.state != Terminating
    requires SectionOf(create, ChosenOf(list)).Some?
    ensures MapName(m) in SectionOf(create, ChosenOf(list)).value
    ensures m.state in {Failed, Pending} && AloneUnderName(list, m) ==>
              Some(SectionOf(create, ChosenOf(list)).value[MapName(m)]) == create(m.(spec := m.lastSuccessful.value))
  {
    ChosenOfMembers(list, Chosen(m).value);
    SectionEntries(create, ChosenOf(list));
    if AloneUnderName(list, m) { OnlyOfNameDecides(create, list, m); }
  }

  lemma OnlyOfNameDecides(create: Creator, list: seq<MapResource>, m: MapResource)
    requires m in list && OnlyOfName(list, m)
    requires SectionOf(create, ChosenOf(list)).Some?
    ensures var cfg, c := SectionOf(create, ChosenOf(list)).value, Chosen(m).value;
            MapName(c) in cfg && Some(cfg[MapName(c)]) == create(c)
  {
    var cfg, c := SectionOf(create, ChosenOf(list)).value, Chosen(m).value;
    ChosenOfMembers(list, c);
    SectionEntries(create, ChosenOf(list));
    var o :| o in ChosenOf(list) && MapName(o) == MapName(c) && create(o) == Some(cfg[MapName(c)]);
    ChosenOfMembers(list, o);
  }

  /** A Failed or Pending map keeps its entry if and only if it has its annotation, whatever
      it was configured with before. */
  lemma KeptExactlyIfAnnotated(create: Creator, list: seq<MapResource>, m: MapResource)
    requires m in list && Retained(m) && m.state in {Failed, Pending} && AloneUnderName(list, m)
    requires SectionOf(create, ChosenOf(list)).Some?
    ensures MapName(m) in SectionOf(create, ChosenOf(list)).value <==> m.lastSuccessful.Some?
  {
    if m.lastSuccessful.Some? {
      EntryIsRetained(create, list, m);
    } else {
      SectionEntries(create, ChosenOf(list));
      forall c | c in ChosenOf(list) ensures MapName(c) != MapName(m) {
        ChosenOfMembers(list, c);
        var o :| o in list && Chosen(o) == Some(c);
      }
    }
  }

  function OnlyEntry(create: Creator, m: MapResource): Option<map<string, MapConfig>> {
    if create(m).Some? then Some(map[MapName(m) := create(m).value]) else None
  }

  lemma SectionOfSingle(create: Creator, m: MapResource)
    ensures SectionOf(create, ChosenOf([m])) ==
            if Chosen(m).None? then Some(map[]) else OnlyEntry(create, Chosen(m).value)
  {
    assert [m][..0] == [];
    if Chosen(m).Some? {
      var c := Chosen(m).value;
      assert ChosenOf([m]) == [c] && [c][..0] == [];
      assert SectionOf(create, [c][..0]) == Some(map[]);
    } else {
      assert ChosenOf([m]) == [];
    }
  }

  /** The validation the Map reconciler makes against the stored configuration. */
  predicate PersistedIn(create: Creator, m: MapResource, cfg: map<string, MapConfig>) {
    MapName(m) in cfg && create(m) == Some(cfg[MapName(m)])
  }

  /** Listing, filtering, filling and then validating: a Persisting map alone under its
      name is found persisted whenever the configuration can be generated at all. */
  method RegenerateAndValidate(secrets: Secrets, list: seq<MapResource>, m: MapResource) returns (persisted: Option<bool>)
    requires m in list && m.state == Persisting && AloneUnderName(list, m)
    ensures persisted == if SectionOf(o => CreateMapConfig(secrets, o), ChosenOf(list)).Some? then Some(true) else None
  {
    var create: Creator := o => CreateMapConfig(secrets, o);
    var l := FilterPersistedMaps(list);
    var cfg := FillHazelcastConfigWithMaps(create, l);
    if cfg.None? { return None; }
    OnlyOfNameDecides(create, list, m);
    return Some(PersistedIn(create, m, cfg.value));
  }

  /** A spec without what the configuration does not show: names, the cluster, the idle time,
      the name of the near cache and of the map store's secret, and the difference between
      a missing option and its default. */
  function Visible(s: MapSpec): MapSpec {
    s.(name := "", hazelcast := "", maxIdle := 0, indexes := VisibleIndexes(s.indexes), listeners := VisibleListeners(s.listeners),
       nearCache := if s.nearCache.None? then None else Some(s.nearCache.value.(name := "")),
       mapStore := if s.mapStore.None? then None else Some(s.mapStore.value.(propertiesSecret := "")))
  }

  function VisibleIndex(index: Index): Index {
    if index.bitmap.None? then index.(bitmap := Some(BitmapOptions("", ""))) else index
  }

  function VisibleListener(l: Listener): Listener {
    if l.includeValues.None? then l.(includeValues := Some(true)) else l
  }

  function VisibleIndexes(indexes: seq<Index>): seq<Index> {
    seq(|indexes|, i requires 0 <= i < |indexes| => VisibleIndex(indexes[i]))
  }

  function VisibleListeners(listeners: seq<Listener>): seq<Listener> {
    seq(|listeners|, i requires 0 <= i < |listeners| => VisibleListener(listeners[i]))
  }

  lemma SameIndexes(a: seq<Index>, b: seq<Index>)
    ensures IndexConfigs(a) == IndexConfigs(b) <==> VisibleIndexes(a) == VisibleIndexes(b)
  {
    var ca, cb, va, vb := IndexConfigs(a), IndexConfigs(b), VisibleIndexes(a), VisibleIndexes(b);
    if |a| == |b| {
      forall i | 0 <= i < |a| ensures ca[i] == cb[i] <==> va[i] == vb[i] {
        assert IndexConfigOf(a[i]) == IndexConfigOf(b[i]) <==> VisibleIndex(a[i]) == VisibleIndex(b[i]);
      }
      assert ca == cb <==> forall i :: 0 <= i < |a| ==> ca[i] == cb[i];
      assert va == vb <==> forall i :: 0 <= i < |a| ==> va[i] == vb[i];
    } else {
      assert |ca| != |cb| && |va| != |vb|;
    }
  }

  lemma SameListeners(a: seq<Listener>, b: seq<Listener>)
    ensures ListenerConfigs(a) == ListenerConfigs(b) <==> VisibleListeners(a) == VisibleListeners(b)
  {
    var ca, cb, va, vb := ListenerConfigs(a), ListenerConfigs(b), VisibleListeners(a), VisibleListeners(b);
    if |a| == |b| {
      forall i | 0 <= i < |a| ensures ca[i] == cb[i] <==> va[i] == vb[i] {
        assert ListenerConfigOf(a[i]) == ListenerConfigOf(b[i]) <==> VisibleListener(a[i]) == VisibleListener(b[i]);
      }
      assert ca == cb <==> forall i :: 0 <= i < |a| ==> ca[i] == cb[i];
      assert va == vb <==> forall i :: 0 <= i < |a| ==> va[i] == vb[i];
    } else {
      assert |ca| != |cb| && |va| != |vb|;
    }
  }

  lemma SuffixCancels(a: string, b: string, suffix: string)
    ensures a + suffix == b + suffix <==> a == b
  {
    if a + suffix == b + suffix {
      assert |a| == |b|;
      assert a == (a + suffix)[..|a|] && b == (b + suffix)[..|a|];
    }
  }

  /** The properties of the map store, if there is one. */
  function StoreProperties(secrets: Secrets, s: MapSpec): Option<map<string, string>> {
    if s.mapStore.None? then None else MapStoreProperties(secrets, s.mapStore.value.propertiesSecret)
  }

  /** Exactly these edits are not seen in the configuration: two maps that can be configured
      get the same configuration if and only if they have the same map name, the same map
      store properties and specs that agree in everything that is visible. */
  lemma SameConfigExactlyIf(secrets: Secrets, a: MapResource, b: MapResource)
    requires CreateMapConfig(secrets, a).Some? && CreateMapConfig(secrets, b).Some?
    ensures CreateMapConfig(secrets, a) == CreateMapConfig(secrets, b) <==>
              && MapName(a) == MapName(b)
              && StoreProperties(secrets, a.spec) == StoreProperties(secrets, b.spec)
              && Visible(a.spec) == Visible(b.spec)
  {
    SameIndexes(a.spec.indexes, b.spec.indexes);
    SameListeners(a.spec.listeners, b.spec.listeners);
    SuffixCancels(MapName(a), MapName(b), "-default");
  }

  /** An edit that is not visible is found persisted in the configuration of the old spec. */
  lemma InvisibleEditIsPersisted(secrets: Secrets, m: MapResource, edited: MapSpec, cfg: map<string, MapConfig>)
    requires CreateMapConfig(secrets, m).Some? && CreateMapConfig(secrets, m.(spec := edited)).Some?
    requires edited.name == m.spec.name
    ensures var create: Creator := o => CreateMapConfig(secrets, o);
            PersistedIn(create, m, cfg) ==>
              (PersistedIn(create, m.(spec := edited), cfg) <==>
                 StoreProperties(secrets, edited) == StoreProperties(secrets, m.spec) && Visible(edited) == Visible(m.spec))
  {
    SameConfigExactlyIf(secrets, m, m.(spec := edited));
  }

  // ---------- The Map reconciler ----------

  /** The calls of a reconcile that a cooperative environment may refuse: the cluster is not
      running, it cannot be reached, a member refuses the configuration, the cluster's
      secret cannot be read or has not been regenerated, the annotation or the finalizer
      cannot be written. */
  datatype Call = Cluster | Connection | Members | Secret | Regeneration | Annotation | Finalizer | Other

  type Environ = Env<Call>

  datatype Validation = Validation(m: MapResource, secrets: Secrets, cfg: map<string, MapConfig>)

  predicate Shows(v: Validation, spec: MapSpec) {
    v.m.spec == spec && PersistedIn(o => CreateMapConfig(v.secrets, o), v.m, v.cfg)
  }

  /** The spec was found in the cluster's configuration before. */
  ghost predicate Shown(spec: MapSpec, validations: seq<Validation>) {
    exists i :: 0 <= i < |validations| && Shows(validations[i], spec)
  }

  ghost predicate AnnotationShown(m: MapResource, validations: seq<Validation>) {
    m.lastSuccessful.Some? ==> Shown(m.lastSuccessful.value, validations)
  }

  /** The state becomes Success only for a spec that was found in the configuration. */
  ghost predicate SuccessShown(before: MapResource, after: MapResource, validations: seq<Validation>) {
    before.state != Success && after.state == Success ==> Shown(after.spec, validations)
  }

  lemma StillShown(spec: MapSpec, validations: seq<Validation>, v: Validation)
    requires Shown(spec, validations)
    ensures Shown(spec, validations + [v])
  {
    var i :| 0 <= i < |validations| && Shows(validations[i], spec);
    assert (validations + [v])[i] == validations[i];
  }

  predicate Follows(env: Environ) {
    env.Cooperative? && Other !in env.refused
  }

  /** The versions stored in a cooperative environment: from Persisting on, after the spec was
      found valid, and in the whole reconcile. */
  function AnnotationOf(m: MapResource, refused: set<Call>): seq<MapResource> {
    if m.lastSuccessful == Some(m.spec) || Annotation in refused then [] else [m.(lastSuccessful := Some(m.spec))]
  }

  function VersionsConcluding(m: MapResource, refused: set<Call>): seq<MapResource> {
    var annotation := AnnotationOf(m, refused);
    if annotation == [] then [m.(state := Success)] else annotation + [annotation[0].(state := Success)]
  }

  function VersionsAwaiting(m: MapResource, refused: set<Call>): seq<MapResource> {
    if Secret in refused then [m.(state := Failed)]
    else if Regeneration in refused then [m.(state := Persisting)]
    else VersionsConcluding(m, refused)
  }

  function VersionsPushing(m: MapResource, refused: set<Call>): seq<MapResource> {
    if Members in refused then [m.(state := Failed)]
    else [m.(state := Persisting)] + VersionsAwaiting(m.(state := Persisting), refused)
  }

  function VersionsApplying(m: MapResource, refused: set<Call>): seq<MapResource> {
    if Connection in refused then [m.(state := Failed)]
    else if m.state == Unset then [m.(state := Pending)] + VersionsPushing(m.(state := Pending), refused)
    else VersionsPushing(m, refused)
  }

  function VersionsExisting(m: MapResource, refused: set<Call>): seq<MapResource> {
    if Cluster in refused then [m.(state := Failed)]
    else if m.lastSuccessful == Some(m.spec) then [m.(state := Success)]
    else VersionsApplying(m, refused)
  }

  function VersionsDeleting(m: MapResource, refused: set<Call>): seq<MapResource> {
    var terminating := m.(state := Terminating);
    if !m.finalizer then [terminating]
    else if Finalizer in refused then [terminating, terminating]
    else [terminating, terminating.(finalizer := false)]
  }

  function Versions(m: MapResource, refused: set<Call>): seq<MapResource> {
    if m.deleting then VersionsDeleting(m, refused)
    else if m.finalizer then VersionsExisting(m, refused)
    else if Finalizer in refused then [m.(state := Failed)]
    else [m.(finalizer := true)] + VersionsExisting(m.(finalizer := true), refused)
  }

  /** Where they lead. */
  function Reconciled(m: MapResource, refused: set<Call>): MapResource {
    if m.deleting then m.(state := Terminating, finalizer := m.finalizer && Finalizer in refused)
    else if !m.finalizer && Finalizer in refused then m.(state := Failed)
    else
      var m' := m.(finalizer := true);
      if Cluster in refused then m'.(state := Failed)
      else if m.lastSuccessful == Some(m.spec) then m'.(state := Success)
      else if Connection in refused || Members in refused || Secret in refused then m'.(state := Failed)
      else if Regeneration in refused then m'.(state := Persisting)
      else m'.(state := Success, lastSuccessful := if Annotation in refused then m.lastSuccessful else Some(m.spec))
  }

  lemma EndsReconciled(m: MapResource, env: Environ)
    ensures env.Cooperative? ==>
              var versions := Versions(m, env.refused);
              versions != [] && versions[|versions| - 1] == Reconciled(m, env.refused)
  {
  }

  /** Secrets from which the map's own configuration can be created. */
  function OwnSecrets(m: MapResource): Secrets {
    if m.spec.mapStore.Some? then map[m.spec.mapStore.value.propertiesSecret := map[]] else map[]
  }

  lemma OwnConfigCanBeCreated(m: MapResource)
    ensures CreateMapConfig(OwnSecrets(m), m).Some?
  {
  }

  /** One Map resource and its reconciler.  `history` holds every version the server has
      stored, also of resources deleted and created again under the name; a resource
      version is an index into it.  Calls may be preceded by edits of others, may be refused,
      and may take effect without the answer arriving; reads may be outdated. */
  class MapReconciler {
    var history: seq<MapResource>
    var present: bool
    // The reconciler's copy and its resource version
    var m: MapResource
    var version: nat
    // Every validation made: the copy and the configuration it was compared with
    ghost var validations: seq<Validation>

    ghost predicate Valid() reads this {
      && version < |history|
      && (forall k :: 0 <= k < |history| ==> Retained(history[k]) && AnnotationShown(history[k], validations))
      && (forall k :: 0 < k < |history| ==> SuccessShown(history[k - 1], history[k], validations))
    }

    /** The copy was not superseded. */
    predicate UpToDate() reads this {
      version + 1 == |history|
    }

    /** The copy is what the server stored as its version. */
    ghost predicate Faithful() reads this
      requires version < |history|
    {
      m == history[version]
    }

    /** The copy is what the server stored as its version, apart from its state. */
    ghost predicate Agrees() reads this
      requires version < |history|
    {
      m == history[version].(state := m.state)
    }

    /** The resource has left its initial state, unless the copy is superseded. */
    ghost predicate Started() reads this
      requires version < |history|
    {
      UpToDate() ==> history[version].state != Unset
    }

    ghost function Latest(): MapResource reads this`history
      requires history != []
    {
      history[|history| - 1]
    }

    constructor (name: string, spec: MapSpec)
      ensures Valid() && Faithful() && fresh(this)
      ensures present && history == [MapResource(name, spec, Unset, None, false, false)]
    {
      var created := MapResource(name, spec, Unset, None, false, false);
      history, present, m, version, validations := [created], true, created, 0, [];
    }

    /** The server stores a new version. */
    method Store(next: MapResource)
      requires Valid() && Retained(next) && AnnotationShown(next, validations)
      requires SuccessShown(history[|history| - 1], next, validations)
      modifies `history
      ensures Valid() && history == old(history) + [next]
    {
      history := history + [next];
    }

    /** Users edit within what is admitted, delete and create again; other controllers
        write metadata.  Nobody else writes the state or the annotation. */
    method Interfere(env: Environ)
      requires Valid()
      modifies `history, `present
      ensures Valid() && old(history) <= history
      ensures env.Cooperative? ==> history == old(history) && present == old(present)
    {
      if env.Cooperative? { return; }
      var rounds: nat := *;
      while rounds > 0
        invariant Valid() && old(history) <= history
      {
        var stored := history[|history| - 1];
        var spec: MapSpec := *;
        var deleting: bool := *;
        if * {
          present := false;
        } else if !present {
          present := true;
          Store(MapResource(stored.name, spec, Unset, None, false, false));
        } else if Admitted(stored, spec) {
          Store(stored.(spec := spec, deleting := stored.deleting || deleting));
        }
        rounds := rounds - 1;
      }
    }

    method Get(env: Environ) returns (ok: bool)
      requires Valid()
      modifies this
      ensures Valid() && old(history) <= history && (ok ==> Faithful())
      ensures validations == old(validations)
      ensures env.Cooperative? ==> history == old(history) && present == old(present) && UpToDate() && ok
    {
      Interfere(env);
      var k: nat := *;
      if env.Cooperative? { k := |history| - 1; }
      if !(0 <= k < |history|) { return false; }
      version, m := k, history[k];
      return true;
    }

    /** Update: spec and metadata of the copy; the answer replaces the copy. */
    method Update(env: Environ, call: Call) returns (r: WriteResult)
      requires Valid()
      requires m == history[version].(lastSuccessful := m.lastSuccessful, finalizer := m.finalizer, state := m.state)
      requires m.lastSuccessful == history[version].lastSuccessful ||
               (m.lastSuccessful == Some(m.spec) && Started() && AnnotationShown(m, validations))
      modifies this
      ensures Valid() && old(history) <= history && validations == old(validations)
      ensures r == Ok ==> Faithful() && m == old(m).(state := old(history[version].state))
      ensures r != Ok ==> m == old(m) && version == old(version)
      ensures env.Cooperative? && old(present && UpToDate()) ==>
                && present && UpToDate() && (r == Ok <==> call !in env.refused)
                && history == old(history) + if r == Ok then [m] else []
    {
      Interfere(env);
      if !present { return Error; }
      if !UpToDate() { return Conflict; }
      var applied := Granted(env, call);
      if !applied { return Error; }
      r := CommitUpdate(env, call);
    }

    /** The server accepts the update; its answer may be lost. */
    method CommitUpdate(env: Environ, call: Call) returns (r: WriteResult)
      requires Valid() && UpToDate()
      requires m == history[version].(lastSuccessful := m.lastSuccessful, finalizer := m.finalizer, state := m.state)
      requires m.lastSuccessful == history[version].lastSuccessful ||
               (m.lastSuccessful == Some(m.spec) && Started() && AnnotationShown(m, validations))
      modifies `history, `m, `version
      ensures Valid() && history == old(history) + [old(m).(state := old(history[version].state))]
      ensures if r == Ok then UpToDate() && Faithful() else m == old(m) && version == old(version)
      ensures env.Cooperative? ==> (r == Ok <==> call !in env.refused)
    {
      var written := m.(state := history[version].state);
      Store(written);
      var answered := Granted(env, call);
      if !answered { return Error; }
      m, version := written, version + 1;
      return Ok;
    }

    /** updateMapStatus: the state of the copy; a conflict is not reported. */
    method UpdateMapStatus(env: Environ, state: MapState) returns (ok: bool)
      requires Valid() && state != Unset
      requires state == Success ==> Shown(history[version].spec, validations)
      modifies this
      ensures Valid() && old(history) <= history
      ensures m == old(m).(state := state)
      ensures ok && UpToDate() ==> history[version].state == state
      ensures history[version] == old(history[version]).(state := history[version].state)
      ensures validations == old(validations)
      ensures ok || !present || UpToDate() || Latest() == history[version].(state := state)
      ensures Follows(env) && old(present && UpToDate()) ==>
                ok && present && UpToDate() && history == old(history) + [old(Latest()).(state := state)]
    {
      m := m.(state := state);
      Interfere(env);
      if !present { return false; }
      if !UpToDate() { return true; }
      var applied := Granted(env, Other);
      if !applied { return false; }
      Store(history[version].(state := state));
      var answered := Granted(env, Other);
      if !answered { return false; }
      version := version + 1;
      return true;
    }

    method AddFinalizer(env: Environ) returns (ok: bool)
      requires Valid() && Faithful()
      modifies this
      ensures Valid() && old(history) <= history && (ok ==> Faithful())
      ensures old(m.finalizer || m.deleting) ==> ok && history == old(history) && m == old(m) && version == old(version) && present == old(present)
      ensures Follows(env) && old(present && UpToDate()) && !old(m.finalizer) && !old(m.deleting) ==>
                && present && UpToDate() && m == old(m).(finalizer := true) && (ok <==> Finalizer !in env.refused)
                && history == old(history) + if ok then [m] else []
    {
      if m.finalizer || m.deleting { return true; }
      m := m.(finalizer := true);
      var r := Update(env, Finalizer);
      return r == Ok;
    }

    method ReconcileDeleted(env: Environ)
      requires Valid() && Faithful()
      modifies this
      ensures Valid() && old(history) <= history
      ensures Follows(env) && old(present && UpToDate()) ==> present && history == old(history) + VersionsDeleting(old(m), env.refused)
    {
      var ok := UpdateMapStatus(env, Terminating);
      if !m.finalizer { return; }
      m := m.(finalizer := false);
      var r := Update(env, Finalizer);
      if r != Ok { ok := UpdateMapStatus(env, Terminating); }
    }

    /** Compares the copy with whatever configuration the cluster's secret holds; in a
        cooperative environment it holds the map's own, once it was regenerated. */
    method ValidateMapConfigPersistence(env: Environ) returns (ok: bool, persisted: bool)
      requires Valid()
      modifies `history, `present, `validations
      ensures Valid() && old(history) <= history
      ensures ok && persisted ==> Shown(m.spec, validations)
      ensures env.Cooperative? ==> history == old(history) && present == old(present)
      ensures env.Cooperative? ==> (ok <==> Secret !in env.refused) && (ok ==> (persisted <==> Regeneration !in env.refused))
    {
      Interfere(env);
      var readable := Granted(env, Secret);
      if !readable { return false, false; }
      var cfg: map<string, MapConfig> := *;
      var secrets: Secrets := *;
      if env.Cooperative? {
        secrets := OwnSecrets(m);
        OwnConfigCanBeCreated(m);
        cfg := if Regeneration in env.refused then map[] else map[MapName(m) := CreateMapConfig(secrets, m).value];
      }
      ghost var v := Validation(m, secrets, cfg);
      forall k | 0 <= k < |history| ensures AnnotationShown(history[k], validations + [v]) {
        if history[k].lastSuccessful.Some? { StillShown(history[k].lastSuccessful.value, validations, v); }
      }
      forall k | 0 < k < |history| ensures SuccessShown(history[k - 1], history[k], validations + [v]) {
        assert SuccessShown(history[k - 1], history[k], validations);
        if Shown(history[k].spec, validations) { StillShown(history[k].spec, validations, v); }
      }
      validations := validations + [v];
      persisted := PersistedIn(o => CreateMapConfig(secrets, o), m, cfg);
      assert persisted ==> Shows(validations[|validations| - 1], m.spec);
      return true, persisted;
    }

    /** The annotation is the spec of the copy. */
    method UpdateLastSuccessfulConfiguration(env: Environ)
      requires Valid() && Agrees() && Started()
      requires Shown(m.spec, validations)
      modifies this
      ensures Valid() && old(history) <= history
      ensures history[version].spec == old(m.spec) && validations == old(validations)
      ensures env.Cooperative? && old(present && UpToDate()) ==>
                present && UpToDate() && history == old(history) + AnnotationOf(old(Latest()), env.refused)
    {
      if m.lastSuccessful == Some(m.spec) { return; }
      m := m.(lastSuccessful := Some(m.spec));
      var r := Update(env, Annotation);
    }

    /** The part after validation of the spec. */
    method ApplyConfig(env: Environ)
      requires Valid() && Faithful()
      modifies this
      ensures Valid() && old(history) <= history
      ensures Follows(env) && old(present && UpToDate()) ==> present && history == old(history) + VersionsApplying(old(Latest()), env.refused)
    {
      var connected := Granted(env, Connection);
      if !connected { var _ := UpdateMapStatus(env, Failed); return; }
      if m.state == Unset {
        var ok := UpdateMapStatus(env, Pending);
        if !ok { return; }
      }
      PushConfig(env);
    }

    /** The part after the resource has left its initial state. */
    method PushConfig(env: Environ)
      requires Valid() && Agrees() && Started()
      modifies this
      ensures Valid() && old(history) <= history
      ensures Follows(env) && old(present && UpToDate()) ==> present && history == old(history) + VersionsPushing(old(Latest()), env.refused)
    {
      var applied := Granted(env, Members);           // ReconcileMapConfig
      if !applied { var _ := UpdateMapStatus(env, Failed); return; }
      var stored := UpdateMapStatus(env, Persisting);
      if !stored { return; }
      AwaitPersistence(env);
    }

    /** The part after the state Persisting was stored. */
    method AwaitPersistence(env: Environ)
      requires Valid() && Agrees() && Started()
      modifies this
      ensures Valid() && old(history) <= history
      ensures Follows(env) && old(present && UpToDate()) ==> present && history == old(history) + VersionsAwaiting(old(Latest()), env.refused)
    {
      var ok, persisted := ValidateMapConfigPersistence(env);
      if !ok { var _ := UpdateMapStatus(env, Failed); return; }
      if !persisted { var _ := UpdateMapStatus(env, Persisting); return; }
      Conclude(env);
    }

    /** The annotation, and Success whether or not it could be written. */
    method Conclude(env: Environ)
      requires Valid() && Agrees() && Started() && Shown(m.spec, validations)
      modifies this
      ensures Valid() && old(history) <= history
      ensures Follows(env) && old(present && UpToDate()) ==>
                present && history == old(history) + VersionsConcluding(old(Latest()), env.refused)
    {
      UpdateLastSuccessfulConfiguration(env);
      var _ := UpdateMapStatus(env, Success);
    }

    /** Whatever the environment does, every stored version stays Valid; in a cooperative one
        the versions stored are those of Versions, which end with what Reconciled says. */
    method Reconcile(env: Environ)
      requires Valid()
      modifies this
      ensures Valid() && old(history) <= history
      ensures Follows(env) && old(present) ==>
                && present && history == old(history) + Versions(old(Latest()), env.refused)
                && Latest() == Reconciled(old(Latest()), env.refused)
    {
      EndsReconciled(Latest(), env);
      var ok := Get(env);
      if !ok { return; }
      ReconcileCopy(env);
    }

    method ReconcileCopy(env: Environ)
      requires Valid() && Faithful()
      modifies this
      ensures Valid() && old(history) <= history
      ensures Follows(env) && old(present && UpToDate()) ==> present && history == old(history) + Versions(old(m), env.refused)
    {
      var ok := AddFinalizer(env);
      if !ok { var _ := UpdateMapStatus(env, Failed); return; }
      ReconcileHeld(env);
    }

    /** The part after the finalizer was added. */
    method ReconcileHeld(env: Environ)
      requires Valid() && Faithful()
      modifies this
      ensures Valid() && old(history) <= history
      ensures Follows(env) && old(present && UpToDate()) ==>
                present && history == old(history) + if old(m).deleting then VersionsDeleting(old(m), env.refused)
                                                     else VersionsExisting(old(m), env.refused)
    {
      if m.deleting {
        ReconcileDeleted(env);
        return;
      }
      ReconcileExisting(env);
    }

    method ReconcileExisting(env: Environ)
      requires Valid() && Faithful()
      modifies this
      ensures Valid() && old(history) <= history
      ensures Follows(env) && old(present && UpToDate()) ==>
                present && history == old(history) + VersionsExisting(old(Latest()), env.refused)
    {
      var valid := Granted(env, Cluster);             // the cluster is running and accepts the spec
      if !valid || !Admitted(m, m.spec) { var _ := UpdateMapStatus(env, Failed); return; }
      if m.lastSuccessful == Some(m.spec) { var _ := UpdateMapStatus(env, Success); return; }
      ApplyConfig(env);
    }
  }

  /** Over every run, every version ever stored is Retained: so EntryIsRetained holds of
      every configuration generated from any of them. */
  method Run(name: string, spec: MapSpec, reconciles: nat) returns (r: MapReconciler)
    ensures fresh(r) && r.Valid()
    ensures forall k :: 0 <= k < |r.history| ==> Retained(r.history[k])
  {
    r := new MapReconciler(name, spec);
    for i := 0 to reconciles
      invariant fresh(r) && r.Valid()
    {
      r.Interfere(Whatever);
      r.Reconcile(Whatever);
    }
  }

  /** A new map whose cluster has not regenerated its configuration goes into the next one, and
      is a Success with annotation as soon as that is there. */
  method SuccessAfterRegeneration(name: string, spec: MapSpec) returns (r: MapReconciler, waiting: MapResource)
    ensures fresh(r) && r.Valid() && r.present && !r.Latest().deleting
    ensures waiting in r.history && waiting.spec == spec && waiting.state != Success && ChosenOf([waiting]) == [waiting]
    ensures r.Latest().state == Success && r.Latest().spec == spec && r.Latest().lastSuccessful == Some(spec) && r.Latest().finalizer
  {
    r := AwaitRegeneration(name, spec);
    waiting := r.history[|r.history| - 1];
    assert ChosenOf([waiting][..0]) == [];
    ghost var k := |r.history| - 1;
    r.Reconcile(Cooperative({}));
    assert r.history[k] == waiting;
  }

  method AwaitRegeneration(name: string, spec: MapSpec) returns (r: MapReconciler)
    ensures fresh(r) && r.Valid() && r.present
    ensures r.Latest() == MapResource(name, spec, Persisting, None, false, true)
  {
    r := new MapReconciler(name, spec);
    r.Reconcile(Cooperative({Regeneration}));
  }

  /** A map that is deleted loses its finalizer in the next reconcile, and its entry. */
  method LetGoAfterDeletion(r: MapReconciler)
    requires r.Valid() && r.present && r.Latest().deleting
    modifies r
    ensures r.Valid() && !r.Latest().finalizer && ChosenOf([r.Latest()]) == []
  {
    r.Reconcile(Cooperative({}));
    assert ChosenOf([r.Latest()][..0]) == [];
  }

  /** A run to Success without annotation: writing the annotation fails, and Success is
      stored all the same. */
  method SuccessWithoutAnnotation(name: string, spec: MapSpec) returns (r: MapReconciler)
    ensures fresh(r) && r.Valid() && r.present && !r.Latest().deleting
    ensures r.Latest().state == Success && r.Latest().spec == spec && r.Latest().lastSuccessful.None?
  {
    r := new MapReconciler(name, spec);
    r.Reconcile(Cooperative({Annotation}));
  }

  /** A Success version with its entry in the configuration, and a Failed one of the same
      spec without. */
  ghost predicate DropsOut(create: Creator, success: MapResource, failed: MapResource) {
    && success.state == Success && failed.state == Failed && failed.spec == success.spec
    && SectionOf(create, ChosenOf([success])) == OnlyEntry(create, success)
    && SectionOf(create, ChosenOf([failed])) == Some(map[])
  }

  lemma FailedDropsOut(create: Creator, success: MapResource, failed: MapResource)
    requires success.state == Success && failed.state == Failed && failed.lastSuccessful.None? && failed.spec == success.spec
    ensures DropsOut(create, success, failed)
  {
    SectionOfSingle(create, success);
    SectionOfSingle(create, failed);
  }

  /** The run in which a map that was a Success drops out of the configuration: it has no
      annotation, and then the cluster is not running. */
  method DroppedAfterSuccess(name: string, spec: MapSpec, create: Creator) returns (r: MapReconciler, succeeded: nat)
    ensures fresh(r) && r.Valid() && succeeded < |r.history| - 1
    ensures r.Latest().spec == spec && DropsOut(create, r.history[succeeded], r.Latest())
  {
    r := SuccessWithoutAnnotation(name, spec);
    succeeded := |r.history| - 1;
    ghost var success := r.Latest();
    FailsWithoutCluster(r);
    FailedDropsOut(create, success, r.Latest());
  }

  /** A reconcile while the cluster is not running. */
  method FailsWithoutCluster(r: MapReconciler)
    requires r.Valid() && r.present && !r.Latest().deleting && r.Latest().state != Failed
    modifies r
    ensures r.Valid() && old(r.history) < r.history
    ensures r.Latest() == old(r.Latest()).(state := Failed, finalizer := true)
  {
    r.Reconcile(Cooperative({Cluster}));
    assert r.Latest().state == Failed;
  }
}
