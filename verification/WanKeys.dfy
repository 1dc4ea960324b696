/** The string codecs of WAN replication: the key a map has in a WAN status
    ("hz__map"), the name of its WAN configuration ("map-default") and the id of
    the publisher a WanReplication adds for it ("wan-hz__map"). */
module WanKeys {

  /** The separator "__" starts at position i. */
  predicate SepAt(s: string, i: int) {
    0 <= i && i + 1 < |s| && s[i] == '_' && s[i + 1] == '_'
  }

  /** The separator occurs somewhere in s. */
  ghost predicate HasSep(s: string) {
    exists i :: SepAt(s, i)
  }

  /** Position of the first separator at or after `from`, or -1. */
  function FindSep(s: string, from: nat): (i: int)
    ensures i == -1 || (from <= i && SepAt(s, i))
    ensures forall j :: from <= j && SepAt(s, j) ==> 0 <= i <= j
    decreases |s| - from
  {
    if |s| < from + 2 then -1
    else if SepAt(s, from) then from
    else FindSep(s, from + 1)
  }

  /** Leftmost, non-overlapping splitting at "__", as the library's Split does it. */
  function Split(s: string): (parts: seq<string>)
    ensures |parts| >= 1
    decreases |s|
  {
    var i := FindSep(s, 0);
    if i == -1 then [s] else [s[..i]] + Split(s[i + 2..])
  }

  function WanMapKey(hz: string, mapName: string): string {
    hz + "__" + mapName
  }

  /** The source indexes the second part, so a key without separator is not accepted. */
  function SplitWanMapKey(key: string): (string, string)
    requires FindSep(key, 0) != -1
  {
    var parts := Split(key);
    (parts[0], parts[1])
  }

  const WAN_SUFFIX := "-default"

  function WanName(mapName: string): string {
    mapName + WAN_SUFFIX
  }

  /** Strips the suffix when it is there and leaves other names alone. */
  function SplitWanName(name: string): string {
    var n := |name| - |WAN_SUFFIX|;
    if n >= 0 && name[n..] == WAN_SUFFIX then name[..n] else name
  }

  function PublisherId(wan: string, key: string): string {
    wan + "-" + key
  }

  /** The first separator of a key is the one WanMapKey put there. */
  lemma FirstSepOfKey(hz: string, mapName: string)
    requires '_' !in hz
    ensures FindSep(WanMapKey(hz, mapName), 0) == |hz|
  {
    var key := WanMapKey(hz, mapName);
    assert SepAt(key, |hz|);
    forall j | 0 <= j < |hz| ensures !SepAt(key, j) {
      assert key[j] == hz[j];
    }
  }

  /** For a cluster name without underscore, splitting a key gives the cluster name
      back always, and the map name back exactly when the map name has no "__". */
  lemma SplitKeyRoundTrip(hz: string, mapName: string)
    requires '_' !in hz
    ensures FindSep(WanMapKey(hz, mapName), 0) != -1
    ensures SplitWanMapKey(WanMapKey(hz, mapName)).0 == hz
    ensures SplitWanMapKey(WanMapKey(hz, mapName)).1 == mapName <==> !HasSep(mapName)
  {
    var key := WanMapKey(hz, mapName);
    FirstSepOfKey(hz, mapName);
    assert key[..|hz|] == hz && key[|hz| + 2..] == mapName;
    var i := FindSep(mapName, 0);
    assert Split(key) == [hz] + Split(mapName);
    if HasSep(mapName) {
      assert i >= 0 && Split(mapName)[0] == mapName[..i];
      assert |mapName[..i]| < |mapName|;
    }
  }

  /** That is, if and only if it has no two underscores in a row. */
  lemma SplitsExactlyIf(hz: string, mapName: string)
    requires '_' !in hz
    ensures FindSep(WanMapKey(hz, mapName), 0) != -1
    ensures SplitWanMapKey(WanMapKey(hz, mapName)) == (hz, mapName) <==>
              forall i :: 0 <= i <= |mapName| - 2 ==> mapName[i..][..2] != "__"
  {
    SplitKeyRoundTrip(hz, mapName);
    forall i | 0 <= i <= |mapName| - 2 ensures mapName[i..][..2] == "__" <==> SepAt(mapName, i) {
      assert mapName[i..][..2] == [mapName[i], mapName[i + 1]];
    }
  }

  /** The map name that splitting yields never contains a separator. */
  lemma SplitPartHasNoSep(key: string)
    requires FindSep(key, 0) != -1
    ensures !HasSep(SplitWanMapKey(key).1)
  {
    var rest := key[FindSep(key, 0) + 2..];
    var i := FindSep(rest, 0);
    var part := SplitWanMapKey(key).1;
    assert part == Split(rest)[0];
    assert forall j :: SepAt(part, j) ==> SepAt(rest, j);
  }

  /** Two keys of underscore-free clusters are equal only for the same map of the same cluster. */
  lemma WanMapKeyInjective(hz: string, mapName: string, hz': string, mapName': string)
    requires '_' !in hz && '_' !in hz'
    requires WanMapKey(hz, mapName) == WanMapKey(hz', mapName')
    ensures hz == hz' && mapName == mapName'
  {
    FirstSepOfKey(hz, mapName);
    FirstSepOfKey(hz', mapName');
    var key := WanMapKey(hz, mapName);
    assert hz == key[..|hz|] && hz' == key[..|hz|];
    assert mapName == key[|hz| + 2..] && mapName' == key[|hz| + 2..];
  }

  /** Stripping the suffix undoes WanName for every map name, so WanName is injective. */
  lemma WanNameRoundTrip(mapName: string)
    ensures SplitWanName(WanName(mapName)) == mapName
  {
    var name := WanName(mapName);
    assert name[|mapName|..] == WAN_SUFFIX && name[..|mapName|] == mapName;
  }

  /** Under one key, two WanReplications have the same publisher id only when they have the same name. */
  lemma PublisherIdInjective(wan: string, wan': string, key: string)
    requires PublisherId(wan, key) == PublisherId(wan', key)
    ensures wan == wan'
  {
    var id := PublisherId(wan, key);
    assert |wan| == |wan'|;
    assert wan == id[..|wan|] && wan' == id[..|wan|];
  }
}
