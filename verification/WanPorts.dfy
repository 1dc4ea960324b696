/** The ports of WAN replication: the validation that rejects overlapping ports, and the
    container ports generated from the same specification. */
module WanPorts {
  import opened Wrappers

  /** One entry of spec.advancedNetwork.wan. */
  datatype WanPort = WanPort(port: nat, count: nat)

  const CLIENT_PORT := 5701
  const MEMBER_PORT := 5702
  const REST_PORT := 8081
  const WAN_DEFAULT_PORT := 5710

  const UINT_LIMIT := 0x1_0000_0000_0000_0000
  const INT32_LIMIT := 0x8000_0000

  /** Sums of unsigned integers wrap around. */
  function UintSum(x: nat, y: nat): nat {
    (x + y) % UINT_LIMIT
  }

  /** Conversion to a signed 32-bit integer keeps the low bits. */
  function Int32(x: nat): int {
    var low := x % (2 * INT32_LIMIT);
    if low < INT32_LIMIT then low else low - 2 * INT32_LIMIT
  }

  /** From min up to but not including max. */
  datatype PortRange = PortRange(min: nat, max: nat)

  function RangeOf(w: WanPort): PortRange {
    PortRange(w.port, UintSum(w.port, w.count))
  }

  predicate Within(x: int, r: PortRange) {
    r.min <= x < r.max
  }

  // ---------- The validation ----------

  function RangesOf(ws: seq<WanPort>): seq<PortRange> {
    if ws == [] then [] else RangesOf(ws[..|ws| - 1]) + [RangeOf(ws[|ws| - 1])]
  }

  /** What ranges are sorted by. */
  function Start(r: PortRange): int {
    r.min
  }

  predicate Touching(order: seq<PortRange>, i: nat)
    requires 0 < i < |order|
  {
    order[i - 1].max <= order[i].min
  }

  /** The scan over the sorted ranges. */
  method OverlapWithEachOther(order: seq<PortRange>) returns (overlap: bool)
    ensures overlap <==> exists i :: 0 < i < |order| && !Touching(order, i)
  {
    overlap := false;
    var i := 1;
    while i < |order|
      invariant 1 <= i && (i <= |order| || |order| == 0)
      invariant overlap <==> exists k :: 0 < k < i && k < |order| && !Touching(order, k)
    {
      assert Touching(order, i) <==> order[i - 1].max <= order[i].min;
      if order[i - 1].max > order[i].min { overlap := true; }
      i := i + 1;
    }
  }

  predicate Reserved(x: int) {
    x == CLIENT_PORT || x == MEMBER_PORT || x == REST_PORT
  }

  predicate CoversReserved(r: PortRange) {
    Within(MEMBER_PORT, r) || Within(CLIENT_PORT, r) || Within(REST_PORT, r)
  }

  method OverlapWithOtherSockets(ws: seq<WanPort>) returns (overlap: bool)
    ensures overlap <==> exists i :: 0 <= i < |ws| && CoversReserved(RangeOf(ws[i]))
  {
    overlap := false;
    for i := 0 to |ws|
      invariant overlap <==> exists k :: 0 <= k < i && CoversReserved(RangeOf(ws[k]))
    {
      var min, max := ws[i].port, UintSum(ws[i].port, ws[i].count);
      if (MEMBER_PORT >= min && MEMBER_PORT < max) || (CLIENT_PORT >= min && CLIENT_PORT < max) ||
         (REST_PORT >= min && REST_PORT < max) {
        overlap := true;
      }
    }
  }

  // ---------- The container ports ----------

  /** The loop counts up to the signed form of an unsigned number. */
  function Iterations(count: nat): nat {
    if count < UINT_LIMIT / 2 then count else 0
  }

  function PortsOfEntry(w: WanPort, n: nat): seq<int> {
    if n == 0 then [] else PortsOfEntry(w, n - 1) + [Int32(w.port + n - 1)]
  }

  function PortsOfAll(ws: seq<WanPort>): seq<int> {
    if ws == [] then []
    else PortsOfAll(ws[..|ws| - 1]) + PortsOfEntry(ws[|ws| - 1], Iterations(ws[|ws| - 1].count))
  }

  function ContainerPorts(ws: seq<WanPort>): seq<int> {
    [CLIENT_PORT, MEMBER_PORT, REST_PORT] + if ws == [] then [WAN_DEFAULT_PORT] else PortsOfAll(ws)
  }

  method HazelcastContainerWanRepPorts(ws: seq<WanPort>) returns (c: seq<int>)
    ensures c == if ws == [] then [WAN_DEFAULT_PORT] else PortsOfAll(ws)
  {
    if |ws| == 0 { return [WAN_DEFAULT_PORT]; }
    c := [];
    for j := 0 to |ws|
      invariant c == PortsOfAll(ws[..j])
    {
      ghost var before := c;
      for i := 0 to Iterations(ws[j].count)
        invariant c == before + PortsOfEntry(ws[j], i)
      {
        c := c + [Int32(ws[j].port + i)];
      }
      assert ws[..j + 1][..j] == ws[..j];
    }
    assert ws[..|ws|] == ws;
  }

  method HazelcastContainerPorts(ws: seq<WanPort>) returns (ports: seq<int>)
    ensures ports == ContainerPorts(ws)
  {
    var wan := HazelcastContainerWanRepPorts(ws);
    ports := [CLIENT_PORT, MEMBER_PORT, REST_PORT] + wan;
  }

  /** The largest number of ports that is opened at all is the largest signed one. */
  lemma HugeCountOpensNothing(w: WanPort)
    ensures PortsOfAll([w]) == [] <==> w.count == 0 || w.count >= 0x8000_0000_0000_0000
  {
    assert [w][..0] == [];
    if Iterations(w.count) > 0 { assert |PortsOfEntry(w, Iterations(w.count))| > 0; }
  }

  // ---------- Ports and ranges ----------

  /** All ports fit 32 bits, so that no arithmetic wraps around and no two ports are
      converted to the same one. */
  predicate NoWraparound(ws: seq<WanPort>) {
    forall i :: 0 <= i < |ws| ==> ws[i].port + ws[i].count <= 2 * INT32_LIMIT
  }

  predicate IsInt32(x: int) {
    -INT32_LIMIT <= x < INT32_LIMIT
  }

  /** The unsigned number that is converted to x. */
  function Unsigned(x: int): int {
    if x < 0 then x + 2 * INT32_LIMIT else x
  }

  /** How many of the ranges contain x. */
  function Covering(rs: seq<PortRange>, x: int): nat {
    if rs == [] then 0 else Covering(rs[..|rs| - 1], x) + if Within(x, rs[|rs| - 1]) then 1 else 0
  }

  /** How often x occurs. */
  function Count(s: seq<int>, x: int): nat {
    if s == [] then 0 else Count(s[..|s| - 1], x) + if s[|s| - 1] == x then 1 else 0
  }

  lemma {:induction false} CountOfConcat(a: seq<int>, b: seq<int>, x: int)
    ensures Count(a + b, x) == Count(a, x) + Count(b, x)
    decreases |b|
  {
    if b == [] {
      assert a + b == a;
    } else {
      assert (a + b)[..|a + b| - 1] == a + b[..|b| - 1];
      CountOfConcat(a, b[..|b| - 1], x);
    }
  }

  lemma {:induction false} ConversionIsInjective(x: nat, y: int)
    requires x < 2 * INT32_LIMIT
    ensures Int32(x) == y <==> IsInt32(y) && Unsigned(y) == x
  {
  }

  lemma {:induction false} SmallSumsStay(x: nat, y: nat)
    requires x + y <= 2 * INT32_LIMIT
    ensures UintSum(x, y) == x + y
  {
  }

  lemma {:induction false} EntryPortsCount(w: WanPort, n: nat, x: int)
    requires n <= w.count && w.port + w.count <= 2 * INT32_LIMIT
    ensures Count(PortsOfEntry(w, n), x) == if IsInt32(x) && w.port <= Unsigned(x) < w.port + n then 1 else 0
  {
    if n > 0 {
      EntryPortsCount(w, n - 1, x);
      ConversionIsInjective(w.port + n - 1, x);
      var ports := PortsOfEntry(w, n);
      assert ports[..|ports| - 1] == PortsOfEntry(w, n - 1);
    }
  }

  /** A port occurs among the generated ones as often as ranges contain it. */
  lemma {:induction false} PortsCount(ws: seq<WanPort>, x: int)
    requires NoWraparound(ws)
    ensures Count(PortsOfAll(ws), x) == if IsInt32(x) then Covering(RangesOf(ws), Unsigned(x)) else 0
  {
    if ws != [] {
      var n := |ws| - 1;
      PortsCount(ws[..n], x);
      EntryPortsCount(ws[n], ws[n].count, x);
      CountOfConcat(PortsOfAll(ws[..n]), PortsOfEntry(ws[n], ws[n].count), x);
      SmallSumsStay(ws[n].port, ws[n].count);
      var ranges := RangesOf(ws);
      assert ranges[..|ranges| - 1] == RangesOf(ws[..n]);
    }
  }

  lemma {:induction false} RangesLength(ws: seq<WanPort>)
    ensures |RangesOf(ws)| == |ws| && forall i :: 0 <= i < |ws| ==> RangesOf(ws)[i] == RangeOf(ws[i])
  {
    if ws != [] { RangesLength(ws[..|ws| - 1]); }
  }

  lemma {:induction false} CoveringRemoved(rs: seq<PortRange>, i: nat, x: int)
    requires i < |rs|
    ensures Covering(rs, x) == Covering(rs[..i] + rs[i + 1..], x) + if Within(x, rs[i]) then 1 else 0
    decreases |rs|
  {
    var n := |rs| - 1;
    if i == n {
      assert rs[..i] + rs[i + 1..] == rs[..n];
    } else {
      CoveringRemoved(rs[..n], i, x);
      assert (rs[..i] + rs[i + 1..])[..n - 1] == rs[..n][..i] + rs[..n][i + 1..];
    }
  }

  lemma {:induction false} RestOfPermutation(a: seq<PortRange>, b: seq<PortRange>, i: nat)
    requires multiset(a) == multiset(b) && a != [] && i < |b| && b[i] == a[|a| - 1]
    ensures multiset(a[..|a| - 1]) == multiset(b[..i] + b[i + 1..])
  {
    var n := |a| - 1;
    assert a == a[..n] + [a[n]];
    assert b == b[..i] + [b[i]] + b[i + 1..];
    assert multiset(a[..n]) == multiset(a) - multiset{a[n]};
    assert multiset(b[..i] + b[i + 1..]) == multiset(b) - multiset{b[i]};
  }

  /** Coverage does not depend on the order of the ranges. */
  lemma {:induction false} CoveringOfPermutation(a: seq<PortRange>, b: seq<PortRange>, x: int)
    requires multiset(a) == multiset(b)
    ensures Covering(a, x) == Covering(b, x)
    decreases |a|
  {
    if a == [] {
      assert |multiset(b)| == 0;
    } else {
      var n := |a| - 1;
      assert a[n] in multiset(b);
      var i :| 0 <= i < |b| && b[i] == a[n];
      RestOfPermutation(a, b, i);
      CoveringOfPermutation(a[..n], b[..i] + b[i + 1..], x);
      CoveringRemoved(b, i, x);
    }
  }

  ghost predicate Proper(rs: seq<PortRange>) {
    forall i :: 0 <= i < |rs| ==> rs[i].min <= rs[i].max
  }

  /** In a sequence of touching ranges every range ends before the last one starts. */
  lemma {:induction false} TouchingChain(order: seq<PortRange>, x: int)
    requires Proper(order) && forall i :: 0 < i < |order| ==> Touching(order, i)
    ensures Covering(order, x) <= 1
    ensures order != [] && x >= order[|order| - 1].max ==> Covering(order, x) == 0
  {
    if order != [] {
      var n := |order| - 1;
      assert forall i :: 0 < i < n ==> Touching(order[..n], i) == Touching(order, i);
      TouchingChain(order[..n], x);
      if n > 0 { assert Touching(order, n); }
    }
  }

  lemma {:induction false} CoveredTwice(rs: seq<PortRange>, i: nat, x: int)
    requires 0 < i < |rs| && Within(x, rs[i - 1]) && Within(x, rs[i])
    ensures Covering(rs, x) >= 2
  {
    CoveringRemoved(rs, i, x);
    var rest := rs[..i] + rs[i + 1..];
    CoveringRemoved(rest, i - 1, x);
  }

  // ---------- Validation against generation ----------

  lemma {:induction false} CountPositive(s: seq<int>, x: int)
    ensures Count(s, x) > 0 <==> x in s
  {
    if s != [] {
      CountPositive(s[..|s| - 1], x);
      assert s == s[..|s| - 1] + [s[|s| - 1]];
    }
  }

  lemma {:induction false} DistinctByCount(s: seq<int>)
    ensures NoDuplicates(s) <==> forall x :: Count(s, x) <= 1
  {
    if s != [] {
      var n := |s| - 1;
      DistinctByCount(s[..n]);
      CountPositive(s[..n], s[n]);
      if NoDuplicates(s) {
        assert forall i :: 0 <= i < n ==> s[..n][i] == s[i] && s[i] != s[n];
        forall x ensures Count(s, x) <= 1 {
          assert Count(s[..n], x) <= 1 && Count(s[..n], s[n]) == 0;
        }
      } else if NoDuplicates(s[..n]) {
        assert s[n] in s[..n];
        assert Count(s, s[n]) > 1;
      } else {
        var x :| Count(s[..n], x) > 1;
        assert Count(s, x) > 1;
      }
    }
  }

  predicate Accepted(ws: seq<WanPort>, order: seq<PortRange>) {
    && (forall i :: 0 < i < |order| ==> Touching(order, i))
    && (forall i :: 0 <= i < |ws| ==> !CoversReserved(RangeOf(ws[i])))
  }

  /** validateWANPorts, for whatever order the sort gives to ranges with the same start. */
  method ValidateWANPorts(ws: seq<WanPort>, order: seq<PortRange>) returns (ok: bool)
    requires SortedForm(order, RangesOf(ws), Start)
    ensures ok <==> Accepted(ws, order)
  {
    var a := OverlapWithEachOther(order);
    var b := OverlapWithOtherSockets(ws);
    ok := !a && !b;
  }

  lemma {:induction false} CoveringSome(rs: seq<PortRange>, x: int)
    ensures Covering(rs, x) > 0 <==> exists i :: 0 <= i < |rs| && Within(x, rs[i])
  {
    if rs != [] { CoveringSome(rs[..|rs| - 1], x); }
  }

  lemma {:induction false} ReservedCoverage(ws: seq<WanPort>, x: int)
    requires Reserved(x)
    requires forall i :: 0 <= i < |ws| ==> !CoversReserved(RangeOf(ws[i]))
    ensures Covering(RangesOf(ws), x) == 0
  {
    RangesLength(ws);
    CoveringSome(RangesOf(ws), x);
  }

  /** How often a port occurs among all container ports. */
  lemma {:induction false} ContainerPortsCount(ws: seq<WanPort>, x: int)
    requires NoWraparound(ws) && ws != []
    ensures Count(ContainerPorts(ws), x) ==
            (if IsInt32(x) then Covering(RangesOf(ws), Unsigned(x)) else 0) + if Reserved(x) then 1 else 0
  {
    PortsCount(ws, x);
    var fixed := [CLIENT_PORT, MEMBER_PORT, REST_PORT];
    CountOfConcat(fixed, PortsOfAll(ws), x);
    var client := [CLIENT_PORT];
    CountOfConcat(client, [MEMBER_PORT, REST_PORT], x);
    CountOfConcat([MEMBER_PORT], [REST_PORT], x);
    assert fixed == client + [MEMBER_PORT, REST_PORT] && [MEMBER_PORT] + [REST_PORT] == [MEMBER_PORT, REST_PORT];
    assert Count(client, x) + Count([MEMBER_PORT], x) + Count([REST_PORT], x) == if Reserved(x) then 1 else 0;
  }

  /** An accepted specification never yields the same container port twice. */
  lemma {:induction false} AcceptedPortsAreDistinct(ws: seq<WanPort>, order: seq<PortRange>)
    requires NoWraparound(ws) && SortedForm(order, RangesOf(ws), Start) && Accepted(ws, order)
    ensures NoDuplicates(ContainerPorts(ws))
  {
    if ws != [] {
      RangesProper(ws, order);
      forall x ensures Count(ContainerPorts(ws), x) <= 1 {
        ContainerPortsCount(ws, x);
        TouchingChain(order, Unsigned(x));
        CoveringOfPermutation(order, RangesOf(ws), Unsigned(x));
        if Reserved(x) { ReservedCoverage(ws, x); }
      }
      DistinctByCount(ContainerPorts(ws));
    }
  }

  /** Every sorted range is that of an entry. */
  lemma {:induction false} EntryOfRange(ws: seq<WanPort>, order: seq<PortRange>, i: nat) returns (k: nat)
    requires NoWraparound(ws) && multiset(order) == multiset(RangesOf(ws)) && i < |order|
    ensures k < |ws| && order[i] == RangeOf(ws[k]) == PortRange(ws[k].port, ws[k].port + ws[k].count)
  {
    RangesLength(ws);
    assert order[i] in multiset(RangesOf(ws));
    k :| 0 <= k < |ws| && RangesOf(ws)[k] == order[i];
    SmallSumsStay(ws[k].port, ws[k].count);
  }

  /** The range of every entry is among the sorted ones. */
  lemma {:induction false} RangeOfEntry(ws: seq<WanPort>, order: seq<PortRange>, k: nat) returns (i: nat)
    requires NoWraparound(ws) && multiset(order) == multiset(RangesOf(ws)) && k < |ws|
    ensures i < |order| && order[i] == RangeOf(ws[k]) == PortRange(ws[k].port, ws[k].port + ws[k].count)
  {
    RangesLength(ws);
    assert RangesOf(ws)[k] in multiset(order);
    i :| 0 <= i < |order| && order[i] == RangesOf(ws)[k];
    SmallSumsStay(ws[k].port, ws[k].count);
  }

  lemma {:induction false} RangesProper(ws: seq<WanPort>, order: seq<PortRange>)
    requires NoWraparound(ws) && multiset(order) == multiset(RangesOf(ws))
    ensures Proper(order)
  {
    forall i | 0 <= i < |order| ensures order[i].min <= order[i].max {
      var k := EntryOfRange(ws, order, i);
    }
  }

  /** An entry without ports that starts within the range of another one. */
  predicate Stray(ws: seq<WanPort>) {
    exists i, j :: 0 <= i < |ws| && 0 <= j < |ws| && StrayIn(ws[i], ws[j])
  }

  predicate StrayIn(v: WanPort, w: WanPort) {
    v.count == 0 && w.port <= v.port < w.port + w.count
  }

  /** What a rejection points at: a port that is generated twice, or a stray entry. */
  lemma {:induction false} RejectionHasReason(ws: seq<WanPort>, order: seq<PortRange>)
    requires NoWraparound(ws) && SortedForm(order, RangesOf(ws), Start) && !Accepted(ws, order)
    ensures !NoDuplicates(ContainerPorts(ws)) || Stray(ws)
  {
    if i :| 0 <= i < |ws| && CoversReserved(RangeOf(ws[i])) {
      ReservedHasReason(ws, i);
    } else {
      var i :| 0 < i < |order| && !Touching(order, i);
      OverlapHasReason(ws, order, i);
    }
  }

  lemma {:induction false} ReservedHasReason(ws: seq<WanPort>, i: nat)
    requires NoWraparound(ws) && i < |ws| && CoversReserved(RangeOf(ws[i]))
    ensures !NoDuplicates(ContainerPorts(ws))
  {
    var r := RangeOf(ws[i]);
    var x := if Within(MEMBER_PORT, r) then MEMBER_PORT else if Within(CLIENT_PORT, r) then CLIENT_PORT else REST_PORT;
    RangesLength(ws);
    assert Within(x, RangesOf(ws)[i]);
    CoveringSome(RangesOf(ws), x);
    CountedTwice(ws, x);
  }

  lemma {:induction false} OverlapHasReason(ws: seq<WanPort>, order: seq<PortRange>, i: nat)
    requires NoWraparound(ws) && SortedForm(order, RangesOf(ws), Start) && 0 < i < |order| && !Touching(order, i)
    ensures !NoDuplicates(ContainerPorts(ws)) || Stray(ws)
  {
    assert Start(order[i - 1]) <= Start(order[i]);
    var v := EntryOfRange(ws, order, i);
    var w := EntryOfRange(ws, order, i - 1);
    if ws[v].count == 0 {
      assert StrayIn(ws[v], ws[w]);
    } else {
      CoveredTwice(order, i, order[i].min);
      CoveringOfPermutation(order, RangesOf(ws), order[i].min);
      CountedTwice(ws, order[i].min);
    }
  }

  /** A port in two ranges, or in one and reserved, is generated twice. */
  lemma {:induction false} CountedTwice(ws: seq<WanPort>, x: nat)
    requires NoWraparound(ws) && ws != [] && x < 2 * INT32_LIMIT
    requires Covering(RangesOf(ws), x) + (if Reserved(x) then 1 else 0) > 1
    ensures !NoDuplicates(ContainerPorts(ws))
  {
    ConversionIsInjective(x, Int32(x));
    ContainerPortsCount(ws, Int32(x));
    DistinctByCount(ContainerPorts(ws));
  }

  /** A range that starts within an earlier one of a sorted order is rejected. */
  lemma {:induction false} WithinEarlierIsRejected(ws: seq<WanPort>, order: seq<PortRange>, a: nat, b: nat)
    requires NoWraparound(ws) && SortedForm(order, RangesOf(ws), Start)
    requires a < b < |order| && order[b].min < order[a].max
    ensures !Accepted(ws, order)
  {
    RangesProper(ws, order);
    if forall i :: 0 < i < |order| ==> Touching(order, i) { ChainEnds(order, a, b); }
  }

  lemma {:induction false} ChainEnds(order: seq<PortRange>, a: nat, b: nat)
    requires Proper(order) && a < b < |order| && forall i :: 0 < i < |order| ==> Touching(order, i)
    ensures order[a].max <= order[b].min
    decreases b
  {
    assert Touching(order, b);
    if a + 1 < b { ChainEnds(order, a, b - 1); }
  }

  /** Orders in which ranges without ports come after the others of the same start. */
  function Rank(r: PortRange): int {
    2 * r.min + if r.min == r.max then 1 else 0
  }

  lemma {:induction false} SortByRank(ranges: seq<PortRange>) returns (order: seq<PortRange>)
    ensures SortedForm(order, ranges, Rank)
    decreases |ranges|
  {
    if ranges == [] {
      order := [];
    } else {
      var n := |ranges| - 1;
      var rest := SortByRank(ranges[..n]);
      assert ranges == ranges[..n] + [ranges[n]];
      order := InsertByRank(rest, ranges[n]);
    }
  }

  lemma {:induction false} InsertByRank(rest: seq<PortRange>, r: PortRange) returns (order: seq<PortRange>)
    requires SortedForm(rest, rest, Rank)
    ensures SortedForm(order, rest + [r], Rank)
    decreases |rest|
  {
    var n := |rest| - 1;
    if rest == [] || Rank(rest[n]) <= Rank(r) {
      order := rest + [r];
      AppendSorted(rest, r);
    } else {
      var last := rest[n];
      assert rest == rest[..n] + [last];
      var before := InsertByRank(rest[..n], r);
      forall q | q in before ensures Rank(q) <= Rank(last) {
        assert q in multiset(before) && q in rest[..n] + [r];
      }
      AppendSorted(before, last);
      order := before + [last];
      SwapLast(rest[..n], before, last, r);
    }
  }

  lemma {:induction false} SwapLast(s: seq<PortRange>, before: seq<PortRange>, last: PortRange, r: PortRange)
    requires multiset(before) == multiset(s + [r])
    ensures multiset(before + [last]) == multiset(s + [last] + [r])
  {
  }

  lemma {:induction false} AppendSorted(s: seq<PortRange>, r: PortRange)
    requires forall i, j :: 0 <= i < j < |s| ==> Rank(s[i]) <= Rank(s[j])
    requires s == [] || Rank(s[|s| - 1]) <= Rank(r) || forall q :: q in s ==> Rank(q) <= Rank(r)
    ensures forall i, j :: 0 <= i < j < |s + [r]| ==> Rank((s + [r])[i]) <= Rank((s + [r])[j])
  {
    forall i | 0 <= i < |s| ensures Rank(s[i]) <= Rank(r) {
      assert s[i] in s;
      if i < |s| - 1 { assert Rank(s[i]) <= Rank(s[|s| - 1]); }
    }
  }

  lemma {:induction false} RankSortsByStart(order: seq<PortRange>, ranges: seq<PortRange>)
    requires SortedForm(order, ranges, Rank)
    ensures SortedForm(order, ranges, Start)
  {
    forall i, j | 0 <= i < j < |order| ensures Start(order[i]) <= Start(order[j]) {
      assert Rank(order[i]) <= Rank(order[j]);
    }
  }

  /** A stray entry is rejected in some order of ties, and in every one when it does not
      start where the other range starts. */
  lemma {:induction false} StrayIsRejected(ws: seq<WanPort>) returns (order: seq<PortRange>)
    requires NoWraparound(ws) && Stray(ws)
    ensures SortedForm(order, RangesOf(ws), Start) && !Accepted(ws, order)
  {
    order := SortByRank(RangesOf(ws));
    RankSortsByStart(order, RangesOf(ws));
    var i, j :| 0 <= i < |ws| && 0 <= j < |ws| && StrayIn(ws[i], ws[j]);
    var a := RangeOfEntry(ws, order, j);
    var b := RangeOfEntry(ws, order, i);
    assert Rank(order[a]) < Rank(order[b]);
    WithinEarlierIsRejected(ws, order, a, b);
  }

  lemma {:induction false} StrayInsideIsAlwaysRejected(ws: seq<WanPort>, order: seq<PortRange>, i: nat, j: nat)
    requires NoWraparound(ws) && SortedForm(order, RangesOf(ws), Start)
    requires i < |ws| && j < |ws| && StrayIn(ws[i], ws[j]) && ws[j].port < ws[i].port
    ensures !Accepted(ws, order)
  {
    var a := RangeOfEntry(ws, order, j);
    var b := RangeOfEntry(ws, order, i);
    assert Start(order[a]) < Start(order[b]);
    WithinEarlierIsRejected(ws, order, a, b);
  }

  /** The validation is exact, that is, in every order of ties it accepts if and only if the
      generated container ports are pairwise distinct, if and only if distinct ports come
      without a stray entry. */
  lemma {:induction false} ValidationIsExact(ws: seq<WanPort>)
    requires NoWraparound(ws)
    ensures (forall order :: SortedForm(order, RangesOf(ws), Start) ==>
               (Accepted(ws, order) <==> NoDuplicates(ContainerPorts(ws))))
            <==> (NoDuplicates(ContainerPorts(ws)) ==> !Stray(ws))
  {
    if NoDuplicates(ContainerPorts(ws)) && Stray(ws) {
      var order := StrayIsRejected(ws);
    } else {
      forall order | SortedForm(order, RangesOf(ws), Start)
        ensures Accepted(ws, order) <==> NoDuplicates(ContainerPorts(ws))
      {
        if Accepted(ws, order) {
          AcceptedPortsAreDistinct(ws, order);
        } else {
          RejectionHasReason(ws, order);
        }
      }
    }
  }

  // ---------- Outside these conditions ----------

  lemma {:induction false} PortOfSingle(w: WanPort)
    requires w.count == 1
    ensures PortsOfAll([w]) == [Int32(w.port)] && PortsOfAll([w, w]) == [Int32(w.port), Int32(w.port)]
  {
    assert [w][..0] == [] && [w, w][..1] == [w];
    assert PortsOfEntry(w, 1) == PortsOfEntry(w, 0) + [Int32(w.port)];
  }

  lemma {:induction false} RangesOfFew(v: WanPort, w: WanPort)
    ensures RangesOf([v]) == [RangeOf(v)] && RangesOf([v, w]) == [RangeOf(v), RangeOf(w)]
  {
    RangesLength([v]);
    RangesLength([v, w]);
  }

  /** With an empty entry the verdict depends on the order the sort gives to ties. */
  lemma {:induction false} EmptyEntryTies(port: nat)
    returns (ws: seq<WanPort>, one: seq<PortRange>, other: seq<PortRange>)
    requires REST_PORT < port < 2 * INT32_LIMIT
    ensures NoWraparound(ws) && NoDuplicates(ContainerPorts(ws)) && SortedForm(one, RangesOf(ws), Start) && SortedForm(other, RangesOf(ws), Start)
    ensures Accepted(ws, one) && !Accepted(ws, other)
  {
    var v, w := WanPort(port, 0), WanPort(port, 1);
    SmallSumsStay(port, 0);
    SmallSumsStay(port, 1);
    ws, one, other := [v, w], [RangeOf(v), RangeOf(w)], [RangeOf(w), RangeOf(v)];
    RangesOfFew(v, w);
    SortedTies(RangeOf(v), RangeOf(w));
    TieVerdicts(v, w, RangeOf(v), RangeOf(w));
    AcceptedPortsAreDistinct(ws, one);
  }

  lemma {:induction false} TieVerdicts(v: WanPort, w: WanPort, a: PortRange, b: PortRange)
    requires a == RangeOf(v) && b == RangeOf(w) && REST_PORT < a.min == a.max == b.min < b.max
    ensures Accepted([v, w], [a, b]) && !Accepted([v, w], [b, a])
  {
    assert forall i :: 0 <= i < 2 ==> [v, w][i] == v || [v, w][i] == w;
    assert !Touching([b, a], 1);
  }

  lemma {:induction false} SortedTies(a: PortRange, b: PortRange)
    requires a.min == b.min
    ensures SortedForm([a, b], [a, b], Start) && SortedForm([b, a], [a, b], Start)
  {
    assert multiset([b, a]) == multiset{b, a};
    assert multiset([a, b]) == multiset{a, b};
  }

  /** A port beyond 32 bits is accepted and generated as one that is taken. */
  lemma {:induction false} TruncatedPort() returns (ws: seq<WanPort>, order: seq<PortRange>)
    ensures SortedForm(order, RangesOf(ws), Start) && Accepted(ws, order)
    ensures (forall i :: 0 <= i < |ws| ==> ws[i].count > 0) && !NoDuplicates(ContainerPorts(ws))
  {
    var w := WanPort(2 * INT32_LIMIT + MEMBER_PORT, 1);
    ws, order := [w], [RangeOf(w)];
    RangesOfFew(w, w);
    PortOfSingle(w);
    assert Int32(w.port) == MEMBER_PORT;
    var ports := ContainerPorts(ws);
    assert ports[1] == ports[3];
  }

  /** A port and a count that fit signed 64-bit integers, as the API server accepts them,
      do not wrap an unsigned sum. */
  lemma {:induction false} ReceivableSumsDoNotWrap(x: nat, y: nat)
    requires x < UINT_LIMIT / 2 && y < UINT_LIMIT / 2
    ensures UintSum(x, y) == x + y
  {
  }

  /** When the end of a range wraps around, the same range twice is accepted: an input of the
      validator alone, larger than what the API server accepts. */
  lemma {:induction false} WrappedRange() returns (ws: seq<WanPort>, order: seq<PortRange>)
    ensures SortedForm(order, RangesOf(ws), Start) && Accepted(ws, order)
    ensures (forall i :: 0 <= i < |ws| ==> ws[i].count > 0) && !NoDuplicates(ContainerPorts(ws))
  {
    var w := WanPort(UINT_LIMIT - 1, 1);
    ws, order := [w, w], [RangeOf(w), RangeOf(w)];
    RangesOfFew(w, w);
    PortOfSingle(w);
    var ports := ContainerPorts(ws);
    assert ports[3] == ports[4];
  }
}
