/** Merging the user's custom configuration with the generated one: nested maps of YAML
    values, merged section by section or, when the user may overwrite, recursively. */
module ConfigMerge {
  import opened Wrappers

  /** A YAML value: a map, or anything else. */
  datatype Value = Leaf(scalar: string) | Node(entries: map<string, Value>)

  type Config = map<string, Value>

  /** What deepMerge leaves in place of d when s is merged into it. */
  function Merge(d: Value, s: Value): Value
    decreases s
  {
    if !d.Node? || !s.Node? then s
    else
      Node(map k | k in d.entries.Keys + s.entries.Keys ::
        if k !in s.entries then d.entries[k]
        else if k !in d.entries then s.entries[k]
        else Merge(d.entries[k], s.entries[k]))
  }

  /** dst with the keys of src outside `todo` merged into it. */
  ghost predicate MergedSoFar(dst: Config, src: Config, todo: set<string>, r: Config) {
    && (forall k :: k in r <==> k in dst || (k in src && k !in todo))
    && (forall k :: k in r && (k !in src || k in todo) ==> k in dst && r[k] == dst[k])
    && (forall k :: k in r && k in src && k !in todo ==> r[k] == if k in dst then Merge(dst[k], src[k]) else src[k])
  }

  lemma MergedStep(dst: Config, src: Config, todo: set<string>, r: Config, k: string, v: Value)
    requires MergedSoFar(dst, src, todo, r) && todo <= src.Keys && k in todo
    requires v == if k in dst then Merge(dst[k], src[k]) else src[k]
    ensures MergedSoFar(dst, src, todo - {k}, r[k := v])
  {
  }

  lemma MergedAll(dst: Config, src: Config, r: Config)
    requires MergedSoFar(dst, src, {}, r)
    ensures Node(r) == Merge(Node(dst), Node(src))
  {
    assert r == Merge(Node(dst), Node(src)).entries;
  }

  method DeepMerge(dst: Config, src: Config) returns (r: Config)
    ensures Node(r) == Merge(Node(dst), Node(src))
    decreases Node(src)
  {
    r := dst;
    var todo := src.Keys;
    while todo != {}
      invariant todo <= src.Keys && MergedSoFar(dst, src, todo, r)
      decreases |todo|
    {
      var k :| k in todo;
      assert k in r <==> k in dst;
      var v := src[k];
      if k in r && src[k].Node? && r[k].Node? {
        var merged := DeepMerge(r[k].entries, src[k].entries);
        v := Node(merged);
      }
      MergedStep(dst, src, todo, r, k, v);
      r, todo := r[k := v], todo - {k};
    }
    MergedAll(dst, src, r);
  }

  // ---------- What is found at a path ----------

  function At(v: Value, p: seq<string>): Option<Value> {
    if p == [] then Some(v)
    else if v.Node? && p[0] in v.entries then At(v.entries[p[0]], p[1..])
    else None
  }

  /** Some proper prefix of p leads to a value that is not a map. */
  predicate LeafAbove(v: Value, p: seq<string>) {
    p != [] && (v.Leaf? || (p[0] in v.entries && LeafAbove(v.entries[p[0]], p[1..])))
  }

  lemma {:induction false} LeafAboveMeans(v: Value, p: seq<string>)
    ensures LeafAbove(v, p) <==> exists n :: 0 <= n < |p| && At(v, p[..n]).Some? && At(v, p[..n]).value.Leaf?
    decreases |p|
  {
    if p != [] {
      assert At(v, p[..0]) == Some(v);
      if v.Node? {
        forall n | 0 < n < |p| ensures At(v, p[..n]) == if p[0] in v.entries then At(v.entries[p[0]], p[1..][..n - 1]) else None {
          assert p[..n][1..] == p[1..][..n - 1];
        }
        if p[0] in v.entries {
          var v', p' := v.entries[p[0]], p[1..];
          LeafAboveMeans(v', p');
          if LeafAbove(v', p') {
            var n :| 0 <= n < |p'| && At(v', p'[..n]).Some? && At(v', p'[..n]).value.Leaf?;
            assert At(v, p[..n + 1]) == At(v', p'[..n]);
          }
        }
      }
    }
  }

  /** The whole effect of a merge, path by path: below a value of s that is not a map there
      is nothing; elsewhere what only one side has stays as it is, and what both have is merged. */
  lemma {:induction false} MergeAtPath(d: Value, s: Value, p: seq<string>)
    ensures At(Merge(d, s), p) ==
            if LeafAbove(s, p) then None
            else if At(s, p).None? then At(d, p)
            else if At(d, p).None? then At(s, p)
            else Some(Merge(At(d, p).value, At(s, p).value))
    decreases |p|
  {
    if p != [] && d.Node? && s.Node? && p[0] in d.entries && p[0] in s.entries {
      MergeAtPath(d.entries[p[0]], s.entries[p[0]], p[1..]);
    } else if p != [] && s.Node? && p[0] in s.entries {
      NothingBelowLeaf(s.entries[p[0]], p[1..]);
    }
  }

  lemma {:induction false} NothingBelowLeaf(v: Value, p: seq<string>)
    ensures LeafAbove(v, p) ==> At(v, p).None?
    decreases |p|
  {
    if p != [] && v.Node? && p[0] in v.entries { NothingBelowLeaf(v.entries[p[0]], p[1..]); }
  }

  /** Exactly these scalars are in the result: all of s, and those of d where s has nothing
      at the path and no value other than a map above it. */
  lemma ScalarsOfMerge(d: Value, s: Value, p: seq<string>, x: string)
    requires d.Node? && s.Node?
    ensures At(Merge(d, s), p) == Some(Leaf(x)) <==>
              || At(s, p) == Some(Leaf(x))
              || (At(d, p) == Some(Leaf(x)) && At(s, p).None? && !LeafAbove(s, p))
  {
    MergeAtPath(d, s, p);
    NothingBelowLeaf(s, p);
  }

  lemma {:induction false} MergeWithSelf(v: Value)
    ensures Merge(v, v) == v
  {
    if v.Node? {
      forall k | k in v.entries ensures Merge(v.entries[k], v.entries[k]) == v.entries[k] {
        MergeWithSelf(v.entries[k]);
      }
      assert Merge(v, v).entries == v.entries;
    }
  }

  /** Merging the same configuration again changes nothing. */
  lemma {:induction false} MergeIdempotent(d: Value, s: Value)
    ensures Merge(Merge(d, s), s) == Merge(d, s)
    decreases s
  {
    if d.Node? && s.Node? {
      var m := Merge(d, s);
      forall k | k in s.entries ensures Merge(m.entries[k], s.entries[k]) == m.entries[k] {
        if k in d.entries {
          MergeIdempotent(d.entries[k], s.entries[k]);
        } else {
          MergeWithSelf(s.entries[k]);
        }
      }
      assert Merge(m, s).entries == m.entries;
    } else {
      MergeWithSelf(s);
    }
  }

  // ---------- The two ways of merging ----------

  /** The sections of `generated` written over those of `custom`, one by one. */
  method ReplaceSections(custom: Config, generated: Config) returns (r: Config)
    ensures forall k :: k in r <==> k in generated || k in custom
    ensures forall k :: k in generated ==> r[k] == generated[k]
    ensures forall k :: k in custom && k !in generated ==> r[k] == custom[k]
  {
    r := custom;
    var todo := generated.Keys;
    while todo != {}
      invariant todo <= generated.Keys
      invariant forall k :: k in r <==> k in custom || (k in generated && k !in todo)
      invariant forall k :: k in generated && k !in todo ==> r[k] == generated[k]
      invariant forall k :: k in custom && k !in generated ==> r[k] == custom[k]
      decreases |todo|
    {
      var k :| k in todo;
      r, todo := r[k := generated[k]], todo - {k};
    }
  }

  /** With overwrite the custom configuration is merged into the generated one; without it
      every generated section appears as it is, and a custom section only if none of its
      name is generated. */
  method MergeConfig(custom: Config, generated: Config, overwrite: bool) returns (r: Config)
    ensures overwrite ==> Node(r) == Merge(Node(generated), Node(custom))
    ensures !overwrite ==> forall k :: k in r <==> k in generated || k in custom
    ensures !overwrite ==> forall k :: k in generated ==> r[k] == generated[k]
    ensures !overwrite ==> forall k :: k in custom && k !in generated ==> r[k] == custom[k]
  {
    if overwrite {
      r := DeepMerge(generated, custom);
    } else {
      r := ReplaceSections(custom, generated);
    }
  }

  type Properties = map<string, string>

  /** Default properties cannot be changed; all others of the user are kept. */
  method MergeProperties(defaults: Properties, input: Properties) returns (m: Properties)
    ensures forall k :: k in m <==> k in defaults || k in input
    ensures forall k :: k in defaults ==> m[k] == defaults[k]
    ensures forall k :: k in input && k !in defaults ==> m[k] == input[k]
  {
    m := defaults;
    var todo := input.Keys;
    while todo != {}
      invariant todo <= input.Keys
      invariant forall k :: k in m <==> k in defaults || (k in input && k !in todo)
      invariant forall k :: k in defaults ==> m[k] == defaults[k]
      invariant forall k :: k in input && k !in todo && k !in defaults ==> m[k] == input[k]
      decreases |todo|
    {
      var k :| k in todo;
      todo := todo - {k};
      if k !in m { m := m[k := input[k]]; }
    }
  }
}
