/** When the order in which Go visits the properties of a request schema matters.
*/
module SchemaOrders {
  import opened Text
  import opened SchemaParams

  /** Leaves that share a key are the same parameter. */
  ghost predicate Unambiguous(root: Schema) {
    forall a: Path, b: Path ::
      Leaf(root, a) && Leaf(root, b) && Key(a) == Key(b) ==> TopLeafAt(root, a) == TopLeafAt(root, b)
  }

  predicate Leaf(root: Schema, path: Path) {
    path != [] && TopLeafAt(root, path).Some?
  }

  /** Whatever the order of the visits, the table is the same. */
  ghost predicate OneTable(root: Schema) {
    forall params, params' :: Produced(root, params) && Produced(root, params') ==> params == params'
  }

  lemma SameRaw(root: Schema, raw: map<string, ParamSpec>, raw': map<string, ParamSpec>)
    requires Unambiguous(root) && Written(map[], raw, RootFlags(root)) && Written(map[], raw', RootFlags(root))
    ensures raw == raw'
  {
    forall k | k in raw ensures k in raw' && raw[k] == raw'[k] {
      assert (k, raw[k]) in RootFlags(root);
      var a := TopFlagHasPath(root, (k, raw[k]));
      var b := TopFlagHasPath(root, (k, raw'[k]));
      assert Leaf(root, a) && Leaf(root, b);
    }
    forall k | k in raw' ensures k in raw {
      assert (k, raw'[k]) in RootFlags(root);
    }
  }

  // ---------------------------------------------------------------------------
  // Visiting a leaf last
  // ---------------------------------------------------------------------------

  predicate EndsWith(writes: seq<Write>, w: Write) {
    writes != [] && writes[|writes| - 1] == w
  }

  /** Some order of visits, at every object on its path, writes a leaf last. */
  lemma {:induction false} VisitLast(prefix: string, s: Schema, required: bool, path: Path)
    returns (visits: seq<Visit>)
    requires path != [] && LeafAt(s, required, path).Some?
    ensures Visited(s, visits, s.properties.Keys)
    ensures EndsWith(Writes(prefix, s, required, visits), (prefix + "." + Key(path), LeafAt(s, required, path).value))
    decreases |path|
  {
    var p := path[0];
    var others := SomeVisits(s, s.properties.Keys - {p});
    var below: seq<Visit> := [];
    if |path| > 1 {
      var obj := ResolveObjectSchema(s.properties[p]).value;
      below := VisitLast(prefix + "." + p, obj, required && p in s.required, path[1..]);
      assert prefix + "." + p + "." + Key(path[1..]) == prefix + "." + Key(path);
    }
    VisitedNext(s, others, s.properties.Keys - {p}, Visit(p, below));
    assert s.properties.Keys - {p} + {p} == s.properties.Keys;
    WritesNext(prefix, s, required, others, Visit(p, below));
    visits := others + [Visit(p, below)];
  }

  lemma LastWins(m: map<string, ParamSpec>, writes: seq<Write>, w: Write)
    requires EndsWith(writes, w)
    ensures w.0 in Applied(m, writes) && Applied(m, writes)[w.0] == w.1
  {
  }

  lemma LastButOneWins(m: map<string, ParamSpec>, writes: seq<Write>, w: Write, other: Write)
    requires EndsWith(writes, w) && other.0 != w.0
    ensures w.0 in Applied(m, writes + [other]) && Applied(m, writes + [other])[w.0] == w.1
  {
    AppliedConcat(m, writes, [other]);
    AppliedOne(Applied(m, writes), other);
    LastWins(m, writes, w);
  }

  /** So some order lets any leaf of the body win its key. */
  lemma RootVisitLast(root: Schema, path: Path) returns (visits: seq<Visit>)
    requires Leaf(root, path)
    ensures Visited(root, visits, root.properties.Keys)
    ensures var raw := Applied(map[], RootWrites(root, visits));
      Key(path) in raw && raw[Key(path)] == TopLeafAt(root, path).value
  {
    var p := path[0];
    var s := root.properties[p];
    var obj := ResolveObjectSchema(s);
    var others := SomeVisits(root, root.properties.Keys - {p});
    var below: seq<Visit>;
    if |path| > 1 {
      below := VisitLast(p, obj.value, p in root.required, path[1..]);
      assert p + "." + Key(path[1..]) == Key(path);
    } else {
      below := SomeBelow(s);
      assert Key(path) == p;
    }
    var v, w := Visit(p, below), (Key(path), TopLeafAt(root, path).value);
    VisitedNext(root, others, root.properties.Keys - {p}, v);
    assert root.properties.Keys - {p} + {p} == root.properties.Keys;
    RootWritesNext(root, others, v);
    visits := others + [v];
    RootWriteLast(root, RootWrites(root, others), v, w);
  }

  lemma RootWriteLast(root: Schema, before: seq<Write>, v: Visit, w: Write)
    requires Offered(root, v.name)
    requires var s := root.properties[v.name];
      var writes := PropertyWrites(v.name, s, v.name in root.required, v.below);
      var clearable := ResolveObjectSchema(s).Some? && IsClearableObject(s);
      (EndsWith(writes, w) && (clearable ==> w.0 != v.name)) || (clearable && w == (v.name, CLEARABLE))
    ensures var raw := Applied(map[], before + RootWritesOf(root, v)); w.0 in raw && raw[w.0] == w.1
  {
    var s := root.properties[v.name];
    var writes := PropertyWrites(v.name, s, v.name in root.required, v.below);
    if ResolveObjectSchema(s).Some? && IsClearableObject(s) {
      assert before + RootWritesOf(root, v) == before + writes + [(v.name, CLEARABLE)];
      if w == (v.name, CLEARABLE) {
        LastWins(map[], before + writes + [(v.name, CLEARABLE)], w);
      } else {
        LastButOneWins(map[], before + writes, w, (v.name, CLEARABLE));
      }
    } else {
      assert RootWritesOf(root, v) == writes;
      LastWins(map[], before + writes, w);
    }
  }

  /** Any leaf is in a table that some order of visiting produces. */
  lemma LeafWins(root: Schema, path: Path) returns (params: map<string, ParamSpec>)
    requires Leaf(root, path)
    ensures Produced(root, params) && Key(path) in params
    ensures params[Key(path)].(mostCommon := false) == TopLeafAt(root, path).value
  {
    var visits := RootVisitLast(root, path);
    var raw := Applied(map[], RootWrites(root, visits));
    params := Tabled(root, raw);
    NotMarkedYet(root, path);
    MarkingOnly(raw[Key(path)], Key(path), RootCandidates(root), root.mostCommon);
  }

  lemma MarkingOnly(e: ParamSpec, k: string, candidates: iset<string>, common: seq<string>)
    requires !e.mostCommon
    ensures Mark(e, k, candidates, common).(mostCommon := false) == e
  {
  }

  /** The table of a request body is the same whatever the order of the visits, if and only if leaves
      that share a dotted key are the same parameter. */
  lemma OneTableIff(root: Schema)
    ensures OneTable(root) <==> Unambiguous(root)
  {
    if Unambiguous(root) {
      forall params, params' | Produced(root, params) && Produced(root, params') ensures params == params' {
        ProducedIsFlattened(root, params);
        ProducedIsFlattened(root, params');
        var raw: map<string, ParamSpec> :| Written(map[], raw, RootFlags(root)) && params == Tabled(root, raw);
        var raw': map<string, ParamSpec> :| Written(map[], raw', RootFlags(root)) && params' == Tabled(root, raw');
        SameRaw(root, raw, raw');
      }
    } else {
      var a: Path, b: Path :|
        Leaf(root, a) && Leaf(root, b) && Key(a) == Key(b) && TopLeafAt(root, a) != TopLeafAt(root, b);
      var params := LeafWins(root, a);
      var params' := LeafWins(root, b);
      assert params != params';
    }
  }

  /** So for period-free names the order in which properties are visited does not matter. */
  lemma OrderDoesNotMatter(root: Schema, params: map<string, ParamSpec>, params': map<string, ParamSpec>)
    requires Dotless(root) && Produced(root, params) && Produced(root, params')
    ensures params == params'
  {
    forall a: Path, b: Path | Leaf(root, a) && Leaf(root, b) && Key(a) == Key(b)
      ensures TopLeafAt(root, a) == TopLeafAt(root, b)
    {
      KeysDistinct(root, a, b);
    }
    OneTableIff(root);
  }

  function Bare(kind: string, properties: map<string, Schema>): Schema {
    Schema(kind, properties, [], [], [], [], [], "", "", "", [], false)
  }

  /** With a period in a name it can matter: `a.b` and the `b` of `a` share a key. */
  lemma PeriodsCollide() returns (root: Schema)
    ensures !OneTable(root)
  {
    var text, number := Bare("string", map[]), Bare("integer", map[]);
    root := Bare("object", map["a" := Bare("object", map["b" := text]), "a.b" := number]);
    var a, b := ["a", "b"], ["a.b"];
    assert a[1..] == ["b"];
    assert Key(["b"]) == "b" && Key(a) == "a" + "." + "b" == "a.b" == Key(b);
    assert TopLeafAt(root, a) == LeafAt(root, true, a) == Some(Scalar(text, false));
    assert TopLeafAt(root, b) == Some(Scalar(number, false));
    assert Leaf(root, a) && Leaf(root, b);
    OneTableIff(root);
  }
}
