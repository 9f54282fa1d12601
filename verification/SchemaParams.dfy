/** Flattening an operation's request body into command-line parameters
(pkg/gen/gen_resources_cmds.go, with the schema helpers of pkg/gen/resource_utils.go).

The parameter table is filled by recursive calls that share it, visiting the properties of each
schema in any order.
*/
module SchemaParams {
  import opened Text
  import FirstSentence

  datatype Schema = Schema(
    kind: string,
    properties: map<string, Schema>,
    required: seq<string>,
    anyOf: seq<Schema>,
    oneOf: seq<Schema>,
    enumValues: seq<EnumValue>,
    stripeEnum: seq<string>,     // the values of x-stripeEnum, if it is there
    itemKind: string,            // the type of an array's items
    description: string,
    format: string,
    mostCommon: seq<string>,     // x-stripeMostCommon
    notPublic: bool)

  /** A JSON value of an `enum` list: only strings matter. */
  datatype EnumValue = Text(text: string) | Other

  datatype ParamSpec = ParamSpec(
    kind: string, shortDescription: string, required: bool, format: string, choices: seq<string>, mostCommon: bool)

  // ---------------------------------------------------------------------------
  // Schemas
  // ---------------------------------------------------------------------------

  const SCALARS := {"boolean", "integer", "number", "string"}

  /** The schema itself or the first of its branches that is an object. */
  function ResolveObjectSchema(s: Schema): (r: Option<Schema>)
    ensures r.Some? ==> r.value == s || (s decreases to r.value)
    decreases s, 1
  {
    if s.kind == "object" || s.properties != map[] then Some(s) else
    var any := FirstObject(s.anyOf);
    if any.Some? then any else FirstObject(s.oneOf)
  }

  function FirstObject(branches: seq<Schema>): (r: Option<Schema>)
    ensures r.Some? ==>
      exists i :: 0 <= i < |branches| && (r.value == branches[i] || (branches[i] decreases to r.value))
    decreases branches, 0
  {
    if branches == [] then None else
    var r := ResolveObjectSchema(branches[0]);
    if r.Some? then r else FirstObject(branches[1..])
  }

  function GetType(s: Schema): Option<string>
    decreases s, 1
  {
    if s.anyOf != [] then FirstType(s.anyOf)
    else if s.kind in SCALARS then (if s.kind == "string" && s.enumValues == [Text("")] then None else Some(s.kind))
    else if s.kind == "array" && s.itemKind != "object" then Some("array")
    else None
  }

  function FirstType(branches: seq<Schema>): Option<string>
    decreases branches, 0
  {
    if branches == [] then None else
    var t := GetType(branches[0]);
    if t.Some? then t else FirstType(branches[1..])
  }

  predicate IsClearableObject(s: Schema) {
    && (exists i :: 0 <= i < |s.anyOf| && s.anyOf[i].kind == "object")
    && (exists i :: 0 <= i < |s.anyOf| && s.anyOf[i].kind == "string" && s.anyOf[i].enumValues == [Text("")])
  }

  function NonEmptyTexts(values: seq<EnumValue>): seq<string> {
    if values == [] then []
    else if values[0].Text? && values[0].text != "" then [values[0].text] + NonEmptyTexts(values[1..])
    else NonEmptyTexts(values[1..])
  }

  /** The `enum` list wins, even if none of its values is usable. */
  function MergeEnumValues(s: Schema): seq<string> {
    if s.enumValues != [] then NonEmptyTexts(s.enumValues) else s.stripeEnum
  }

  lemma {:induction false} ChoicesIff(values: seq<EnumValue>, v: string)
    ensures v in NonEmptyTexts(values) <==> v != "" && Text(v) in values
  {
    if values != [] {
      ChoicesIff(values[1..], v);
      assert values == [values[0]] + values[1..];
    }
  }

  function Scalar(s: Schema, required: bool): ParamSpec
    requires GetType(s).Some?
  {
    ParamSpec(GetType(s).value, FirstSentence.Sentence(s.description), required, s.format, MergeEnumValues(s), false)
  }

  const CLEARABLE := ParamSpec("clearable_object", "", false, "", [], false)

  // ---------------------------------------------------------------------------
  // What a schema contributes, whatever the order of its properties
  // ---------------------------------------------------------------------------

  type Entries = iset<(string, ParamSpec)>

  ghost function Flags(prefix: string, s: Schema, required: bool): Entries
    decreases s, 0
  {
    iset p, e: (string, ParamSpec) | p in s.properties && e in FlagsOf(prefix, s, required, p) :: e
  }

  ghost function FlagsOf(prefix: string, s: Schema, required: bool, p: string): Entries
    requires p in s.properties
    decreases s.properties[p], 2
  {
    PropertyFlags(prefix + "." + p, s.properties[p], required && p in s.required)
  }

  ghost function PropertyFlags(name: string, s: Schema, required: bool): Entries
    decreases s, 1
  {
    var obj := ResolveObjectSchema(s);
    if obj.Some? then Flags(name, obj.value, required)
    else if GetType(s).Some? then iset{(name, Scalar(s, required))}
    else iset{}
  }

  function Count(s: string, c: char): nat {
    if s == "" then 0 else (if s[0] == c then 1 else 0) + Count(s[1..], c)
  }

  ghost function Candidates(prefix: string, s: Schema): iset<string>
    decreases s, 0
  {
    iset p, k: string | p in s.properties && k in CandidatesOf(prefix, s, p) :: k
  }

  ghost function CandidatesOf(prefix: string, s: Schema, p: string): iset<string>
    requires p in s.properties
    decreases s.properties[p], 2
  {
    PropertyCandidates(prefix + "." + p, s.properties[p], p in s.required)
  }

  ghost function PropertyCandidates(name: string, s: Schema, local: bool): iset<string>
    decreases s, 1
  {
    var obj := ResolveObjectSchema(s);
    if obj.Some? then Candidates(name, obj.value)
    else if GetType(s).Some? && local && Count(name, '.') == 1 then iset{name}
    else iset{}
  }

  /** `after` is `before` with every entry of `flags` written, the last of each key. */
  ghost predicate Written(before: map<string, ParamSpec>, after: map<string, ParamSpec>, flags: Entries) {
    && (forall k :: k in before ==> k in after)
    && (forall k, spec :: (k, spec) in flags ==> k in after)
    && (forall k :: k in after ==>
          (k, after[k]) in flags || (k in before && after[k] == before[k] && forall spec :: (k, spec) !in flags))
  }

  lemma WrittenBoth(
    a: map<string, ParamSpec>, b: map<string, ParamSpec>, c: map<string, ParamSpec>, f: Entries, g: Entries)
    requires Written(a, b, f) && Written(b, c, g)
    ensures Written(a, c, f + g)
  {
  }

  // The request body itself: some of its properties are left out, and a clearable object is also a
  // parameter of its own.

  predicate Offered(root: Schema, p: string) {
    p in root.properties && p !in {"metadata", "expand"} && !root.properties[p].notPublic
  }

  ghost function RootFlagsOf(root: Schema, p: string): Entries
    requires p in root.properties
  {
    var s := root.properties[p];
    PropertyFlags(p, s, p in root.required)
    + if ResolveObjectSchema(s).Some? && IsClearableObject(s) then iset{(p, CLEARABLE)} else iset{}
  }

  ghost function RootFlags(root: Schema): Entries {
    iset p, e: (string, ParamSpec) | p in root.properties && Offered(root, p) && e in RootFlagsOf(root, p) :: e
  }

  ghost function RootCandidatesOf(root: Schema, p: string): iset<string>
    requires p in root.properties
  {
    var s := root.properties[p];
    var obj := ResolveObjectSchema(s);
    if obj.None? then iset{}
    else Candidates(p, obj.value)
         + if IsClearableObject(s) then iset sub | sub in obj.value.mostCommon :: p + "." + sub else iset{}
  }

  ghost function RootCandidates(root: Schema): iset<string> {
    iset p, k: string | p in root.properties && Offered(root, p) && k in RootCandidatesOf(root, p) :: k
  }

  ghost predicate Marked(k: string, candidates: iset<string>, common: seq<string>) {
    if '.' !in k then k in common
    else Count(k, '.') == 1 && k in candidates && k[..IndexOf(k, '.')] in common
  }

  ghost function Mark(e: ParamSpec, k: string, candidates: iset<string>, common: seq<string>): ParamSpec {
    e.(mostCommon := e.mostCommon || Marked(k, candidates, common))
  }

  ghost function Tabled(root: Schema, raw: map<string, ParamSpec>): map<string, ParamSpec> {
    map k | k in raw :: Mark(raw[k], k, RootCandidates(root), root.mostCommon)
  }

  /** The tables that flattening can produce: for each key, some entry is written last. */
  ghost predicate Flattened(root: Schema, params: map<string, ParamSpec>) {
    exists raw: map<string, ParamSpec> :: Written(map[], raw, RootFlags(root)) && params == Tabled(root, raw)
  }

  // ---------------------------------------------------------------------------
  // Visits
  // ---------------------------------------------------------------------------

  /** The visit of one property, and of the properties below it if it is an object. */
  datatype Visit = Visit(name: string, below: seq<Visit>)

  type Write = (string, ParamSpec)

  /** The properties `done` of a schema, each visited once, in the order of the list. */
  ghost predicate Visited(s: Schema, visits: seq<Visit>, done: set<string>)
    decreases s, 0, |visits|
  {
    if visits == [] then done == {} else
    var n := |visits| - 1;
    var p := visits[n].name;
    p in done && p in s.properties && VisitedBelow(s, visits[n]) && Visited(s, visits[..n], done - {p})
  }

  ghost predicate VisitedBelow(s: Schema, v: Visit)
    requires v.name in s.properties
    decreases s.properties[v.name], 2, 0
  {
    VisitedProperty(s.properties[v.name], v.below)
  }

  ghost predicate VisitedProperty(s: Schema, below: seq<Visit>)
    decreases s, 1, 0
  {
    var obj := ResolveObjectSchema(s);
    obj.Some? ==> Visited(obj.value, below, obj.value.properties.Keys)
  }

  /** What the visits write to the table, in this order. */
  function Writes(prefix: string, s: Schema, required: bool, visits: seq<Visit>): seq<Write>
    decreases s, 0, |visits|
  {
    if visits == [] then [] else
    var n := |visits| - 1;
    Writes(prefix, s, required, visits[..n]) + WritesOf(prefix, s, required, visits[n])
  }

  function WritesOf(prefix: string, s: Schema, required: bool, v: Visit): seq<Write>
    decreases if v.name in s.properties then s.properties[v.name] else s, if v.name in s.properties then 2 else 0, 0
  {
    if v.name !in s.properties then []
    else PropertyWrites(prefix + "." + v.name, s.properties[v.name], required && v.name in s.required, v.below)
  }

  function PropertyWrites(name: string, s: Schema, required: bool, below: seq<Visit>): seq<Write>
    decreases s, 1, 0
  {
    var obj := ResolveObjectSchema(s);
    if obj.Some? then Writes(name, obj.value, required, below)
    else if GetType(s).Some? then [(name, Scalar(s, required))]
    else []
  }

  function RootWritesOf(root: Schema, v: Visit): seq<Write> {
    if !Offered(root, v.name) then [] else
    var s := root.properties[v.name];
    PropertyWrites(v.name, s, v.name in root.required, v.below)
    + if ResolveObjectSchema(s).Some? && IsClearableObject(s) then [(v.name, CLEARABLE)] else []
  }

  function RootWrites(root: Schema, visits: seq<Visit>): seq<Write>
    decreases |visits|
  {
    if visits == [] then [] else
    var n := |visits| - 1;
    RootWrites(root, visits[..n]) + RootWritesOf(root, visits[n])
  }

  function Applied(m: map<string, ParamSpec>, writes: seq<Write>): map<string, ParamSpec>
    decreases |writes|
  {
    if writes == [] then m else
    var n := |writes| - 1;
    Applied(m, writes[..n])[writes[n].0 := writes[n].1]
  }

  /** The tables that some order of visiting, at every object, produces. */
  ghost predicate Produced(root: Schema, params: map<string, ParamSpec>) {
    exists visits :: Visited(root, visits, root.properties.Keys)
      && params == Tabled(root, Applied(map[], RootWrites(root, visits)))
  }

  lemma {:induction false} AppliedConcat(m: map<string, ParamSpec>, a: seq<Write>, b: seq<Write>)
    ensures Applied(m, a + b) == Applied(Applied(m, a), b)
    decreases |b|
  {
    if b == [] {
      assert a + b == a;
    } else {
      var n := |b| - 1;
      AppliedConcat(m, a, b[..n]);
      assert (a + b)[..|a + b| - 1] == a + b[..n];
    }
  }

  lemma VisitedNext(s: Schema, visits: seq<Visit>, done: set<string>, v: Visit)
    requires Visited(s, visits, done) && v.name in s.properties && v.name !in done && VisitedBelow(s, v)
    ensures Visited(s, visits + [v], done + {v.name})
  {
    var more := visits + [v];
    assert more[..|more| - 1] == visits && (done + {v.name}) - {v.name} == done;
  }

  lemma WritesNext(prefix: string, s: Schema, required: bool, visits: seq<Visit>, v: Visit)
    ensures Writes(prefix, s, required, visits + [v])
         == Writes(prefix, s, required, visits) + WritesOf(prefix, s, required, v)
  {
    var more := visits + [v];
    assert more[..|more| - 1] == visits;
  }

  lemma RootWritesNext(root: Schema, visits: seq<Visit>, v: Visit)
    ensures RootWrites(root, visits + [v]) == RootWrites(root, visits) + RootWritesOf(root, v)
  {
    var more := visits + [v];
    assert more[..|more| - 1] == visits;
  }

  /** Every schema can be visited. */
  lemma SomeVisits(s: Schema, wanted: set<string>) returns (visits: seq<Visit>)
    requires wanted <= s.properties.Keys
    ensures Visited(s, visits, wanted)
    decreases s, 0
  {
    var left := wanted;
    visits := [];
    while left != {}
      invariant left <= wanted && Visited(s, visits, wanted - left)
      decreases left
    {
      var p :| p in left;
      var below := SomeBelow(s.properties[p]);
      VisitedNext(s, visits, wanted - left, Visit(p, below));
      assert wanted - (left - {p}) == wanted - left + {p};
      visits := visits + [Visit(p, below)];
      left := left - {p};
    }
    assert wanted - left == wanted;
  }

  lemma SomeBelow(s: Schema) returns (below: seq<Visit>)
    ensures VisitedProperty(s, below)
    decreases s, 1
  {
    var obj := ResolveObjectSchema(s);
    below := [];
    if obj.Some? {
      below := SomeVisits(obj.value, obj.value.properties.Keys);
    }
  }

  lemma AppliedOne(m: map<string, ParamSpec>, w: Write)
    ensures Applied(m, [w]) == m[w.0 := w.1]
  {
    assert [w][..0] == [];
  }

  // ---------------------------------------------------------------------------
  // The recursion over the shared table
  // ---------------------------------------------------------------------------

  class ParamTable {
    var params: map<string, ParamSpec>
    var candidates: set<string>

    constructor ()
      ensures params == map[] && candidates == {}
    {
      params, candidates := map[], {};
    }

    method AddDenormalizedParams(prefix: string, s: Schema, parentRequired: bool) returns (ghost visits: seq<Visit>)
      modifies this
      ensures Visited(s, visits, s.properties.Keys)
      ensures params == Applied(old(params), Writes(prefix, s, parentRequired, visits))
      ensures forall k :: k in candidates <==> k in old(candidates) || k in Candidates(prefix, s)
      decreases s, 0
    {
      var left := s.properties.Keys;
      visits := [];
      ghost var cands: iset<string> := iset{};
      while left != {}
        invariant left <= s.properties.Keys && Visited(s, visits, s.properties.Keys - left)
        invariant params == Applied(old(params), Writes(prefix, s, parentRequired, visits))
        invariant forall k :: k in cands <==>
          exists p :: p in s.properties && p !in left && k in CandidatesOf(prefix, s, p)
        invariant forall k :: k in candidates <==> k in old(candidates) || k in cands
        decreases left
      {
        var p :| p in left;
        var local := p in s.required;
        ghost var below := AddProperty(prefix + "." + p, s.properties[p], parentRequired && local, local);
        ghost var v := Visit(p, below);
        VisitedNext(s, visits, s.properties.Keys - left, v);
        assert s.properties.Keys - (left - {p}) == s.properties.Keys - left + {p};
        WritesNext(prefix, s, parentRequired, visits, v);
        AppliedConcat(old(params), Writes(prefix, s, parentRequired, visits), WritesOf(prefix, s, parentRequired, v));
        visits := visits + [v];
        left := left - {p};
        cands := cands + CandidatesOf(prefix, s, p);
      }
      assert s.properties.Keys - left == s.properties.Keys;
      assert cands == Candidates(prefix, s);
    }

    /** The body of the loop. */
    method AddProperty(key: string, s: Schema, required: bool, local: bool) returns (ghost below: seq<Visit>)
      modifies this
      ensures VisitedProperty(s, below) && params == Applied(old(params), PropertyWrites(key, s, required, below))
      ensures forall k :: k in candidates <==> k in old(candidates) || k in PropertyCandidates(key, s, local)
      decreases s, 1
    {
      var obj := ResolveObjectSchema(s);
      below := [];
      if obj.Some? {
        below := AddDenormalizedParams(key, obj.value, required);
      } else {
        var scalarType := GetType(s);
        if scalarType.Some? {
          if local && Count(key, '.') == 1 {
            candidates := candidates + {key};
          }
          AppliedOne(params, (key, Scalar(s, required)));
          params := params[key := Scalar(s, required)];
        }
      }
    }

    /** One property of the request body. */
    method AddRootProperty(root: Schema, p: string) returns (ghost below: seq<Visit>)
      requires p in root.properties && Offered(root, p)
      modifies this
      ensures VisitedProperty(root.properties[p], below)
      ensures params == Applied(old(params), RootWritesOf(root, Visit(p, below)))
      ensures forall k :: k in candidates <==> k in old(candidates) || k in RootCandidatesOf(root, p)
    {
      var s := root.properties[p];
      var obj := ResolveObjectSchema(s);
      below := [];
      if obj.Some? {
        below := AddDenormalizedParams(p, obj.value, p in root.required);
        if IsClearableObject(s) {
          AppliedConcat(old(params), PropertyWrites(p, s, p in root.required, below), [(p, CLEARABLE)]);
          AppliedOne(params, (p, CLEARABLE));
          params := params[p := CLEARABLE];
          candidates := candidates + set sub | sub in obj.value.mostCommon :: p + "." + sub;
        } else {
          assert RootWritesOf(root, Visit(p, below)) == PropertyWrites(p, s, p in root.required, below);
        }
      } else {
        var scalarType := GetType(s);
        if scalarType.Some? {
          AppliedOne(params, (p, Scalar(s, p in root.required)));
          assert RootWritesOf(root, Visit(p, below)) == [(p, Scalar(s, p in root.required))];
          params := params[p := Scalar(s, p in root.required)];
        } else {
          assert RootWritesOf(root, Visit(p, below)) == [];
        }
      }
    }

    method MarkMostCommon(common: seq<string>)
      modifies this`params
      ensures params == map k | k in old(params) :: Mark(old(params)[k], k, (iset c | c in candidates), common)
    {
      var left := params.Keys;
      while left != {}
        invariant left <= params.Keys == old(params).Keys
        invariant forall k :: k in params && k in left ==> params[k] == old(params)[k]
        invariant forall k :: k in params && k !in left ==>
          params[k] == Mark(old(params)[k], k, (iset c | c in candidates), common)
        decreases left
      {
        var name :| name in left;
        left := left - {name};
        if '.' !in name {
          if name in common {
            params := params[name := params[name].(mostCommon := true)];
          }
        } else if Count(name, '.') == 1 && name in candidates {
          if name[..IndexOf(name, '.')] in common {
            params := params[name := params[name].(mostCommon := true)];
          }
        }
      }
    }
  }

  method BodyParams(root: Schema) returns (params: map<string, ParamSpec>)
    ensures Produced(root, params)
  {
    var table := new ParamTable();
    var left := root.properties.Keys;
    ghost var visits: seq<Visit> := [];
    ghost var cands: iset<string> := iset{};
    while left != {}
      invariant left <= root.properties.Keys && Visited(root, visits, root.properties.Keys - left)
      invariant table.params == Applied(map[], RootWrites(root, visits))
      invariant forall k :: k in cands <==>
        exists p :: p in root.properties && p !in left && Offered(root, p) && k in RootCandidatesOf(root, p)
      invariant forall k :: k in table.candidates <==> k in cands
      decreases left
    {
      var p :| p in left;
      ghost var below;
      if Offered(root, p) {
        below := table.AddRootProperty(root, p);
        AppliedConcat(map[], RootWrites(root, visits), RootWritesOf(root, Visit(p, below)));
        cands := cands + RootCandidatesOf(root, p);
      } else {
        below := SomeBelow(root.properties[p]);
        AppliedConcat(map[], RootWrites(root, visits), []);
      }
      ghost var v := Visit(p, below);
      VisitedNext(root, visits, root.properties.Keys - left, v);
      assert root.properties.Keys - (left - {p}) == root.properties.Keys - left + {p};
      RootWritesNext(root, visits, v);
      visits := visits + [v];
      left := left - {p};
    }
    assert root.properties.Keys - left == root.properties.Keys;
    assert cands == RootCandidates(root);
    params := Finish(root, table, visits);
  }

  /** The last pass over the table marks what to surface. */
  method Finish(root: Schema, table: ParamTable, ghost visits: seq<Visit>) returns (params: map<string, ParamSpec>)
    requires Visited(root, visits, root.properties.Keys)
    requires table.params == Applied(map[], RootWrites(root, visits))
    requires forall k :: k in table.candidates <==> k in RootCandidates(root)
    modifies table
    ensures Produced(root, params)
  {
    ghost var raw := table.params;
    assert (iset c | c in table.candidates) == RootCandidates(root);
    table.MarkMostCommon(root.mostCommon);
    params := table.params;
    assert params == Tabled(root, raw);
  }

  // ---------------------------------------------------------------------------
  // Whatever the order, the same entries are written
  // ---------------------------------------------------------------------------

  lemma {:induction false} AppliedWritten(m: map<string, ParamSpec>, writes: seq<Write>)
    ensures Written(m, Applied(m, writes), iset e | e in writes)
    decreases |writes|
  {
    if writes != [] {
      var n := |writes| - 1;
      var init, w := writes[..n], writes[n];
      AppliedWritten(m, init);
      WrittenBoth(m, Applied(m, init), Applied(m, writes), iset e | e in init, iset{w});
      assert writes == init + [w];
      assert (iset e | e in writes) == (iset e | e in init) + iset{w};
    }
  }

  lemma {:induction false} WritesAreFlags(
    prefix: string, s: Schema, required: bool, visits: seq<Visit>, done: set<string>, e: Write)
    requires Visited(s, visits, done)
    ensures e in Writes(prefix, s, required, visits)
       <==> exists p :: p in done && p in s.properties && e in FlagsOf(prefix, s, required, p)
    decreases s, 0, |visits|
  {
    if visits != [] {
      var n := |visits| - 1;
      var p := visits[n].name;
      WritesAreFlags(prefix, s, required, visits[..n], done - {p}, e);
      PropertyWritesAreFlags(
        prefix + "." + p, s.properties[p], required && p in s.required, visits[n].below, e);
      assert e in WritesOf(prefix, s, required, visits[n]) <==> e in FlagsOf(prefix, s, required, p);
    }
  }

  lemma {:induction false} PropertyWritesAreFlags(
    name: string, s: Schema, required: bool, below: seq<Visit>, e: Write)
    requires VisitedProperty(s, below)
    ensures e in PropertyWrites(name, s, required, below) <==> e in PropertyFlags(name, s, required)
    decreases s, 1, 0
  {
    var obj := ResolveObjectSchema(s);
    if obj.Some? {
      WritesAreFlags(name, obj.value, required, below, obj.value.properties.Keys, e);
    }
  }

  lemma {:induction false} RootWritesAreFlags(root: Schema, visits: seq<Visit>, done: set<string>, e: Write)
    requires Visited(root, visits, done)
    ensures e in RootWrites(root, visits)
       <==> exists p :: p in done && p in root.properties && Offered(root, p) && e in RootFlagsOf(root, p)
    decreases |visits|
  {
    if visits != [] {
      var n := |visits| - 1;
      var p := visits[n].name;
      RootWritesAreFlags(root, visits[..n], done - {p}, e);
      PropertyWritesAreFlags(p, root.properties[p], p in root.required, visits[n].below, e);
      assert e in RootWritesOf(root, visits[n]) <==> Offered(root, p) && e in RootFlagsOf(root, p);
    }
  }

  lemma ProducedIsFlattened(root: Schema, params: map<string, ParamSpec>)
    requires Produced(root, params)
    ensures Flattened(root, params)
  {
    var visits :| Visited(root, visits, root.properties.Keys)
      && params == Tabled(root, Applied(map[], RootWrites(root, visits)));
    var writes := RootWrites(root, visits);
    AppliedWritten(map[], writes);
    forall e: Write ensures e in writes <==> e in RootFlags(root) {
      RootWritesAreFlags(root, visits, root.properties.Keys, e);
    }
    assert (iset e | e in writes) == RootFlags(root);
  }

  // ---------------------------------------------------------------------------
  // An operation: a body, or query parameters
  // ---------------------------------------------------------------------------

  datatype Parameter = Parameter(name: string, location: string, schema: Schema, description: string, required: bool)

  /** `body` is the schema under the media type of the API. */
  datatype Operation = Operation(verb: string, body: Option<Schema>, parameters: seq<Parameter>)

  predicate IsFlag(p: Parameter) {
    p.location == "query" && p.name !in {"metadata", "expand"} && GetType(p.schema).Some?
  }

  function QueryFlag(p: Parameter): ParamSpec
    requires IsFlag(p)
  {
    Scalar(p.schema, p.required).(shortDescription := FirstSentence.Sentence(p.description))
  }

  predicate Names(parameters: seq<Parameter>, i: nat, k: string) {
    i < |parameters| && IsFlag(parameters[i]) && parameters[i].name == k
  }

  /** `at` is the last of its name among those that become a flag. */
  ghost predicate LastOfName(parameters: seq<Parameter>, at: nat) {
    at < |parameters| && forall j: nat :: at < j ==> !Names(parameters, j, parameters[at].name)
  }

  function QueryFlags(parameters: seq<Parameter>): map<string, ParamSpec> {
    if parameters == [] then map[] else
    var n := |parameters| - 1;
    var p := parameters[n];
    if IsFlag(p) then QueryFlags(parameters[..n])[p.name := QueryFlag(p)] else QueryFlags(parameters[..n])
  }

  /** The last parameter of each name gives the flag of that name. */
  lemma {:induction false} LastListedWins(parameters: seq<Parameter>, i: nat)
    requires LastOfName(parameters, i) && IsFlag(parameters[i])
    ensures parameters[i].name in QueryFlags(parameters)
    ensures QueryFlags(parameters)[parameters[i].name] == QueryFlag(parameters[i])
  {
    var n := |parameters| - 1;
    if i < n {
      var before := parameters[..n];
      assert !Names(parameters, n, parameters[i].name);
      forall j: nat | i < j ensures !Names(before, j, before[i].name) {
        assert !Names(parameters, j, parameters[i].name);
      }
      LastListedWins(before, i);
    }
  }

  /** And every flag comes from one. */
  lemma {:induction false} FlagIsListed(parameters: seq<Parameter>, k: string) returns (i: nat)
    requires k in QueryFlags(parameters)
    ensures Names(parameters, i, k) && LastOfName(parameters, i)
  {
    var n := |parameters| - 1;
    if Names(parameters, n, k) {
      i := n;
    } else {
      var before := parameters[..n];
      i := FlagIsListed(before, k);
      forall j: nat | i < j ensures !Names(parameters, j, k) {
        if j < n {
          assert !Names(before, j, before[i].name);
        }
      }
    }
  }

  method GetOperationParams(op: Operation) returns (params: map<string, ParamSpec>)
    ensures Lower(op.verb) == "post" ==> if op.body.Some? then Produced(op.body.value, params) else params == map[]
    ensures Lower(op.verb) != "post" ==> params == QueryFlags(op.parameters)
  {
    params := map[];
    if Lower(op.verb) == "post" {
      if op.body.Some? {
        params := BodyParams(op.body.value);
      }
    } else {
      params := QueryParams(op.parameters);
    }
  }

  method QueryParams(parameters: seq<Parameter>) returns (params: map<string, ParamSpec>)
    ensures params == QueryFlags(parameters)
  {
    params := map[];
    for i := 0 to |parameters|
      invariant params == QueryFlags(parameters[..i])
    {
      var p := parameters[i];
      if IsFlag(p) {
        params := params[p.name := QueryFlag(p)];
      }
      assert parameters[..i + 1][..i] == parameters[..i];
    }
    assert parameters[..|parameters|] == parameters;
  }

  // ---------------------------------------------------------------------------
  // Paths
  // ---------------------------------------------------------------------------

  type Path = seq<string>

  /** The scalar at the end of a path of property names, through resolved objects. */
  function LeafAt(s: Schema, required: bool, path: Path): Option<ParamSpec>
    requires path != []
    decreases |path|
  {
    if path[0] !in s.properties then None else
    var child := s.properties[path[0]];
    var obj := ResolveObjectSchema(child);
    var needed := required && path[0] in s.required;
    if |path| == 1 then (if obj.None? && GetType(child).Some? then Some(Scalar(child, needed)) else None)
    else if obj.Some? then LeafAt(obj.value, needed, path[1..])
    else None
  }

  function TopLeafAt(root: Schema, path: Path): Option<ParamSpec>
    requires path != []
  {
    if !Offered(root, path[0]) then None
    else if |path| == 1 && ResolveObjectSchema(root.properties[path[0]]).Some? then
      (if IsClearableObject(root.properties[path[0]]) then Some(CLEARABLE) else None)
    else LeafAt(root, true, path)
  }

  function Key(path: Path): string {
    Join(path, ".")
  }

  predicate DotlessPath(path: Path) {
    path != [] && forall i :: 0 <= i < |path| ==> '.' !in path[i]
  }

  /** No property name that can be reached has a period. */
  ghost predicate Dotless(s: Schema)
    decreases s
  {
    forall p :: p in s.properties ==>
      '.' !in p && (var obj := ResolveObjectSchema(s.properties[p]); obj.Some? ==> Dotless(obj.value))
  }

  lemma {:induction false} LeafPathDotless(s: Schema, required: bool, path: Path)
    requires Dotless(s) && path != [] && LeafAt(s, required, path).Some?
    ensures DotlessPath(path)
    decreases |path|
  {
    if |path| > 1 {
      var obj := ResolveObjectSchema(s.properties[path[0]]);
      LeafPathDotless(obj.value, required && path[0] in s.required, path[1..]);
      assert forall i :: 1 <= i < |path| ==> path[i] == path[1..][i - 1];
    }
  }

  lemma {:induction false} PathIsFlag(prefix: string, s: Schema, required: bool, path: Path)
    requires path != [] && LeafAt(s, required, path).Some?
    ensures (prefix + "." + Key(path), LeafAt(s, required, path).value) in Flags(prefix, s, required)
    decreases |path|
  {
    var p := path[0];
    var obj := ResolveObjectSchema(s.properties[p]);
    var e := (prefix + "." + Key(path), LeafAt(s, required, path).value);
    if |path| > 1 {
      PathIsFlag(prefix + "." + p, obj.value, required && p in s.required, path[1..]);
      assert prefix + "." + p + "." + Key(path[1..]) == prefix + "." + Key(path);
    }
    assert e in FlagsOf(prefix, s, required, p);
  }

  lemma {:induction false} FlagHasPath(prefix: string, s: Schema, required: bool, e: (string, ParamSpec))
    returns (path: Path)
    requires e in Flags(prefix, s, required)
    ensures path != [] && LeafAt(s, required, path) == Some(e.1) && e.0 == prefix + "." + Key(path)
    decreases s
  {
    var p :| p in s.properties && e in FlagsOf(prefix, s, required, p);
    assert e in PropertyFlags(prefix + "." + p, s.properties[p], required && p in s.required);
    var obj := ResolveObjectSchema(s.properties[p]);
    if obj.Some? {
      var tail := FlagHasPath(prefix + "." + p, obj.value, required && p in s.required, e);
      path := [p] + tail;
      assert path[1..] == tail;
      assert prefix + "." + p + "." + Key(tail) == prefix + "." + Key(path);
    } else {
      path := [p];
    }
  }

  lemma TopPathIsFlag(root: Schema, path: Path)
    requires path != [] && TopLeafAt(root, path).Some?
    ensures (Key(path), TopLeafAt(root, path).value) in RootFlags(root)
  {
    var p := path[0];
    var obj := ResolveObjectSchema(root.properties[p]);
    if |path| > 1 {
      PathIsFlag(p, obj.value, p in root.required, path[1..]);
      assert p + "." + Key(path[1..]) == Key(path);
    }
    assert (Key(path), TopLeafAt(root, path).value) in RootFlagsOf(root, p);
  }

  lemma TopFlagHasPath(root: Schema, e: (string, ParamSpec)) returns (path: Path)
    requires e in RootFlags(root)
    ensures path != [] && TopLeafAt(root, path) == Some(e.1) && e.0 == Key(path)
  {
    var p :| p in root.properties && Offered(root, p) && e in RootFlagsOf(root, p);
    var obj := ResolveObjectSchema(root.properties[p]);
    if obj.Some? && e in Flags(p, obj.value, p in root.required) {
      var tail := FlagHasPath(p, obj.value, p in root.required, e);
      path := [p] + tail;
      assert path[1..] == tail;
    } else {
      path := [p];
    }
  }

  lemma TopPathDotless(root: Schema, path: Path)
    requires Dotless(root) && path != [] && TopLeafAt(root, path).Some?
    ensures DotlessPath(path)
  {
    if LeafAt(root, true, path).Some? {
      LeafPathDotless(root, true, path);
    }
  }

  // ---------------------------------------------------------------------------
  // The table, exactly
  // ---------------------------------------------------------------------------

  /** Different leaves never share a key. */
  lemma KeysDistinct(root: Schema, a: Path, b: Path)
    requires Dotless(root) && a != [] && b != []
    requires TopLeafAt(root, a).Some? && TopLeafAt(root, b).Some?
    ensures Key(a) == Key(b) ==> a == b
  {
    TopPathDotless(root, a);
    TopPathDotless(root, b);
    if Key(a) == Key(b) {
      JoinInjective(a, b, '.');
    }
  }

  /** The raw table holds exactly the leaves, each under its dotted path. */
  lemma RawExact(root: Schema, raw: map<string, ParamSpec>, path: Path)
    requires Dotless(root) && Written(map[], raw, RootFlags(root)) && DotlessPath(path)
    ensures Key(path) in raw <==> TopLeafAt(root, path).Some?
    ensures Key(path) in raw ==> Some(raw[Key(path)]) == TopLeafAt(root, path)
  {
    if Key(path) in raw {
      var found := TopFlagHasPath(root, (Key(path), raw[Key(path)]));
      TopPathDotless(root, found);
      JoinInjective(path, found, '.');
    }
    if TopLeafAt(root, path).Some? {
      TopPathIsFlag(root, path);
    }
  }

  /** Which parameters are surfaced: the body's own common properties, and below a common object
      those of its scalars that it requires or, if it can be cleared, that it calls common. */
  predicate Surfaced(root: Schema, path: Path)
    requires path != [] && TopLeafAt(root, path).Some?
  {
    path[0] in root.mostCommon
    && (|path| == 1
        || (|path| == 2
            && var child := root.properties[path[0]];
               var obj := ResolveObjectSchema(child).value;
               path[1] in obj.required || (IsClearableObject(child) && path[1] in obj.mostCommon)))
  }

  lemma {:induction false} CountConcat(a: string, b: string, c: char)
    ensures Count(a + b, c) == Count(a, c) + Count(b, c)
  {
    if a == "" {
      assert a + b == b;
    } else {
      assert (a + b)[1..] == a[1..] + b;
      CountConcat(a[1..], b, c);
    }
  }

  lemma {:induction false} CountAbsent(s: string, c: char)
    ensures Count(s, c) == 0 <==> c !in s
  {
    if s != "" {
      CountAbsent(s[1..], c);
      assert s == [s[0]] + s[1..];
    }
  }

  lemma {:induction false} CountKey(path: Path)
    requires DotlessPath(path)
    ensures Count(Key(path), '.') == |path| - 1
  {
    CountAbsent(path[0], '.');
    if |path| > 1 {
      CountKey(path[1..]);
      CountConcat(path[0] + ".", Key(path[1..]), '.');
      CountConcat(path[0], ".", '.');
      assert Count(".", '.') == 1 by { assert "."[1..] == ""; }
    }
  }

  lemma {:induction false} CandidateShape(prefix: string, s: Schema, k: string) returns (p: string)
    requires k in Candidates(prefix, s) && Count(prefix, '.') == 0
    ensures p in s.properties && p in s.required && k == prefix + "." + p
    ensures ResolveObjectSchema(s.properties[p]).None?
  {
    p :| p in s.properties && k in CandidatesOf(prefix, s, p);
    assert k in PropertyCandidates(prefix + "." + p, s.properties[p], p in s.required);
    var obj := ResolveObjectSchema(s.properties[p]);
    if obj.Some? {
      CountConcat(prefix + ".", p, '.');
      CountConcat(prefix, ".", '.');
      assert Count(".", '.') == 1 by { assert "."[1..] == ""; }
      NoDeepCandidates(prefix + "." + p, obj.value);
    }
  }

  lemma {:induction false} NoDeepCandidates(prefix: string, s: Schema)
    requires Count(prefix, '.') >= 1
    ensures Candidates(prefix, s) == iset{}
    decreases s
  {
    forall p | p in s.properties ensures CandidatesOf(prefix, s, p) == iset{} {
      CountConcat(prefix + ".", p, '.');
      CountConcat(prefix, ".", '.');
      assert Count(".", '.') == 1 by { assert "."[1..] == ""; }
      var obj := ResolveObjectSchema(s.properties[p]);
      if obj.Some? {
        NoDeepCandidates(prefix + "." + p, obj.value);
      }
    }
  }

  lemma MarkedIff(root: Schema, path: Path)
    requires Dotless(root) && path != [] && TopLeafAt(root, path).Some?
    ensures Marked(Key(path), RootCandidates(root), root.mostCommon) <==> Surfaced(root, path)
  {
    TopPathDotless(root, path);
    CountKey(path);
    CountAbsent(Key(path), '.');
    if |path| == 2 {
      assert path[1..] == [path[1]];
      assert Key([path[1]]) == path[1];
      assert Key(path) == path[0] + ['.'] + path[1];
      IndexOfSplit(path[0], '.', path[1]);
      assert Key(path)[..|path[0]|] == path[0];
      CandidateIff(root, path);
    }
  }

  lemma CandidateIff(root: Schema, path: Path)
    requires Dotless(root) && DotlessPath(path) && |path| == 2 && TopLeafAt(root, path).Some?
    requires Key(path) == path[0] + ['.'] + path[1]
    ensures var child := root.properties[path[0]];
      var obj := ResolveObjectSchema(child).value;
      Key(path) in RootCandidates(root)
      <==> path[1] in obj.required || (IsClearableObject(child) && path[1] in obj.mostCommon)
  {
    var k, p, q := Key(path), path[0], path[1];
    var child := root.properties[p];
    var obj := ResolveObjectSchema(child).value;
    CountKey(path);
    if k in RootCandidates(root) {
      var p' :| p' in root.properties && Offered(root, p') && k in RootCandidatesOf(root, p');
      var obj' := ResolveObjectSchema(root.properties[p']).value;
      CountAbsent(p', '.');
      if k in Candidates(p', obj') {
        var q' := CandidateShape(p', obj', k);
        CutAt(p', '.', q', p, q);
      } else {
        var sub :| sub in obj'.mostCommon && k == p' + "." + sub;
        CutAt(p', '.', sub, p, q);
      }
    }
    assert path[1..] == [q];
    assert LeafAt(obj, p in root.required, [q]).Some?;
    if q in obj.required {
      assert k in PropertyCandidates(p + "." + q, obj.properties[q], true);
      assert k in CandidatesOf(p, obj, q);
      assert k in RootCandidatesOf(root, p);
    } else if IsClearableObject(child) && q in obj.mostCommon {
      assert k in RootCandidatesOf(root, p);
    }
  }

  /** Flattening is exact. The keys are exactly the dotted paths of the leaves, and each parameter is
      its leaf, surfaced as described. */
  lemma FlattenedExact(root: Schema, params: map<string, ParamSpec>, path: Path)
    requires Dotless(root) && Flattened(root, params) && DotlessPath(path)
    ensures Key(path) in params <==> TopLeafAt(root, path).Some?
    ensures TopLeafAt(root, path).Some? ==>
              params[Key(path)] == TopLeafAt(root, path).value.(mostCommon := Surfaced(root, path))
  {
    var raw: map<string, ParamSpec> :| Written(map[], raw, RootFlags(root)) && params == Tabled(root, raw);
    RawExact(root, raw, path);
    if TopLeafAt(root, path).Some? {
      MarkedIff(root, path);
      NotMarkedYet(root, path);
    }
  }

  lemma {:induction false} NotMarkedYet(root: Schema, path: Path)
    requires path != [] && TopLeafAt(root, path).Some?
    ensures !TopLeafAt(root, path).value.mostCommon
  {
    if LeafAt(root, true, path).Some? {
      LeafNotMarked(root, true, path);
    }
  }

  lemma {:induction false} LeafNotMarked(s: Schema, required: bool, path: Path)
    requires path != [] && LeafAt(s, required, path).Some?
    ensures !LeafAt(s, required, path).value.mostCommon
    decreases |path|
  {
    if |path| > 1 {
      var obj := ResolveObjectSchema(s.properties[path[0]]);
      LeafNotMarked(obj.value, required && path[0] in s.required, path[1..]);
    }
  }

  /** A parameter is required exactly when every step of its path is required by its own object. */
  predicate AllRequired(s: Schema, path: Path)
    requires path != []
    decreases |path|
  {
    path[0] in s.required
    && (|path| == 1
        || (path[0] in s.properties
            && var obj := ResolveObjectSchema(s.properties[path[0]]); obj.Some? && AllRequired(obj.value, path[1..])))
  }

  lemma {:induction false} RequiredIff(s: Schema, required: bool, path: Path)
    requires path != [] && LeafAt(s, required, path).Some?
    ensures LeafAt(s, required, path).value.required <==> required && AllRequired(s, path)
    decreases |path|
  {
    if |path| > 1 {
      RequiredIff(ResolveObjectSchema(s.properties[path[0]]).value, required && path[0] in s.required, path[1..]);
    }
  }
}
