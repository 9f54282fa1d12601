/** Which schemas become a flag, and of which type, without reference to the functions that decide it
(pkg/gen/resource_utils.go).
*/
module SchemaTypes {
  import opened Text
  import opened SchemaParams
  import FirstSentence

  // ---------------------------------------------------------------------------
  // Types
  // ---------------------------------------------------------------------------

  /** The schemas without branches below a schema, depth first. */
  function Branches(s: Schema): seq<Schema>
    decreases s, 1
  {
    if s.anyOf == [] then [s] else BranchesOf(s.anyOf)
  }

  function BranchesOf(branches: seq<Schema>): seq<Schema>
    decreases branches, 0
  {
    if branches == [] then [] else Branches(branches[0]) + BranchesOf(branches[1..])
  }

  /** A scalar, but not a string that can only be empty, or an array whose items are no objects. */
  predicate Typed(s: Schema) {
    || s.kind in {"boolean", "integer", "number"}
    || (s.kind == "string" && s.enumValues != [EnumValue.Text("")])
    || (s.kind == "array" && s.itemKind != "object")
  }

  ghost predicate FirstTyped(schemas: seq<Schema>, i: nat) {
    i < |schemas| && Typed(schemas[i]) && forall j :: 0 <= j < i ==> !Typed(schemas[j])
  }

  /** The type of the first of these schemas that has one. */
  ghost predicate TypeOfFirst(schemas: seq<Schema>, kind: Option<string>) {
    match kind
    case None => forall i :: 0 <= i < |schemas| ==> !Typed(schemas[i])
    case Some(k) => exists i: nat :: FirstTyped(schemas, i) && schemas[i].kind == k
  }

  /** The type of a schema is that of the first scalar, or array of scalars, among its branches. */
  lemma {:induction false} TypeIsFirst(s: Schema)
    ensures TypeOfFirst(Branches(s), GetType(s))
    decreases s, 1
  {
    if s.anyOf != [] {
      TypeOfBranches(s.anyOf);
    } else if GetType(s).Some? {
      assert FirstTyped([s], 0);
    }
  }

  lemma {:induction false} TypeOfBranches(branches: seq<Schema>)
    ensures TypeOfFirst(BranchesOf(branches), FirstType(branches))
    decreases branches, 0
  {
    if branches != [] {
      TypeIsFirst(branches[0]);
      TypeOfBranches(branches[1..]);
      TypeOfConcat(Branches(branches[0]), GetType(branches[0]), BranchesOf(branches[1..]), FirstType(branches[1..]));
    }
  }

  lemma TypeOfConcat(a: seq<Schema>, s: Option<string>, b: seq<Schema>, t: Option<string>)
    requires TypeOfFirst(a, s) && TypeOfFirst(b, t)
    ensures TypeOfFirst(a + b, if s.Some? then s else t)
  {
    if s.Some? {
      var i: nat :| FirstTyped(a, i) && a[i].kind == s.value;
      assert FirstTyped(a + b, i);
    } else if t.Some? {
      var i: nat :| FirstTyped(b, i) && b[i].kind == t.value;
      assert FirstTyped(a + b, |a| + i);
    }
  }

  ghost predicate HasType(s: Schema) {
    exists b :: b in Branches(s) && Typed(b)
  }

  lemma HasTypeIff(s: Schema)
    ensures GetType(s).Some? <==> HasType(s)
  {
    TypeIsFirst(s);
    if GetType(s).Some? {
      var i: nat :| FirstTyped(Branches(s), i) && Branches(s)[i].kind == GetType(s).value;
      assert Branches(s)[i] in Branches(s);
    }
  }

  // ---------------------------------------------------------------------------
  // Objects
  // ---------------------------------------------------------------------------

  predicate IsObject(s: Schema) {
    s.kind == "object" || s.properties != map[]
  }

  /** A schema and everything below it, the `anyOf` branches before the `oneOf` branches, depth first. */
  function Nodes(s: Schema): seq<Schema>
    decreases s, 1
  {
    [s] + NodesOf(s.anyOf) + NodesOf(s.oneOf)
  }

  function NodesOf(branches: seq<Schema>): seq<Schema>
    decreases branches, 0
  {
    if branches == [] then [] else Nodes(branches[0]) + NodesOf(branches[1..])
  }

  ghost predicate FirstObjectAt(schemas: seq<Schema>, i: nat) {
    i < |schemas| && IsObject(schemas[i]) && forall j :: 0 <= j < i ==> !IsObject(schemas[j])
  }

  ghost predicate IsFirstObject(schemas: seq<Schema>, obj: Option<Schema>) {
    match obj
    case None => forall i :: 0 <= i < |schemas| ==> !IsObject(schemas[i])
    case Some(o) => exists i: nat :: FirstObjectAt(schemas, i) && schemas[i] == o
  }

  /** A schema resolves to the first object at or below it. */
  lemma {:induction false} ObjectIsFirst(s: Schema)
    ensures IsFirstObject(Nodes(s), ResolveObjectSchema(s))
    decreases s, 1
  {
    FirstObjectOf(s.anyOf);
    FirstObjectOf(s.oneOf);
    var self := if IsObject(s) then Some(s) else None;
    assert IsObject(s) ==> FirstObjectAt([s], 0);
    ObjectOfConcat([s], self, NodesOf(s.anyOf), FirstObject(s.anyOf));
    ObjectOfConcat([s] + NodesOf(s.anyOf), if self.Some? then self else FirstObject(s.anyOf),
                   NodesOf(s.oneOf), FirstObject(s.oneOf));
  }

  lemma {:induction false} FirstObjectOf(branches: seq<Schema>)
    ensures IsFirstObject(NodesOf(branches), FirstObject(branches))
    decreases branches, 0
  {
    if branches != [] {
      ObjectIsFirst(branches[0]);
      FirstObjectOf(branches[1..]);
      ObjectOfConcat(Nodes(branches[0]), ResolveObjectSchema(branches[0]),
                     NodesOf(branches[1..]), FirstObject(branches[1..]));
    }
  }

  lemma ObjectOfConcat(a: seq<Schema>, x: Option<Schema>, b: seq<Schema>, y: Option<Schema>)
    requires IsFirstObject(a, x) && IsFirstObject(b, y)
    ensures IsFirstObject(a + b, if x.Some? then x else y)
  {
    if x.Some? {
      var i: nat :| FirstObjectAt(a, i) && a[i] == x.value;
      assert FirstObjectAt(a + b, i);
    } else if y.Some? {
      var i: nat :| FirstObjectAt(b, i) && b[i] == y.value;
      assert FirstObjectAt(a + b, |a| + i);
    }
  }

  ghost predicate HasObject(s: Schema) {
    exists n :: n in Nodes(s) && IsObject(n)
  }

  lemma HasObjectIff(s: Schema)
    ensures ResolveObjectSchema(s).Some? <==> HasObject(s)
  {
    ObjectIsFirst(s);
    if ResolveObjectSchema(s).Some? {
      var i: nat :| FirstObjectAt(Nodes(s), i) && Nodes(s)[i] == ResolveObjectSchema(s).value;
      assert Nodes(s)[i] in Nodes(s);
    }
  }

  // ---------------------------------------------------------------------------
  // Choices
  // ---------------------------------------------------------------------------

  /** The usable values of an `enum` list. */
  predicate Usable(v: EnumValue) {
    v.Text? && v.text != ""
  }

  /** Values that are dropped between two choices leave the others in their order. */
  lemma {:induction false} ChoicesConcat(a: seq<EnumValue>, b: seq<EnumValue>)
    ensures NonEmptyTexts(a + b) == NonEmptyTexts(a) + NonEmptyTexts(b)
  {
    if a == [] {
      assert a + b == b;
    } else {
      assert (a + b)[1..] == a[1..] + b;
      ChoicesConcat(a[1..], b);
    }
  }

  /** The choices of a flag: the nonempty strings of the `enum` list, each at the place that the number of
      those before it gives, and the values of `x-stripeEnum` only if there is no such list. */
  lemma ChoicesOf(s: Schema, i: nat)
    requires i < |s.enumValues| && Usable(s.enumValues[i])
    ensures var n := |NonEmptyTexts(s.enumValues[..i])|;
      n < |MergeEnumValues(s)| && EnumValue.Text(MergeEnumValues(s)[n]) == s.enumValues[i]
  {
    var before, after := s.enumValues[..i], s.enumValues[i..];
    assert s.enumValues == before + after;
    ChoicesConcat(before, after);
  }

  lemma NoOtherChoices(s: Schema)
    ensures s.enumValues == [] ==> MergeEnumValues(s) == s.stripeEnum
    ensures (forall i :: 0 <= i < |s.enumValues| ==> !Usable(s.enumValues[i])) && s.enumValues != [] ==>
      MergeEnumValues(s) == []
  {
    if s.enumValues != [] && MergeEnumValues(s) != [] {
      ChoicesIff(s.enumValues, MergeEnumValues(s)[0]);
    }
  }

  // ---------------------------------------------------------------------------
  // Flags
  // ---------------------------------------------------------------------------

  ghost predicate BecomesFlag(p: Parameter) {
    p.location == "query" && p.name != "metadata" && p.name != "expand" && HasType(p.schema)
  }

  /** The parameters of a name that become a flag, up to the last of them. */
  ghost predicate LastFlag(parameters: seq<Parameter>, i: nat, k: string) {
    && i < |parameters| && BecomesFlag(parameters[i]) && parameters[i].name == k
    && forall j :: i < j < |parameters| && BecomesFlag(parameters[j]) ==> parameters[j].name != k
  }

  ghost predicate DescribedBy(spec: ParamSpec, s: Schema, description: string, required: bool) {
    && TypeOfFirst(Branches(s), Some(spec.kind)) && spec.choices == MergeEnumValues(s)
    && spec.shortDescription == FirstSentence.Sentence(description)
    && spec.required == required && spec.format == s.format && !spec.mostCommon
  }

  lemma FlagIff(p: Parameter)
    ensures IsFlag(p) <==> BecomesFlag(p)
    ensures IsFlag(p) ==> DescribedBy(QueryFlag(p), p.schema, p.description, p.required)
  {
    HasTypeIff(p.schema);
    TypeIsFirst(p.schema);
  }

  lemma LastFlagIff(parameters: seq<Parameter>, i: nat, k: string)
    ensures LastFlag(parameters, i, k) <==> Names(parameters, i, k) && LastOfName(parameters, i)
  {
    forall j | 0 <= j < |parameters| ensures IsFlag(parameters[j]) <==> BecomesFlag(parameters[j]) {
      FlagIff(parameters[j]);
    }
    if LastFlag(parameters, i, k) {
      forall j: nat | i < j ensures !Names(parameters, j, parameters[i].name) {
      }
    }
    if Names(parameters, i, k) && LastOfName(parameters, i) {
      forall j: nat | i < j < |parameters| && BecomesFlag(parameters[j]) ensures parameters[j].name != k {
        assert !Names(parameters, j, parameters[i].name);
      }
    }
  }

  /** A name is a flag of a query if and only if some query parameter of that name has a type, and the
      last of them describes it. */
  lemma QueryFlagIff(parameters: seq<Parameter>, k: string)
    ensures k in QueryFlags(parameters) <==> exists i: nat :: LastFlag(parameters, i, k)
    ensures forall i: nat :: LastFlag(parameters, i, k) ==>
      && k in QueryFlags(parameters)
      && DescribedBy(QueryFlags(parameters)[k], parameters[i].schema, parameters[i].description, parameters[i].required)
  {
    if k in QueryFlags(parameters) {
      var i := FlagIsListed(parameters, k);
      LastFlagIff(parameters, i, k);
    }
    forall i: nat | LastFlag(parameters, i, k)
      ensures k in QueryFlags(parameters)
      ensures DescribedBy(QueryFlags(parameters)[k], parameters[i].schema, parameters[i].description,
                          parameters[i].required)
    {
      LastFlagIff(parameters, i, k);
      LastListedWins(parameters, i);
      FlagIff(parameters[i]);
    }
  }

  // ---------------------------------------------------------------------------
  // Properties
  // ---------------------------------------------------------------------------

  /** The path leads through properties, each of which but the last resolves to an object, to `target`. */
  ghost predicate Leads(s: Schema, path: Path, target: Schema)
    requires path != []
    decreases |path|
  {
    path[0] in s.properties &&
    var child := s.properties[path[0]];
    if |path| == 1 then target == child
    else exists obj :: IsFirstObject(Nodes(child), Some(obj)) && Leads(obj, path[1..], target)
  }

  lemma OneFirstObject(schemas: seq<Schema>, a: Option<Schema>, b: Option<Schema>)
    requires IsFirstObject(schemas, a) && IsFirstObject(schemas, b)
    ensures a == b
  {
    if a.Some? && b.Some? {
      var i: nat :| FirstObjectAt(schemas, i) && schemas[i] == a.value;
      var j: nat :| FirstObjectAt(schemas, j) && schemas[j] == b.value;
      assert i == j;
    }
  }

  /** A leaf is at the end of a path that leads to a schema with a type, but without an object. */
  lemma {:induction false} LeafIff(s: Schema, required: bool, path: Path)
    requires path != []
    ensures LeafAt(s, required, path).Some? <==>
      exists target :: Leads(s, path, target) && !HasObject(target) && HasType(target)
    ensures forall target :: LeafAt(s, required, path).Some? && Leads(s, path, target) ==>
      var spec := LeafAt(s, required, path).value;
      DescribedBy(spec, target, target.description, spec.required)
    decreases |path|
  {
    if path[0] in s.properties {
      var child := s.properties[path[0]];
      var needed := required && path[0] in s.required;
      var obj := ResolveObjectSchema(child);
      ObjectIsFirst(child);
      if |path| == 1 {
        HasObjectIff(child);
        HasTypeIff(child);
        TypeIsFirst(child);
        assert Leads(s, path, child);
      } else {
        forall target ensures Leads(s, path, target) <==> obj.Some? && Leads(obj.value, path[1..], target) {
          forall o | IsFirstObject(Nodes(child), Some(o)) ensures obj == Some(o) {
            OneFirstObject(Nodes(child), obj, Some(o));
          }
        }
        if obj.Some? {
          LeafIff(obj.value, needed, path[1..]);
        }
      }
    }
  }

  ghost predicate Clearable(s: Schema) {
    && (exists b :: b in s.anyOf && b.kind == "object")
    && (exists b :: b in s.anyOf && b.kind == "string" && b.enumValues == [EnumValue.Text("")])
  }

  lemma ClearableIff(s: Schema)
    ensures IsClearableObject(s) <==> Clearable(s)
  {
  }

  /** A path is a key of the table of a request body if and only if its property is offered and it leads to
      a schema with a type, but without an object, or, at the top, to an object that can be cleared. */
  lemma TableKeyIff(root: Schema, params: map<string, ParamSpec>, path: Path)
    requires Dotless(root) && Flattened(root, params) && DotlessPath(path)
    ensures Key(path) in params <==>
      && path[0] !in {"metadata", "expand"}
      && path[0] in root.properties && !root.properties[path[0]].notPublic
      && exists target :: Leads(root, path, target)
           && if HasObject(target) then |path| == 1 && Clearable(target) else HasType(target)
  {
    FlattenedExact(root, params, path);
    LeafIff(root, true, path);
    if path[0] in root.properties {
      var child := root.properties[path[0]];
      HasObjectIff(child);
      ClearableIff(child);
      if |path| == 1 {
        assert Leads(root, path, child);
      } else {
        NoObjectAtLeaf(root, path);
      }
    }
  }

  /** An object that can be cleared is a flag of its own kind, never required and without a description,
      surfaced exactly if the body calls it common. */
  lemma ClearableFlag(root: Schema, params: map<string, ParamSpec>, p: string)
    requires Dotless(root) && Flattened(root, params) && '.' !in p
    requires p in root.properties && p !in {"metadata", "expand"} && !root.properties[p].notPublic
    requires HasObject(root.properties[p]) && Clearable(root.properties[p])
    ensures p in params && params[p] == ParamSpec("clearable_object", "", false, "", [], p in root.mostCommon)
  {
    var path := [p];
    HasObjectIff(root.properties[p]);
    ClearableIff(root.properties[p]);
    FlattenedExact(root, params, path);
    assert Key(path) == p;
  }

  lemma NoObjectAtLeaf(root: Schema, path: Path)
    requires |path| > 1
    ensures TopLeafAt(root, path).Some? <==> Offered(root, path[0]) && LeafAt(root, true, path).Some?
  {
  }
}
