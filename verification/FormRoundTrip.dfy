/** The form entries of a fixture determine the fixture.

A decoder for bracketed form data, written without reference to the encoder, recovers the
parameters from the output of `ParseToFormData`, exactly up to what the encoder drops.
*/
module FormRoundTrip {
  import opened Text
  import opened FormData

  // ---------------------------------------------------------------------------
  // A decoder for bracketed form data
  // ---------------------------------------------------------------------------

  /** A form key split into its segments, with the value it carries. */
  datatype Entry = Entry(path: seq<string>, value: string)

  /** A decoded tree: objects are unordered and every leaf is text. `Nil` stands for JSON null. */
  datatype Val = Nil | Leaf(text: string) | List(items: seq<Val>) | Table(fields: map<string, Val>)

  function ParseBrackets(s: string): seq<string> {
    if s == "" || s[0] != '[' then [] else
    var j := IndexOf(s, ']');
    if j == |s| then [] else [s[1..j]] + ParseBrackets(s[j + 1..])
  }

  function ParseKey(key: string): seq<string> {
    var i := IndexOf(key, '[');
    [key[..i]] + ParseBrackets(key[i..])
  }

  function ParseEntry(line: string): Entry {
    var i := IndexOf(line, '=');
    Entry(ParseKey(line[..i]), if i < |line| then line[i + 1..] else "")
  }

  function ParseEntries(data: seq<string>): seq<Entry> {
    if data == [] then [] else [ParseEntry(data[0])] + ParseEntries(data[1..])
  }

  function Head(e: Entry): string {
    if e.path == [] then "" else e.path[0]
  }

  function Size(es: seq<Entry>): nat {
    if es == [] then 0 else |es[0].path| + Size(es[1..])
  }

  /** The entries below segment `h`, with that segment removed. */
  function Select(es: seq<Entry>, h: string): seq<Entry> {
    if es == [] then [] else SelectOne(es[0], h) + Select(es[1..], h)
  }

  function SelectOne(e: Entry, h: string): seq<Entry> {
    if e.path != [] && e.path[0] == h then [Entry(e.path[1..], e.value)] else []
  }

  lemma {:induction false} SelectSmaller(es: seq<Entry>, h: string)
    ensures Size(Select(es, h)) + |Select(es, h)| <= Size(es)
  {
    if es != [] {
      SelectSmaller(es[1..], h);
      var one, rest := SelectOne(es[0], h), Select(es[1..], h);
      if one == [] {
        assert one + rest == rest;
      } else {
        assert (one + rest)[1..] == rest;
      }
    }
  }

  function Without(es: seq<Entry>, h: string): (r: seq<Entry>)
    ensures |r| <= |es|
  {
    if es == [] then [] else WithoutOne(es[0], h) + Without(es[1..], h)
  }

  function WithoutOne(e: Entry, h: string): seq<Entry> {
    if Head(e) == h then [] else [e]
  }

  /** The distinct first segments, in order of first appearance. */
  function Heads(es: seq<Entry>): seq<string>
    decreases |es|
  {
    if es == [] then [] else [Head(es[0])] + Heads(Without(es[1..], Head(es[0])))
  }

  function Leaves(es: seq<Entry>): seq<Val> {
    if es == [] then [] else [Leaf(es[0].value)] + Leaves(es[1..])
  }

  /** `a=v` is a leaf, `a[]=v` an array of scalars, `a[0]...` an array, anything else an object. */
  function Build(es: seq<Entry>): Val
    decreases Size(es), 1, 0
  {
    if es == [] then Table(map[])
    else if es[0].path == [] then Leaf(es[0].value)
    else if es[0].path[0] == "" then List(Leaves(es))
    else if IsNumeral(es[0].path[0]) then List(BuildItems(es, Heads(es)))
    else Table(BuildFields(es, Heads(es)))
  }

  function BuildItems(es: seq<Entry>, hs: seq<string>): seq<Val>
    decreases Size(es), 0, |hs|
  {
    if hs == [] then [] else
    var below := Select(es, hs[0]);
    SelectSmaller(es, hs[0]);
    (if below == [] then [] else [Build(below)]) + BuildItems(es, hs[1..])
  }

  function BuildFields(es: seq<Entry>, hs: seq<string>): map<string, Val>
    decreases Size(es), 0, |hs|
  {
    if hs == [] then map[] else
    var below := Select(es, hs[0]);
    SelectSmaller(es, hs[0]);
    if below == [] then BuildFields(es, hs[1..]) else BuildFields(es, hs[1..])[hs[0] := Build(below)]
  }

  function DecodeForm(data: seq<string>): Val {
    Build(ParseEntries(data))
  }

  // ---------------------------------------------------------------------------
  // What a fixture means, and what survives encoding
  // ---------------------------------------------------------------------------

  function Parsed(text: string, q: Query): string {
    match q(text) case None => "" case Some(parsed) => parsed
  }

  /** Every string in the tree resolves. */
  predicate Resolves(v: Json, q: Query)
    decreases v, 1
  {
    match v
    case Str(text) => q(text).Some?
    case Arr(items) => ItemsResolve(items, q)
    case Obj(fields) => FieldsResolve(fields, q)
    case _ => true
  }

  predicate ItemsResolve(items: seq<Json>, q: Query)
    decreases items, 0
  {
    items == [] || (Resolves(items[0], q) && ItemsResolve(items[1..], q))
  }

  predicate FieldsResolve(fields: seq<Field>, q: Query)
    decreases fields, 0
  {
    fields == [] || (Resolves(fields[0].value, q) && FieldsResolve(fields[1..], q))
  }

  /** The parameters as a tree without field order, nothing dropped. */
  function Full(v: Json, q: Query): Val
    decreases v, 1
  {
    match v
    case Null => Nil
    case Str(text) => Leaf(Parsed(text, q))
    case Int(number) => Leaf(SignedDecimal(number))
    case Float(digits) => Leaf(digits)
    case Bool(flag) => Leaf(if flag then "true" else "false")
    case Arr(items) => List(FullItems(items, q))
    case Obj(fields) => Table(FullFields(fields, q))
  }

  function FullItems(items: seq<Json>, q: Query): (r: seq<Val>)
    ensures |r| == |items|
    decreases items, 0
  {
    if items == [] then [] else [Full(items[0], q)] + FullItems(items[1..], q)
  }

  function FullFields(fields: seq<Field>, q: Query): (r: map<string, Val>)
    ensures r.Keys == set i | 0 <= i < |fields| :: fields[i].key
    decreases fields, 0
  {
    if fields == [] then map[] else FullFields(fields[1..], q)[fields[0].key := Full(fields[0].value, q)]
  }

  /** Nothing is dropped: no nulls, no empty containers, and arrays of strings, integers or objects. */
  ghost predicate Lossless(v: Json) {
    match v
    case Null => false
    case Arr(items) =>
      items != [] && forall i :: 0 <= i < |items| ==>
        (items[i].Str? || items[i].Int? || items[i].Obj?) && Lossless(items[i])
    case Obj(fields) => fields != [] && forall i :: 0 <= i < |fields| ==> Lossless(fields[i].value)
    case _ => true
  }

  /** A key that form syntax can carry: not an array marker and without `[`, `]` or `=`. */
  predicate CleanKey(key: string) {
    key != "" && !IsNumeral(key) && '[' !in key && ']' !in key && '=' !in key
  }

  /** Text whose end is not trimmed away. */
  predicate CleanEnd(text: string) {
    text == "" || !IsSpace(text[|text| - 1])
  }

  ghost predicate DistinctKeys(fields: seq<Field>) {
    forall i, j :: 0 <= i < j < |fields| ==> fields[i].key != fields[j].key
  }

  /** Parameters that form data can represent: clean keys, each array all scalars or all objects. */
  ghost predicate Regular(v: Json, q: Query) {
    match v
    case Str(text) => CleanEnd(Parsed(text, q))
    case Float(digits) => CleanEnd(digits)
    case Obj(fields) =>
      && DistinctKeys(fields)
      && forall i :: 0 <= i < |fields| ==> CleanKey(fields[i].key) && Regular(fields[i].value, q)
    case Arr(items) =>
      && (forall i :: 0 <= i < |items| ==> Regular(items[i], q))
      && (AllObjects(items) || AllScalars(items))
    case _ => true
  }

  predicate AllObjects(items: seq<Json>) {
    forall i :: 0 <= i < |items| ==> items[i].Obj?
  }

  predicate AllScalars(items: seq<Json>) {
    forall i :: 0 <= i < |items| ==> !items[i].Obj? && !items[i].Arr?
  }

  /** What is left of a value once the encoder has dropped what it drops. */
  function Kept(v: Json, q: Query): Option<Val>
    decreases v, 1
  {
    match v
    case Null => None
    case Obj(fields) =>
      var kept := KeptFields(fields, q);
      if kept == map[] then None else Some(Table(kept))
    case Arr(items) =>
      var kept := KeptItems(items, q);
      if kept == [] then None else Some(List(kept))
    case _ => Some(Full(v, q))
  }

  function KeptItems(items: seq<Json>, q: Query): (r: seq<Val>)
    ensures |r| <= |items|
    decreases items, 0
  {
    if items == [] then []
    else if (items[0].Str? || items[0].Int? || items[0].Obj?) && Kept(items[0], q).Some? then
      [Kept(items[0], q).value] + KeptItems(items[1..], q)
    else KeptItems(items[1..], q)
  }

  function KeptFields(fields: seq<Field>, q: Query): (r: map<string, Val>)
    ensures forall k :: k in r ==> exists i :: 0 <= i < |fields| && fields[i].key == k
    decreases fields, 0
  {
    if fields == [] then map[] else
    var rest := KeptFields(fields[1..], q);
    match Kept(fields[0].value, q)
    case None => rest
    case Some(val) => rest[fields[0].key := val]
  }

  // ---------------------------------------------------------------------------
  // The encoder's entries, as paths
  // ---------------------------------------------------------------------------

  function Under(seg: string, es: seq<Entry>): (r: seq<Entry>)
    ensures |r| == |es|
  {
    if es == [] then [] else [Entry([seg] + es[0].path, es[0].value)] + Under(seg, es[1..])
  }

  function Entries(v: Json, q: Query): seq<Entry>
    decreases v, 1
  {
    match v
    case Str(text) => [Entry([], Parsed(text, q))]
    case Int(number) => [Entry([], SignedDecimal(number))]
    case Float(digits) => [Entry([], digits)]
    case Bool(flag) => [Entry([], BoolText(flag))]
    case Obj(fields) => FieldEntries(fields, q)
    case Arr(items) => ItemEntries(items, -1, q)
    case Null => []
  }

  function FieldEntries(fields: seq<Field>, q: Query): seq<Entry>
    decreases fields, 0
  {
    if fields == [] then []
    else Under(fields[0].key, Entries(fields[0].value, q)) + FieldEntries(fields[1..], q)
  }

  function ItemEntries(items: seq<Json>, index: int, q: Query): seq<Entry>
    requires index >= -1
    decreases items, 0
  {
    if items == [] then [] else
    match items[0]
    case Obj(fields) => Under(Decimal(index + 1), FieldEntries(fields, q)) + ItemEntries(items[1..], index + 1, q)
    case _ => OneItem(items[0], q) + ItemEntries(items[1..], index, q)
  }

  /** The entries of one item that is not an object. */
  function OneItem(item: Json, q: Query): seq<Entry>
    decreases item, 0
  {
    match item
    case Str(text) => [Entry([""], Parsed(text, q))]
    case Int(number) => [Entry([""], SignedDecimal(number))]
    case Arr(inner) => ItemEntries(inner, -1, q)
    case _ => []
  }

  function Brackets(path: seq<string>): string {
    if path == [] then "" else "[" + path[0] + "]" + Brackets(path[1..])
  }

  function Render(parent: string, e: Entry): string {
    parent + Brackets(e.path) + "=" + e.value
  }

  function RenderAll(parent: string, es: seq<Entry>): seq<string> {
    if es == [] then [] else [Render(parent, es[0])] + RenderAll(parent, es[1..])
  }

  lemma {:induction false} RenderUnder(parent: string, seg: string, es: seq<Entry>)
    ensures RenderAll(parent, Under(seg, es)) == RenderAll(parent + "[" + seg + "]", es)
  {
    if es != [] {
      RenderUnder(parent, seg, es[1..]);
      var path := [seg] + es[0].path;
      assert path[1..] == es[0].path;
      assert Render(parent, Entry(path, es[0].value)) == Render(parent + "[" + seg + "]", es[0]) by {
        assert parent + ("[" + seg + "]" + Brackets(es[0].path)) == parent + "[" + seg + "]" + Brackets(es[0].path);
      }
      assert Under(seg, es)[1..] == Under(seg, es[1..]);
    }
  }

  lemma {:induction false} RenderConcat(parent: string, a: seq<Entry>, b: seq<Entry>)
    ensures RenderAll(parent, a + b) == RenderAll(parent, a) + RenderAll(parent, b)
  {
    if a == [] {
      assert a + b == b;
    } else {
      TailOfConcat(a, b);
      RenderConcat(parent, a[1..], b);
      Associative([Render(parent, a[0])], RenderAll(parent, a[1..]), RenderAll(parent, b));
    }
  }

  lemma {:induction false} CleanConcat(a: seq<string>, b: seq<string>)
    ensures Clean(a + b) == Clean(a) + Clean(b)
  {
    if a == [] {
      assert a + b == b;
    } else {
      TailOfConcat(a, b);
      CleanConcat(a[1..], b);
      Associative(CleanOne(a[0]), Clean(a[1..]), Clean(b));
    }
  }

  lemma {:induction false} CleanBlanks(n: nat)
    ensures Clean(seq(n, _ => "")) == []
  {
    if n > 0 {
      CleanBlanks(n - 1);
      assert seq(n, _ => "")[1..] == seq(n - 1, _ => "");
    }
  }

  /** One appended piece: if both sides render to the same clean entries, so do the wholes. */
  lemma CleanAppend(parent: string, data: seq<string>, es: seq<Entry>, data': seq<string>, es': seq<Entry>)
    requires Clean(data) == Clean(RenderAll(parent, es))
    requires Clean(data') == Clean(RenderAll(parent, es'))
    ensures Clean(data + data') == Clean(RenderAll(parent, es + es'))
  {
    RenderConcat(parent, es, es');
    CleanConcat(data, data');
    CleanConcat(RenderAll(parent, es), RenderAll(parent, es'));
  }

  /** The bracketed prefix that `KeyName` puts before a key. */
  function Base(parent: string, index: int): string {
    if index >= 0 then parent + "[" + Decimal(index) + "]" else parent
  }

  // Encoding fails only on a text that does not resolve.

  lemma {:induction false} FieldDataResolves(keyname: string, v: Json, q: Query)
    ensures FieldData(keyname, v, q).Ok? <==> Resolves(v, q)
    decreases v, 1
  {
    match v
    case Obj(fields) => MapDataResolves(fields, keyname, -1, q);
    case Arr(items) => ItemsDataResolve(items, keyname, -1, q);
    case _ =>
  }

  lemma {:induction false} MapDataResolves(fields: seq<Field>, parent: string, index: int, q: Query)
    ensures MapData(fields, parent, index, q).Ok? <==> FieldsResolve(fields, q)
    decreases fields, 0
  {
    if fields != [] {
      FieldDataResolves(KeyName(parent, index, fields[0].key), fields[0].value, q);
      MapDataResolves(fields[1..], parent, index, q);
    }
  }

  lemma {:induction false} ItemsDataResolve(items: seq<Json>, parent: string, index: int, q: Query)
    ensures ItemsData(items, parent, index, q).Ok? <==> ItemsResolve(items, q)
    decreases items, 0
  {
    if items != [] {
      match items[0] {
        case Obj(fields) =>
          MapDataResolves(fields, parent, index + 1, q);
          ItemsDataResolve(items[1..], parent, index + 1, q);
        case Arr(inner) =>
          assert ItemData(items[0], parent, q) == ArrayData(inner, parent, q);
          ItemsDataResolve(inner, parent, -1, q);
          ItemsDataResolve(items[1..], parent, index, q);
        case _ =>
          ItemsDataResolve(items[1..], parent, index, q);
      }
    }
  }

  lemma {:induction false} FieldDataEntries(keyname: string, v: Json, q: Query)
    requires keyname != "" && FieldData(keyname, v, q).Ok?
    ensures Clean(FieldData(keyname, v, q).value) == Clean(RenderAll(keyname, Entries(v, q)))
    decreases v, 1
  {
    match v
    case Obj(fields) => MapDataEntries(fields, keyname, -1, q);
    case Arr(items) => ArrayDataEntries(items, keyname, q);
    case Null =>
    case _ =>
      var e := Entries(v, q)[0];
      assert keyname + "" == keyname;
      assert RenderAll(keyname, [e]) == [Render(keyname, e)];
  }

  lemma {:induction false} MapDataEntries(fields: seq<Field>, parent: string, index: int, q: Query)
    requires parent != "" && MapData(fields, parent, index, q).Ok?
    ensures Clean(MapData(fields, parent, index, q).value)
         == Clean(RenderAll(Base(parent, index), FieldEntries(fields, q)))
    decreases fields, 0
  {
    if fields != [] {
      var keyname := KeyName(parent, index, fields[0].key);
      assert keyname == Base(parent, index) + "[" + fields[0].key + "]";
      FieldDataEntries(keyname, fields[0].value, q);
      MapDataEntries(fields[1..], parent, index, q);
      RenderUnder(Base(parent, index), fields[0].key, Entries(fields[0].value, q));
      CleanAppend(Base(parent, index),
                  FieldData(keyname, fields[0].value, q).value,
                  Under(fields[0].key, Entries(fields[0].value, q)),
                  MapData(fields[1..], parent, index, q).value,
                  FieldEntries(fields[1..], q));
    }
  }

  lemma {:induction false} ArrayDataEntries(items: seq<Json>, parent: string, q: Query)
    requires parent != "" && ArrayData(items, parent, q).Ok?
    ensures Clean(ArrayData(items, parent, q).value) == Clean(RenderAll(parent, ItemEntries(items, -1, q)))
    decreases items, 1
  {
    ItemsDataEntries(items, parent, -1, q);
    CleanBlanks(|items|);
    CleanConcat(seq(|items|, _ => ""), ItemsData(items, parent, -1, q).value);
  }

  lemma {:induction false} ItemsDataEntries(items: seq<Json>, parent: string, index: int, q: Query)
    requires parent != "" && index >= -1 && ItemsData(items, parent, index, q).Ok?
    ensures Clean(ItemsData(items, parent, index, q).value) == Clean(RenderAll(parent, ItemEntries(items, index, q)))
    decreases items, 0
  {
    if items != [] {
      var next := if items[0].Obj? then index + 1 else index;
      var head := HeadData(items[0], parent, index, q);
      var tail := ItemsData(items[1..], parent, next, q);
      assert ItemsData(items, parent, index, q) == Append(head, tail);
      HeadDataEntries(items[0], parent, index, q);
      ItemsDataEntries(items[1..], parent, next, q);
      assert ItemEntries(items, index, q) == HeadEntries(items[0], index, q) + ItemEntries(items[1..], next, q);
      CleanAppend(parent, head.value, HeadEntries(items[0], index, q),
                  tail.value, ItemEntries(items[1..], next, q));
    }
  }

  lemma {:induction false} HeadDataEntries(item: Json, parent: string, index: int, q: Query)
    requires parent != "" && index >= -1 && HeadData(item, parent, index, q).Ok?
    ensures Clean(HeadData(item, parent, index, q).value) == Clean(RenderAll(parent, HeadEntries(item, index, q)))
    decreases item, 1
  {
    if item.Obj? {
      MapDataEntries(item.fields, parent, index + 1, q);
      RenderUnder(parent, Decimal(index + 1), FieldEntries(item.fields, q));
    } else {
      ItemDataEntries(item, parent, q);
    }
  }

  function HeadData(item: Json, parent: string, index: int, q: Query): Result<seq<string>> {
    if item.Obj? then MapData(item.fields, parent, index + 1, q) else ItemData(item, parent, q)
  }

  function HeadEntries(item: Json, index: int, q: Query): seq<Entry>
    requires index >= -1
  {
    if item.Obj? then Under(Decimal(index + 1), FieldEntries(item.fields, q)) else OneItem(item, q)
  }

  lemma {:induction false} ItemDataEntries(item: Json, parent: string, q: Query)
    requires parent != "" && !item.Obj? && ItemData(item, parent, q).Ok?
    ensures Clean(ItemData(item, parent, q).value) == Clean(RenderAll(parent, OneItem(item, q)))
    decreases item, 0
  {
    match item
    case Arr(inner) => ArrayDataEntries(inner, parent, q);
    case Str(text) => RenderItem(parent, Parsed(text, q));
    case Int(number) => RenderItem(parent, SignedDecimal(number));
    case _ =>
  }

  lemma RenderItem(parent: string, value: string)
    ensures RenderAll(parent, [Entry([""], value)]) == [parent + "[]=" + value]
  {
    var e := Entry([""], value);
    assert Brackets([""]) == "[]" by { assert Brackets([""][1..]) == ""; }
    assert parent + "[]" + "=" + value == parent + "[]=" + value;
    assert RenderAll(parent, [e]) == [Render(parent, e)];
  }

  // ---------------------------------------------------------------------------
  // Decoding groups of entries
  // ---------------------------------------------------------------------------

  ghost predicate NoHead(es: seq<Entry>, h: string) {
    forall i :: 0 <= i < |es| ==> es[i].path != [] && es[i].path[0] != h
  }

  lemma {:induction false} NoHeadAbsent(es: seq<Entry>, h: string)
    requires NoHead(es, h)
    ensures Without(es, h) == es && Select(es, h) == []
  {
    if es != [] {
      assert forall i :: 0 <= i < |es[1..]| ==> es[1..][i] == es[i + 1];
      NoHeadAbsent(es[1..], h);
      assert Head(es[0]) != h;
    }
  }

  lemma {:induction false} SelectConcat(a: seq<Entry>, b: seq<Entry>, h: string)
    ensures Select(a + b, h) == Select(a, h) + Select(b, h)
  {
    if a == [] {
      assert a + b == b;
    } else {
      TailOfConcat(a, b);
      SelectConcat(a[1..], b, h);
      Associative(SelectOne(a[0], h), Select(a[1..], h), Select(b, h));
    }
  }

  lemma {:induction false} WithoutConcat(a: seq<Entry>, b: seq<Entry>, h: string)
    ensures Without(a + b, h) == Without(a, h) + Without(b, h)
  {
    if a == [] {
      assert a + b == b;
    } else {
      TailOfConcat(a, b);
      WithoutConcat(a[1..], b, h);
      Associative(WithoutOne(a[0], h), Without(a[1..], h), Without(b, h));
    }
  }

  lemma {:induction false} SelectUnder(seg: string, es: seq<Entry>, h: string)
    ensures Select(Under(seg, es), h) == if h == seg then es else []
    ensures Without(Under(seg, es), seg) == []
  {
    if es != [] {
      SelectUnder(seg, es[1..], h);
      assert ([seg] + es[0].path)[1..] == es[0].path;
    }
  }

  lemma {:induction false} HeadsUnder(seg: string, es: seq<Entry>, rest: seq<Entry>)
    requires es != [] && NoHead(rest, seg)
    ensures Heads(Under(seg, es) + rest) == [seg] + Heads(rest)
  {
    var all := Under(seg, es) + rest;
    assert all[1..] == Under(seg, es[1..]) + rest;
    assert Head(all[0]) == seg;
    WithoutConcat(Under(seg, es[1..]), rest, seg);
    SelectUnder(seg, es[1..], seg);
    NoHeadAbsent(rest, seg);
    assert [] + rest == rest;
  }

  lemma HeadsStep(seg: string, es: seq<Entry>, rest: seq<Entry>)
    requires NoHead(rest, seg)
    ensures Heads(Under(seg, es) + rest) == if es == [] then Heads(rest) else [seg] + Heads(rest)
  {
    if es == [] {
      assert Under(seg, es) + rest == rest;
    } else {
      HeadsUnder(seg, es, rest);
    }
  }

  lemma NoHeadUnder(seg: string, es: seq<Entry>, rest: seq<Entry>, h: string)
    requires h != seg && NoHead(rest, h)
    ensures NoHead(Under(seg, es) + rest, h)
  {
    UnderPaths(seg, es);
  }

  lemma {:induction false} UnderPaths(seg: string, es: seq<Entry>)
    ensures forall i :: 0 <= i < |es| ==>
      Under(seg, es)[i].path == [seg] + es[i].path && Under(seg, es)[i].value == es[i].value
  {
    if es != [] {
      UnderPaths(seg, es[1..]);
    }
  }

  // ----- objects

  /** The keys of the fields that leave at least one entry. */
  function KeptKeys(fields: seq<Field>, q: Query): seq<string> {
    if fields == [] then []
    else (if Entries(fields[0].value, q) == [] then [] else [fields[0].key]) + KeptKeys(fields[1..], q)
  }

  lemma {:induction false} FieldHeadsAbsent(fields: seq<Field>, q: Query, h: string)
    requires forall i :: 0 <= i < |fields| ==> fields[i].key != h
    ensures NoHead(FieldEntries(fields, q), h)
  {
    if fields != [] {
      FieldHeadsAbsent(fields[1..], q, h);
      NoHeadUnder(fields[0].key, Entries(fields[0].value, q), FieldEntries(fields[1..], q), h);
    }
  }

  lemma {:induction false} FieldHeads(fields: seq<Field>, q: Query)
    requires DistinctKeys(fields)
    ensures Heads(FieldEntries(fields, q)) == KeptKeys(fields, q)
    ensures forall i :: 0 <= i < |fields| ==>
      Select(FieldEntries(fields, q), fields[i].key) == Entries(fields[i].value, q)
  {
    if fields != [] {
      var rest := FieldEntries(fields[1..], q);
      var es := Entries(fields[0].value, q);
      FieldHeads(fields[1..], q);
      FieldHeadsAbsent(fields[1..], q, fields[0].key);
      if es == [] {
        assert Under(fields[0].key, es) + rest == rest;
      } else {
        HeadsUnder(fields[0].key, es, rest);
      }
      forall i | 0 <= i < |fields|
        ensures Select(FieldEntries(fields, q), fields[i].key) == Entries(fields[i].value, q)
      {
        SelectConcat(Under(fields[0].key, es), rest, fields[i].key);
        SelectUnder(fields[0].key, es, fields[i].key);
        if i == 0 {
          NoHeadAbsent(rest, fields[0].key);
        } else {
          assert fields[i] == fields[1..][i - 1];
        }
      }
    }
  }

  /** What decoding owes each value: nothing is left exactly when nothing is kept, else the kept tree. */
  ghost predicate Decodes(v: Json, q: Query) {
    && (Entries(v, q) == [] <==> Kept(v, q).None?)
    && (Kept(v, q).Some? ==> Build(Entries(v, q)) == Kept(v, q).value)
  }

  lemma {:induction false} TableOfFields(fields: seq<Field>, q: Query, es: seq<Entry>)
    requires forall i :: 0 <= i < |fields| ==>
      Select(es, fields[i].key) == Entries(fields[i].value, q) && Decodes(fields[i].value, q)
    ensures BuildFields(es, KeptKeys(fields, q)) == KeptFields(fields, q)
    ensures FieldEntries(fields, q) == [] <==> KeptFields(fields, q) == map[]
  {
    if fields != [] {
      assert forall i :: 0 <= i < |fields[1..]| ==> fields[1..][i] == fields[i + 1];
      TableOfFields(fields[1..], q, es);
      var field := fields[0];
      assert Decodes(field.value, q);
      var keys, rest := KeptKeys(fields, q), KeptKeys(fields[1..], q);
      if Entries(field.value, q) == [] {
        assert keys == rest;
      } else {
        assert keys[0] == field.key && keys[1..] == rest;
        assert KeptFields(fields, q) == KeptFields(fields[1..], q)[field.key := Kept(field.value, q).value];
        assert field.key in KeptFields(fields, q);
        UnderPaths(field.key, Entries(field.value, q));
      }
    }
  }

  lemma {:induction false} DecodeFields(fields: seq<Field>, q: Query)
    requires Regular(Obj(fields), q)
    ensures Build(FieldEntries(fields, q)) == Table(KeptFields(fields, q))
    ensures FieldEntries(fields, q) == [] <==> KeptFields(fields, q) == map[]
    decreases fields, 0
  {
    forall i | 0 <= i < |fields| ensures Decodes(fields[i].value, q) {
      DecodeValue(fields[i].value, q);
    }
    var es := FieldEntries(fields, q);
    FieldHeads(fields, q);
    TableOfFields(fields, q, es);
    if es != [] {
      FieldHeadsAbsent(fields, q, "");
      FirstHeadClean(fields, q);
    }
  }

  lemma {:induction false} FirstHeadClean(fields: seq<Field>, q: Query)
    requires forall i :: 0 <= i < |fields| ==> CleanKey(fields[i].key)
    requires FieldEntries(fields, q) != []
    ensures CleanKey(Head(FieldEntries(fields, q)[0]))
  {
    if Entries(fields[0].value, q) == [] {
      FirstHeadClean(fields[1..], q);
    }
  }

  // ----- arrays

  lemma {:induction false} ItemHeadsAbsent(items: seq<Json>, index: int, q: Query, n: nat)
    requires AllObjects(items) && index >= -1 && n <= index
    ensures NoHead(ItemEntries(items, index, q), Decimal(n))
  {
    if items != [] {
      ItemHeadsAbsent(items[1..], index + 1, q, n);
      DecimalInjective(index + 1, n);
      NoHeadUnder(Decimal(index + 1), FieldEntries(items[0].fields, q),
                  ItemEntries(items[1..], index + 1, q), Decimal(n));
    }
  }

  function KeptIndices(items: seq<Json>, index: int, q: Query): seq<string>
    requires AllObjects(items) && index >= -1
  {
    if items == [] then [] else
    var rest := KeptIndices(items[1..], index + 1, q);
    if FieldEntries(items[0].fields, q) == [] then rest else [Decimal(index + 1)] + rest
  }

  lemma {:induction false} ItemHeads(items: seq<Json>, index: int, q: Query)
    requires AllObjects(items) && index >= -1
    ensures Heads(ItemEntries(items, index, q)) == KeptIndices(items, index, q)
  {
    if items != [] {
      var seg := Decimal(index + 1);
      var rest := ItemEntries(items[1..], index + 1, q);
      var es := FieldEntries(items[0].fields, q);
      ItemHeads(items[1..], index + 1, q);
      ItemHeadsAbsent(items[1..], index + 1, q, index + 1);
      HeadsStep(seg, es, rest);
    }
  }

  lemma ItemSelectSplit(items: seq<Json>, index: int, q: Query, seg: string, h: string)
    requires items != [] && items[0].Obj? && index >= -1 && seg == Decimal(index + 1)
    ensures var es, rest := FieldEntries(items[0].fields, q), Select(ItemEntries(items[1..], index + 1, q), h);
      && (h != seg ==> Select(ItemEntries(items, index, q), h) == rest)
      && (h == seg && rest == [] ==> Select(ItemEntries(items, index, q), h) == es)
  {
    var es, rest := FieldEntries(items[0].fields, q), ItemEntries(items[1..], index + 1, q);
    SelectConcat(Under(seg, es), rest, h);
    SelectUnder(seg, es, h);
    assert es + [] == es && [] + Select(rest, h) == Select(rest, h);
  }

  lemma {:induction false} ItemSelect(items: seq<Json>, index: int, q: Query, k: nat, h: string)
    requires AllObjects(items) && index >= -1 && k < |items| && h == Decimal(index + 1 + k)
    ensures Select(ItemEntries(items, index, q), h) == FieldEntries(items[k].fields, q)
  {
    ItemSelectSplit(items, index, q, Decimal(index + 1), h);
    if k == 0 {
      ItemHeadsAbsent(items[1..], index + 1, q, index + 1);
      NoHeadAbsent(ItemEntries(items[1..], index + 1, q), h);
    } else {
      DecimalInjective(index + 1, index + 1 + k);
      ItemSelect(items[1..], index + 1, q, k - 1, h);
    }
  }

  lemma {:induction false} ListOfObjects(items: seq<Json>, k: nat, q: Query)
    requires AllObjects(items) && k <= |items|
    requires forall i :: 0 <= i < |items| ==> Decodes(items[i], q)
    ensures BuildItems(ItemEntries(items, -1, q), KeptIndices(items[k..], k - 1, q)) == KeptItems(items[k..], q)
    ensures ItemEntries(items[k..], k - 1, q) == [] <==> KeptItems(items[k..], q) == []
    decreases |items| - k
  {
    if k < |items| {
      ListOfObjects(items, k + 1, q);
      assert items[k..][1..] == items[k + 1..];
      assert Decodes(items[k], q);
      assert Entries(items[k], q) == FieldEntries(items[k].fields, q);
      ItemSelect(items, -1, q, k, Decimal(k));
      var keys := KeptIndices(items[k..], k - 1, q);
      if FieldEntries(items[k].fields, q) != [] {
        assert keys[0] == Decimal(k) && keys[1..] == KeptIndices(items[k + 1..], k, q);
      }
    }
  }

  lemma {:induction false} ListOfScalars(items: seq<Json>, index: int, q: Query)
    requires AllScalars(items) && index >= -1
    ensures Leaves(ItemEntries(items, index, q)) == KeptItems(items, q)
    ensures forall i :: 0 <= i < |ItemEntries(items, index, q)| ==> ItemEntries(items, index, q)[i].path == [""]
  {
    if items != [] {
      ListOfScalars(items[1..], index, q);
      var head := OneItem(items[0], q);
      var rest := ItemEntries(items[1..], index, q);
      assert ItemEntries(items, index, q) == head + rest;
      if head != [] {
        assert (head + rest)[1..] == rest;
      } else {
        assert head + rest == rest;
      }
    }
  }

  lemma {:induction false} DecodeItems(items: seq<Json>, q: Query)
    requires Regular(Arr(items), q)
    ensures Decodes(Arr(items), q)
    decreases items, 0
  {
    var es := ItemEntries(items, -1, q);
    if AllScalars(items) {
      ListOfScalars(items, -1, q);
    } else {
      forall i | 0 <= i < |items| ensures Decodes(items[i], q) {
        DecodeValue(items[i], q);
      }
      ItemHeads(items, -1, q);
      ListOfObjects(items, 0, q);
      assert items[0..] == items;
      if es != [] {
        FirstIndexNumeral(items, -1, q);
      }
    }
  }

  lemma {:induction false} FirstIndexNumeral(items: seq<Json>, index: int, q: Query)
    requires AllObjects(items) && index >= -1
    requires ItemEntries(items, index, q) != []
    ensures IsNumeral(Head(ItemEntries(items, index, q)[0]))
  {
    if FieldEntries(items[0].fields, q) == [] {
      FirstIndexNumeral(items[1..], index + 1, q);
    }
  }

  lemma {:induction false} DecodeValue(v: Json, q: Query)
    requires Regular(v, q)
    ensures Decodes(v, q)
    decreases v, 1
  {
    match v
    case Obj(fields) => DecodeFields(fields, q);
    case Arr(items) => DecodeItems(items, q);
    case _ =>
  }

  // ---------------------------------------------------------------------------
  // Reading rendered entries back
  // ---------------------------------------------------------------------------

  predicate CleanSegment(seg: string) {
    '[' !in seg && ']' !in seg && '=' !in seg
  }

  ghost predicate CleanEntry(e: Entry) {
    (forall i :: 0 <= i < |e.path| ==> CleanSegment(e.path[i])) && CleanEnd(e.value)
  }

  ghost predicate CleanEntries(es: seq<Entry>) {
    forall i :: 0 <= i < |es| ==> CleanEntry(es[i])
  }

  lemma CleanUnder(seg: string, es: seq<Entry>)
    requires CleanSegment(seg) && CleanEntries(es)
    ensures CleanEntries(Under(seg, es))
  {
    UnderPaths(seg, es);
    forall i | 0 <= i < |es| ensures CleanEntry(Under(seg, es)[i]) {
      var path := Under(seg, es)[i].path;
      assert CleanEntry(es[i]);
      assert forall k :: 1 <= k < |path| ==> path[k] == es[i].path[k - 1];
    }
  }

  lemma {:induction false} EntriesClean(v: Json, q: Query)
    requires Regular(v, q)
    ensures CleanEntries(Entries(v, q))
    decreases v, 1
  {
    match v
    case Obj(fields) => FieldEntriesClean(fields, q);
    case Arr(items) => ItemEntriesClean(items, -1, q);
    case Int(number) => SignedDecimalClean(number);
    case _ =>
  }

  lemma SignedDecimalClean(n: int)
    ensures CleanEnd(SignedDecimal(n))
  {
  }

  lemma {:induction false} FieldEntriesClean(fields: seq<Field>, q: Query)
    requires forall i :: 0 <= i < |fields| ==> CleanKey(fields[i].key) && Regular(fields[i].value, q)
    ensures CleanEntries(FieldEntries(fields, q))
    decreases fields, 0
  {
    if fields != [] {
      EntriesClean(fields[0].value, q);
      CleanUnder(fields[0].key, Entries(fields[0].value, q));
      FieldEntriesClean(fields[1..], q);
    }
  }

  lemma {:induction false} ItemEntriesClean(items: seq<Json>, index: int, q: Query)
    requires index >= -1 && forall i :: 0 <= i < |items| ==> Regular(items[i], q) && !items[i].Arr?
    ensures CleanEntries(ItemEntries(items, index, q))
    decreases items, 1
  {
    if items != [] {
      if items[0].Obj? {
        FieldEntriesClean(items[0].fields, q);
        CleanUnder(Decimal(index + 1), FieldEntries(items[0].fields, q));
        ItemEntriesClean(items[1..], index + 1, q);
      } else {
        EntriesClean(items[0], q);
        ItemEntriesClean(items[1..], index, q);
      }
    }
  }

  /** A top-level entry: the first segment is bare, the others are bracketed. */
  function RenderTop(e: Entry): string
    requires e.path != []
  {
    Render(e.path[0], Entry(e.path[1..], e.value))
  }

  lemma ParseOneBracket(seg: string, rest: string)
    requires CleanSegment(seg)
    ensures ParseBrackets("[" + seg + "]" + rest) == [seg] + ParseBrackets(rest)
  {
    var s := "[" + seg + "]" + rest;
    assert s == ("[" + seg) + [']'] + rest;
    IndexOfSplit("[" + seg, ']', rest);
    assert s[1..|seg| + 1] == seg;
    assert s[|seg| + 2..] == rest;
  }

  lemma {:induction false} ParseBracketsInverse(path: seq<string>)
    requires forall i :: 0 <= i < |path| ==> CleanSegment(path[i])
    ensures ParseBrackets(Brackets(path)) == path
    ensures '=' !in Brackets(path)
  {
    if path != [] {
      assert CleanSegment(path[0]);
      ParseBracketsInverse(path[1..]);
      ParseOneBracket(path[0], Brackets(path[1..]));
    }
  }

  lemma ParseEntryInverse(e: Entry)
    requires e.path != [] && CleanEntry(e)
    ensures ParseEntry(RenderTop(e)) == e
  {
    var key := e.path[0] + Brackets(e.path[1..]);
    assert CleanSegment(e.path[0]);
    ParseBracketsInverse(e.path[1..]);
    assert RenderTop(e) == key + ['='] + e.value;
    IndexOfSplit(key, '=', e.value);
    assert RenderTop(e)[..|key|] == key && RenderTop(e)[|key| + 1..] == e.value;
    ParseKeyInverse(e.path);
  }

  lemma FirstBracket(seg: string, rest: string)
    requires '[' !in seg && (rest == "" || rest[0] == '[')
    ensures IndexOf(seg + rest, '[') == |seg|
  {
    if rest == "" {
      assert seg + rest == seg;
      IndexOfAbsent(seg, '[');
    } else {
      assert seg + rest == seg + ['['] + rest[1..];
      IndexOfSplit(seg, '[', rest[1..]);
    }
  }

  lemma ParseKeyInverse(path: seq<string>)
    requires path != [] && forall i :: 0 <= i < |path| ==> CleanSegment(path[i])
    ensures ParseKey(path[0] + Brackets(path[1..])) == path
  {
    var rest := path[1..];
    var key := path[0] + Brackets(rest);
    FirstBracket(path[0], Brackets(rest));
    ParseBracketsInverse(rest);
    assert key[..|path[0]|] == path[0] && key[|path[0]|..] == Brackets(rest);
    assert [path[0]] + rest == path;
  }

  /** The rendering of a whole list of top-level entries. */
  function RenderTops(es: seq<Entry>): seq<string>
    requires forall i :: 0 <= i < |es| ==> es[i].path != []
  {
    if es == [] then [] else [RenderTop(es[0])] + RenderTops(es[1..])
  }

  /** No top-level key starts with white space, which `TrimSpace` would remove. */
  predicate CleanStart(s: string) {
    s != "" && !IsSpace(s[0])
  }

  lemma {:induction false} ReadBack(es: seq<Entry>)
    requires CleanEntries(es)
    requires forall i :: 0 <= i < |es| ==> es[i].path != [] && CleanStart(es[i].path[0])
    ensures Clean(RenderTops(es)) == RenderTops(es)
    ensures ParseEntries(RenderTops(es)) == es
  {
    if es != [] {
      ReadBack(es[1..]);
      assert CleanEntry(es[0]);
      ParseEntryInverse(es[0]);
      LineKept(es[0]);
      var line, rest := RenderTop(es[0]), RenderTops(es[1..]);
      assert RenderTops(es)[0] == line && RenderTops(es)[1..] == rest;
      assert Clean(RenderTops(es)) == [line] + rest;
      assert ParseEntries(RenderTops(es)) == [es[0]] + es[1..];
    }
  }

  lemma LineKept(e: Entry)
    requires CleanEntry(e) && e.path != [] && CleanStart(e.path[0])
    ensures CleanOne(RenderTop(e)) == [RenderTop(e)]
  {
    var line := RenderTop(e);
    assert line[0] == e.path[0][0];
    assert line[|line| - 1] == if e.value == "" then '=' else e.value[|e.value| - 1];
    assert TrimLeft(line) == line && TrimRight(line) == line;
  }

  /** The first segment of an entry is a key. */
  predicate UnderSomeKey(e: Entry, fields: seq<Field>) {
    e.path != [] && exists k :: 0 <= k < |fields| && e.path[0] == fields[k].key
  }

  lemma {:induction false} TopHeads(fields: seq<Field>, q: Query)
    ensures forall i :: 0 <= i < |FieldEntries(fields, q)| ==> UnderSomeKey(FieldEntries(fields, q)[i], fields)
  {
    if fields != [] {
      TopHeads(fields[1..], q);
      var under, rest := Under(fields[0].key, Entries(fields[0].value, q)), FieldEntries(fields[1..], q);
      UnderPaths(fields[0].key, Entries(fields[0].value, q));
      forall i | 0 <= i < |under + rest| ensures UnderSomeKey((under + rest)[i], fields) {
        if i >= |under| {
          assert UnderSomeKey(rest[i - |under|], fields[1..]);
          var k :| 0 <= k < |fields[1..]| && rest[i - |under|].path[0] == fields[1..][k].key;
          assert fields[1..][k] == fields[k + 1];
        }
      }
    }
  }

  lemma {:induction false} TopEntries(fields: seq<Field>, q: Query)
    requires (forall i :: 0 <= i < |fields| ==> fields[i].key != "") && MapData(fields, "", -1, q).Ok?
    requires forall i :: 0 <= i < |FieldEntries(fields, q)| ==> FieldEntries(fields, q)[i].path != []
    ensures Clean(MapData(fields, "", -1, q).value) == Clean(RenderTops(FieldEntries(fields, q)))
  {
    if fields != [] {
      var key, v := fields[0].key, fields[0].value;
      var under, rest := Under(key, Entries(v, q)), FieldEntries(fields[1..], q);
      TopHeads(fields[1..], q);
      TopEntries(fields[1..], q);
      FieldDataEntries(key, v, q);
      RenderTopUnder(key, Entries(v, q));
      RenderTopsConcat(under, rest);
      CleanConcat(RenderTops(under), RenderTops(rest));
      CleanConcat(FieldData(key, v, q).value, MapData(fields[1..], "", -1, q).value);
    }
  }

  lemma {:induction false} RenderTopUnder(key: string, es: seq<Entry>)
    ensures forall i :: 0 <= i < |es| ==> Under(key, es)[i].path != []
    ensures RenderTops(Under(key, es)) == RenderAll(key, es)
  {
    UnderPaths(key, es);
    if es != [] {
      RenderTopUnder(key, es[1..]);
      assert Under(key, es)[1..] == Under(key, es[1..]);
      assert ([key] + es[0].path)[1..] == es[0].path;
    }
  }

  lemma {:induction false} RenderTopsConcat(a: seq<Entry>, b: seq<Entry>)
    requires forall i :: 0 <= i < |a| ==> a[i].path != []
    requires forall i :: 0 <= i < |b| ==> b[i].path != []
    ensures RenderTops(a + b) == RenderTops(a) + RenderTops(b)
  {
    if a == [] {
      assert a + b == b;
    } else {
      TailOfConcat(a, b);
      RenderTopsConcat(a[1..], b);
      Associative([RenderTop(a[0])], RenderTops(a[1..]), RenderTops(b));
    }
  }

  // ---------------------------------------------------------------------------
  // Round trip
  // ---------------------------------------------------------------------------

  /** Parameters in the domain of the round trip. */
  ghost predicate Encodable(fields: seq<Field>, q: Query) {
    && Regular(Obj(fields), q)
    && forall i :: 0 <= i < |fields| ==> CleanStart(fields[i].key)
  }

  /** Encoding fails exactly when some string, at any depth, names an undeclared fixture. */
  lemma EncodingFailsIff(fields: seq<Field>, q: Query)
    ensures FormEntries(Obj(fields), q).Err? <==> !FieldsResolve(fields, q)
  {
    MapDataResolves(fields, "", -1, q);
  }

  /** Decoding the form entries gives back the parameters, up to what the encoder drops. */
  lemma RoundTrip(fields: seq<Field>, q: Query)
    requires Encodable(fields, q) && FieldsResolve(fields, q)
    ensures FormEntries(Obj(fields), q).Ok?
    ensures DecodeForm(FormEntries(Obj(fields), q).value) == Table(KeptFields(fields, q))
  {
    EncodingFailsIff(fields, q);
    TopHeads(fields, q);
    TopEntries(fields, q);
    TopReadBack(fields, q, FieldEntries(fields, q));
    DecodeFields(fields, q);
  }

  lemma TopReadBack(fields: seq<Field>, q: Query, es: seq<Entry>)
    requires Encodable(fields, q) && es == FieldEntries(fields, q)
    requires forall i :: 0 <= i < |es| ==> es[i].path != [] && UnderSomeKey(es[i], fields)
    ensures Clean(RenderTops(es)) == RenderTops(es) && ParseEntries(RenderTops(es)) == es
  {
    FieldEntriesClean(fields, q);
    ReadBack(es);
  }

  ghost predicate AllLossless(fields: seq<Field>) {
    forall i :: 0 <= i < |fields| ==> Lossless(fields[i].value)
  }

  /** The round trip is exact if and only if nothing is dropped on the way. */
  lemma ExactIffLossless(fields: seq<Field>, q: Query)
    requires Encodable(fields, q) && FieldsResolve(fields, q)
    ensures FormEntries(Obj(fields), q).Ok?
    ensures DecodeForm(FormEntries(Obj(fields), q).value) == Full(Obj(fields), q)
      <==> AllLossless(fields)
  {
    RoundTrip(fields, q);
    KeptExactIff(fields, q);
  }

  lemma KeptExactIff(fields: seq<Field>, q: Query)
    requires Regular(Obj(fields), q)
    ensures Table(KeptFields(fields, q)) == Full(Obj(fields), q) <==> AllLossless(fields)
  {
    FieldsExact(fields, q);
  }

  lemma {:induction false} FieldsExact(fields: seq<Field>, q: Query)
    requires Regular(Obj(fields), q)
    ensures KeptFields(fields, q) == FullFields(fields, q) <==> AllLossless(fields)
    ensures KeptFields(fields, q).Keys <= FullFields(fields, q).Keys
    decreases fields, 0
  {
    if fields != [] {
      var key, v := fields[0].key, fields[0].value;
      var rest := fields[1..];
      assert forall i :: 0 <= i < |rest| ==> rest[i] == fields[i + 1];
      FieldsExact(rest, q);
      ValueExact(v, q);
      var kept, full := KeptFields(rest, q), FullFields(rest, q);
      MapExact(kept, full, key, Kept(v, q), Full(v, q));
      AllLosslessSplit(fields);
    }
  }

  lemma AllLosslessSplit(fields: seq<Field>)
    requires fields != []
    ensures AllLossless(fields) <==> Lossless(fields[0].value) && AllLossless(fields[1..])
  {
    assert fields == [fields[0]] + fields[1..];
  }

  lemma MapExact(kept: map<string, Val>, full: map<string, Val>, key: string, k: Option<Val>, f: Val)
    requires key !in full && key !in kept
    ensures (if k.None? then kept else kept[key := k.value]) == full[key := f] <==> k == Some(f) && kept == full
  {
    var all := full[key := f];
    assert key in all;
    if k.Some? {
      var some := kept[key := k.value];
      assert some - {key} == kept && all - {key} == full;
      assert some[key] == k.value && all[key] == f;
    }
  }

  lemma {:induction false} ValueExact(v: Json, q: Query)
    requires Regular(v, q)
    ensures Kept(v, q) == Some(Full(v, q)) <==> Lossless(v)
    decreases v, 1
  {
    match v
    case Obj(fields) =>
      FieldsExact(fields, q);
      if fields != [] {
        assert fields[0].key in FullFields(fields, q);
      }
    case Arr(items) => ItemsExact(items, q);
    case _ =>
  }

  lemma {:induction false} ItemsExact(items: seq<Json>, q: Query)
    requires forall i :: 0 <= i < |items| ==> Regular(items[i], q) && !items[i].Arr?
    ensures KeptItems(items, q) == FullItems(items, q)
      <==> forall i :: 0 <= i < |items| ==> (items[i].Str? || items[i].Int? || items[i].Obj?) && Lossless(items[i])
    decreases items, 0
  {
    if items != [] {
      var v, rest := items[0], items[1..];
      assert forall i :: 0 <= i < |rest| ==> rest[i] == items[i + 1];
      ItemsExact(rest, q);
      ValueExact(v, q);
      var full := FullItems(items, q);
      assert full[0] == Full(v, q) && full[1..] == FullItems(rest, q);
      if (v.Str? || v.Int? || v.Obj?) && Kept(v, q).Some? {
        var kept := KeptItems(items, q);
        assert kept[0] == Kept(v, q).value && kept[1..] == KeptItems(rest, q);
      } else {
        assert |KeptItems(items, q)| < |full|;
      }
    }
  }
}
