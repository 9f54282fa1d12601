/** The fixture compiler of pkg/parsers/parsers.go: nested JSON becomes bracketed form entries.

Go iterates a map in any order. Here an object lists its fields in the order in which they
happen to be visited, so a statement about every `Json` value is a statement about every
iteration order.
*/
module FormData {
  import opened Text

  datatype Json =
    | Null
    | Str(text: string)
    | Int(number: int)
    | Float(digits: string)  // the value as `strconv.FormatFloat(v, 'f', -1, 64)` prints it
    | Bool(flag: bool)
    | Arr(items: seq<Json>)
    | Obj(fields: seq<Field>)

  datatype Field = Field(key: string, value: Json)

  /** `ParseQuery` against the responses collected so far: None is the undeclared-fixture error. */
  type Query = string -> Option<string>

  // ---------------------------------------------------------------------------
  // What the three parsing functions return
  // ---------------------------------------------------------------------------

  function KeyName(parent: string, index: int, key: string): string {
    if parent != "" && index >= 0 then parent + "[" + Decimal(index) + "][" + key + "]"
    else if parent != "" then parent + "[" + key + "]"
    else key
  }

  function BoolText(flag: bool): string {
    if flag then "true" else "false"
  }

  /** The first error wins; otherwise the entries are appended. */
  function Append(left: Result<seq<string>>, right: Result<seq<string>>): Result<seq<string>> {
    if left.Err? then Err else if right.Err? then Err else Ok(left.value + right.value)
  }

  function MapData(fields: seq<Field>, parent: string, index: int, q: Query): Result<seq<string>>
    decreases fields, 0
  {
    if fields == [] then Ok([])
    else Append(FieldData(KeyName(parent, index, fields[0].key), fields[0].value, q),
                MapData(fields[1..], parent, index, q))
  }

  function FieldData(keyname: string, value: Json, q: Query): Result<seq<string>>
    decreases value, 1
  {
    match value
    case Str(text) => (match q(text) case None => Err case Some(parsed) => Ok([keyname + "=" + parsed]))
    case Int(number) => Ok([keyname + "=" + SignedDecimal(number)])
    case Float(digits) => Ok([keyname + "=" + digits])
    case Bool(flag) => Ok([keyname + "=" + BoolText(flag)])
    case Obj(fields) => MapData(fields, keyname, -1, q)
    case Arr(items) => ArrayData(items, keyname, q)
    case Null => Ok([])
  }

  /** The slice is made with one empty string per item, and every entry is appended after those. */
  function ArrayData(items: seq<Json>, parent: string, q: Query): Result<seq<string>>
    decreases items, 1
  {
    Append(Ok(seq(|items|, _ => "")), ItemsData(items, parent, -1, q))
  }

  function ItemsData(items: seq<Json>, parent: string, index: int, q: Query): Result<seq<string>>
    decreases items, 0
  {
    if items == [] then Ok([]) else
    match items[0]
    case Obj(fields) =>
      Append(MapData(fields, parent, index + 1, q), ItemsData(items[1..], parent, index + 1, q))
    case _ => Append(ItemData(items[0], parent, q), ItemsData(items[1..], parent, index, q))
  }

  /** An item that is not an object. Floats, booleans and nulls are passed over. */
  function ItemData(item: Json, parent: string, q: Query): Result<seq<string>>
    decreases item, 0
  {
    match item
    case Str(text) => (match q(text) case None => Err case Some(parsed) => Ok([parent + "[]=" + parsed]))
    case Int(number) => Ok([parent + "[]=" + SignedDecimal(number)])
    case Arr(inner) => ArrayData(inner, parent, q)
    case _ => Ok([])
  }

  /** Trims every entry and drops the blank ones. */
  function Clean(data: seq<string>): seq<string> {
    if data == [] then [] else CleanOne(data[0]) + Clean(data[1..])
  }

  function CleanOne(d: string): seq<string> {
    if TrimSpace(d) != "" then [TrimSpace(d)] else []
  }

  /** A top-level slice has kind Slice, not Array, so only a map contributes entries. */
  function FormEntries(params: Json, q: Query): Result<seq<string>> {
    if params.Obj? then
      var data := MapData(params.fields, "", -1, q);
      if data.Err? then Err else Ok(Clean(data.value))
    else Ok([])
  }

  // ---------------------------------------------------------------------------
  // The parsing loops
  // ---------------------------------------------------------------------------

  lemma AppendAssociative(a: Result<seq<string>>, b: Result<seq<string>>, c: Result<seq<string>>)
    ensures Append(Append(a, b), c) == Append(a, Append(b, c))
  {
    if a.Ok? && b.Ok? && c.Ok? {
      assert (a.value + b.value) + c.value == a.value + (b.value + c.value);
    }
  }

  lemma AppendNothing(a: Result<seq<string>>)
    ensures Append(a, Ok([])) == a && Append(Ok([]), a) == a
  {
    if a.Ok? {
      assert a.value + [] == a.value && [] + a.value == a.value;
    }
  }

  method ParseToFormData(params: Json, q: Query) returns (r: Result<seq<string>>)
    ensures r == FormEntries(params, q)
  {
    var data := [];
    if params.Obj? {
      var parsed := ParseMapForFormData(params.fields, "", -1, q);
      if parsed.Err? {
        return Err;
      }
      data := parsed.value;
    }
    var cleanData := CleanEntries(data);
    return Ok(cleanData);
  }

  lemma CleanStep(done: seq<string>, data: seq<string>, i: nat)
    requires i < |data|
    ensures done + Clean(data[i..])
         == (if TrimSpace(data[i]) != "" then done + [TrimSpace(data[i])] else done) + Clean(data[i + 1..])
  {
    var one, rest := CleanOne(data[i]), Clean(data[i + 1..]);
    assert data[i..][1..] == data[i + 1..];
    assert done + (one + rest) == (done + one) + rest;
  }

  method CleanEntries(data: seq<string>) returns (cleanData: seq<string>)
    ensures cleanData == Clean(data)
  {
    cleanData := [];
    for i := 0 to |data|
      invariant cleanData + Clean(data[i..]) == Clean(data)
    {
      CleanStep(cleanData, data, i);
      if TrimSpace(data[i]) != "" {
        cleanData := cleanData + [TrimSpace(data[i])];
      }
    }
  }

  method ParseMapForFormData(fields: seq<Field>, parent: string, index: int, q: Query)
    returns (r: Result<seq<string>>)
    ensures r == MapData(fields, parent, index, q)
    decreases fields, 0
  {
    var data := [];
    assert fields[0..] == fields;
    AppendNothing(MapData(fields, parent, index, q));
    for i := 0 to |fields|
      invariant MapData(fields, parent, index, q) == Append(Ok(data), MapData(fields[i..], parent, index, q))
    {
      var keyname := KeyName(parent, index, fields[i].key);
      var entries := ParseField(keyname, fields[i].value, q);
      assert fields[i..][1..] == fields[i + 1..];
      AppendAssociative(Ok(data), entries, MapData(fields[i + 1..], parent, index, q));
      if entries.Err? {
        return Err;
      }
      data := data + entries.value;
    }
    AppendNothing(Ok(data));
    return Ok(data);
  }

  /** The switch over the kind of one field's value. */
  method ParseField(keyname: string, value: Json, q: Query) returns (r: Result<seq<string>>)
    ensures r == FieldData(keyname, value, q)
    decreases value, 1
  {
    match value
    case Str(text) =>
      var parsed := q(text);
      r := if parsed.None? then Err else Ok([keyname + "=" + parsed.value]);
    case Int(number) => r := Ok([keyname + "=" + SignedDecimal(number)]);
    case Float(digits) => r := Ok([keyname + "=" + digits]);
    case Bool(flag) => r := Ok([keyname + "=" + BoolText(flag)]);
    case Obj(fields) => r := ParseMapForFormData(fields, keyname, -1, q);
    case Arr(items) => r := ParseArrayForFormData(items, keyname, q);
    case Null => r := Ok([]);
  }

  method ParseArrayForFormData(items: seq<Json>, parent: string, q: Query) returns (r: Result<seq<string>>)
    ensures r == ArrayData(items, parent, q)
    decreases items, 1
  {
    var data := seq(|items|, _ => "");
    var index := -1;
    assert items[0..] == items;
    for i := 0 to |items|
      invariant ArrayData(items, parent, q) == Append(Ok(data), ItemsData(items[i..], parent, index, q))
    {
      var entries;
      match items[i] {
        case Str(text) =>
          var parsed := q(text);
          entries := if parsed.None? then Err else Ok([parent + "[]=" + parsed.value]);
        case Int(number) => entries := Ok([parent + "[]=" + SignedDecimal(number)]);
        case Obj(fields) =>
          index := index + 1;
          entries := ParseMapForFormData(fields, parent, index, q);
        case Arr(inner) => entries := ParseArrayForFormData(inner, parent, q);
        case _ => entries := Ok([]);
      }
      assert items[i..][1..] == items[i + 1..];
      AppendAssociative(Ok(data), entries, ItemsData(items[i + 1..], parent, index, q));
      if entries.Err? {
        return Err;
      }
      data := data + entries.value;
    }
    AppendNothing(Ok(data));
    return Ok(data);
  }
}
