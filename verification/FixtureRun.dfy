/** Running a fixture file: `Execute` and `makeRequest` of pkg/fixtures/fixtures.go, with
`ParseQuery` and `ParsePath` of pkg/parsers/parsers.go.

Regular-expression matching, JSON lookup, path joining, the environment and the API server are
parameters, so every statement holds for all of them.
*/
module FixtureRun {
  import opened Text
  import opened FormData
  import opened FormRoundTrip

  /** A match of `${name:path|default}`; the match itself starts with `${`, so it is not empty. */
  datatype RawQuery = RawQuery(matched: string, name: string, path: string, fallback: string)

  type FixtureQuery = f: RawQuery | f.matched != "" witness RawQuery("${a:b}", "a", "b", "")

  datatype Part = Plain(text: string) | Match(text: string)

  datatype World = World(
    generated: string -> string,               // the two generators, time and uuid
    env: string -> string,                     // empty when the variable is not set
    find: string -> Option<FixtureQuery>,      // the first match of the query pattern
    pathParts: string -> seq<Part>,            // all matches in a path, and the text between them
    joinPath: seq<string> -> string,
    get: (string, string) -> string,           // a field of a JSON text, empty when it is missing
    reparse: string -> Json,                   // a resolved value that may itself be JSON
    secretKey: bool)                           // the credentials may call /v2/ paths

  const GENERATORS := {"${time-now-RFC3339}", "${generate-uuid}"}
  const ENV := ".env"

  /** The response texts by fixture name. */
  type Responses = map<string, string>

  /** None is the undeclared-name error. */
  function ParseQuery(text: string, responses: Responses, w: World): Option<string> {
    if text in GENERATORS then Some(w.generated(text)) else
    match w.find(text)
    case None => Some(text)
    case Some(f) =>
      var value := if f.fallback != "" then f.fallback else text;
      if f.name == ENV then
        Some(if w.env(f.path) == "" then value else ReplaceAll(text, f.matched, w.env(f.path)))
      else if f.name !in responses then None
      else
        var found := w.get(responses[f.name], f.path);
        Some(if found != "" then ReplaceAll(text, f.matched, found) else value)
  }

  function Resolver(responses: Responses, w: World): Query {
    text => ParseQuery(text, responses, w)
  }

  function ResolveParts(parts: seq<Part>, q: Query): Option<seq<string>> {
    if parts == [] then Some([]) else
    var head := if parts[0].Plain? then Some(parts[0].text) else q(parts[0].text);
    var tail := ResolveParts(parts[1..], q);
    if head.None? || tail.None? then None else Some([head.value] + tail.value)
  }

  function ParsePath(path: string, q: Query, w: World): Option<string> {
    var parts := w.pathParts(path);
    if forall i :: 0 <= i < |parts| ==> parts[i].Plain? then Some(path) else
    match ResolveParts(parts, q)
    case None => None
    case Some(pieces) => Some(w.joinPath(pieces))
  }

  /** A v2 request body. Indexing the first character of a map value that resolves to the empty
      string is a run-time error, and the first problem met ends the walk. */
  datatype Payload = Built(json: Json) | Unresolved | Crashed

  function JsonPayload(v: Json, q: Query, w: World): (r: Payload)
    ensures r.Built? && r.json.Str? ==> v.Str?
    decreases v, 1
  {
    match v
    case Str(text) => (match q(text) case None => Unresolved case Some(parsed) => Built(Str(parsed)))
    case Arr(items) => (match JsonItems(items, q, w) case Done(items') => Built(Arr(items')) case Ended(p) => p)
    case Obj(fields) => (match JsonFields(fields, q, w) case Done(fields') => Built(Obj(fields')) case Ended(p) => p)
    case _ => Built(v)
  }

  datatype Walk<T> = Done(value: T) | Ended(problem: Payload)

  function JsonItems(items: seq<Json>, q: Query, w: World): (r: Walk<seq<Json>>)
    ensures r.Ended? ==> !r.problem.Built?
    decreases items, 0
  {
    if items == [] then Done([]) else
    match JsonPayload(items[0], q, w)
    case Built(json) =>
      (match JsonItems(items[1..], q, w) case Done(tail) => Done([json] + tail) case Ended(p) => Ended(p))
    case p => Ended(p)
  }

  function JsonFields(fields: seq<Field>, q: Query, w: World): (r: Walk<seq<Field>>)
    ensures r.Ended? ==> !r.problem.Built?
    decreases fields, 0
  {
    if fields == [] then Done([]) else
    match JsonField(fields[0].value, q, w)
    case Built(json) =>
      (match JsonFields(fields[1..], q, w)
       case Done(tail) => Done([Field(fields[0].key, json)] + tail)
       case Ended(p) => Ended(p))
    case p => Ended(p)
  }

  function JsonField(v: Json, q: Query, w: World): Payload
    decreases v, 2
  {
    match JsonPayload(v, q, w)
    case Built(Str(parsed)) => if parsed == "" then Crashed else Built(w.reparse(parsed))
    case p => p
  }

  // ---------------------------------------------------------------------------
  // One request
  // ---------------------------------------------------------------------------

  /** Headers are listed in the order in which the map happens to be visited. */
  datatype Request = Request(
    name: string,
    expectedErrorType: string,
    path: string,
    verb: string,
    params: seq<Field>,
    idempotencyKey: string,
    headers: seq<(string, string)>)

  datatype Body = Form(entries: seq<string>) | Document(json: Json)

  datatype Wire = Wire(verb: string, path: string, body: Body, idempotencyKey: string, headers: seq<(string, string)>)

  datatype Cause = UndeclaredName | EmptyValue | InvalidPath | WrongKey | UnexpectedFailure

  datatype Prepared = Ready(wire: Wire) | Stop(cause: Cause)

  predicate IsValidAPIPath(path: string) {
    || "/v1/" <= path || "/v1?" <= path || "/v2/" <= path || "/v2?" <= path
    || path == "/v1" || path == "/v2"
  }

  function MakeBody(r: Request, path: string, q: Query, w: World): (Option<Body>, Cause) {
    if "/v2/" <= path && Lower(r.verb) == "post" then
      match JsonPayload(Obj(r.params), q, w)
      case Built(json) => (Some(Document(json)), UndeclaredName)
      case Unresolved => (None, UndeclaredName)
      case Crashed => (None, EmptyValue)
    else
      match FormEntries(Obj(r.params), q)
      case Ok(entries) => (Some(Form(entries)), UndeclaredName)
      case Err => (None, UndeclaredName)
  }

  function ResolveHeaders(headers: seq<(string, string)>, q: Query): Option<seq<(string, string)>> {
    if headers == [] then Some([]) else
    var value := q(headers[0].1);
    var tail := ResolveHeaders(headers[1..], q);
    if value.None? || tail.None? then None else Some([(headers[0].0, value.value)] + tail.value)
  }

  /** Everything that happens before a request goes out. */
  function Prepare(r: Request, responses: Responses, w: World): Prepared {
    var q := Resolver(responses, w);
    var path := ParsePath(r.path, q, w);
    if path.None? then Stop(UndeclaredName)
    else if !IsValidAPIPath(path.value) then Stop(InvalidPath)
    else if "/v2/" <= path.value && !w.secretKey then Stop(WrongKey) else
    var (body, problem) := MakeBody(r, path.value, q, w);
    if body.None? then Stop(problem) else
    var key := if r.idempotencyKey == "" then Some("") else q(r.idempotencyKey);
    if key.None? then Stop(UndeclaredName) else
    var headers := ResolveHeaders(r.headers, q);
    if headers.None? then Stop(UndeclaredName)
    else Ready(Wire(r.verb, path.value, body.value, key.value, headers.value))
  }

  /** The pieces of a path keep their places: plain text as it is, every query resolved. */
  lemma {:induction false} PartsInPlace(parts: seq<Part>, q: Query, k: nat)
    requires ResolveParts(parts, q).Some? && k < |parts|
    ensures var pieces := ResolveParts(parts, q).value;
      |pieces| == |parts| && Some(pieces[k]) == if parts[k].Plain? then Some(parts[k].text) else q(parts[k].text)
  {
    if k > 0 {
      PartsInPlace(parts[1..], q, k - 1);
    } else if |parts| > 1 {
      PartsInPlace(parts[1..], q, 0);
    }
  }

  lemma {:induction false} HeadersInPlace(headers: seq<(string, string)>, q: Query, k: nat)
    requires ResolveHeaders(headers, q).Some? && k < |headers|
    ensures var sent := ResolveHeaders(headers, q).value;
      |sent| == |headers| && sent[k].0 == headers[k].0 && Some(sent[k].1) == q(headers[k].1)
  {
    if k > 0 {
      HeadersInPlace(headers[1..], q, k - 1);
    } else if |headers| > 1 {
      HeadersInPlace(headers[1..], q, 0);
    }
  }

  /** `sent` is the path as written, or the joined pieces of it with every query resolved in place. */
  ghost predicate PathResolved(path: string, sent: string, q: Query, w: World) {
    var parts := w.pathParts(path);
    if forall i :: 0 <= i < |parts| ==> parts[i].Plain? then sent == path
    else exists pieces :: sent == w.joinPath(pieces) && PiecesOf(parts, pieces, q)
  }

  predicate PiecesOf(parts: seq<Part>, pieces: seq<string>, q: Query) {
    |pieces| == |parts| && forall k :: 0 <= k < |parts| ==>
      Some(pieces[k]) == if parts[k].Plain? then Some(parts[k].text) else q(parts[k].text)
  }

  lemma PathIsResolved(path: string, q: Query, w: World)
    requires ParsePath(path, q, w).Some?
    ensures PathResolved(path, ParsePath(path, q, w).value, q, w)
  {
    var parts := w.pathParts(path);
    if !forall i :: 0 <= i < |parts| ==> parts[i].Plain? {
      var pieces := ResolveParts(parts, q).value;
      forall k | 0 <= k < |parts|
        ensures |pieces| == |parts|
             && Some(pieces[k]) == if parts[k].Plain? then Some(parts[k].text) else q(parts[k].text)
      {
        PartsInPlace(parts, q, k);
      }
      assert PiecesOf(parts, pieces, q);
    }
  }

  /** `json` is `v` with every string resolved. A string in an object is read again as JSON and may
      not be empty; nothing else changes. */
  ghost predicate ResolvedTo(v: Json, json: Json, q: Query, w: World)
    decreases v, 0
  {
    match v
    case Str(text) => json.Str? && q(text) == Some(json.text)
    case Arr(items) =>
      json.Arr? && |json.items| == |items|
      && forall i :: 0 <= i < |items| ==> ResolvedTo(items[i], json.items[i], q, w)
    case Obj(fields) =>
      json.Obj? && |json.fields| == |fields|
      && forall i :: 0 <= i < |fields| ==> FieldResolvedTo(fields[i], json.fields[i], q, w)
    case _ => json == v
  }

  ghost predicate FieldResolvedTo(field: Field, sent: Field, q: Query, w: World)
    decreases field, 1
  {
    sent.key == field.key
    && if field.value.Str? then
      var parsed := q(field.value.text);
      parsed.Some? && parsed.value != "" && sent.value == w.reparse(parsed.value)
    else ResolvedTo(field.value, sent.value, q, w)
  }

  /** The v2 body is built if and only if there is such a document, and then it is that document. */
  lemma {:induction false} PayloadIsResolved(v: Json, json: Json, q: Query, w: World)
    ensures JsonPayload(v, q, w) == Built(json) <==> ResolvedTo(v, json, q, w)
    decreases v, 1
  {
    match v
    case Arr(items) =>
      if json.Arr? {
        ItemsAreResolved(items, json.items, q, w);
      }
    case Obj(fields) =>
      if json.Obj? {
        FieldsAreResolved(fields, json.fields, q, w);
      }
    case _ =>
  }

  lemma {:induction false} ItemsAreResolved(items: seq<Json>, sent: seq<Json>, q: Query, w: World)
    ensures JsonItems(items, q, w) == Done(sent)
      <==> |sent| == |items| && forall i :: 0 <= i < |items| ==> ResolvedTo(items[i], sent[i], q, w)
    decreases items, 0
  {
    if items != [] && sent != [] {
      PayloadIsResolved(items[0], sent[0], q, w);
      ItemsAreResolved(items[1..], sent[1..], q, w);
      assert sent == [sent[0]] + sent[1..];
      assert forall i :: 1 <= i < |items| ==> items[i] == items[1..][i - 1];
      assert forall i :: 0 <= i < |items[1..]| ==> items[1..][i] == items[i + 1];
    }
  }

  lemma {:induction false} FieldsAreResolved(fields: seq<Field>, sent: seq<Field>, q: Query, w: World)
    ensures JsonFields(fields, q, w) == Done(sent)
      <==> |sent| == |fields| && forall i :: 0 <= i < |fields| ==> FieldResolvedTo(fields[i], sent[i], q, w)
    decreases fields, 0
  {
    if fields != [] && sent != [] {
      PayloadIsResolved(fields[0].value, sent[0].value, q, w);
      FieldsAreResolved(fields[1..], sent[1..], q, w);
      assert sent == [sent[0]] + sent[1..];
      assert forall i :: 1 <= i < |fields| ==> fields[i] == fields[1..][i - 1];
      assert forall i :: 0 <= i < |fields[1..]| ==> fields[1..][i] == fields[i + 1];
    }
  }

  lemma {:induction false} HeadersAreResolved(headers: seq<(string, string)>, q: Query)
    requires ResolveHeaders(headers, q).Some?
    ensures var sent := ResolveHeaders(headers, q).value;
      |sent| == |headers|
      && forall k :: 0 <= k < |headers| ==> sent[k].0 == headers[k].0 && Some(sent[k].1) == q(headers[k].1)
  {
    if headers != [] {
      HeadersInPlace(headers, q, 0);
    }
    forall k | 0 <= k < |headers|
      ensures var sent := ResolveHeaders(headers, q).value;
        |sent| == |headers| && sent[k].0 == headers[k].0 && Some(sent[k].1) == q(headers[k].1)
    {
      HeadersInPlace(headers, q, k);
    }
  }

  /** The body is a v2 document, or else a form from which the parameters can be decoded. */
  ghost predicate BodyResolved(r: Request, wire: Wire, q: Query, w: World) {
    match wire.body
    case Document(json) => "/v2/" <= wire.path && Lower(r.verb) == "post" && ResolvedTo(Obj(r.params), json, q, w)
    case Form(entries) =>
      && !("/v2/" <= wire.path && Lower(r.verb) == "post")
      && (Encodable(r.params, q) ==> DecodeForm(entries) == Table(KeptFields(r.params, q)))
  }

  /** What goes out is the request as written with every query resolved: the path, the body, the key
      and each header under its own name. */
  lemma WireIsResolvedRequest(r: Request, responses: Responses, w: World)
    requires Prepare(r, responses, w).Ready?
    ensures var q := Resolver(responses, w);
      var wire := Prepare(r, responses, w).wire;
      && wire.verb == r.verb
      && PathResolved(r.path, wire.path, q, w) && IsValidAPIPath(wire.path)
      && BodyResolved(r, wire, q, w)
      && Some(wire.idempotencyKey) == (if r.idempotencyKey == "" then Some("") else q(r.idempotencyKey))
      && |wire.headers| == |r.headers|
      && forall k :: 0 <= k < |r.headers| ==>
           wire.headers[k].0 == r.headers[k].0 && Some(wire.headers[k].1) == q(r.headers[k].1)
  {
    var q := Resolver(responses, w);
    var wire := Prepare(r, responses, w).wire;
    PathIsResolved(r.path, q, w);
    HeadersAreResolved(r.headers, q);
    match wire.body {
      case Document(json) => PayloadIsResolved(Obj(r.params), json, q, w);
      case Form(_) =>
        if Encodable(r.params, q) {
          EncodingFailsIff(r.params, q);
          RoundTrip(r.params, q);
        }
    }
  }

  // ---------------------------------------------------------------------------
  // A run
  // ---------------------------------------------------------------------------

  /** What came back: a body, an API error with its type, or a failure that is not an API error. */
  datatype Outcome = Answered(text: string) | Refused(errorType: string) | Broken

  /** The server decides on its own what to answer to the i-th request of the file. */
  type Server = (nat, Wire) -> Outcome

  predicate ErrWasExpected(o: Outcome, expectedErrorType: string) {
    expectedErrorType != "" && o == Refused(expectedErrorType)
  }

  predicate Continues(o: Outcome, r: Request) {
    o.Answered? || ErrWasExpected(o, r.expectedErrorType)
  }

  /** An expected error leaves an empty body to be queried. */
  function BodyOf(o: Outcome): string {
    if o.Answered? then o.text else ""
  }

  datatype Sent = Sent(index: nat, wire: Wire, outcome: Outcome)

  datatype Halt = Halt(index: nat, cause: Cause)

  datatype Report = Report(sent: seq<Sent>, responses: Responses, halt: Option<Halt>)

  datatype File = File(requests: seq<Request>, skip: seq<string>)

  function Then(sent: Sent, rest: Report): Report {
    rest.(sent := [sent] + rest.sent)
  }

  function RunFrom(file: File, i: nat, responses: Responses, w: World, server: Server): Report
    requires i <= |file.requests|
    decreases |file.requests| - i
  {
    if i == |file.requests| then Report([], responses, None) else
    var r := file.requests[i];
    if r.name in file.skip then RunFrom(file, i + 1, responses, w, server) else
    match Prepare(r, responses, w)
    case Stop(cause) => Report([], responses, Some(Halt(i, cause)))
    case Ready(wire) =>
      var o := server(i, wire);
      if Continues(o, r) then
        Then(Sent(i, wire, o), RunFrom(file, i + 1, responses[r.name := BodyOf(o)], w, server))
      else Report([Sent(i, wire, o)], responses, Some(Halt(i, UnexpectedFailure)))
  }

  function Preceded(earlier: seq<Sent>, report: Report): Report {
    report.(sent := earlier + report.sent)
  }

  lemma PrecededThen(earlier: seq<Sent>, s: Sent, rest: Report)
    ensures Preceded(earlier, Then(s, rest)) == Preceded(earlier + [s], rest)
  {
    assert earlier + ([s] + rest.sent) == earlier + [s] + rest.sent;
  }

  /** A skipped request leaves an empty name in the result. */
  function NameAt(file: File, i: nat): string
    requires i < |file.requests|
  {
    if file.requests[i].name in file.skip then "" else file.requests[i].name
  }

  function Names(file: File): seq<string> {
    seq(|file.requests|, i requires 0 <= i < |file.requests| => NameAt(file, i))
  }

  method IsNameIn(name: string, skip: seq<string>) returns (found: bool)
    ensures found <==> name in skip
  {
    for i := 0 to |skip|
      invariant name !in skip[..i]
    {
      if name == skip[i] {
        return true;
      }
    }
    return false;
  }

  class Fixture {
    const file: File
    const world: World
    var responses: Responses
    ghost var sent: seq<Sent>

    constructor (file: File, world: World)
      ensures this.file == file && this.world == world && responses == map[] && sent == []
    {
      this.file, this.world, responses, sent := file, world, map[], [];
    }

    /** None when the request could not be prepared. */
    method MakeRequest(i: nat, data: Request, server: Server) returns (resp: Option<Outcome>)
      modifies this`sent
      ensures var prepared := Prepare(data, responses, world);
        && (prepared.Stop? ==> resp == None && sent == old(sent))
        && (prepared.Ready? ==> resp == Some(server(i, prepared.wire)))
        && (prepared.Ready? ==> sent == old(sent) + [Sent(i, prepared.wire, server(i, prepared.wire))])
    {
      var prepared := Prepare(data, responses, world);
      if prepared.Stop? {
        return None;
      }
      var o := server(i, prepared.wire);
      sent := sent + [Sent(i, prepared.wire, o)];
      return Some(o);
    }

    /** One turn of the loop for a request that is not skipped. */
    method RunOne(i: nat, server: Server) returns (ok: bool)
      requires i < |file.requests| && file.requests[i].name !in file.skip
      modifies this`responses, this`sent
      ensures var report := RunFrom(file, i, old(responses), world, server);
        Preceded(old(sent), report) == if ok then Preceded(sent, RunFrom(file, i + 1, responses, world, server))
                                       else Report(sent, responses, report.halt)
      ensures !ok ==> RunFrom(file, i, old(responses), world, server).halt.Some?
    {
      var data := file.requests[i];
      ghost var prepared := Prepare(data, responses, world);
      var resp := MakeRequest(i, data, server);
      if resp.None? || !Continues(resp.value, data) {
        return false;
      }
      ghost var o := resp.value;
      PrecededThen(old(sent), Sent(i, prepared.wire, o),
                   RunFrom(file, i + 1, responses[data.name := BodyOf(o)], world, server));
      responses := responses[data.name := BodyOf(resp.value)];
      return true;
    }

    method Execute(server: Server) returns (names: Option<seq<string>>)
      modifies this`responses, this`sent
      ensures var report := RunFrom(file, 0, old(responses), world, server);
        && Report(sent, responses, report.halt) == Preceded(old(sent), report)
        && names == if report.halt.Some? then None else Some(Names(file))
    {
      var requestNames := [];
      ghost var goal := Preceded(sent, RunFrom(file, 0, responses, world, server));
      for i := 0 to |file.requests|
        invariant goal == Preceded(sent, RunFrom(file, i, responses, world, server))
        invariant requestNames == Names(file)[..i]
      {
        var data := file.requests[i];
        var skipped := IsNameIn(data.name, file.skip);
        requestNames := requestNames + [if skipped then "" else data.name];
        if skipped {
          continue;
        }
        var ok := RunOne(i, server);
        if !ok {
          return None;
        }
      }
      assert Names(file)[..|file.requests|] == Names(file);
      return Some(requestNames);
    }
  }

  // ---------------------------------------------------------------------------
  // Which requests are sent
  // ---------------------------------------------------------------------------

  /** The requests of file[from..to] that are not skipped, in order. */
  function Kept(file: File, from: nat, to: nat): seq<nat>
    requires from <= to <= |file.requests|
    decreases |file.requests| - from
  {
    if from == to then []
    else (if file.requests[from].name in file.skip then [] else [from]) + Kept(file, from + 1, to)
  }

  function Indices(sent: seq<Sent>): seq<nat> {
    if sent == [] then [] else [sent[0].index] + Indices(sent[1..])
  }

  /** The first request that is not sent: it is one past a request whose failure was not expected. */
  function EndOf(file: File, halt: Option<Halt>): nat {
    match halt
    case None => |file.requests|
    case Some(h) => if h.cause.UnexpectedFailure? then h.index + 1 else h.index
  }

  lemma {:induction false} EndInFile(file: File, i: nat, responses: Responses, w: World, server: Server)
    requires i <= |file.requests|
    ensures var halt := RunFrom(file, i, responses, w, server).halt;
      && i <= EndOf(file, halt) <= |file.requests|
      && (halt.Some? ==> i <= halt.value.index < |file.requests|)
      && (halt.Some? ==> file.requests[halt.value.index].name !in file.skip)
    decreases |file.requests| - i
  {
    if i < |file.requests| {
      var r := file.requests[i];
      if r.name in file.skip {
        EndInFile(file, i + 1, responses, w, server);
      } else if Prepare(r, responses, w).Ready? {
        var o := server(i, Prepare(r, responses, w).wire);
        if Continues(o, r) {
          EndInFile(file, i + 1, responses[r.name := BodyOf(o)], w, server);
        }
      }
    }
  }

  lemma IndicesThen(s: Sent, rest: seq<Sent>)
    ensures Indices([s] + rest) == [s.index] + Indices(rest)
  {
    assert ([s] + rest)[1..] == rest;
  }

  /** Exactly the requests that are not skipped are sent, each once and in order, up to the first
      unexpected failure. */
  lemma {:induction false} SentInOrder(file: File, i: nat, responses: Responses, w: World, server: Server)
    requires i <= |file.requests|
    ensures i <= EndOf(file, RunFrom(file, i, responses, w, server).halt) <= |file.requests|
    ensures Indices(RunFrom(file, i, responses, w, server).sent)
         == Kept(file, i, EndOf(file, RunFrom(file, i, responses, w, server).halt))
    decreases |file.requests| - i
  {
    EndInFile(file, i, responses, w, server);
    if i < |file.requests| {
      var r := file.requests[i];
      if r.name in file.skip {
        SentInOrder(file, i + 1, responses, w, server);
      } else if Prepare(r, responses, w).Ready? {
        var sent := Sent(i, Prepare(r, responses, w).wire, server(i, Prepare(r, responses, w).wire));
        if Continues(sent.outcome, r) {
          var responses' := responses[r.name := BodyOf(sent.outcome)];
          var rest := RunFrom(file, i + 1, responses', w, server);
          assert RunFrom(file, i, responses, w, server) == Then(sent, rest);
          SentInOrder(file, i + 1, responses', w, server);
          IndicesThen(sent, rest.sent);
        } else {
          IndicesThen(sent, []);
          assert Kept(file, i + 1, i + 1) == [];
        }
      }
    }
  }

  /** Every request that was sent got the server's answer, and every answer but that of the request
      the run stopped at was a success or the expected error. */
  lemma {:induction false} SentAnswered(file: File, i: nat, responses: Responses, w: World, server: Server, k: nat)
    requires i <= |file.requests|
    requires k < |RunFrom(file, i, responses, w, server).sent|
    ensures var report := RunFrom(file, i, responses, w, server);
      var s := report.sent[k];
      && i <= s.index < |file.requests|
      && s.outcome == server(s.index, s.wire)
      && (Continues(s.outcome, file.requests[s.index]) <==> report.halt != Some(Halt(s.index, UnexpectedFailure)))
    decreases |file.requests| - i
  {
    var r := file.requests[i];
    if r.name in file.skip {
      SentAnswered(file, i + 1, responses, w, server, k);
    } else {
      ScopeOfCauses(r, responses, w);
      var wire := Prepare(r, responses, w).wire;
      var o := server(i, wire);
      if Continues(o, r) {
        var responses' := responses[r.name := BodyOf(o)];
        var rest := RunFrom(file, i + 1, responses', w, server);
        assert RunFrom(file, i, responses, w, server) == Then(Sent(i, wire, o), rest);
        EndInFile(file, i + 1, responses', w, server);
        if k > 0 {
          SentAnswered(file, i + 1, responses', w, server, k - 1);
        }
      }
    }
  }

  /** Preparing a request never reports a failure of the server. */
  lemma ScopeOfCauses(r: Request, responses: Responses, w: World)
    ensures Prepare(r, responses, w) != Stop(UnexpectedFailure)
  {
  }

  // ---------------------------------------------------------------------------
  // Scope
  // ---------------------------------------------------------------------------

  /** A text refers to nothing, to the environment or to a declared name. */
  predicate InScope(text: string, declared: set<string>, w: World) {
    text in GENERATORS || w.find(text).None? || w.find(text).value.name in declared + {ENV}
  }

  /** A name is missing exactly when it is not declared, whether or not there is a default. */
  lemma ResolvesIff(text: string, responses: Responses, w: World)
    ensures ParseQuery(text, responses, w).Some? <==> InScope(text, responses.Keys, w)
  {
  }

  /** `Some` exactly for the texts in scope: a query without any response. */
  function ScopeOnly(declared: set<string>, w: World): Query {
    text => if InScope(text, declared, w) then Some(text) else None
  }

  predicate PathScoped(path: string, declared: set<string>, w: World) {
    var parts := w.pathParts(path);
    forall i :: 0 <= i < |parts| && parts[i].Match? ==> InScope(parts[i].text, declared, w)
  }

  /** Every text of a request is in scope: a check on the file alone, before anything is sent. */
  predicate WellScoped(r: Request, declared: set<string>, w: World) {
    && PathScoped(r.path, declared, w)
    && FieldsResolve(r.params, ScopeOnly(declared, w))
    && (r.idempotencyKey == "" || InScope(r.idempotencyKey, declared, w))
    && (forall i :: 0 <= i < |r.headers| ==> InScope(r.headers[i].1, declared, w))
  }

  /** The first request that is not skipped and not well scoped, where the names of the requests
      before it are declared unless they are skipped. */
  function FirstIllScoped(file: File, i: nat, declared: set<string>, w: World): (k: nat)
    requires i <= |file.requests|
    ensures i <= k <= |file.requests|
    decreases |file.requests| - i
  {
    if i == |file.requests| then i
    else if file.requests[i].name in file.skip then FirstIllScoped(file, i + 1, declared, w)
    else if !WellScoped(file.requests[i], declared, w) then i
    else FirstIllScoped(file, i + 1, declared + {file.requests[i].name}, w)
  }

  lemma {:induction false} SameResolved(v: Json, q: Query, q': Query)
    requires forall text :: q(text).Some? <==> q'(text).Some?
    ensures Resolves(v, q) <==> Resolves(v, q')
    decreases v, 1
  {
    match v
    case Arr(items) => SameItems(items, q, q');
    case Obj(fields) => SameFields(fields, q, q');
    case _ =>
  }

  lemma {:induction false} SameItems(items: seq<Json>, q: Query, q': Query)
    requires forall text :: q(text).Some? <==> q'(text).Some?
    ensures ItemsResolve(items, q) <==> ItemsResolve(items, q')
    decreases items, 0
  {
    if items != [] {
      SameResolved(items[0], q, q');
      SameItems(items[1..], q, q');
    }
  }

  lemma {:induction false} SameFields(fields: seq<Field>, q: Query, q': Query)
    requires forall text :: q(text).Some? <==> q'(text).Some?
    ensures FieldsResolve(fields, q) <==> FieldsResolve(fields, q')
    decreases fields, 0
  {
    if fields != [] {
      SameResolved(fields[0].value, q, q');
      SameFields(fields[1..], q, q');
    }
  }

  /** No string in an object resolves to the empty text. */
  predicate Filled(v: Json, q: Query)
    decreases v, 1
  {
    match v
    case Arr(items) => ItemsFilled(items, q)
    case Obj(fields) => FieldsFilled(fields, q)
    case _ => true
  }

  predicate ItemsFilled(items: seq<Json>, q: Query)
    decreases items, 0
  {
    items == [] || (Filled(items[0], q) && ItemsFilled(items[1..], q))
  }

  predicate FieldsFilled(fields: seq<Field>, q: Query)
    decreases fields, 0
  {
    fields == [] ||
    ((fields[0].value.Str? ==> q(fields[0].value.text) != Some(""))
     && Filled(fields[0].value, q) && FieldsFilled(fields[1..], q))
  }

  /** The v2 body is built if and only if every string resolves and none in an object to the empty
      text; otherwise one of the two is what stopped it. */
  lemma {:induction false} PayloadResolves(v: Json, q: Query, w: World)
    ensures JsonPayload(v, q, w).Built? <==> Resolves(v, q) && Filled(v, q)
    ensures JsonPayload(v, q, w).Unresolved? ==> !Resolves(v, q)
    ensures JsonPayload(v, q, w).Crashed? ==> !Filled(v, q)
    decreases v, 1
  {
    match v
    case Arr(items) => PayloadItemsResolve(items, q, w);
    case Obj(fields) => PayloadFieldsResolve(fields, q, w);
    case _ =>
  }

  lemma {:induction false} PayloadItemsResolve(items: seq<Json>, q: Query, w: World)
    ensures var r := JsonItems(items, q, w);
      && (r.Done? <==> ItemsResolve(items, q) && ItemsFilled(items, q))
      && (r.Ended? && r.problem.Unresolved? ==> !ItemsResolve(items, q))
      && (r.Ended? && r.problem.Crashed? ==> !ItemsFilled(items, q))
    decreases items, 0
  {
    if items != [] {
      PayloadResolves(items[0], q, w);
      PayloadItemsResolve(items[1..], q, w);
    }
  }

  lemma {:induction false} PayloadFieldsResolve(fields: seq<Field>, q: Query, w: World)
    ensures var r := JsonFields(fields, q, w);
      && (r.Done? <==> FieldsResolve(fields, q) && FieldsFilled(fields, q))
      && (r.Ended? && r.problem.Unresolved? ==> !FieldsResolve(fields, q))
      && (r.Ended? && r.problem.Crashed? ==> !FieldsFilled(fields, q))
    decreases fields, 0
  {
    if fields != [] {
      PayloadResolves(fields[0].value, q, w);
      PayloadFieldsResolve(fields[1..], q, w);
    }
  }

  lemma BodyResolves(r: Request, path: string, responses: Responses, w: World)
    ensures var (body, cause) := MakeBody(r, path, Resolver(responses, w), w);
      var scoped := FieldsResolve(r.params, ScopeOnly(responses.Keys, w));
      && (body.Some? ==> scoped)
      && (body.None? && cause.UndeclaredName? ==> !scoped)
      && (body.None? ==> cause.UndeclaredName? || cause.EmptyValue?)
  {
    var q := Resolver(responses, w);
    SameFields(r.params, q, ScopeOnly(responses.Keys, w));
    EncodingFailsIff(r.params, q);
    PayloadResolves(Obj(r.params), q, w);
  }

  lemma {:induction false} PartsResolve(parts: seq<Part>, responses: Responses, w: World)
    ensures ResolveParts(parts, Resolver(responses, w)).Some?
      <==> forall i :: 0 <= i < |parts| && parts[i].Match? ==> InScope(parts[i].text, responses.Keys, w)
  {
    if parts != [] {
      PartsResolve(parts[1..], responses, w);
      assert forall i :: 1 <= i < |parts| ==> parts[i] == parts[1..][i - 1];
      assert forall i :: 0 <= i < |parts[1..]| ==> parts[1..][i] == parts[i + 1];
    }
  }

  lemma {:induction false} HeadersResolve(headers: seq<(string, string)>, responses: Responses, w: World)
    ensures ResolveHeaders(headers, Resolver(responses, w)).Some?
      <==> forall i :: 0 <= i < |headers| ==> InScope(headers[i].1, responses.Keys, w)
  {
    if headers != [] {
      HeadersResolve(headers[1..], responses, w);
      assert forall i :: 1 <= i < |headers| ==> headers[i] == headers[1..][i - 1];
      assert forall i :: 0 <= i < |headers[1..]| ==> headers[1..][i] == headers[i + 1];
    }
  }

  /** A request goes out only if it is well scoped, and then the undeclared-name error cannot occur. */
  lemma ScopeDecides(r: Request, responses: Responses, w: World)
    ensures Prepare(r, responses, w).Ready? ==> WellScoped(r, responses.Keys, w)
    ensures WellScoped(r, responses.Keys, w) ==> Prepare(r, responses, w) != Stop(UndeclaredName)
    ensures Prepare(r, responses, w) != Stop(UnexpectedFailure)
  {
    var q := Resolver(responses, w);
    PartsResolve(w.pathParts(r.path), responses, w);
    var path := ParsePath(r.path, q, w);
    if path.Some? {
      BodyResolves(r, path.value, responses, w);
    }
    HeadersResolve(r.headers, responses, w);
  }

  /** Scope soundness. The undeclared-name error, if it occurs, is about the first ill-scoped
      request; no ill-scoped request and none after it is ever sent, and a file that has one never
      runs to its end. So a file without one never meets the error, whatever the server answers. */
  lemma {:induction false} ScopeSound(file: File, i: nat, responses: Responses, w: World, server: Server)
    requires i <= |file.requests|
    ensures var report := RunFrom(file, i, responses, w, server);
      var bad := FirstIllScoped(file, i, responses.Keys, w);
      && (report.halt.Some? && report.halt.value.cause == UndeclaredName ==> report.halt.value.index == bad)
      && EndOf(file, report.halt) <= bad
      && (bad < |file.requests| ==> report.halt.Some?)
    decreases |file.requests| - i
  {
    if i < |file.requests| {
      var r := file.requests[i];
      if r.name in file.skip {
        ScopeSound(file, i + 1, responses, w, server);
      } else {
        ScopeDecides(r, responses, w);
        match Prepare(r, responses, w)
        case Stop(cause) =>
        case Ready(wire) =>
          var o := server(i, wire);
          if Continues(o, r) {
            var responses' := responses[r.name := BodyOf(o)];
            assert responses'.Keys == responses.Keys + {r.name};
            ScopeSound(file, i + 1, responses', w, server);
          }
      }
    }
  }

  // ---------------------------------------------------------------------------
  // Where the values come from
  // ---------------------------------------------------------------------------

  predicate InFile(file: File, sent: seq<Sent>) {
    forall k :: 0 <= k < |sent| ==> sent[k].index < |file.requests|
  }

  lemma SentInFile(file: File, i: nat, responses: Responses, w: World, server: Server)
    requires i <= |file.requests|
    ensures InFile(file, RunFrom(file, i, responses, w, server).sent)
  {
    forall k | 0 <= k < |RunFrom(file, i, responses, w, server).sent|
      ensures RunFrom(file, i, responses, w, server).sent[k].index < |file.requests|
    {
      SentAnswered(file, i, responses, w, server, k);
    }
  }

  /** The responses after these requests. */
  function After(file: File, responses: Responses, sent: seq<Sent>): Responses
    requires InFile(file, sent)
  {
    if sent == [] then responses else
    var last := sent[|sent| - 1];
    After(file, responses, sent[..|sent| - 1])[file.requests[last.index].name := BodyOf(last.outcome)]
  }

  lemma {:induction false} AfterFirst(file: File, responses: Responses, sent: seq<Sent>)
    requires InFile(file, sent)
    requires sent != []
    ensures After(file, responses, sent)
         == After(file, responses[file.requests[sent[0].index].name := BodyOf(sent[0].outcome)], sent[1..])
  {
    if |sent| > 1 {
      AfterFirst(file, responses, sent[..|sent| - 1]);
      assert sent[..|sent| - 1][1..] == sent[1..][..|sent[1..]| - 1];
    } else {
      assert sent[..0] == [] && sent[1..] == [];
    }
  }

  /** Each request was prepared from the responses collected just before it. */
  predicate Replayed(file: File, responses: Responses, sent: seq<Sent>, w: World)
    requires InFile(file, sent)
    decreases |sent|
  {
    sent == [] ||
    (var r := file.requests[sent[0].index];
     Prepare(r, responses, w) == Ready(sent[0].wire)
     && Replayed(file, responses[r.name := BodyOf(sent[0].outcome)], sent[1..], w))
  }

  lemma {:induction false} RunIsReplayed(file: File, i: nat, responses: Responses, w: World, server: Server)
    requires i <= |file.requests|
    ensures InFile(file, RunFrom(file, i, responses, w, server).sent)
    ensures Replayed(file, responses, RunFrom(file, i, responses, w, server).sent, w)
    decreases |file.requests| - i
  {
    SentInFile(file, i, responses, w, server);
    if i < |file.requests| {
      var r := file.requests[i];
      if r.name in file.skip {
        RunIsReplayed(file, i + 1, responses, w, server);
      } else if Prepare(r, responses, w).Ready? {
        var first := Sent(i, Prepare(r, responses, w).wire, server(i, Prepare(r, responses, w).wire));
        if Continues(first.outcome, r) {
          var responses' := responses[r.name := BodyOf(first.outcome)];
          var rest := RunFrom(file, i + 1, responses', w, server);
          assert RunFrom(file, i, responses, w, server) == Then(first, rest);
          RunIsReplayed(file, i + 1, responses', w, server);
          assert ([first] + rest.sent)[1..] == rest.sent;
        } else {
          assert [first][1..] == [];
        }
      }
    }
  }

  /** Every request that was sent was prepared from the responses to the requests sent before it. */
  lemma {:induction false} PreparedFromEarlier(file: File, responses: Responses, sent: seq<Sent>, w: World, k: nat)
    requires InFile(file, sent) && Replayed(file, responses, sent, w) && k < |sent|
    ensures Prepare(file.requests[sent[k].index], After(file, responses, sent[..k]), w) == Ready(sent[k].wire)
    decreases k
  {
    if k > 0 {
      var responses' := responses[file.requests[sent[0].index].name := BodyOf(sent[0].outcome)];
      PreparedFromEarlier(file, responses', sent[1..], w, k - 1);
      AfterFirst(file, responses, sent[..k]);
      assert sent[..k][1..] == sent[1..][..k - 1];
    }
  }

  /** A name stands for the body of the latest request of that name, empty if it was refused as
      expected. */
  lemma {:induction false} LatestResponse(file: File, responses: Responses, sent: seq<Sent>, j: nat)
    requires InFile(file, sent)
    requires j < |sent|
    requires forall k :: j < k < |sent| ==> file.requests[sent[k].index].name != file.requests[sent[j].index].name
    ensures var name := file.requests[sent[j].index].name;
      var known := After(file, responses, sent);
      name in known && known[name] == BodyOf(sent[j].outcome)
  {
    if j < |sent| - 1 {
      LatestResponse(file, responses, sent[..|sent| - 1], j);
    }
  }

  /** So a query resolves to the field of that response, or to its default when there is none. */
  lemma QueryReadsLatest(file: File, sent: seq<Sent>, j: nat, text: string, w: World)
    requires InFile(file, sent)
    requires j < |sent|
    requires forall k :: j < k < |sent| ==> file.requests[sent[k].index].name != file.requests[sent[j].index].name
    requires text !in GENERATORS && w.find(text).Some?
    requires w.find(text).value.name == file.requests[sent[j].index].name != ENV
    ensures var f := w.find(text).value;
      var found := w.get(BodyOf(sent[j].outcome), f.path);
      ParseQuery(text, After(file, map[], sent), w)
      == Some(if found != "" then ReplaceAll(text, f.matched, found) else if f.fallback != "" then f.fallback else text)
  {
    LatestResponse(file, map[], sent, j);
  }
}
