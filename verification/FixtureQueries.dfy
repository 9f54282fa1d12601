/** What the texts of a fixture become, case by case, and what a request without any query sends
(`ParseQuery` of pkg/parsers/parsers.go, `makeRequest` of pkg/fixtures/fixtures.go).
*/
module FixtureQueries {
  import opened Text
  import opened FormData
  import opened FormRoundTrip
  import opened FixtureRun

  // ---------------------------------------------------------------------------
  // One text
  // ---------------------------------------------------------------------------

  predicate IsGenerator(text: string) {
    text == "${time-now-RFC3339}" || text == "${generate-uuid}"
  }

  /** Neither a generator nor a text in which the pattern matches. */
  predicate PlainText(text: string, w: World) {
    !IsGenerator(text) && w.find(text).None?
  }

  /** A text without a query is itself, whatever has been answered so far. */
  lemma PlainIsItself(text: string, responses: Responses, w: World)
    requires PlainText(text, w)
    ensures ParseQuery(text, responses, w) == Some(text)
  {
  }

  /** A generator is what is generated, a query of the environment the variable or else its default or else
      the text, and a query of a response its field or else its default or else the text. */
  lemma QueryResolvesTo(text: string, responses: Responses, w: World)
    ensures IsGenerator(text) ==> ParseQuery(text, responses, w) == Some(w.generated(text))
    ensures !IsGenerator(text) && w.find(text).Some? ==>
      var f := w.find(text).value;
      var found := if f.name == ".env" then w.env(f.path)
                   else if f.name in responses then w.get(responses[f.name], f.path) else "";
      && (f.name != ".env" && f.name !in responses ==> ParseQuery(text, responses, w) == None)
      && (f.name == ".env" || f.name in responses ==>
            ParseQuery(text, responses, w) == Some(
              if found != "" then ReplaceAll(text, f.matched, found)
              else if f.fallback != "" then f.fallback else text))
  {
  }

  predicate Occurs(part: string, s: string, i: nat) {
    i + |part| <= |s| && s[i..i + |part|] == part
  }

  ghost predicate Free(part: string, s: string) {
    forall i: nat :: !Occurs(part, s, i)
  }

  /** Replacing cuts the text at the occurrences of the match and puts the value there. */
  lemma {:induction false} ReplacesMatches(s: string, old_: string, new_: string) returns (pieces: seq<string>)
    requires old_ != ""
    ensures pieces != [] && Join(pieces, old_) == s && Join(pieces, new_) == ReplaceAll(s, old_, new_)
    ensures forall k :: 0 <= k < |pieces| ==> Free(old_, pieces[k])
  {
    if |s| < |old_| {
      pieces := [s];
    } else if s[..|old_|] == old_ {
      var rest := ReplacesMatches(s[|old_|..], old_, new_);
      pieces := [""] + rest;
      assert pieces[1..] == rest;
      assert s == old_ + s[|old_|..];
      assert Join(pieces, old_) == "" + old_ + Join(rest, old_);
      assert Join(pieces, new_) == "" + new_ + Join(rest, new_);
    } else {
      var rest := ReplacesMatches(s[1..], old_, new_);
      var first := [s[0]] + rest[0];
      pieces := [first] + rest[1..];
      assert s == [s[0]] + s[1..];
      JoinGrows(s[0], rest, old_);
      JoinGrows(s[0], rest, new_);
      FirstFree(s, old_, rest[0]);
      forall k | 0 <= k < |pieces| ensures Free(old_, pieces[k]) {
        assert k > 0 ==> pieces[k] == rest[k];
      }
    }
  }

  lemma JoinGrows(c: char, rest: seq<string>, sep: string)
    requires rest != []
    ensures Join([[c] + rest[0]] + rest[1..], sep) == [c] + Join(rest, sep)
    ensures rest[0] <= Join(rest, sep)
  {
    var more := [[c] + rest[0]] + rest[1..];
    assert more[1..] == rest[1..];
    if |rest| > 1 {
      assert [c] + rest[0] + sep + Join(rest[1..], sep) == [c] + (rest[0] + sep + Join(rest[1..], sep));
    }
  }

  lemma FirstFree(s: string, old_: string, piece: string)
    requires s != "" && |old_| <= |s| && s[..|old_|] != old_ && piece <= s[1..] && Free(old_, piece)
    ensures Free(old_, [s[0]] + piece)
  {
    var first := [s[0]] + piece;
    assert first <= s;
    assert |old_| <= |first| ==> first[..|old_|] == s[..|old_|];
    forall i: nat ensures !Occurs(old_, first, i) {
      if i > 0 {
        assert i + |old_| <= |first| ==> first[i..i + |old_|] == piece[i - 1..i - 1 + |old_|];
        assert !Occurs(old_, piece, i - 1);
      }
    }
  }

  // ---------------------------------------------------------------------------
  // A request whose texts hold no query
  // ---------------------------------------------------------------------------

  /** Every text stands for itself. */
  function Itself(): Query {
    text => Some(text)
  }

  predicate PlainJson(v: Json, w: World)
    decreases v, 1
  {
    match v
    case Str(text) => PlainText(text, w)
    case Arr(items) => PlainItems(items, w)
    case Obj(fields) => PlainFields(fields, w)
    case _ => true
  }

  predicate PlainItems(items: seq<Json>, w: World)
    decreases items, 0
  {
    items == [] || (PlainJson(items[0], w) && PlainItems(items[1..], w))
  }

  predicate PlainFields(fields: seq<Field>, w: World)
    decreases fields, 0
  {
    fields == [] || (PlainJson(fields[0].value, w) && PlainFields(fields[1..], w))
  }

  lemma {:induction false} PlainField(keyname: string, v: Json, responses: Responses, w: World)
    requires PlainJson(v, w)
    ensures FieldData(keyname, v, Resolver(responses, w)) == FieldData(keyname, v, Itself())
    decreases v, 1
  {
    match v
    case Obj(fields) => PlainMap(fields, keyname, -1, responses, w);
    case Arr(items) => PlainArray(items, keyname, -1, responses, w);
    case _ =>
  }

  lemma {:induction false} PlainMap(fields: seq<Field>, parent: string, index: int, responses: Responses, w: World)
    requires PlainFields(fields, w)
    ensures MapData(fields, parent, index, Resolver(responses, w)) == MapData(fields, parent, index, Itself())
    decreases fields, 0
  {
    if fields != [] {
      PlainField(KeyName(parent, index, fields[0].key), fields[0].value, responses, w);
      PlainMap(fields[1..], parent, index, responses, w);
    }
  }

  lemma {:induction false} PlainArray(items: seq<Json>, parent: string, index: int, responses: Responses, w: World)
    requires PlainItems(items, w)
    ensures ItemsData(items, parent, index, Resolver(responses, w)) == ItemsData(items, parent, index, Itself())
    decreases items, 0
  {
    if items != [] {
      match items[0] {
        case Obj(fields) =>
          PlainMap(fields, parent, index + 1, responses, w);
          PlainArray(items[1..], parent, index + 1, responses, w);
        case Arr(inner) =>
          PlainArray(inner, parent, -1, responses, w);
          assert ArrayData(inner, parent, Resolver(responses, w)) == ArrayData(inner, parent, Itself());
          PlainArray(items[1..], parent, index, responses, w);
        case _ => PlainArray(items[1..], parent, index, responses, w);
      }
    }
  }

  lemma {:induction false} PlainDocument(v: Json, responses: Responses, w: World)
    requires PlainJson(v, w)
    ensures JsonPayload(v, Resolver(responses, w), w) == JsonPayload(v, Itself(), w)
    decreases v, 1
  {
    match v
    case Obj(fields) => PlainDocumentFields(fields, responses, w);
    case Arr(items) => PlainDocumentItems(items, responses, w);
    case _ =>
  }

  lemma {:induction false} PlainDocumentItems(items: seq<Json>, responses: Responses, w: World)
    requires PlainItems(items, w)
    ensures JsonItems(items, Resolver(responses, w), w) == JsonItems(items, Itself(), w)
    decreases items, 0
  {
    if items != [] {
      PlainDocument(items[0], responses, w);
      PlainDocumentItems(items[1..], responses, w);
    }
  }

  lemma {:induction false} PlainDocumentFields(fields: seq<Field>, responses: Responses, w: World)
    requires PlainFields(fields, w)
    ensures JsonFields(fields, Resolver(responses, w), w) == JsonFields(fields, Itself(), w)
    decreases fields, 0
  {
    if fields != [] {
      PlainDocument(fields[0].value, responses, w);
      PlainDocumentFields(fields[1..], responses, w);
    }
  }

  predicate PlainRequest(r: Request, w: World) {
    && (forall i :: 0 <= i < |w.pathParts(r.path)| ==> w.pathParts(r.path)[i].Plain?)
    && PlainFields(r.params, w)
    && (r.idempotencyKey == "" || PlainText(r.idempotencyKey, w))
    && forall i :: 0 <= i < |r.headers| ==> PlainText(r.headers[i].1, w)
  }

  lemma {:induction false} PlainHeaders(headers: seq<(string, string)>, responses: Responses, w: World)
    requires forall i :: 0 <= i < |headers| ==> PlainText(headers[i].1, w)
    ensures ResolveHeaders(headers, Resolver(responses, w)) == Some(headers)
  {
    if headers != [] {
      assert forall i :: 0 <= i < |headers[1..]| ==> headers[1..][i] == headers[i + 1];
      PlainHeaders(headers[1..], responses, w);
      assert headers == [(headers[0].0, headers[0].1)] + headers[1..];
    }
  }

  /** The v2 API takes documents by POST. */
  predicate SendsDocument(r: Request) {
    "/v2/" <= r.path && Lower(r.verb) == "post"
  }

  /** A path of either version of the API: the version alone, or followed by a slash or a question mark. */
  predicate IsApiPath(path: string) {
    && |path| >= 3 && path[0] == '/' && path[1] == 'v' && (path[2] == '1' || path[2] == '2')
    && (|path| == 3 || path[3] == '/' || path[3] == '?')
  }

  lemma ApiPathIff(path: string)
    ensures IsValidAPIPath(path) <==> IsApiPath(path)
  {
    if IsApiPath(path) {
      var version := path[..3];
      assert version == if path[2] == '1' then "/v1" else "/v2";
      assert |path| > 3 ==> path[..4] == version + [path[3]];
      assert |path| == 3 ==> path == version;
    }
  }

  predicate IsSent(r: Request, w: World) {
    IsApiPath(r.path) && ("/v2/" <= r.path ==> w.secretKey)
  }

  lemma {:induction false} PlainFieldsResolve(fields: seq<Field>)
    ensures FieldsResolve(fields, Itself())
    decreases fields, 0
  {
    if fields != [] {
      PlainResolves(fields[0].value);
      PlainFieldsResolve(fields[1..]);
    }
  }

  lemma {:induction false} PlainResolves(v: Json)
    ensures Resolves(v, Itself())
    decreases v, 1
  {
    match v
    case Arr(items) => PlainItemsResolve(items);
    case Obj(fields) => PlainFieldsResolve(fields);
    case _ =>
  }

  lemma {:induction false} PlainItemsResolve(items: seq<Json>)
    ensures ItemsResolve(items, Itself())
    decreases items, 0
  {
    if items != [] {
      PlainResolves(items[0]);
      PlainItemsResolve(items[1..]);
    }
  }

  /** A request whose texts hold no query is sent with its path, key and headers as they are written and,
      unless it takes a document, with form entries from which its own parameters can be decoded: all of
      them if and only if form data drops none. No response plays a part. */
  lemma PlainRequestIsSent(r: Request, responses: Responses, w: World)
    requires PlainRequest(r, w) && IsSent(r, w) && !SendsDocument(r)
    ensures var prepared := Prepare(r, responses, w);
      && prepared.Ready? && prepared.wire.body.Form?
      && prepared.wire.path == r.path && prepared.wire.verb == r.verb
      && prepared.wire.idempotencyKey == r.idempotencyKey && prepared.wire.headers == r.headers
      && var entries := prepared.wire.body.entries;
         Encodable(r.params, Itself()) ==>
           && DecodeForm(entries) == Table(KeptFields(r.params, Itself()))
           && (DecodeForm(entries) == Full(Obj(r.params), Itself()) <==> AllLossless(r.params))
  {
    ApiPathIff(r.path);
    PlainFieldsResolve(r.params);
    EncodingFailsIff(r.params, Itself());
    PlainMap(r.params, "", -1, responses, w);
    PlainHeaders(r.headers, responses, w);
    if Encodable(r.params, Itself()) {
      RoundTrip(r.params, Itself());
      ExactIffLossless(r.params, Itself());
    }
  }

  /** One that takes a document is sent if and only if no string in an object is empty, and then with its own
      parameters, strings in objects read again as JSON. */
  lemma PlainDocumentIsSent(r: Request, responses: Responses, w: World)
    requires PlainRequest(r, w) && IsSent(r, w) && SendsDocument(r)
    ensures var prepared := Prepare(r, responses, w);
      && (if FieldsFilled(r.params, Itself()) then prepared.Ready? else prepared == Stop(EmptyValue))
      && (prepared.Ready? ==>
            && prepared.wire.body.Document? && ResolvedTo(Obj(r.params), prepared.wire.body.json, Itself(), w)
            && prepared.wire.path == r.path && prepared.wire.verb == r.verb
            && prepared.wire.idempotencyKey == r.idempotencyKey && prepared.wire.headers == r.headers)
  {
    ApiPathIff(r.path);
    PlainFieldsResolve(r.params);
    PlainDocument(Obj(r.params), responses, w);
    PayloadResolves(Obj(r.params), Itself(), w);
    PlainHeaders(r.headers, responses, w);
    if JsonPayload(Obj(r.params), Itself(), w).Built? {
      PayloadIsResolved(Obj(r.params), JsonPayload(Obj(r.params), Itself(), w).json, Itself(), w);
    }
  }

  /** A path that is none of the API's, or a v2 path without a secret key, stops the request. */
  lemma NotSent(r: Request, responses: Responses, w: World)
    requires PlainRequest(r, w) && !IsSent(r, w)
    ensures Prepare(r, responses, w) == Stop(if IsApiPath(r.path) then WrongKey else InvalidPath)
  {
    ApiPathIff(r.path);
  }

  // ---------------------------------------------------------------------------
  // Which answers a run goes on after
  // ---------------------------------------------------------------------------

  /** A success, or an API error of the type that the request names; a request that names none expects none. */
  predicate Tolerated(o: Outcome, r: Request) {
    match o
    case Answered(_) => true
    case Refused(errorType) => errorType == r.expectedErrorType && r.expectedErrorType != ""
    case Broken => false
  }

  /** A run stops after a request that was sent if and only if its answer is not tolerated. */
  lemma StopsAfterIff(file: File, i: nat, responses: Responses, w: World, server: Server, k: nat)
    requires i <= |file.requests| && k < |RunFrom(file, i, responses, w, server).sent|
    ensures var report := RunFrom(file, i, responses, w, server);
      var s := report.sent[k];
      s.index < |file.requests|
      && (report.halt == Some(Halt(s.index, UnexpectedFailure)) <==> !Tolerated(s.outcome, file.requests[s.index]))
  {
    SentAnswered(file, i, responses, w, server, k);
  }

  /** The names returned are those of the requests, in order, with a blank for each that is skipped. */
  lemma ReturnedNames(file: File, i: nat)
    requires i < |file.requests|
    ensures |Names(file)| == |file.requests|
    ensures (exists k :: 0 <= k < |file.skip| && file.skip[k] == file.requests[i].name) ==> Names(file)[i] == ""
    ensures (forall k :: 0 <= k < |file.skip| ==> file.skip[k] != file.requests[i].name) ==>
      Names(file)[i] == file.requests[i].name
  {
  }

  /** The latest request of a name leaves its response under that name, and an expected error leaves an empty
      one, so that every query of it falls back to its default. */
  lemma LeavesResponse(file: File, responses: Responses, sent: seq<Sent>, j: nat)
    requires InFile(file, sent) && j < |sent|
    requires forall k :: j < k < |sent| ==> file.requests[sent[k].index].name != file.requests[sent[j].index].name
    ensures var (name, known) := (file.requests[sent[j].index].name, After(file, responses, sent));
      name in known && known[name] == match sent[j].outcome case Answered(text) => text case _ => ""
  {
    LatestResponse(file, responses, sent, j);
  }
}
