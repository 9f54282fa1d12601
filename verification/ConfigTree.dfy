/** Removing keys from the nested settings (`removeKey` and `deepSearch` in pkg/config/config.go).

Settings are nested maps with lower-case keys; encoding them as TOML and reading them back is
taken to be the identity.
*/
module ConfigTree {
  import opened Text

  datatype Node = Leaf(value: string) | Section(entries: Table)

  type Table = map<string, Node>

  type Path = seq<string>

  /** `strings.Split` */
  function Split(s: string, sep: char): (parts: seq<string>)
    ensures parts != []
  {
    var i := IndexOf(s, sep);
    if i == |s| then [s] else [s[..i]] + Split(s[i + 1..], sep)
  }

  // ---------------------------------------------------------------------------
  // Reading
  // ---------------------------------------------------------------------------

  function Lookup(t: Table, path: Path): Option<Node>
    decreases |path|
  {
    if path == [] then Some(Section(t))
    else if path[0] !in t then None
    else if |path| == 1 then Some(t[path[0]])
    else if t[path[0]].Section? then Lookup(t[path[0]].entries, path[1..])
    else None
  }

  /** The kind of entry at a path, and its value unless it is a section. */
  datatype Entry = Missing | Value(value: string) | Nested

  function EntryAt(t: Table, path: Path): Entry {
    match Lookup(t, path)
    case None => Missing
    case Some(Leaf(value)) => Value(value)
    case Some(Section(_)) => Nested
  }

  /** `viper.IsSet` */
  predicate IsSet(t: Table, key: string) {
    Lookup(t, Split(Lower(key), '.')).Some?
  }

  // ---------------------------------------------------------------------------
  // Removing
  // ---------------------------------------------------------------------------

  /** Descends along `prefix`, putting an empty section wherever there is none, and deletes `last`. */
  function DeleteAt(t: Table, prefix: Path, last: string): Table
    decreases |prefix|
  {
    if prefix == [] then t - {last} else
    var k := prefix[0];
    var below := if k in t && t[k].Section? then t[k].entries else map[];
    t[k := Section(DeleteAt(below, prefix[1..], last))]
  }

  /** Only the last segment of the key is lowered. */
  function RemoveKey(t: Table, key: string): Table {
    var path := Split(key, '.');
    DeleteAt(t, path[..|path| - 1], Lower(path[|path| - 1]))
  }

  /** Every proper prefix of the removed path is a section. */
  predicate SectionsOn(t: Table, prefix: Path)
    decreases |prefix|
  {
    prefix == [] ||
    (prefix[0] in t && t[prefix[0]].Section? && SectionsOn(t[prefix[0]].entries, prefix[1..]))
  }

  /** `q` is the removed path or lies below it. */
  predicate Below(q: Path, p: Path) {
    p <= q
  }

  /** The removed path is gone, and every other path has the entry it had. */
  ghost predicate RemovesExactly(t: Table, u: Table, p: Path) {
    forall q: Path :: EntryAt(u, q) == if Below(q, p) then Missing else EntryAt(t, q)
  }

  lemma {:induction false} DeletedEntry(t: Table, prefix: Path, last: string, q: Path)
    requires SectionsOn(t, prefix)
    ensures EntryAt(DeleteAt(t, prefix, last), q) == if Below(q, prefix + [last]) then Missing else EntryAt(t, q)
    decreases |prefix|
  {
    var u := DeleteAt(t, prefix, last);
    if q == [] {
    } else if prefix == [] {
      assert Below(q, [last]) <==> q[0] == last;
    } else {
      var p := prefix + [last];
      assert p[0] == prefix[0] && p[1..] == prefix[1..] + [last];
      if q[0] == prefix[0] {
        assert Below(q, p) <==> Below(q[1..], p[1..]) by {
          assert q == [q[0]] + q[1..] && p == [p[0]] + p[1..];
        }
        DeletedEntry(t[prefix[0]].entries, prefix[1..], last, q[1..]);
        assert |q| == 1 ==> !Below(q, p);
      } else {
        assert !Below(q, p);
      }
    }
  }

  /** Without all the sections on the way, some prefix that was no section has become one. */
  lemma {:induction false} DamagedPrefix(t: Table, prefix: Path, last: string) returns (q: Path)
    requires !SectionsOn(t, prefix)
    ensures q <= prefix && q != []
    ensures EntryAt(t, q) != Nested && EntryAt(DeleteAt(t, prefix, last), q) == Nested
    decreases |prefix|
  {
    var k := prefix[0];
    if k in t && t[k].Section? {
      var below := DamagedPrefix(t[k].entries, prefix[1..], last);
      q := [k] + below;
      assert q[1..] == below;
      assert prefix == [k] + prefix[1..];
    } else {
      q := [k];
    }
  }

  /** `removeKey` deletes exactly the addressed entry if and only if every proper prefix of the key is
      a section; otherwise it creates sections on the way, overwriting any value it meets. */
  lemma RemoveKeyExactIff(t: Table, key: string)
    ensures var path := Split(key, '.');
      var prefix, last := path[..|path| - 1], Lower(path[|path| - 1]);
      RemovesExactly(t, RemoveKey(t, key), prefix + [last]) <==> SectionsOn(t, prefix)
  {
    var path := Split(key, '.');
    var prefix, last := path[..|path| - 1], Lower(path[|path| - 1]);
    var u := RemoveKey(t, key);
    if SectionsOn(t, prefix) {
      forall q: Path ensures EntryAt(u, q) == if Below(q, prefix + [last]) then Missing else EntryAt(t, q) {
        DeletedEntry(t, prefix, last, q);
      }
    } else {
      var q := DamagedPrefix(t, prefix, last);
      assert !Below(q, prefix + [last]);
      assert EntryAt(u, q) != EntryAt(t, q);
    }
  }

  // ---------------------------------------------------------------------------
  // Setting a table
  // ---------------------------------------------------------------------------

  /** A table that is set lies over the one in the config file: the fields that it does not mention
      show through, and are written out with it. */
  function Overlaid(below: Node, above: Node): Node
    decreases above
  {
    if below.Leaf? || above.Leaf? then above else
    Section(map k | k in below.entries.Keys + above.entries.Keys ::
      if k !in above.entries then below.entries[k]
      else if k !in below.entries then above.entries[k]
      else Overlaid(below.entries[k], above.entries[k]))
  }

  /** `Set` of a whole table, and writing the settings to the file. */
  function SetTable(t: Table, key: string, entries: Table): Table {
    t[key := if key in t then Overlaid(t[key], Section(entries)) else Section(entries)]
  }

  /** Nothing shows through: every entry below has one above it. */
  predicate Fits(below: Node, above: Node)
    decreases above
  {
    below.Section? && above.Section? ==>
      forall k :: k in below.entries ==> k in above.entries && Fits(below.entries[k], above.entries[k])
  }

  lemma {:induction false} OverlaidKeepsIff(below: Node, above: Node)
    ensures Overlaid(below, above) == above <==> Fits(below, above)
    decreases above
  {
    if below.Section? && above.Section? {
      var x, y := below.entries, above.entries;
      var r := Overlaid(below, above).entries;
      forall k | k in x && k in y ensures r[k] == y[k] <==> Fits(x[k], y[k]) {
        OverlaidKeepsIff(x[k], y[k]);
      }
      if forall k :: k in x ==> k in y && r[k] == y[k] {
        assert r.Keys == y.Keys;
        assert forall k :: k in y ==> r[k] == y[k];
      }
      assert forall k :: k in x ==> k in r;
    }
  }

  lemma {:induction false} FitsItself(n: Node)
    ensures Fits(n, n)
    decreases n
  {
    if n.Section? {
      forall k | k in n.entries ensures Fits(n.entries[k], n.entries[k]) {
        FitsItself(n.entries[k]);
      }
    }
  }

  /** Laying the old table over the result again leaves nothing else showing, if and only if nothing of
      the new one shows through the old. */
  lemma {:induction false} FitsBackIff(below: Node, above: Node)
    ensures Fits(Overlaid(below, above), below) <==> Fits(above, below)
    decreases above
  {
    if below.Section? && above.Section? {
      var x, y, r := below.entries, above.entries, Overlaid(below, above).entries;
      forall k | k in x ensures k in y ==> (Fits(r[k], x[k]) <==> Fits(y[k], x[k])) {
        if k in y {
          FitsBackIff(x[k], y[k]);
        }
      }
      forall k | k in x && k !in y ensures Fits(r[k], x[k]) {
        FitsItself(x[k]);
      }
      assert forall k :: k in y ==> k in r;
    }
  }

  /** A value on the way to the path hides what lies below it in the file. */
  predicate Hides(above: Table, path: Path)
    decreases |path|
  {
    |path| > 1 && path[0] in above && (above[path[0]].Leaf? || Hides(above[path[0]].entries, path[1..]))
  }

  /** What every path shows: the entry of the table that was set, or else that of the file, unless a
      value hides it. */
  lemma {:induction false} OverlaidEntry(below: Table, above: Table, path: Path)
    ensures EntryAt(Overlaid(Section(below), Section(above)).entries, path) ==
      if EntryAt(above, path) != Missing then EntryAt(above, path)
      else if Hides(above, path) then Missing
      else EntryAt(below, path)
    decreases |path|
  {
    if path != [] && path[0] in above && path[0] in below && |path| > 1 {
      var x, y := below[path[0]], above[path[0]];
      if x.Section? && y.Section? {
        OverlaidEntry(x.entries, y.entries, path[1..]);
      }
    }
  }

  // ---------------------------------------------------------------------------
  // Removing the authentication fields of one profile
  // ---------------------------------------------------------------------------

  const AUTH_FIELDS: seq<string> := [
    "device_name", "display_name", "account_id", "user_id", "is_terms_acceptance_valid",
    "test_mode_api_key", "test_mode_pub_key", "test_mode_key_expires_at",
    "live_mode_api_key", "live_mode_pub_key", "live_mode_key_expires_at",
    "profile_name", "sandbox_claim_url", "sandbox_expires_at",
    "secret_key", "api_key", "publishable_key", "test_mode_publishable_key", "experimental"]

  /** A name that viper neither folds nor splits. */
  predicate Plain(name: string) {
    '.' !in name && Lower(name) == name
  }

  lemma {:induction false} LowerConcat(a: string, b: string)
    ensures Lower(a + b) == Lower(a) + Lower(b)
  {
    if a == "" {
      assert a + b == b;
    } else {
      LowerConcat(a[1..], b);
      assert (a + b)[0] == a[0] && (a + b)[1..] == a[1..] + b;
    }
  }

  lemma SplitField(profile: string, field: string)
    requires Plain(profile) && Plain(field)
    ensures Split(profile + "." + field, '.') == [profile, field]
    ensures Lower(profile + "." + field) == profile + "." + field
  {
    var key := profile + "." + field;
    IndexOfSplit(profile, '.', field);
    assert key == profile + ['.'] + field;
    assert key[..|profile|] == profile && key[|profile| + 1..] == field;
    assert IndexOf(field, '.') == |field|;
    LowerConcat(profile + ".", field);
    LowerConcat(profile, ".");
    assert Lower(".") == "." by { assert "."[1..] == ""; }
  }

  /** The field is removed from the profile's section; a profile without it is left as it is. */
  function WithoutField(t: Table, profile: string, field: string): Table {
    if profile in t && t[profile].Section? then t[profile := Section(t[profile].entries - {field})] else t
  }

  lemma LookupField(t: Table, profile: string, field: string)
    ensures Lookup(t, [profile, field]).Some? <==>
      profile in t && t[profile].Section? && field in t[profile].entries
  {
    var path := [profile, field];
    assert path[1..] == [field];
  }

  lemma RemoveFieldStep(t: Table, profile: string, field: string)
    requires Plain(profile) && Plain(field)
    ensures var key := profile + "." + field;
      (if IsSet(t, key) then RemoveKey(t, key) else t) == WithoutField(t, profile, field)
  {
    var key := profile + "." + field;
    SplitField(profile, field);
    var path := [profile, field];
    assert path[..1] == [profile] && path[1..] == [field] && [profile][1..] == [];
    LookupField(t, profile, field);
    if IsSet(t, key) {
      assert RemoveKey(t, key) == DeleteAt(t, [profile], field);
      assert DeleteAt(t[profile].entries, [], field) == t[profile].entries - {field};
    } else if profile in t && t[profile].Section? {
      assert t[profile].entries - {field} == t[profile].entries;
      assert t[profile := t[profile]] == t;
    }
  }

  function WithoutFields(t: Table, profile: string, fields: seq<string>): Table
    decreases |fields|
  {
    if fields == [] then t else WithoutFields(WithoutField(t, profile, fields[0]), profile, fields[1..])
  }

  function Except(fields: seq<string>, failed: set<string>): seq<string> {
    if fields == [] then []
    else if fields[0] in failed then Except(fields[1..], failed)
    else [fields[0]] + Except(fields[1..], failed)
  }

  lemma {:induction false} InExcept(fields: seq<string>, failed: set<string>, field: string)
    ensures field in Except(fields, failed) <==> field in fields && field !in failed
  {
    if fields != [] {
      InExcept(fields[1..], failed, field);
      assert fields == [fields[0]] + fields[1..];
    }
  }

  /** `failed` are the fields whose removal does not survive re-encoding; they are passed over. */
  method DeleteAuthFields(settings: Table, profile: string, failed: set<string>) returns (v: Table)
    requires Plain(profile)
    ensures v == WithoutFields(settings, profile, Except(AUTH_FIELDS, failed))
  {
    AuthFieldsPlain();
    v := DeleteFields(settings, profile, AUTH_FIELDS, failed);
  }

  method DeleteFields(settings: Table, profile: string, fields: seq<string>, failed: set<string>) returns (v: Table)
    requires Plain(profile) && forall i :: 0 <= i < |fields| ==> Plain(fields[i])
    ensures v == WithoutFields(settings, profile, Except(fields, failed))
  {
    v := settings;
    for i := 0 to |fields|
      invariant WithoutFields(settings, profile, Except(fields, failed))
             == WithoutFields(v, profile, Except(fields[i..], failed))
    {
      var key := profile + "." + fields[i];
      RemoveFieldStep(v, profile, fields[i]);
      NextField(v, profile, fields[i..], failed);
      assert fields[i..][1..] == fields[i + 1..];
      if IsSet(v, key) && fields[i] !in failed {
        v := RemoveKey(v, key);
      }
    }
  }

  lemma NextField(t: Table, profile: string, fields: seq<string>, failed: set<string>)
    requires fields != []
    ensures WithoutFields(t, profile, Except(fields, failed)) ==
      WithoutFields(
        if fields[0] in failed then t else WithoutField(t, profile, fields[0]), profile, Except(fields[1..], failed))
  {
    var rest := Except(fields[1..], failed);
    assert ([fields[0]] + rest)[1..] == rest;
  }

  predicate NoUpper(s: string) {
    forall c :: c in s ==> c != '.' && !('A' <= c <= 'Z')
  }

  lemma {:induction false} NoUpperPlain(s: string)
    requires NoUpper(s)
    ensures Lower(s) == s && Plain(s)
  {
    if s != "" {
      assert s == [s[0]] + s[1..];
      assert forall c :: c in s[1..] ==> c in s;
      assert s[0] in s;
      NoUpperPlain(s[1..]);
    }
  }

  lemma AccountFieldsPlain()
    ensures forall i :: 0 <= i < 5 ==> NoUpper(AUTH_FIELDS[i])
  {
    assert NoUpper("device_name");
    assert NoUpper("display_name");
    assert NoUpper("account_id");
    assert NoUpper("user_id");
    assert NoUpper("is_terms_acceptance_valid");
  }

  lemma TestModeFieldsPlain()
    ensures forall i :: 5 <= i < 8 ==> NoUpper(AUTH_FIELDS[i])
  {
    assert NoUpper("test_mode_api_key");
    assert NoUpper("test_mode_pub_key");
    assert NoUpper("test_mode_key_expires_at");
  }

  lemma LiveModeFieldsPlain()
    ensures forall i :: 8 <= i < 11 ==> NoUpper(AUTH_FIELDS[i])
  {
    assert NoUpper("live_mode_api_key");
    assert NoUpper("live_mode_pub_key");
    assert NoUpper("live_mode_key_expires_at");
  }

  lemma SandboxFieldsPlain()
    ensures forall i :: 11 <= i < 14 ==> NoUpper(AUTH_FIELDS[i])
  {
    assert NoUpper("profile_name");
    assert NoUpper("sandbox_claim_url");
    assert NoUpper("sandbox_expires_at");
  }

  lemma LegacyFieldsPlain()
    ensures forall i :: 14 <= i < 17 ==> NoUpper(AUTH_FIELDS[i])
  {
    assert NoUpper("secret_key");
    assert NoUpper("api_key");
    assert NoUpper("publishable_key");
  }

  lemma RemainingFieldsPlain()
    ensures forall i :: 17 <= i < 19 ==> NoUpper(AUTH_FIELDS[i])
  {
    assert NoUpper("test_mode_publishable_key");
    assert NoUpper("experimental");
  }

  lemma AuthFieldsPlain()
    ensures forall i :: 0 <= i < |AUTH_FIELDS| ==> Plain(AUTH_FIELDS[i])
  {
    AccountFieldsPlain();
    TestModeFieldsPlain();
    LiveModeFieldsPlain();
    SandboxFieldsPlain();
    LegacyFieldsPlain();
    RemainingFieldsPlain();
    forall i | 0 <= i < |AUTH_FIELDS| ensures Plain(AUTH_FIELDS[i]) {
      NoUpperPlain(AUTH_FIELDS[i]);
    }
  }

  lemma WithoutFieldEntry(t: Table, profile: string, field: string, q: Path)
    ensures EntryAt(WithoutField(t, profile, field), q) ==
      if |q| >= 2 && q[0] == profile && q[1] == field then Missing else EntryAt(t, q)
  {
    if |q| >= 2 && profile in t && t[profile].Section? {
      var entries, rest := t[profile].entries, q[1..];
      assert rest[0] == q[1];
      if q[0] == profile {
        assert Lookup(WithoutField(t, profile, field), q) == Lookup(entries - {field}, rest);
        assert Lookup(t, q) == Lookup(entries, rest);
        assert Lookup(entries - {field}, rest) == if rest[0] == field then None else Lookup(entries, rest);
      }
    }
  }

  lemma {:induction false} WithoutFieldsEntry(t: Table, profile: string, fields: seq<string>, q: Path)
    ensures EntryAt(WithoutFields(t, profile, fields), q) ==
      if |q| >= 2 && q[0] == profile && q[1] in fields then Missing else EntryAt(t, q)
    decreases |fields|
  {
    if fields != [] {
      WithoutFieldsEntry(WithoutField(t, profile, fields[0]), profile, fields[1..], q);
      WithoutFieldEntry(t, profile, fields[0], q);
    }
  }

  /** Logging out removes every authentication field of the profile whose removal works and, in all
      settings, nothing else. */
  lemma AuthFieldsExactlyRemoved(settings: Table, profile: string, failed: set<string>)
    ensures forall q: Path ::
      EntryAt(WithoutFields(settings, profile, Except(AUTH_FIELDS, failed)), q) ==
        if |q| >= 2 && q[0] == profile && q[1] in AUTH_FIELDS && q[1] !in failed then Missing else EntryAt(settings, q)
  {
    forall q: Path
      ensures EntryAt(WithoutFields(settings, profile, Except(AUTH_FIELDS, failed)), q) ==
        if |q| >= 2 && q[0] == profile && q[1] in AUTH_FIELDS && q[1] !in failed then Missing else EntryAt(settings, q)
    {
      WithoutFieldsEntry(settings, profile, Except(AUTH_FIELDS, failed), q);
      if |q| >= 2 {
        InExcept(AUTH_FIELDS, failed, q[1]);
      }
    }
  }
}
