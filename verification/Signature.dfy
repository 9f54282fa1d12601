/** Noticing that the authorized accounts have changed (pkg/login/oauth_reauth.go).

The signature of a list of accounts is meant to be the same for the same accounts in any order,
and different for different accounts.
*/
module Signature {
  import opened Text

  datatype Account = Account(id: string, name: string, modes: seq<string>)

  // ---------------------------------------------------------------------------
  // Sorting
  // ---------------------------------------------------------------------------

  function InsertString(x: string, s: seq<string>): seq<string> {
    if s == [] || Le(x, s[0]) then [x] + s else [s[0]] + InsertString(x, s[1..])
  }

  /** `sort.Strings` */
  function SortStrings(s: seq<string>): seq<string> {
    if s == [] then [] else InsertString(s[0], SortStrings(s[1..]))
  }

  function InsertAccount(x: Account, s: seq<Account>): seq<Account> {
    if s == [] || Le(x.id, s[0].id) then [x] + s else [s[0]] + InsertAccount(x, s[1..])
  }

  /** The copy, sorted by ID. Accounts with the same ID could come out in any order, which is why the
      results below ask for distinct IDs. */
  function SortAccounts(s: seq<Account>): seq<Account> {
    if s == [] then [] else InsertAccount(s[0], SortAccounts(s[1..]))
  }

  // ---------------------------------------------------------------------------
  // The signature
  // ---------------------------------------------------------------------------

  function Written(a: Account): string {
    a.id + "|" + a.name + "|" + Join(SortStrings(a.modes), ",") + ";"
  }

  function WrittenAll(s: seq<Account>): string {
    if s == [] then "" else Written(s[0]) + WrittenAll(s[1..])
  }

  function SignatureOf(accounts: seq<Account>): string {
    WrittenAll(SortAccounts(accounts))
  }

  method AccountsSignature(accounts: seq<Account>) returns (signature: string)
    ensures signature == SignatureOf(accounts)
  {
    var sorted := SortAccounts(accounts);
    signature := "";
    for i := 0 to |sorted|
      invariant signature + WrittenAll(sorted[i..]) == WrittenAll(sorted)
    {
      var a := sorted[i];
      var modes := SortStrings(a.modes);
      assert sorted[i..][1..] == sorted[i + 1..];
      ghost var before := signature;
      signature := signature + (a.id + "|" + a.name + "|" + Join(modes, ",") + ";");
      assert before + (Written(a) + WrittenAll(sorted[i + 1..])) == signature + WrittenAll(sorted[i + 1..]);
    }
  }

  // ---------------------------------------------------------------------------
  // What a list of accounts means, in whatever order
  // ---------------------------------------------------------------------------

  datatype Grant = Grant(name: string, modes: multiset<string>)

  function IdsOf(s: seq<Account>): set<string> {
    if s == [] then {} else {s[0].id} + IdsOf(s[1..])
  }

  predicate DistinctIds(s: seq<Account>) {
    s == [] || (s[0].id !in IdsOf(s[1..]) && DistinctIds(s[1..]))
  }

  function GrantOf(a: Account): Grant {
    Grant(a.name, multiset(a.modes))
  }

  /** The accounts without any order: by ID, with the modes as a multiset. */
  function Table(s: seq<Account>): (t: map<string, Grant>)
    ensures t.Keys == IdsOf(s)
  {
    if s == [] then map[] else Table(s[1..])[s[0].id := GrantOf(s[0])]
  }

  /** The accounts up to reordering them and their modes. */
  function Unordered(s: seq<Account>): multiset<(string, Grant)> {
    if s == [] then multiset{} else multiset{(s[0].id, GrantOf(s[0]))} + Unordered(s[1..])
  }

  lemma {:induction false} UnorderedCounts(s: seq<Account>, id: string, g: Grant)
    requires DistinctIds(s)
    ensures Unordered(s)[(id, g)] == if id in Table(s) && Table(s)[id] == g then 1 else 0
  {
    if s != [] {
      UnorderedCounts(s[1..], id, g);
    }
  }

  lemma ReorderedLookup(a: seq<Account>, b: seq<Account>, id: string)
    requires DistinctIds(a) && DistinctIds(b) && Unordered(a) == Unordered(b)
    requires id in Table(a)
    ensures id in Table(b) && Table(b)[id] == Table(a)[id]
  {
    UnorderedCounts(a, id, Table(a)[id]);
    UnorderedCounts(b, id, Table(a)[id]);
  }

  /** The same table means the same accounts and modes in some order. */
  lemma SameTableIffReordered(a: seq<Account>, b: seq<Account>)
    requires DistinctIds(a) && DistinctIds(b)
    ensures Table(a) == Table(b) <==> Unordered(a) == Unordered(b)
  {
    if Unordered(a) == Unordered(b) {
      forall id | id in Table(a) ensures id in Table(b) && Table(b)[id] == Table(a)[id] {
        ReorderedLookup(a, b, id);
      }
      forall id | id in Table(b) ensures id in Table(a) {
        ReorderedLookup(b, a, id);
      }
    }
    if Table(a) == Table(b) {
      forall p: (string, Grant) ensures Unordered(a)[p] == Unordered(b)[p] {
        UnorderedCounts(a, p.0, p.1);
        UnorderedCounts(b, p.0, p.1);
      }
    }
  }

  /** No field can be mistaken for more than one. IDs and names may hold `,` and `;`. */
  predicate Readable(a: Account) {
    && '|' !in a.id && '|' !in a.name
    && (forall i :: 0 <= i < |a.modes| ==> ',' !in a.modes[i] && ';' !in a.modes[i])
    && a.modes != [""]
  }

  predicate AllReadable(s: seq<Account>) {
    s == [] || (Readable(s[0]) && AllReadable(s[1..]))
  }

  predicate WellFormed(s: seq<Account>) {
    DistinctIds(s) && AllReadable(s)
  }

  // ---------------------------------------------------------------------------
  // Sorting is canonical
  // ---------------------------------------------------------------------------

  predicate Ascending(s: seq<string>) {
    s == [] || ((forall i :: 0 < i < |s| ==> Le(s[0], s[i])) && Ascending(s[1..]))
  }

  lemma {:induction false} InsertStringKeeps(x: string, s: seq<string>)
    ensures multiset(InsertString(x, s)) == multiset(s) + multiset{x}
  {
    if s != [] {
      assert s == [s[0]] + s[1..];
      InsertStringKeeps(x, s[1..]);
    }
  }

  lemma {:induction false} InsertStringSorts(x: string, s: seq<string>)
    requires Ascending(s)
    ensures Ascending(InsertString(x, s))
  {
    var r := InsertString(x, s);
    if s == [] {
      assert r[1..] == [];
    } else if Le(x, s[0]) {
      assert r[1..] == s;
      forall i | 0 < i < |r| ensures Le(x, r[i]) {
        if i > 1 {
          LeTransitive(x, s[0], s[i - 1]);
        }
      }
    } else {
      LeTotal(x, s[0]);
      InsertStringSorts(x, s[1..]);
      InsertStringKeeps(x, s[1..]);
      assert r[1..] == InsertString(x, s[1..]);
      forall i | 0 < i < |r| ensures Le(s[0], r[i]) {
        assert r[1..][i - 1] in multiset(r[1..]);
        assert r[i] == x || r[i] in multiset(s[1..]);
      }
    }
  }

  lemma {:induction false} SortStringsSorts(s: seq<string>)
    ensures Ascending(SortStrings(s)) && multiset(SortStrings(s)) == multiset(s)
  {
    if s != [] {
      SortStringsSorts(s[1..]);
      InsertStringSorts(s[0], SortStrings(s[1..]));
      InsertStringKeeps(s[0], SortStrings(s[1..]));
      assert s == [s[0]] + s[1..];
    }
  }

  lemma SmallestString(s: seq<string>, x: string)
    requires Ascending(s) && x in multiset(s)
    ensures s != [] && Le(s[0], x)
  {
    var i :| 0 <= i < |s| && s[i] == x;
    LeTotal(x, x);
  }

  lemma {:induction false} AscendingUnique(a: seq<string>, b: seq<string>)
    requires Ascending(a) && Ascending(b) && multiset(a) == multiset(b)
    ensures a == b
  {
    assert |a| == |multiset(a)| == |multiset(b)| == |b|;
    if a != [] {
      assert a == [a[0]] + a[1..] && b == [b[0]] + b[1..];
      SmallestString(a, b[0]);
      SmallestString(b, a[0]);
      LeTotal(a[0], b[0]);
      assert multiset(a[1..]) == multiset(a) - multiset{a[0]};
      assert multiset(b[1..]) == multiset(b) - multiset{b[0]};
      AscendingUnique(a[1..], b[1..]);
    }
  }

  /** Sorting strings is canonical. */
  lemma SortStringsCanonical(a: seq<string>, b: seq<string>)
    ensures SortStrings(a) == SortStrings(b) <==> multiset(a) == multiset(b)
  {
    SortStringsSorts(a);
    SortStringsSorts(b);
    if multiset(a) == multiset(b) {
      AscendingUnique(SortStrings(a), SortStrings(b));
    }
  }

  predicate ById(s: seq<Account>) {
    s == [] || ((forall id :: id in IdsOf(s[1..]) ==> Le(s[0].id, id)) && ById(s[1..]))
  }

  lemma {:induction false} InsertAccountKeeps(x: Account, s: seq<Account>)
    ensures IdsOf(InsertAccount(x, s)) == IdsOf(s) + {x.id}
  {
    if s != [] && !Le(x.id, s[0].id) {
      InsertAccountKeeps(x, s[1..]);
      assert InsertAccount(x, s)[1..] == InsertAccount(x, s[1..]);
    } else {
      assert InsertAccount(x, s)[1..] == s;
    }
  }

  lemma {:induction false} InsertAccountSorts(x: Account, s: seq<Account>)
    requires ById(s)
    ensures ById(InsertAccount(x, s))
  {
    if s == [] {
      assert InsertAccount(x, s)[1..] == [];
    } else if Le(x.id, s[0].id) {
      assert InsertAccount(x, s)[1..] == s;
      forall id | id in IdsOf(s) ensures Le(x.id, id) {
        if id != s[0].id {
          LeTransitive(x.id, s[0].id, id);
        }
      }
    } else {
      LeTotal(x.id, s[0].id);
      InsertAccountSorts(x, s[1..]);
      InsertAccountKeeps(x, s[1..]);
      assert InsertAccount(x, s)[1..] == InsertAccount(x, s[1..]);
    }
  }

  lemma {:induction false} InsertAccountWellFormed(x: Account, s: seq<Account>)
    requires WellFormed(s) && x.id !in IdsOf(s) && Readable(x)
    ensures WellFormed(InsertAccount(x, s))
  {
    if s != [] && !Le(x.id, s[0].id) {
      InsertAccountKeeps(x, s[1..]);
      InsertAccountWellFormed(x, s[1..]);
      assert InsertAccount(x, s)[1..] == InsertAccount(x, s[1..]);
    } else {
      assert InsertAccount(x, s)[1..] == s;
    }
  }

  lemma {:induction false} InsertAccountTable(x: Account, s: seq<Account>)
    requires x.id !in IdsOf(s)
    ensures Table(InsertAccount(x, s)) == Table(s)[x.id := GrantOf(x)]
  {
    if s != [] && !Le(x.id, s[0].id) {
      InsertAccountTable(x, s[1..]);
      assert InsertAccount(x, s)[1..] == InsertAccount(x, s[1..]);
      SwapUpdates(Table(s[1..]), x.id, GrantOf(x), s[0].id, GrantOf(s[0]));
    } else {
      assert InsertAccount(x, s)[1..] == s;
    }
  }

  lemma SwapUpdates(t: map<string, Grant>, a: string, x: Grant, b: string, y: Grant)
    requires a != b
    ensures t[a := x][b := y] == t[b := y][a := x]
  {
  }

  /** Sorting keeps the accounts and puts them in order. */
  lemma {:induction false} SortAccountsSorts(s: seq<Account>)
    ensures ById(SortAccounts(s)) && IdsOf(SortAccounts(s)) == IdsOf(s)
  {
    if s != [] {
      SortAccountsSorts(s[1..]);
      InsertAccountSorts(s[0], SortAccounts(s[1..]));
      InsertAccountKeeps(s[0], SortAccounts(s[1..]));
    }
  }

  lemma {:induction false} SortAccountsKeeps(s: seq<Account>)
    requires WellFormed(s)
    ensures WellFormed(SortAccounts(s)) && Table(SortAccounts(s)) == Table(s)
  {
    if s != [] {
      SortAccountsKeeps(s[1..]);
      SortAccountsSorts(s[1..]);
      InsertAccountWellFormed(s[0], SortAccounts(s[1..]));
      InsertAccountTable(s[0], SortAccounts(s[1..]));
    }
  }

  // ---------------------------------------------------------------------------
  // Same accounts, same signature
  // ---------------------------------------------------------------------------

  lemma {:induction false} SameTableSameText(a: seq<Account>, b: seq<Account>)
    requires ById(a) && DistinctIds(a) && ById(b) && DistinctIds(b) && Table(a) == Table(b)
    ensures WrittenAll(a) == WrittenAll(b)
  {
    if a != [] && b != [] {
      SameFirst(a, b);
      TableTail(a);
      TableTail(b);
      SameTableSameText(a[1..], b[1..]);
    } else {
      assert IdsOf(a) == IdsOf(b);
    }
  }

  lemma TableTail(s: seq<Account>)
    requires s != [] && DistinctIds(s)
    ensures Table(s[1..]) == Table(s) - {s[0].id}
  {
  }

  lemma SameFirst(a: seq<Account>, b: seq<Account>)
    requires a != [] && ById(a) && b != [] && ById(b) && Table(a) == Table(b)
    ensures a[0].id == b[0].id && Written(a[0]) == Written(b[0])
  {
    assert a[0].id in IdsOf(b) && b[0].id in IdsOf(a);
    LeTotal(a[0].id, b[0].id);
    assert Table(a)[a[0].id] == GrantOf(a[0]) && Table(b)[b[0].id] == GrantOf(b[0]);
    SortStringsCanonical(a[0].modes, b[0].modes);
  }

  // ---------------------------------------------------------------------------
  // Same signature, same accounts
  // ---------------------------------------------------------------------------

  lemma {:induction false} JoinFree(parts: seq<string>, c: char)
    requires forall i :: 0 <= i < |parts| ==> c !in parts[i]
    requires c != ','
    ensures c !in Join(parts, ",")
  {
    if |parts| > 1 {
      JoinFree(parts[1..], c);
    }
  }

  lemma ModesReadBack(a: seq<string>, b: seq<string>)
    requires forall i :: 0 <= i < |a| ==> ',' !in a[i]
    requires forall i :: 0 <= i < |b| ==> ',' !in b[i]
    requires a != [""] && b != [""]
    ensures Join(SortStrings(a), ",") == Join(SortStrings(b), ",") <==> multiset(a) == multiset(b)
  {
    var x, y := SortStrings(a), SortStrings(b);
    SortStringsSorts(a);
    SortStringsSorts(b);
    SortStringsCanonical(a, b);
    PartsFree(a, x, ',');
    PartsFree(b, y, ',');
    OnlyEmptyPart(a);
    OnlyEmptyPart(b);
    if Join(x, ",") == Join(y, ",") {
      if x != [] && y != [] {
        JoinInjective(x, y, ',');
      } else if x == [] && y != [] {
        JoinEmpty(y);
      } else if y == [] && x != [] {
        JoinEmpty(x);
      }
    }
  }

  lemma PartsFree(a: seq<string>, x: seq<string>, c: char)
    requires multiset(a) == multiset(x)
    requires forall i :: 0 <= i < |a| ==> c !in a[i]
    ensures forall i :: 0 <= i < |x| ==> c !in x[i]
  {
    forall i | 0 <= i < |x| ensures c !in x[i] {
      assert x[i] in multiset(a);
    }
  }

  lemma JoinEmpty(parts: seq<string>)
    requires parts != [] && Join(parts, ",") == ""
    ensures parts == [""]
  {
  }

  lemma OnlyEmptyPart(a: seq<string>)
    ensures SortStrings(a) == [""] ==> a == [""]
  {
    SortStringsSorts(a);
    if SortStrings(a) == [""] {
      assert |multiset(a)| == |a| == 1;
      assert a[0] in multiset(a);
    }
  }

  lemma ModesFree(a: Account)
    requires Readable(a)
    ensures ';' !in Join(SortStrings(a.modes), ",")
  {
    SortStringsSorts(a.modes);
    PartsFree(a.modes, SortStrings(a.modes), ';');
    JoinFree(SortStrings(a.modes), ';');
  }

  /** The first account can be read off the text. */
  lemma FirstReadBack(a: Account, restA: string, b: Account, restB: string)
    requires Readable(a) && Readable(b)
    requires Written(a) + restA == Written(b) + restB
    ensures a.id == b.id && a.name == b.name && multiset(a.modes) == multiset(b.modes) && restA == restB
  {
    var s := Written(a) + restA;
    var modesA, modesB := Join(SortStrings(a.modes), ","), Join(SortStrings(b.modes), ",");
    var afterIdA, afterIdB := a.name + "|" + (modesA + ";" + restA), b.name + "|" + (modesB + ";" + restB);
    CutAt(a.id, '|', afterIdA, b.id, afterIdB) by {
      assert s == a.id + ['|'] + afterIdA == b.id + ['|'] + afterIdB;
    }
    CutAt(a.name, '|', modesA + ";" + restA, b.name, modesB + ";" + restB);
    ModesFree(a);
    ModesFree(b);
    CutAt(modesA, ';', restA, modesB, restB);
    ModesReadBack(a.modes, b.modes);
  }

  lemma {:induction false} SameTextSameTable(a: seq<Account>, b: seq<Account>)
    requires AllReadable(a) && AllReadable(b) && WrittenAll(a) == WrittenAll(b)
    ensures Table(a) == Table(b)
  {
    NothingWritten(a);
    NothingWritten(b);
    if a != [] && b != [] {
      FirstReadBack(a[0], WrittenAll(a[1..]), b[0], WrittenAll(b[1..]));
      SameTextSameTable(a[1..], b[1..]);
    }
  }

  lemma NothingWritten(s: seq<Account>)
    ensures WrittenAll(s) == "" <==> s == []
  {
  }

  /** The signature is canonical: equal exactly for the same accounts, in whatever order they and
      their modes are listed. */
  lemma SignatureCanonical(a: seq<Account>, b: seq<Account>)
    requires WellFormed(a) && WellFormed(b)
    ensures SignatureOf(a) == SignatureOf(b) <==> Unordered(a) == Unordered(b)
  {
    SameTableIffReordered(a, b);
    SortAccountsSorts(a);
    SortAccountsSorts(b);
    SortAccountsKeeps(a);
    SortAccountsKeeps(b);
    SortedTextCanonical(SortAccounts(a), SortAccounts(b));
  }

  lemma SortedTextCanonical(a: seq<Account>, b: seq<Account>)
    requires ById(a) && WellFormed(a) && ById(b) && WellFormed(b)
    ensures WrittenAll(a) == WrittenAll(b) <==> Table(a) == Table(b)
  {
    if WrittenAll(a) == WrittenAll(b) {
      SameTextSameTable(a, b);
    }
    if Table(a) == Table(b) {
      SameTableSameText(a, b);
    }
  }

  lemma OneAccount(a: Account)
    ensures SignatureOf([a]) == Written(a)
    ensures Unordered([a]) == multiset{(a.id, GrantOf(a))}
  {
    assert [a][1..] == [];
    assert SortAccounts([a]) == [a];
    assert WrittenAll([a]) == Written(a) + WrittenAll([]);
  }

  predicate Confused(a: Account, b: Account) {
    SignatureOf([a]) == SignatureOf([b]) && Unordered([a]) != Unordered([b])
  }

  /** Each condition on the fields is needed: different accounts with equal signatures. */
  lemma AmbiguousFields()
    ensures Confused(Account("x", "y|z", []), Account("x|y", "z", []))
    ensures Confused(Account("x", "y", [""]), Account("x", "y", []))
    ensures Confused(Account("x", "y", ["p,q"]), Account("x", "y", ["p", "q"]))
  {
    ConfusedBy(Account("x", "y|z", []), Account("x|y", "z", []));
    OneMode("");
    assert |multiset([""])| == 1;
    ConfusedBy(Account("x", "y", [""]), Account("x", "y", []));
    OneMode("p,q");
    TwoModes();
    assert |multiset(["p,q"])| == 1 && |multiset(["p", "q"])| == 2;
    ConfusedBy(Account("x", "y", ["p,q"]), Account("x", "y", ["p", "q"]));
  }

  /** A semicolon in a mode makes one account look like two. */
  lemma AmbiguousMode()
    ensures var one, x, z := Account("x", "y", ["p;z|w|q"]), Account("x", "y", ["p"]), Account("z", "w", ["q"]);
      SignatureOf([one]) == SignatureOf([x, z]) && Unordered([one]) != Unordered([x, z])
  {
    var one, x, z := Account("x", "y", ["p;z|w|q"]), Account("x", "y", ["p"]), Account("z", "w", ["q"]);
    OneMode("p;z|w|q");
    OneMode("p");
    OneMode("q");
    OneAccount(one);
    TwoAccounts(x, z);
    assert |Unordered([one])| == 1 && |Unordered([x, z])| == 2;
  }

  /** Distinct IDs are needed too: listed in another order, accounts that share an ID have another
      signature. */
  lemma RepeatedIdsMatter(id: string, x: string, y: string)
    requires x != y && '|' !in id && '|' !in x && '|' !in y
    ensures var a, b := Account(id, x, []), Account(id, y, []);
      Unordered([a, b]) == Unordered([b, a]) && SignatureOf([a, b]) != SignatureOf([b, a])
  {
    var a, b := Account(id, x, []), Account(id, y, []);
    LeTotal(id, id);
    TwoAccounts(a, b);
    TwoAccounts(b, a);
    if SignatureOf([a, b]) == SignatureOf([b, a]) {
      FirstReadBack(a, Written(b), b, Written(a));
    }
  }

  lemma TwoAccounts(a: Account, b: Account)
    requires Le(a.id, b.id)
    ensures SignatureOf([a, b]) == Written(a) + Written(b)
    ensures Unordered([a, b]) == multiset{(a.id, GrantOf(a))} + multiset{(b.id, GrantOf(b))}
  {
    assert [a, b][1..] == [b] && [b][1..] == [];
    assert SortAccounts([b]) == [b];
    assert SortAccounts([a, b]) == InsertAccount(a, [b]) == [a] + [b] == [a, b];
    assert Unordered([b]) == multiset{(b.id, GrantOf(b))} + Unordered([]);
    assert Unordered([a, b]) == multiset{(a.id, GrantOf(a))} + Unordered([b]);
    assert WrittenAll([b]) == Written(b) + WrittenAll([]);
    assert WrittenAll([a, b]) == Written(a) + WrittenAll([b]);
  }

  lemma ConfusedBy(a: Account, b: Account)
    requires Written(a) == Written(b)
    requires a.id != b.id || multiset(a.modes) != multiset(b.modes)
    ensures Confused(a, b)
  {
    OneAccount(a);
    OneAccount(b);
    assert Unordered([a]) == multiset{(a.id, GrantOf(a))};
    assert (a.id, GrantOf(a)) !in Unordered([b]);
  }

  lemma OneMode(m: string)
    ensures Join(SortStrings([m]), ",") == m
  {
    assert [m][1..] == [];
    assert SortStrings([m]) == [m];
  }

  lemma TwoModes()
    ensures Join(SortStrings(["p", "q"]), ",") == "p,q"
  {
    assert ["p", "q"][1..] == ["q"] && ["q"][1..] == [];
    assert SortStrings(["q"]) == ["q"];
    assert Le("p", "q");
    assert SortStrings(["p", "q"]) == ["p"] + ["q"];
  }

  // ---------------------------------------------------------------------------
  // Waiting for a change
  // ---------------------------------------------------------------------------

  /** What the `select` picks, one after the other. */
  datatype Event = Cancel | Deadline | Tick(accounts: Result<seq<Account>>)

  datatype Waited = Changed(accounts: seq<Account>) | Canceled | TimedOut | RequestFailed | StillWaiting

  predicate IsQuiet(e: Event, before: seq<Account>) {
    e.Tick? && e.accounts.Ok? && SignatureOf(e.accounts.value) == SignatureOf(before)
  }

  method WaitForAccountsChange(before: seq<Account>, events: seq<Event>) returns (result: Waited, polled: nat)
    ensures polled <= |events| && forall i :: 0 <= i < polled ==> IsQuiet(events[i], before)
    ensures result == StillWaiting <==> polled == |events|
    ensures polled < |events| ==>
              match events[polled]
              case Cancel => result == Canceled
              case Deadline => result == TimedOut
              case Tick(Err) => result == RequestFailed
              case Tick(Ok(accounts)) => result == Changed(accounts) && SignatureOf(accounts) != SignatureOf(before)
  {
    var beforeSig := AccountsSignature(before);
    polled := 0;
    while polled < |events|
      invariant polled <= |events| && forall i :: 0 <= i < polled ==> IsQuiet(events[i], before)
    {
      match events[polled] {
        case Cancel => return Canceled, polled;
        case Deadline => return TimedOut, polled;
        case Tick(Err) => return RequestFailed, polled;
        case Tick(Ok(accounts)) =>
          var sig := AccountsSignature(accounts);
          if sig != beforeSig {
            return Changed(accounts), polled;
          }
      }
      polled := polled + 1;
    }
    return StillWaiting, polled;
  }

  /** Polling stops at an answered poll if and only if its accounts really differ, not merely in
      their order. */
  lemma QuietIff(before: seq<Account>, accounts: seq<Account>)
    requires WellFormed(before) && WellFormed(accounts)
    ensures IsQuiet(Tick(Ok(accounts)), before) <==> Unordered(accounts) == Unordered(before)
  {
    SignatureCanonical(accounts, before);
  }
}
