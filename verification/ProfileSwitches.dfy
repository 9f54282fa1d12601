/** Switching between accounts (`SwitchProfile` in pkg/config/config.go): what it conserves, exactly.

A switch saves the active account under its display name, copies the requested one to "default" and
removes it from under its own. Each copy lies over what was stored under its key before.
*/
module ProfileSwitches {
  import opened Text
  import opened ConfigTree
  import opened Profiles

  // ---------------------------------------------------------------------------
  // Accounts
  // ---------------------------------------------------------------------------

  /** An account: the fields of a profile other than its name and its plugin sections. */
  function Account(n: Node): Table
    requires n.Section?
  {
    map k | k in n.entries && !IsPluginSection(n.entries[k]) && k != "profile_name" :: n.entries[k]
  }

  predicate GoodName(name: string) {
    name != "" && name != DEFAULT && Plain(name) && !IsReserved(name)
  }

  predicate DisplaysAs(n: Node, name: string) {
    n.Section? && "display_name" in n.entries && n.entries["display_name"] == Leaf(name)
  }

  /** Stored under its own display name. */
  predicate StoredAs(n: Node, name: string) {
    GoodName(name) && DisplaysAs(n, name) && NameOf(n) == name
  }

  predicate AllStored(t: Table) {
    forall k :: k in t && IsProfile(t[k]) && k != DEFAULT ==> StoredAs(t[k], k)
  }

  /** Every profile is stored under its display name, except that the active one is under "default". */
  predicate Arranged(t: Table) {
    DEFAULT in t && IsProfile(t[DEFAULT]) && GoodName(DisplayName(t)) && AllStored(t)
  }

  /** And nothing lives under the active display name, save perhaps a copy of the active account: a
      switch that fails has left one there. */
  predicate Keyed(t: Table) {
    Arranged(t) && var active := DisplayName(t);
      active in t ==> IsProfile(t[active]) && Account(t[active]) == Account(t[DEFAULT])
  }

  /** The display names of the accounts, the active one included. */
  function Names(t: Table): set<string> {
    (set k | k in t && k != DEFAULT && IsProfile(t[k])) + {DisplayName(t)}
  }

  function Holder(t: Table, name: string): Node
    requires DEFAULT in t && name in Names(t)
  {
    if name == DisplayName(t) then t[DEFAULT] else t[name]
  }

  /** The accounts by display name. */
  function Accounts(t: Table): map<string, Table>
    requires Arranged(t)
  {
    map name | name in Names(t) :: Account(Holder(t, name))
  }

  lemma {:induction false} SafePlain(name: string)
    requires '.' !in name
    ensures Safe(name) == name
  {
    if name != "" {
      SafePlain(name[1..]);
    }
  }

  predicate IsAccount(a: Table) {
    "profile_name" !in a && forall k :: k in a ==> !IsPluginSection(a[k])
  }

  /** The table of an account that is copied over another table. */
  function Merged(d: Table, a: Table, name: string): Table {
    Overlaid(Section(d), Section(a["profile_name" := Leaf(name)])).entries
  }

  /** Nothing of the table below shows through in the account: every field of it, other than a plugin
      section, is a field of the account too, at every depth. */
  predicate Covers(a: Table, d: Table) {
    forall k :: k in d && k != "profile_name" ==> if k in a then Fits(d[k], a[k]) else IsPluginSection(d[k])
  }

  lemma MergedAt(d: Table, a: Table, name: string, k: string)
    ensures k in Merged(d, a, name) <==> k in d || k in a || k == "profile_name"
    ensures k == "profile_name" ==> Merged(d, a, name)[k] == Leaf(name)
    ensures k in a && k != "profile_name" ==> Merged(d, a, name)[k] == if k in d then Overlaid(d[k], a[k]) else a[k]
    ensures k in d && k !in a && k != "profile_name" ==> Merged(d, a, name)[k] == d[k]
  {
    var above := a["profile_name" := Leaf(name)];
    assert k in d && k in above ==> Merged(d, a, name)[k] == Overlaid(d[k], above[k]);
  }

  lemma MergedAccountIff(d: Table, a: Table, name: string)
    requires IsAccount(a)
    ensures Account(Section(Merged(d, a, name))) == a <==> Covers(a, d)
  {
    var r := Merged(d, a, name);
    forall k | k in d && k in a ensures r[k] == a[k] <==> Fits(d[k], a[k]) {
      OverlaidKeepsIff(d[k], a[k]);
    }
    if Covers(a, d) {
      assert forall k :: k in Account(Section(r)) <==> k in a;
    }
    if Account(Section(r)) == a {
      forall k | k in d && k != "profile_name" ensures if k in a then Fits(d[k], a[k]) else IsPluginSection(d[k]) {
        MergedAt(d, a, name, k);
        assert k in Account(Section(r)) <==> k in a;
      }
    }
  }

  lemma AccountCoversItself(n: Node)
    requires n.Section?
    ensures IsAccount(Account(n)) && Covers(Account(n), n.entries)
  {
    forall k | k in n.entries ensures Fits(n.entries[k], n.entries[k]) {
      FitsItself(n.entries[k]);
    }
  }

  lemma CopyIsAccount(source: Table, name: string)
    ensures CopyOf(source, name) == Account(Section(source))["profile_name" := Leaf(name)]
  {
  }

  // ---------------------------------------------------------------------------
  // The two copies of a switch, and what is left after the removal
  // ---------------------------------------------------------------------------

  function Saved(t: Table): Table
    requires Arranged(t)
  {
    SetTable(t, DisplayName(t), CopyOf(t[DEFAULT].entries, DisplayName(t)))
  }

  function Activated(u: Table, name: string): Table
    requires name in u && u[name].Section?
  {
    SetTable(u, DEFAULT, CopyOf(u[name].entries, DEFAULT))
  }

  /** What a copy lays over a table of the same name. */
  lemma SetAccount(t: Table, key: string, source: Table)
    ensures var d := if key in t && t[key].Section? then t[key].entries else map[];
      SetTable(t, key, CopyOf(source, key)) == t[key := Section(Merged(d, Account(Section(source)), key))]
  {
    CopyIsAccount(source, key);
    var c := Section(CopyOf(source, key));
    assert Overlaid(Section(map[]), c).entries == c.entries;
  }

  lemma MergedShows(d: Table, a: Table, name: string, shown: string)
    requires "display_name" in a && a["display_name"] == Leaf(shown)
    ensures var n := Section(Merged(d, a, name)); DisplaysAs(n, shown) && NameOf(n) == name
  {
    MergedAt(d, a, name, "display_name");
    MergedAt(d, a, name, "profile_name");
  }

  /** Copying between names that hold no period. */
  lemma CopiedPlain(t: Table, source: string, target: string)
    requires '.' !in source && '.' !in target
    ensures Copied(t, source, target).1.Fine? <==>
      source != "" && target != "" && source != target && source in t && IsProfile(t[source])
    ensures Copied(t, source, target).0 ==
      if Copied(t, source, target).1.Fine? then SetTable(t, target, CopyOf(t[source].entries, target)) else t
  {
    SafePlain(source);
    SafePlain(target);
  }

  lemma SavedShape(t: Table)
    requires Arranged(t)
    ensures Copied(t, DEFAULT, DisplayName(t)) == (Saved(t), Fine)
    ensures DisplayName(t) in Saved(t) && StoredAs(Saved(t)[DisplayName(t)], DisplayName(t))
    ensures Saved(t) == t[DisplayName(t) := Saved(t)[DisplayName(t)]]
  {
    CopiedPlain(t, DEFAULT, DisplayName(t));
    SetAccount(t, DisplayName(t), t[DEFAULT].entries);
    var active := DisplayName(t);
    var d := if active in t && t[active].Section? then t[active].entries else map[];
    MergedShows(d, Account(t[DEFAULT]), active, active);
  }

  lemma SaveSucceeds(t: Table)
    requires Arranged(t)
    ensures Copied(t, DEFAULT, DisplayName(t)) == (Saved(t), Fine)
    ensures StoredAs(Saved(t)[DisplayName(t)], DisplayName(t))
    ensures Arranged(Saved(t)) && DisplayName(Saved(t)) == DisplayName(t)
    ensures Names(Saved(t)) == Names(t) && Accounts(Saved(t)) == Accounts(t)
    ensures forall k :: k != DisplayName(t) ==> (k in Saved(t) <==> k in t) && (k in t ==> Saved(t)[k] == t[k])
  {
    SavedShape(t);
    WithCopy(t, Saved(t)[DisplayName(t)]);
  }

  /** A profile beside the active one under its display name changes no name. */
  lemma WithCopy(t: Table, copy: Node)
    requires Arranged(t) && StoredAs(copy, DisplayName(t))
    ensures var u := t[DisplayName(t) := copy];
      Arranged(u) && DisplayName(u) == DisplayName(t) && Names(u) == Names(t) && Accounts(u) == Accounts(t)
  {
    var u := t[DisplayName(t) := copy];
    assert u[DEFAULT] == t[DEFAULT];
    assert forall k :: k != DisplayName(t) ==> (k in u <==> k in t);
  }

  /** Saving keeps the active account if and only if it covers what was stored under its name. */
  lemma SavedAccountIff(t: Table)
    requires Arranged(t)
    ensures var active := DisplayName(t);
      Account(Saved(t)[active]) == Account(t[DEFAULT])
      <==> (active in t && t[active].Section? ==> Covers(Account(t[DEFAULT]), t[active].entries))
  {
    var active := DisplayName(t);
    var d := if active in t && t[active].Section? then t[active].entries else map[];
    AccountCoversItself(t[DEFAULT]);
    SetAccount(t, active, t[DEFAULT].entries);
    MergedAccountIff(d, Account(t[DEFAULT]), active);
  }

  lemma KeyedSaves(t: Table)
    requires Keyed(t)
    ensures Account(Saved(t)[DisplayName(t)]) == Account(t[DEFAULT]) && Keyed(Saved(t))
  {
    var active := DisplayName(t);
    if active in t {
      AccountCoversItself(t[active]);
    }
    SavedAccountIff(t);
    SaveSucceeds(t);
    assert Saved(t)[DEFAULT] == t[DEFAULT];
  }

  lemma ActivatedShows(u: Table, name: string)
    requires Arranged(u) && name != DEFAULT && name in u && IsProfile(u[name])
    ensures GoodName(name)
    ensures Activated(u, name) == u[DEFAULT := Section(Merged(u[DEFAULT].entries, Account(u[name]), DEFAULT))]
    ensures DisplayName(Activated(u, name)) == name && NameOf(Activated(u, name)[DEFAULT]) == DEFAULT
    ensures IsProfile(Activated(u, name)[DEFAULT])
  {
    assert StoredAs(u[name], name);
    SetAccount(u, DEFAULT, u[name].entries);
    MergedShows(u[DEFAULT].entries, Account(u[name]), DEFAULT, name);
  }

  lemma ActivateSucceedsIff(u: Table, name: string)
    requires AllStored(u) && Plain(name)
    ensures Copied(u, name, DEFAULT).1.Fine? <==> name != DEFAULT && name in u && IsProfile(u[name])
    ensures Copied(u, name, DEFAULT).1.Failed? ==> Copied(u, name, DEFAULT).0 == u
    ensures Copied(u, name, DEFAULT).1.Fine? ==> Copied(u, name, DEFAULT).0 == Activated(u, name)
  {
    CopiedPlain(u, name, DEFAULT);
    assert AllStored(u) && name in u && IsProfile(u[name]) && name != DEFAULT ==> StoredAs(u[name], name);
  }

  lemma OnlyActivatedRemoved(s: State, u: Table, name: string)
    requires Arranged(u) && GoodName(name) && name in u && IsProfile(u[name])
    ensures Removed(s.(settings := Activated(u, name)), name)
         == (State(Activated(u, name) - {name}, s.liveKeys - {name}), Fine)
  {
    var v := Activated(u, name);
    ActivatedShows(u, name);
    forall k | k in v
      ensures Matches(v, k, name) <==> k == name
    {
      if k != DEFAULT && IsProfile(v[k]) {
        assert StoredAs(u[k], k);
      }
    }
    assert Matching(v, name) == {name};
  }

  /** A switch succeeds exactly when the name is that of a stored account or of the active one. What
      settings it then leaves, and that a failed one has saved the active account all the same. */
  lemma SwitchSucceedsIff(s: State, name: string)
    requires Arranged(s.settings) && Plain(name)
    ensures Switched(s, name).1.Fine? <==> name in Names(s.settings)
    ensures Switched(s, name).1.Fine? ==>
              var u := Saved(s.settings);
              && GoodName(name) && name in u && IsProfile(u[name])
              && Switched(s, name).0 == State(Activated(u, name) - {name}, s.liveKeys - {name})
    ensures Switched(s, name).1.Failed? ==> Switched(s, name).0 == s.(settings := Saved(s.settings))
  {
    var t := s.settings;
    SaveSucceeds(t);
    ActivateSucceedsIff(Saved(t), name);
    if name != DEFAULT && name in Saved(t) && IsProfile(Saved(t)[name]) {
      ActivatedShows(Saved(t), name);
      OnlyActivatedRemoved(s, Saved(t), name);
    }
  }

  lemma FailedSwitch(s: State, name: string)
    requires Arranged(s.settings) && Switched(s, name).1.Failed?
    ensures Switched(s, name).0 == s.(settings := Saved(s.settings))
  {
    SaveSucceeds(s.settings);
  }

  lemma SwitchStaysKeyed(t: Table, name: string)
    requires Arranged(t) && name != DEFAULT && name in Saved(t) && IsProfile(Saved(t)[name])
    ensures var v := Activated(Saved(t), name) - {name};
      Keyed(v) && DisplayName(v) == name && Names(v) == Names(t)
  {
    var u := Saved(t);
    SaveSucceeds(t);
    ActivatedShows(u, name);
    var v := Activated(u, name) - {name};
    assert v[DEFAULT] == Activated(u, name)[DEFAULT];
    assert DisplayName(v) == DisplayName(Activated(u, name));
    assert AllStored(v) by {
      forall k | k in v && IsProfile(v[k]) && k != DEFAULT ensures StoredAs(v[k], k) {
        assert v[k] == u[k];
      }
    }
    NamesMove(u, Activated(u, name)[DEFAULT], name);
  }

  lemma NamesMove(u: Table, n: Node, name: string)
    requires Arranged(u) && DisplayName(u) in u && IsProfile(u[DisplayName(u)])
    requires name != DEFAULT && name in u && IsProfile(u[name]) && DisplayName(u[DEFAULT := n] - {name}) == name
    ensures Names(u[DEFAULT := n] - {name}) == Names(u)
  {
    var v := u[DEFAULT := n] - {name};
    assert forall k :: k != DEFAULT && k != name ==> (k in v <==> k in u);
  }

  // ---------------------------------------------------------------------------
  // What a switch leaves
  // ---------------------------------------------------------------------------

  predicate OthersKept(t: Table, t': Table) {
    forall k :: k in t && !IsProfile(t[k]) ==> k in t' && t'[k] == t[k]
  }

  /** A switch to any name; one that succeeds is to a name that viper takes as it is. */
  predicate SwitchStep(s: State, name: string, s': State) {
    s' == Switched(s, name).0 && (Switched(s, name).1.Fine? ==> Plain(name))
  }

  lemma NamesArePlain(t: Table, name: string)
    requires Arranged(t) && name in Names(t)
    ensures Plain(name)
  {
    if name != DisplayName(t) {
      assert StoredAs(t[name], name);
    }
  }

  lemma SucceedsIff(s: State, name: string)
    requires Arranged(s.settings) && SwitchStep(s, name, Switched(s, name).0)
    ensures Switched(s, name).1.Fine? <==> name in Names(s.settings)
  {
    if name in Names(s.settings) {
      NamesArePlain(s.settings, name);
    }
    if Plain(name) {
      SwitchSucceedsIff(s, name);
    }
  }

  /** The requested account as it is once it is active: its own fields, and what shows through of the
      table that was under "default". */
  function ActiveAccount(t: Table, name: string): Table
    requires Arranged(t) && name in Names(t)
  {
    Account(Section(Merged(t[DEFAULT].entries, Accounts(t)[name], DEFAULT)))
  }

  lemma SavedHolds(t: Table, name: string)
    requires Keyed(t) && name in Names(t)
    ensures name in Saved(t) && IsProfile(Saved(t)[name]) && Account(Saved(t)[name]) == Accounts(t)[name]
  {
    SaveSucceeds(t);
    KeyedSaves(t);
  }

  lemma SwitchedOther(t: Table, name: string, shown: string, v: Table)
    requires Keyed(t) && name != DEFAULT && name in Saved(t) && IsProfile(Saved(t)[name])
    requires shown in Names(t) && shown != name && v == Activated(Saved(t), name) - {name}
    ensures Keyed(v) && shown in Names(v) && Accounts(v)[shown] == Accounts(t)[shown]
  {
    SwitchStaysKeyed(t, name);
    SavedHolds(t, shown);
    SavedNotDefault(t, shown);
    assert v[shown] == Saved(t)[shown];
  }

  lemma SavedNotDefault(t: Table, shown: string)
    requires Arranged(t) && shown in Names(t)
    ensures shown != DEFAULT
  {
  }

  lemma SwitchedActive(t: Table, name: string, v: Table)
    requires Keyed(t) && name != DEFAULT && name in Saved(t) && IsProfile(Saved(t)[name])
    requires name in Names(t) && v == Activated(Saved(t), name) - {name}
    ensures Keyed(v) && name in Names(v) && Accounts(v)[name] == ActiveAccount(t, name)
  {
    SwitchStaysKeyed(t, name);
    ActivatedDefault(t, name);
    SavedHolds(t, name);
    assert v[DEFAULT] == Activated(Saved(t), name)[DEFAULT];
  }

  lemma ActivatedDefault(t: Table, name: string)
    requires Arranged(t) && name != DEFAULT && name in Saved(t) && IsProfile(Saved(t)[name])
    ensures Activated(Saved(t), name)[DEFAULT]
         == Section(Merged(t[DEFAULT].entries, Account(Saved(t)[name]), DEFAULT))
  {
    SaveSucceeds(t);
    ActivatedShows(Saved(t), name);
  }

  lemma OtherStays(t: Table, name: string, k: string)
    requires Keyed(t) && name != DEFAULT && name in Saved(t) && IsProfile(Saved(t)[name])
    requires k in t && !IsProfile(t[k])
    ensures k in Activated(Saved(t), name) - {name} && (Activated(Saved(t), name) - {name})[k] == t[k]
  {
    SaveSucceeds(t);
    assert Saved(t)[k] == t[k];
  }

  lemma SwitchedOthers(t: Table, name: string)
    requires Keyed(t) && name != DEFAULT && name in Saved(t) && IsProfile(Saved(t)[name])
    ensures OthersKept(t, Activated(Saved(t), name) - {name})
  {
    forall k | k in t && !IsProfile(t[k])
      ensures k in Activated(Saved(t), name) - {name} && (Activated(Saved(t), name) - {name})[k] == t[k]
    {
      OtherStays(t, name, k);
    }
  }

  lemma SuccessLeaves(t: Table, name: string, v: Table)
    requires Keyed(t) && name != DEFAULT && name in Saved(t) && IsProfile(Saved(t)[name]) && name in Names(t)
    requires v == Activated(Saved(t), name) - {name}
    ensures Keyed(v) && Names(v) == Names(t) && DisplayName(v) == name
    ensures Accounts(v) == Accounts(t)[name := ActiveAccount(t, name)]
  {
    SwitchStaysKeyed(t, name);
    forall shown | shown in Names(t)
      ensures Accounts(v)[shown] == if shown == name then ActiveAccount(t, name) else Accounts(t)[shown]
    {
      if shown == name {
        SwitchedActive(t, name, v);
      } else {
        SwitchedOther(t, name, shown, v);
      }
    }
    MapUpdated(Accounts(t), Accounts(v), name, ActiveAccount(t, name));
  }

  lemma MapUpdated<V>(before: map<string, V>, after: map<string, V>, k: string, v: V)
    requires after.Keys == before.Keys && k in before
    requires forall x :: x in before ==> after[x] == if x == k then v else before[x]
    ensures after == before[k := v]
  {
  }

  lemma FailureLeaves(t: Table)
    requires Keyed(t)
    ensures Keyed(Saved(t)) && OthersKept(t, Saved(t))
  {
    SaveSucceeds(t);
    KeyedSaves(t);
  }

  /** Every account keeps its name, nothing but profiles changes, and no account changes but the one
      that becomes active. A switch that fails changes none. */
  lemma SwitchLeaves(s: State, name: string, s': State)
    requires Keyed(s.settings) && SwitchStep(s, name, s')
    ensures Keyed(s'.settings) && Names(s'.settings) == Names(s.settings) && OthersKept(s.settings, s'.settings)
    ensures DisplayName(s'.settings) == if name in Names(s.settings) then name else DisplayName(s.settings)
    ensures Accounts(s'.settings) ==
      if name in Names(s.settings) then Accounts(s.settings)[name := ActiveAccount(s.settings, name)]
      else Accounts(s.settings)
  {
    SucceedsIff(s, name);
    if name in Names(s.settings) {
      SwitchSucceedsIff(s, name);
      SwitchedOthers(s.settings, name);
      SuccessLeaves(s.settings, name, s'.settings);
    } else {
      FailedSwitch(s, name);
      SaveSucceeds(s.settings);
      FailureLeaves(s.settings);
    }
  }

  /** The requested account, if there is one, covers what is under "default". */
  predicate Clean(t: Table, name: string)
    requires Arranged(t)
  {
    name in Names(t) ==> Covers(Accounts(t)[name], t[DEFAULT].entries)
  }

  lemma AccountsAreAccounts(t: Table, name: string)
    requires Arranged(t) && name in Names(t)
    ensures IsAccount(Accounts(t)[name])
  {
    AccountCoversItself(Holder(t, name));
  }

  /** A switch conserves the accounts if and only if the requested one has every field that is under
      "default", at every depth and other than plugin sections. */
  lemma SwitchConservesIff(s: State, name: string, s': State)
    requires Keyed(s.settings) && SwitchStep(s, name, s')
    ensures Keyed(s'.settings) && (Accounts(s'.settings) == Accounts(s.settings) <==> Clean(s.settings, name))
  {
    SwitchLeaves(s, name, s');
    if name in Names(s.settings) {
      AccountsAreAccounts(s.settings, name);
      MergedAccountIff(s.settings[DEFAULT].entries, Accounts(s.settings)[name], DEFAULT);
      UpdatedIff(Accounts(s.settings), name, ActiveAccount(s.settings, name));
    }
  }

  lemma UpdatedIff<V>(m: map<string, V>, k: string, v: V)
    requires k in m
    ensures m[k := v] == m <==> v == m[k]
  {
    assert m[k := v][k] == v;
  }

  /** The table under "default" after a switch. */
  lemma DefaultAfter(s: State, name: string, s': State)
    requires Keyed(s.settings) && SwitchStep(s, name, s')
    ensures Keyed(s'.settings)
    ensures s'.settings[DEFAULT].entries ==
      if name in Names(s.settings) then Merged(s.settings[DEFAULT].entries, Accounts(s.settings)[name], DEFAULT)
      else s.settings[DEFAULT].entries
  {
    var t := s.settings;
    SwitchLeaves(s, name, s');
    SucceedsIff(s, name);
    SaveSucceeds(t);
    if name in Names(t) {
      SwitchSucceedsIff(s, name);
      ActivatedShows(Saved(t), name);
      SavedHolds(t, name);
    } else {
      FailedSwitch(s, name);
    }
  }

  // ---------------------------------------------------------------------------
  // Runs
  // ---------------------------------------------------------------------------

  /** The states of a run of switches, which may fail. */
  predicate IsRun(run: seq<State>, names: seq<string>) {
    |run| == |names| + 1 && forall i :: 0 <= i < |names| ==> SwitchStep(run[i], names[i], run[i + 1])
  }

  /** The last name asked for that some account has. */
  function Selected(t: Table, names: seq<string>): (name: string)
    ensures name in Names(t)
    decreases |names|
  {
    if names == [] then DisplayName(t)
    else if names[|names| - 1] in Names(t) then names[|names| - 1]
    else Selected(t, names[..|names| - 1])
  }

  lemma SelectedNext(t: Table, names: seq<string>, i: nat)
    requires i < |names|
    ensures Selected(t, names[..i + 1]) == if names[i] in Names(t) then names[i] else Selected(t, names[..i])
  {
    assert names[..i + 1][..i] == names[..i];
  }

  /** Over any run of switches every account keeps its name, and the last one asked for is active. */
  lemma {:induction false} RunStaysKeyed(run: seq<State>, names: seq<string>, i: nat)
    requires IsRun(run, names) && Keyed(run[0].settings) && i < |run|
    ensures Keyed(run[i].settings) && Names(run[i].settings) == Names(run[0].settings)
    ensures DisplayName(run[i].settings) == Selected(run[0].settings, names[..i])
  {
    if i > 0 {
      RunStaysKeyed(run, names, i - 1);
      SwitchLeaves(run[i - 1], names[i - 1], run[i]);
      SelectedNext(run[0].settings, names, i - 1);
    }
  }

  ghost predicate KeepsAccounts(run: seq<State>) {
    && (forall i :: 0 <= i < |run| ==> Arranged(run[i].settings))
    && forall i :: 0 <= i < |run| ==> Accounts(run[i].settings) == Accounts(run[0].settings)
  }

  predicate CleanAt(run: seq<State>, names: seq<string>, i: nat)
    requires i < |run| && i < |names|
  {
    Arranged(run[i].settings) && Clean(run[i].settings, names[i])
  }

  ghost predicate AllClean(run: seq<State>, names: seq<string>) {
    |run| == |names| + 1 && forall i :: 0 <= i < |names| ==> CleanAt(run, names, i)
  }

  lemma StepConservesIff(run: seq<State>, names: seq<string>, i: nat)
    requires IsRun(run, names) && Keyed(run[0].settings) && i < |names|
    ensures Arranged(run[i].settings) && Arranged(run[i + 1].settings)
    ensures Accounts(run[i + 1].settings) == Accounts(run[i].settings) <==> Clean(run[i].settings, names[i])
  {
    RunStaysKeyed(run, names, i);
    RunStaysKeyed(run, names, i + 1);
    SwitchConservesIff(run[i], names[i], run[i + 1]);
  }

  lemma {:induction false} CleanConserves(run: seq<State>, names: seq<string>, i: nat)
    requires IsRun(run, names) && Keyed(run[0].settings) && AllClean(run, names) && i < |run|
    ensures Arranged(run[i].settings) && Accounts(run[i].settings) == Accounts(run[0].settings)
  {
    if i > 0 {
      CleanConserves(run, names, i - 1);
      CleanStep(run, names, i - 1);
    }
  }

  lemma CleanStep(run: seq<State>, names: seq<string>, i: nat)
    requires IsRun(run, names) && Keyed(run[0].settings) && AllClean(run, names) && i < |names|
    ensures Arranged(run[i].settings) && Arranged(run[i + 1].settings)
    ensures Accounts(run[i + 1].settings) == Accounts(run[i].settings)
  {
    StepConservesIff(run, names, i);
    assert CleanAt(run, names, i);
  }

  /** The accounts are conserved at every point of a run if and only if each requested account covers what is
      under "default" when it is requested. */
  lemma RunCleanIff(run: seq<State>, names: seq<string>)
    requires IsRun(run, names) && Keyed(run[0].settings)
    ensures KeepsAccounts(run) <==> AllClean(run, names)
  {
    if AllClean(run, names) {
      forall i | 0 <= i < |run|
        ensures Arranged(run[i].settings) && Accounts(run[i].settings) == Accounts(run[0].settings)
      {
        CleanConserves(run, names, i);
      }
    }
    if KeepsAccounts(run) {
      forall i | 0 <= i < |names| ensures CleanAt(run, names, i) {
        StepConservesIff(run, names, i);
        assert Accounts(run[i + 1].settings) == Accounts(run[0].settings) == Accounts(run[i].settings);
      }
    }
  }

  /** The plugin sections under "default" at first, without those that an account activated since has
      replaced by a field of its own. */
  function PluginsLeft(t: Table, names: seq<string>): Table
    requires Arranged(t)
    decreases |names|
  {
    if names == [] then
      map k | k in t[DEFAULT].entries && k != "profile_name" && IsPluginSection(t[DEFAULT].entries[k]) ::
        t[DEFAULT].entries[k]
    else
      var (before, name) := (PluginsLeft(t, names[..|names| - 1]), names[|names| - 1]);
      if name in Names(t) then before - Accounts(t)[name].Keys else before
  }

  /** The table has the fields of the account, these plugin sections and nothing else. */
  ghost predicate Looks(d: Table, a: Table, plugins: Table) {
    && IsAccount(a) && (forall k :: k in plugins ==> IsPluginSection(plugins[k]) && k != "profile_name" && k !in a)
    && forall k :: k != "profile_name" ==>
         && (k in d <==> k in a || k in plugins)
         && (k in d ==> d[k] == if k in a then a[k] else plugins[k])
  }

  /** A field of the account lies over a plugin section of that name without leaving any of it. */
  predicate FitsPlugins(b: Table, plugins: Table) {
    forall k :: k in plugins && k in b ==> Fits(plugins[k], b[k])
  }

  lemma CoversLooksIff(b: Table, d: Table, a: Table, plugins: Table)
    requires IsAccount(b) && Looks(d, a, plugins)
    ensures Covers(b, d) <==> Covers(b, a) && FitsPlugins(b, plugins)
  {
    forall k | k in d && k != "profile_name"
      ensures (if k in b then Fits(d[k], b[k]) else IsPluginSection(d[k])) <==>
              (if k in a then (if k in b then Fits(a[k], b[k]) else IsPluginSection(a[k]))
               else k in b ==> Fits(plugins[k], b[k]))
    {
    }
    assert forall k :: k in a || k in plugins ==> k in d && k != "profile_name";
  }

  lemma MergedLooks(b: Table, d: Table, a: Table, plugins: Table)
    requires IsAccount(b) && Looks(d, a, plugins) && Covers(b, d)
    ensures Looks(Merged(d, b, DEFAULT), b, plugins - b.Keys)
  {
    forall k | k != "profile_name"
      ensures k in Merged(d, b, DEFAULT) <==> k in b || k in plugins - b.Keys
      ensures k in Merged(d, b, DEFAULT) ==> Merged(d, b, DEFAULT)[k] == if k in b then b[k] else plugins[k]
    {
      MergedAt(d, b, DEFAULT, k);
      if k in d && k in b {
        OverlaidKeepsIff(d[k], b[k]);
      }
    }
  }

  /** The account requested next covers the one that was selected before, and what is left of the plugin
      sections. This is said of the accounts as they are at first. */
  predicate CoversNext(t: Table, names: seq<string>, i: nat)
    requires Arranged(t) && i < |names|
  {
    names[i] in Names(t) ==>
      && Covers(Accounts(t)[names[i]], Accounts(t)[Selected(t, names[..i])])
      && FitsPlugins(Accounts(t)[names[i]], PluginsLeft(t, names[..i]))
  }

  /** While the accounts are conserved, the table under "default" is the selected account and what is left
      of the plugin sections. */
  ghost predicate AsExpected(run: seq<State>, names: seq<string>, i: nat) {
    && i < |run| && i <= |names| && Arranged(run[0].settings) && Keyed(run[i].settings)
    && Accounts(run[i].settings) == Accounts(run[0].settings)
    && Names(run[i].settings) == Names(run[0].settings)
    && Looks(run[i].settings[DEFAULT].entries, Accounts(run[0].settings)[Selected(run[0].settings, names[..i])],
             PluginsLeft(run[0].settings, names[..i]))
  }

  lemma ExpectedAtFirst(run: seq<State>, names: seq<string>)
    requires IsRun(run, names) && Keyed(run[0].settings)
    ensures AsExpected(run, names, 0)
  {
    var t := run[0].settings;
    assert names[..0] == [];
    AccountsAreAccounts(t, DisplayName(t));
    assert Accounts(t)[DisplayName(t)] == Account(t[DEFAULT]);
  }

  lemma CleanNextIff(run: seq<State>, names: seq<string>, i: nat)
    requires IsRun(run, names) && Keyed(run[0].settings) && i < |names| && AsExpected(run, names, i)
    ensures CleanAt(run, names, i) <==> CoversNext(run[0].settings, names, i)
  {
    var t := run[0].settings;
    if names[i] in Names(t) {
      AccountsAreAccounts(t, names[i]);
      CoversLooksIff(Accounts(t)[names[i]], run[i].settings[DEFAULT].entries,
                     Accounts(t)[Selected(t, names[..i])], PluginsLeft(t, names[..i]));
    }
  }

  lemma PluginsLeftNext(t: Table, names: seq<string>, i: nat)
    requires Arranged(t) && i < |names|
    ensures PluginsLeft(t, names[..i + 1]) ==
      if names[i] in Names(t) then PluginsLeft(t, names[..i]) - Accounts(t)[names[i]].Keys
      else PluginsLeft(t, names[..i])
  {
    assert names[..i + 1][..i] == names[..i];
  }

  /** What was selected, and what is left of the plugin sections, after the next name. */
  lemma ExpectedTables(t: Table, names: seq<string>, i: nat, d: Table)
    requires Arranged(t) && i < |names| && Looks(d, Accounts(t)[Selected(t, names[..i])], PluginsLeft(t, names[..i]))
    requires names[i] in Names(t) ==> Covers(Accounts(t)[names[i]], d)
    ensures Looks(if names[i] in Names(t) then Merged(d, Accounts(t)[names[i]], DEFAULT) else d,
                  Accounts(t)[Selected(t, names[..i + 1])], PluginsLeft(t, names[..i + 1]))
  {
    SelectedNext(t, names, i);
    PluginsLeftNext(t, names, i);
    if names[i] in Names(t) {
      AccountsAreAccounts(t, names[i]);
      MergedLooks(Accounts(t)[names[i]], d, Accounts(t)[Selected(t, names[..i])], PluginsLeft(t, names[..i]));
    }
  }

  lemma ExpectedNext(run: seq<State>, names: seq<string>, i: nat)
    requires IsRun(run, names) && Keyed(run[0].settings) && i < |names| && AsExpected(run, names, i)
    requires CleanAt(run, names, i)
    ensures AsExpected(run, names, i + 1)
  {
    SwitchConservesIff(run[i], names[i], run[i + 1]);
    SwitchLeaves(run[i], names[i], run[i + 1]);
    DefaultAfter(run[i], names[i], run[i + 1]);
    ExpectedTables(run[0].settings, names, i, run[i].settings[DEFAULT].entries);
  }

  /** Each account that a run requests covers the one selected before. */
  ghost predicate CoversUpTo(t: Table, names: seq<string>, n: nat)
    requires Arranged(t) && n <= |names|
  {
    forall i :: 0 <= i < n ==> CoversNext(t, names, i)
  }

  lemma {:induction false} CleanAsExpected(run: seq<State>, names: seq<string>, n: nat)
    requires IsRun(run, names) && Keyed(run[0].settings) && n <= |names|
    requires forall i :: 0 <= i < n ==> CleanAt(run, names, i)
    ensures AsExpected(run, names, n)
  {
    if n == 0 {
      ExpectedAtFirst(run, names);
    } else {
      CleanAsExpected(run, names, n - 1);
      ExpectedNext(run, names, n - 1);
    }
  }

  lemma {:induction false} CoveringIsClean(run: seq<State>, names: seq<string>, i: nat)
    requires IsRun(run, names) && Keyed(run[0].settings) && CoversUpTo(run[0].settings, names, |names|)
    requires i < |names|
    ensures CleanAt(run, names, i)
    decreases i
  {
    forall m | 0 <= m < i ensures CleanAt(run, names, m) {
      CoveringIsClean(run, names, m);
    }
    CleanAsExpected(run, names, i);
    CleanNextIff(run, names, i);
  }

  lemma CleanIsCovering(run: seq<State>, names: seq<string>)
    requires IsRun(run, names) && Keyed(run[0].settings) && AllClean(run, names)
    ensures CoversUpTo(run[0].settings, names, |names|)
  {
    forall i | 0 <= i < |names| ensures CoversNext(run[0].settings, names, i) {
      CleanAsExpected(run, names, i);
      CleanNextIff(run, names, i);
      assert CleanAt(run, names, i);
    }
  }

  /** A run of switches, failed ones included, conserves the accounts at every point if and only if each
      requested account covers the one that is active when it is requested, which is the last one asked for,
      and fits over what is left of the plugin sections under "default". The accounts are those before
      the run. */
  lemma RunConservesIff(run: seq<State>, names: seq<string>)
    requires IsRun(run, names) && Keyed(run[0].settings)
    ensures KeepsAccounts(run) <==> CoversUpTo(run[0].settings, names, |names|)
  {
    RunCleanIff(run, names);
    if AllClean(run, names) {
      CleanIsCovering(run, names);
    }
    if CoversUpTo(run[0].settings, names, |names|) {
      forall i | 0 <= i < |names| ensures CleanAt(run, names, i) {
        CoveringIsClean(run, names, i);
      }
    }
  }

  /** All accounts have the same fields, and no plugin section under "default" has the name of one. */
  predicate Uniform(t: Table)
    requires Arranged(t)
  {
    && (forall a, b :: a in Names(t) && b in Names(t) ==> Covers(Accounts(t)[a], Accounts(t)[b]))
    && forall k, a :: k in t[DEFAULT].entries && IsPluginSection(t[DEFAULT].entries[k]) && a in Names(t) ==>
         k !in Accounts(t)[a]
  }

  lemma UniformIsClean(t: Table, name: string)
    requires Arranged(t) && Uniform(t)
    ensures Clean(t, name)
  {
    if name in Names(t) {
      var d, a := t[DEFAULT].entries, Accounts(t)[name];
      assert Accounts(t)[DisplayName(t)] == Account(t[DEFAULT]);
      assert Covers(a, Accounts(t)[DisplayName(t)]);
      AccountsAreAccounts(t, DisplayName(t));
      forall k | k in d && k != "profile_name" && !IsPluginSection(d[k]) ensures k in a && Fits(d[k], a[k]) {
        assert k in Account(t[DEFAULT]);
      }
    }
  }

  lemma SwitchStaysUniform(s: State, name: string, s': State)
    requires Keyed(s.settings) && Uniform(s.settings) && SwitchStep(s, name, s')
    ensures Keyed(s'.settings) && Uniform(s'.settings) && Accounts(s'.settings) == Accounts(s.settings)
  {
    UniformIsClean(s.settings, name);
    SwitchConservesIff(s, name, s');
    SwitchLeaves(s, name, s');
    DefaultAfter(s, name, s');
    if name in Names(s.settings) {
      forall k | k in s'.settings[DEFAULT].entries && IsPluginSection(s'.settings[DEFAULT].entries[k])
        ensures k in s.settings[DEFAULT].entries && IsPluginSection(s.settings[DEFAULT].entries[k])
      {
        PluginsOfMerged(s.settings, name, k);
      }
    }
  }

  lemma PluginsOfMerged(t: Table, name: string, k: string)
    requires Arranged(t) && Uniform(t) && name in Names(t)
    requires var r := Merged(t[DEFAULT].entries, Accounts(t)[name], DEFAULT); k in r && IsPluginSection(r[k])
    ensures k in t[DEFAULT].entries && IsPluginSection(t[DEFAULT].entries[k])
  {
    var d, a := t[DEFAULT].entries, Accounts(t)[name];
    UniformIsClean(t, name);
    AccountsAreAccounts(t, name);
    MergedAt(d, a, DEFAULT, k);
    if k != "profile_name" && k in d && k in a {
      OverlaidKeepsIff(d[k], a[k]);
    }
  }

  /** So where all accounts have the same fields, every run of switches conserves them. */
  lemma {:induction false} RunConserves(run: seq<State>, names: seq<string>, i: nat)
    requires IsRun(run, names) && Keyed(run[0].settings) && Uniform(run[0].settings) && i < |run|
    ensures Keyed(run[i].settings) && Uniform(run[i].settings)
    ensures Accounts(run[i].settings) == Accounts(run[0].settings)
  {
    if i > 0 {
      RunConserves(run, names, i - 1);
      SwitchStaysUniform(run[i - 1], names[i - 1], run[i]);
    }
  }

  // ---------------------------------------------------------------------------
  // Switching away and back
  // ---------------------------------------------------------------------------

  /** Nothing of the other account is left once `d` is copied back over it. */
  predicate CoversBack(d: Table, b: Table) {
    forall k :: k in b ==>
      k in d && if IsPluginSection(d[k]) then b[k].Section? else Fits(b[k], d[k])
  }

  lemma CoversMergedIff(n: Node, b: Table)
    requires n.Section? && IsAccount(b)
    ensures Covers(Account(n), Merged(n.entries, b, DEFAULT)) <==> CoversBack(n.entries, b)
  {
    var d, r := n.entries, Merged(n.entries, b, DEFAULT);
    forall k | k in d && k in b && !IsPluginSection(d[k]) ensures Fits(r[k], d[k]) <==> Fits(b[k], d[k]) {
      FitsBackIff(d[k], b[k]);
    }
    forall k | k in d ensures Fits(d[k], d[k]) {
      FitsItself(d[k]);
    }
    if CoversBack(d, b) {
      forall k | k in r && k != "profile_name"
        ensures if k in Account(n) then Fits(r[k], Account(n)[k]) else IsPluginSection(r[k])
      {
        if k in d && IsPluginSection(d[k]) && k in b {
          assert "updates" in Overlaid(d[k], b[k]).entries;
        }
      }
    }
    if Covers(Account(n), r) {
      forall k | k in b
        ensures k in d && if IsPluginSection(d[k]) then b[k].Section? else Fits(b[k], d[k])
      {
        assert k in r && k != "profile_name";
        assert k in d ==> r[k] == Overlaid(d[k], b[k]);
        assert k in Account(n) <==> k in d && !IsPluginSection(d[k]);
      }
    }
  }

  /** The account that was active is as it was. */
  lemma ActiveStays(s: State, name: string, s': State)
    requires Keyed(s.settings) && SwitchStep(s, name, s')
    ensures Keyed(s'.settings) && DisplayName(s.settings) in Names(s'.settings)
    ensures Accounts(s'.settings)[DisplayName(s.settings)] == Account(s.settings[DEFAULT])
  {
    var t := s.settings;
    SwitchLeaves(s, name, s');
    assert Accounts(t)[DisplayName(t)] == Account(t[DEFAULT]);
    if name == DisplayName(t) {
      AccountCoversItself(t[DEFAULT]);
      MergedAccountIff(t[DEFAULT].entries, Account(t[DEFAULT]), DEFAULT);
    }
  }

  /** Switching to another account and back restores the active account if and only if it has every
      field of the other one. */
  lemma SwitchBackRestoresIff(s: State, name: string, u: State, v: State)
    requires Keyed(s.settings) && SwitchStep(s, name, u) && SwitchStep(u, DisplayName(s.settings), v)
    ensures Keyed(v.settings) && DisplayName(v.settings) == DisplayName(s.settings)
    ensures Account(v.settings[DEFAULT]) == Account(s.settings[DEFAULT]) <==>
      (name in Names(s.settings) ==> CoversBack(s.settings[DEFAULT].entries, Accounts(s.settings)[name]))
  {
    var active := DisplayName(s.settings);
    SwitchLeaves(s, name, u);
    ActiveStays(s, name, u);
    DefaultAfter(s, name, u);
    SwitchLeaves(u, active, v);
    DefaultAfter(u, active, v);
    AccountCoversItself(s.settings[DEFAULT]);
    if name in Names(s.settings) {
      AccountsAreAccounts(s.settings, name);
      CoversMergedIff(s.settings[DEFAULT], Accounts(s.settings)[name]);
    }
    MergedAccountIff(u.settings[DEFAULT].entries, Account(s.settings[DEFAULT]), DEFAULT);
  }

  // ---------------------------------------------------------------------------
  // What switching does not conserve
  // ---------------------------------------------------------------------------

  /** A field of the active account that the requested one lacks becomes a field of the requested one. */
  lemma LeftoverStays(s: State, name: string, s': State, k: string)
    requires Keyed(s.settings) && SwitchStep(s, name, s') && name in Names(s.settings)
    requires k in Account(s.settings[DEFAULT]) && k !in Accounts(s.settings)[name]
    ensures Keyed(s'.settings) && name in Names(s'.settings)
    ensures k in Accounts(s'.settings)[name] && Accounts(s'.settings)[name][k] == Account(s.settings[DEFAULT])[k]
  {
    SwitchLeaves(s, name, s');
    MergedAt(s.settings[DEFAULT].entries, Accounts(s.settings)[name], DEFAULT, k);
  }

  function Example(): State {
    State(map["default" := Section(Fields("a", "default")["live_mode_api_key" := Leaf("x")]),
              "b" := Section(Fields("b", "b"))], map[])
  }

  function Fields(shown: string, name: string): Table {
    map["display_name" := Leaf(shown), "profile_name" := Leaf(name)]
  }

  lemma ShortNames()
    ensures GoodName("a") && GoodName("b")
  {
    assert Lower("") == "" && "a"[1..] == "" && "b"[1..] == "";
    assert Lower("a") == "a" && Lower("b") == "b";
    assert IndexOf("a", '.') == 1 && IndexOf("b", '.') == 1;
    assert Split("a", '.') == ["a"] && Split("b", '.') == ["b"];
  }

  lemma ExampleKeyed()
    ensures Keyed(Example().settings)
  {
    ShortNames();
    ExampleNames();
    assert StoredAs(Example().settings["b"], "b");
  }

  lemma ExampleAccounts()
    requires Keyed(Example().settings)
    ensures "b" in Names(Example().settings) && "live_mode_api_key" !in Accounts(Example().settings)["b"]
  {
    ExampleNames();
    assert Holder(Example().settings, "b") == Section(Fields("b", "b"));
  }

  lemma ExampleKey()
    ensures var account := Account(Example().settings[DEFAULT]);
      "live_mode_api_key" in account && account["live_mode_api_key"] == Leaf("x")
  {
  }

  lemma ExampleNames()
    ensures DisplayName(Example().settings) == "a" && Names(Example().settings) == {"a", "b"}
  {
    var t := Example().settings;
    assert forall k :: k in t <==> k == "default" || k == "b";
  }

  /** For example: `b` has no live-mode key; after switching to it and back it has that of `a`. */
  lemma KeyLeaks() returns (u: State, v: State)
    ensures Keyed(Example().settings) && Names(Example().settings) == {"a", "b"}
    ensures SwitchStep(Example(), "b", u) && SwitchStep(u, "a", v) && Keyed(v.settings) && "b" in Names(v.settings)
    ensures "live_mode_api_key" !in Accounts(Example().settings)["b"]
    ensures "live_mode_api_key" in Accounts(v.settings)["b"]
    ensures Accounts(v.settings)["b"]["live_mode_api_key"] == Leaf("x")
  {
    var s := Example();
    ExampleKeyed();
    ExampleNames();
    ExampleAccounts();
    ExampleKey();
    u := Switched(s, "b").0;
    LeftoverStays(s, "b", u, "live_mode_api_key");
    SwitchLeaves(s, "b", u);
    v := Switched(u, "a").0;
    SwitchLeaves(u, "a", v);
  }

  function LiveKey(s: State, key: string): Option<string> {
    if key in s.liveKeys then Some(s.liveKeys[key]) else None
  }

  /** The live-mode key that commands use for an account. */
  function KeyOf(s: State, shown: string): Option<string> {
    LiveKey(s, if shown == DisplayName(s.settings) then DEFAULT else shown)
  }

  lemma KeyAfterSwitch(s: State, name: string, shown: string)
    requires Arranged(s.settings) && Plain(name) && Switched(s, name).1.Fine? && shown in Names(s.settings)
    ensures KeyOf(Switched(s, name).0, shown) == if shown == name then LiveKey(s, DEFAULT) else LiveKey(s, shown)
  {
    SwitchSucceedsIff(s, name);
    SwitchStaysKeyed(s.settings, name);
  }

  /** Live-mode keys do not move with their accounts: that of the activated account is deleted and the
      one under "default" stays. So every account keeps its live-mode key across a switch to another
      account if and only if the keys held for "default" and under the two names were the same. */
  lemma LiveKeysFollowIff(s: State, name: string)
    requires Arranged(s.settings) && Plain(name) && Switched(s, name).1.Fine?
    ensures var active := DisplayName(s.settings);
      (forall shown :: shown in Names(s.settings) ==> KeyOf(Switched(s, name).0, shown) == KeyOf(s, shown))
      <==> name == active || LiveKey(s, name) == LiveKey(s, DEFAULT) == LiveKey(s, active)
  {
    SwitchSucceedsIff(s, name);
    KeyAfterSwitch(s, name, DisplayName(s.settings));
    KeyAfterSwitch(s, name, name);
    forall shown | shown in Names(s.settings)
      ensures KeyOf(Switched(s, name).0, shown) == if shown == name then LiveKey(s, DEFAULT) else LiveKey(s, shown)
    {
      KeyAfterSwitch(s, name, shown);
    }
  }

  /** Some profile of `t'` shows the account under the same name as in `t`. */
  ghost predicate StillThere(t: Table, k: string, t': Table)
    requires k in t && IsProfile(t[k])
  {
    exists k' :: k' in t' && IsProfile(t'[k']) && Shown(t', k') == Shown(t, k) && Account(t'[k']) == Account(t[k])
  }

  function Shown(t: Table, k: string): string {
    if k == DEFAULT then DisplayName(t) else k
  }

  ghost predicate NothingLost(t: Table, t': Table) {
    (forall k :: k in t && IsProfile(t[k]) ==> StillThere(t, k, t')) && OthersKept(t, t')
  }

  lemma AccountStillThere(t: Table, k: string, t': Table)
    requires Keyed(t) && Keyed(t') && Accounts(t') == Accounts(t) && k in t && IsProfile(t[k])
    ensures StillThere(t, k, t')
  {
    var shown := Shown(t, k);
    assert shown in Accounts(t) && Accounts(t)[shown] == Account(t[k]);
    var k' := if shown == DisplayName(t') then DEFAULT else shown;
    assert Accounts(t')[shown] == Account(t'[k']);
    assert Shown(t', k') == shown;
  }

  /** Two profiles that are there under one name are one, if nothing lives beside the active account. */
  lemma ShownOnce(t: Table, t': Table, k: string, l: string)
    requires k in t && l in t && IsProfile(t[k]) && IsProfile(t[l]) && Shown(t, k) == Shown(t, l)
    requires StillThere(t, k, t') && StillThere(t, l, t') && DisplayName(t') !in t'
    ensures Account(t[k]) == Account(t[l])
  {
    var a :| a in t' && IsProfile(t'[a]) && Shown(t', a) == Shown(t, k) && Account(t'[a]) == Account(t[k]);
    var b :| b in t' && IsProfile(t'[b]) && Shown(t', b) == Shown(t, k) && Account(t'[b]) == Account(t[l]);
    assert a == b;
  }

  /** Saving puts a profile under the active display name, so nothing else that was there is kept. */
  lemma SavingReplaces(t: Table, name: string)
    requires Arranged(t) && name != DEFAULT && name in Saved(t) && IsProfile(Saved(t)[name])
    requires DisplayName(t) in t && !IsProfile(t[DisplayName(t)])
    ensures !OthersKept(t, Activated(Saved(t), name) - {name})
  {
    var active, v := DisplayName(t), Activated(Saved(t), name) - {name};
    SaveSucceeds(t);
    ActivatedShows(Saved(t), name);
    assert active in v ==> v[active] == Saved(t)[active];
    assert StoredAs(Saved(t)[active], active);
  }

  /** If nothing is lost, whatever was under the active display name is a copy of the active account. */
  lemma NothingLostKeyed(s: State, name: string)
    requires Arranged(s.settings) && Plain(name) && name in Names(s.settings)
    requires NothingLost(s.settings, Switched(s, name).0.settings)
    ensures Keyed(s.settings)
  {
    var t, t', active := s.settings, Switched(s, name).0.settings, DisplayName(s.settings);
    SwitchSucceedsIff(s, name);
    SwitchStaysKeyed(t, name);
    if active in t {
      if IsProfile(t[active]) {
        ShownOnce(t, t', active, DEFAULT);
      } else {
        SavingReplaces(t, name);
      }
    }
  }

  lemma NothingLostClean(s: State, name: string)
    requires Keyed(s.settings) && Plain(name) && name in Names(s.settings)
    requires NothingLost(s.settings, Switched(s, name).0.settings)
    ensures Clean(s.settings, name)
  {
    var t, t' := s.settings, Switched(s, name).0.settings;
    SwitchSucceedsIff(s, name);
    SwitchLeaves(s, name, Switched(s, name).0);
    var k := if name == DisplayName(t) then DEFAULT else name;
    assert StillThere(t, k, t');
    var k' :| k' in t' && IsProfile(t'[k']) && Shown(t', k') == name && Account(t'[k']) == Account(t[k]);
    assert k' == DEFAULT;
    AccountsAreAccounts(t, name);
    MergedAccountIff(t[DEFAULT].entries, Accounts(t)[name], DEFAULT);
    assert Accounts(t')[name] == ActiveAccount(t, name);
  }

  /** A switch that succeeds loses nothing if and only if nothing but a copy of the active account lives
      under the active display name, and the requested account covers what is under "default". */
  lemma NothingLostIff(s: State, name: string)
    requires Arranged(s.settings) && Plain(name) && name in Names(s.settings)
    ensures NothingLost(s.settings, Switched(s, name).0.settings) <==> Keyed(s.settings) && Clean(s.settings, name)
  {
    var t, t' := s.settings, Switched(s, name).0.settings;
    SwitchSucceedsIff(s, name);
    if Keyed(t) && Clean(t, name) {
      SwitchConservesIff(s, name, Switched(s, name).0);
      SwitchLeaves(s, name, Switched(s, name).0);
      forall k | k in t && IsProfile(t[k]) ensures StillThere(t, k, t') {
        AccountStillThere(t, k, t');
      }
    }
    if NothingLost(t, t') {
      NothingLostKeyed(s, name);
      NothingLostClean(s, name);
    }
  }

  /** `above` is there already, at every depth. */
  predicate Within(above: Node, below: Node)
    decreases above
  {
    if above.Leaf? then below == above
    else below.Section?
         && forall k :: k in above.entries ==> k in below.entries && Within(above.entries[k], below.entries[k])
  }

  lemma {:induction false} AbsorbedIff(below: Node, above: Node)
    ensures Overlaid(below, above) == below <==> Within(above, below)
    decreases above
  {
    if below.Section? && above.Section? {
      var x, y, r := below.entries, above.entries, Overlaid(below, above).entries;
      forall k | k in x && k in y ensures r[k] == x[k] <==> Within(y[k], x[k]) {
        AbsorbedIff(x[k], y[k]);
      }
      assert forall k :: k in y ==> k in r;
      if Within(above, below) {
        assert r == x;
      }
    }
  }

  /** The profile has the fields of the account already. */
  predicate Absorbs(x: Table, a: Table) {
    forall k :: k in a ==>
      k in x && if IsPluginSection(x[k]) then a[k].Section? else Within(a[k], x[k])
  }

  lemma AbsorbsIff(n: Node, a: Table, name: string)
    requires n.Section? && IsAccount(a)
    ensures Account(Section(Merged(n.entries, a, name))) == Account(n) <==> Absorbs(n.entries, a)
  {
    var x, r := n.entries, Merged(n.entries, a, name);
    forall k ensures k in a && k in x ==> (r[k] == x[k] <==> Within(a[k], x[k])) {
      MergedAt(x, a, name, k);
      if k in a && k in x {
        AbsorbedIff(x[k], a[k]);
      }
    }
    if Absorbs(x, a) {
      forall k ensures k in Account(Section(r)) <==> k in Account(n) {
        MergedAt(x, a, name, k);
      }
    }
    if Account(Section(r)) == Account(n) {
      forall k | k in a ensures k in x && if IsPluginSection(x[k]) then a[k].Section? else Within(a[k], x[k]) {
        MergedAt(x, a, name, k);
        assert k in Account(Section(r)) <==> k in Account(n);
      }
    }
  }

  lemma SavedStillThere(t: Table, k: string)
    requires Arranged(t) && k in t && IsProfile(t[k]) && k != DisplayName(t)
    ensures StillThere(t, k, Saved(t))
  {
    SaveSucceeds(t);
    assert Saved(t)[k] == t[k] && Shown(Saved(t), k) == Shown(t, k);
  }

  /** A switch that fails has saved the active account all the same: it loses nothing if and only if a
      profile under the active display name has the fields of the active account already. */
  lemma FailureLosesNothingIff(s: State, name: string)
    requires Arranged(s.settings) && Switched(s, name).1.Failed?
    ensures var t, active := s.settings, DisplayName(s.settings);
      NothingLost(t, Switched(s, name).0.settings) <==>
        (active in t ==> IsProfile(t[active]) && Absorbs(t[active].entries, Account(t[DEFAULT])))
  {
    var t, active := s.settings, DisplayName(s.settings);
    FailedSwitch(s, name);
    forall k | k in t && IsProfile(t[k]) && k != active ensures StillThere(t, k, Saved(t)) {
      SavedStillThere(t, k);
    }
    SavedOthersIff(t);
    if active in t && IsProfile(t[active]) {
      SavedCopyIff(t);
    }
  }

  lemma SavedOthersIff(t: Table)
    requires Arranged(t)
    ensures OthersKept(t, Saved(t)) <==> (DisplayName(t) in t ==> IsProfile(t[DisplayName(t)]))
  {
    SaveSucceeds(t);
    assert forall k :: k in t && k != DisplayName(t) ==> k in Saved(t) && Saved(t)[k] == t[k];
    assert StoredAs(Saved(t)[DisplayName(t)], DisplayName(t));
  }

  lemma SavedCopyIff(t: Table)
    requires Arranged(t) && DisplayName(t) in t && IsProfile(t[DisplayName(t)])
    ensures var active := DisplayName(t);
      active in Saved(t) && IsProfile(Saved(t)[active])
      && (StillThere(t, active, Saved(t)) <==> Absorbs(t[active].entries, Account(t[DEFAULT])))
  {
    var active, u := DisplayName(t), Saved(t);
    AccountCoversItself(t[DEFAULT]);
    AbsorbsIff(t[active], Account(t[DEFAULT]), active);
    SetAccount(t, active, t[DEFAULT].entries);
    SaveSucceeds(t);
    assert u[DEFAULT] == t[DEFAULT];
    if Account(u[active]) == Account(t[active]) {
      assert Shown(u, active) == active;
    }
    if StillThere(t, active, u) {
      var k :| k in u && IsProfile(u[k]) && Shown(u, k) == active && Account(u[k]) == Account(t[active]);
      if k == DEFAULT {
        KeyedSaves(t);
      }
    }
  }
}
