/** Copying, removing and switching profiles (pkg/config/config.go).

The active account always lives under the key "default"; the others are kept under their
display names. Writing the config file is taken to succeed; what it held under a key that is set
again shows through (`ConfigTree.Overlaid`). Live-mode keys are kept in the OS keyring under the
profile's key.
*/
module Profiles {
  import opened Text
  import opened ConfigTree

  const DEFAULT := "default"
  const RESERVED := {"color", "installed_plugins", "machine_uuid", "plugin_configs", "project-name", "user_info"}

  datatype Error =
    | EmptyName
    | SameProfile
    | NoSuchSource
    | NotAProfile
    | ReservedName
    | ProfileNotFound

  datatype Status = Fine | Failed(error: Error)

  predicate IsProfile(n: Node) {
    n.Section? && "display_name" in n.entries
  }

  predicate IsPluginSection(n: Node) {
    n.Section? && "updates" in n.entries
  }

  /** A copied profile: plugin sections stay behind and the name is rewritten. */
  function CopyOf(source: Table, name: string): Table {
    (map k | k in source && !IsPluginSection(source[k]) :: source[k])["profile_name" := Leaf(name)]
  }

  function Safe(name: string): string {
    if name == "" then "" else [if name[0] == '.' then ' ' else name[0]] + Safe(name[1..])
  }

  function Copied(t: Table, source: string, target: string): (Table, Status) {
    if source == "" || target == "" then (t, Failed(EmptyName))
    else if source == target then (t, Failed(SameProfile))
    else if Safe(source) !in t then (t, Failed(NoSuchSource))
    else if !IsProfile(t[Safe(source)]) then (t, Failed(NotAProfile))
    else (SetTable(t, Safe(target), CopyOf(t[Safe(source)].entries, Safe(target))), Fine)
  }

  /** The `profile_name` attribute, empty when it is missing or not text. */
  function NameOf(n: Node): string {
    if n.Section? && "profile_name" in n.entries && n.entries["profile_name"].Leaf?
    then n.entries["profile_name"].value else ""
  }

  /** The first segment decides, so `plugin_configs.apps` is reserved too. */
  predicate IsReserved(name: string) {
    Split(Lower(name), '.')[0] in RESERVED
  }

  predicate Matches(t: Table, key: string, name: string)
    requires key in t
  {
    IsProfile(t[key]) && (key == name || NameOf(t[key]) == name)
  }

  function Matching(t: Table, name: string): set<string> {
    set k | k in t && Matches(t, k, name)
  }

  /** Settings, and the live-mode keys in the OS keyring. */
  datatype State = State(settings: Table, liveKeys: map<string, string>)

  /** The name addresses a table by its full key path. */
  predicate IsProfileTable(t: Table, name: string) {
    var found := Lookup(t, Split(Lower(name), '.'));
    found.Some? && found.value.Section?
  }

  function Removed(s: State, name: string): (State, Status) {
    if name == "" then (s, Failed(EmptyName))
    else if IsReserved(name) then (s, Failed(ReservedName)) else
    var keys := Matching(s.settings, name);
    if keys != {} then (State(s.settings - keys, s.liveKeys - keys), Fine)
    else if IsProfileTable(s.settings, name) then
      (State(RemoveKey(s.settings, name), s.liveKeys - {name}), Fine)
    else (s, Failed(ProfileNotFound))
  }

  function DisplayName(t: Table): string {
    if DEFAULT in t && t[DEFAULT].Section? && "display_name" in t[DEFAULT].entries
       && t[DEFAULT].entries["display_name"].Leaf?
    then t[DEFAULT].entries["display_name"].value else ""
  }

  function Switched(s: State, name: string): (State, Status) {
    var (t, saved) := Copied(s.settings, DEFAULT, DisplayName(s.settings));
    if saved.Failed? then (s, saved) else
    var (u, activated) := Copied(t, name, DEFAULT);
    if activated.Failed? then (s.(settings := t), activated)
    else (Removed(s.(settings := u), name).0, Fine)
  }

  // ---------------------------------------------------------------------------
  // The operations, in place
  // ---------------------------------------------------------------------------

  class Config {
    var settings: Table
    var liveKeys: map<string, string>

    function Abs(): State
      reads this
    {
      State(settings, liveKeys)
    }

    constructor (s: State)
      ensures Abs() == s
    {
      settings, liveKeys := s.settings, s.liveKeys;
    }

    method CopyProfile(source: string, target: string) returns (status: Status)
      modifies this`settings
      ensures (settings, status) == Copied(old(settings), source, target)
    {
      if source == "" || target == "" {
        return Failed(EmptyName);
      }
      if source == target {
        return Failed(SameProfile);
      }
      if Safe(source) !in settings {
        return Failed(NoSuchSource);
      }
      if !IsProfile(settings[Safe(source)]) {
        return Failed(NotAProfile);
      }
      var newProfile := CopyFields(settings[Safe(source)].entries);
      newProfile := newProfile["profile_name" := Leaf(Safe(target))];
      settings := SetTable(settings, Safe(target), newProfile);
      status := Fine;
    }

    /** `AllSettings` is visited in any order. */
    method RemoveProfile(profileName: string) returns (status: Status)
      modifies this
      ensures (Abs(), status) == Removed(old(Abs()), profileName)
    {
      if profileName == "" {
        return Failed(EmptyName);
      }
      if IsReserved(profileName) {
        return Failed(ReservedName);
      }
      var all, left, matched := settings, settings.Keys, false;
      ghost var doomed := Matching(all, profileName);
      while left != {}
        invariant left <= all.Keys
        invariant settings == all - (doomed - left) && liveKeys == old(liveKeys) - (doomed - left)
        invariant matched <==> doomed - left != {}
        decreases left
      {
        var field :| field in left;
        left := left - {field};
        if Matches(all, field, profileName) {
          matched := true;
          settings, liveKeys := settings - {field}, liveKeys - {field};
          assert field in doomed - left;
        }
      }
      assert doomed - left == doomed;
      assert doomed == {} ==> settings == all && liveKeys == old(liveKeys);
      if !matched && IsProfileTable(settings, profileName) {
        matched := true;
        settings, liveKeys := RemoveKey(settings, profileName), liveKeys - {profileName};
      }
      status := if matched then Fine else Failed(ProfileNotFound);
    }

    method SwitchProfile(profileName: string) returns (status: Status)
      modifies this
      ensures (Abs(), status) == Switched(old(Abs()), profileName)
    {
      status := CopyProfile(DEFAULT, DisplayName(settings));
      if status.Failed? {
        return;
      }
      status := CopyProfile(profileName, DEFAULT);
      if status.Failed? {
        return;
      }
      var _ := RemoveProfile(profileName);
    }
  }

  /** The copying loop, in any order of the fields. */
  method CopyFields(source: Table) returns (copy: Table)
    ensures copy == map k | k in source && !IsPluginSection(source[k]) :: source[k]
  {
    var left: set<string> := source.Keys;
    copy := map[];
    while left != {}
      invariant left <= source.Keys
      invariant copy == map k | k in source.Keys - left && !IsPluginSection(source[k]) :: source[k]
      decreases left
    {
      var k :| k in left;
      left := left - {k};
      if !IsPluginSection(source[k]) {
        copy := copy[k := source[k]];
      }
    }
  }

  // ---------------------------------------------------------------------------
  // Removing a profile by its full key path
  // ---------------------------------------------------------------------------

  lemma {:induction false} SplitLower(name: string)
    requires Lower(name) == name
    ensures var path := Split(name, '.'); Lower(path[|path| - 1]) == path[|path| - 1]
  {
    var i := IndexOf(name, '.');
    if i < |name| {
      var first, rest := name[..i + 1], name[i + 1..];
      assert name == first + rest;
      LowerConcat(first, rest);
      LowerKeepsLength(first);
      assert Lower(rest) == Lower(name)[i + 1..];
      SplitLower(rest);
    }
  }

  lemma {:induction false} LowerKeepsLength(s: string)
    ensures |Lower(s)| == |s|
  {
    if s != "" {
      LowerKeepsLength(s[1..]);
    }
  }

  lemma {:induction false} SectionsAbove(t: Table, path: Path)
    requires path != [] && Lookup(t, path).Some?
    ensures SectionsOn(t, path[..|path| - 1])
    decreases |path|
  {
    if |path| > 1 {
      SectionsAbove(t[path[0]].entries, path[1..]);
      assert path[..|path| - 1][1..] == path[1..][..|path| - 2];
    }
  }

  lemma RemoveTableExact(t: Table, name: string)
    requires Lower(name) == name && IsProfileTable(t, name)
    ensures RemovesExactly(t, RemoveKey(t, name), Split(name, '.'))
  {
    var path := Split(name, '.');
    var prefix, last := path[..|path| - 1], path[|path| - 1];
    SplitLower(name);
    SectionsAbove(t, path);
    RemoveKeyExactIff(t, name);
    assert prefix + [last] == path;
  }

  /** A name that no profile carries, dotted or not, removes exactly the table it addresses, and is
      reported as not found if and only if there is none. */
  lemma TableRemovalExact(s: State, name: string)
    requires name != "" && !IsReserved(name) && Lower(name) == name && Matching(s.settings, name) == {}
    ensures Removed(s, name).1.Fine? <==> IsProfileTable(s.settings, name)
    ensures Removed(s, name).1.Fine? ==> RemovesExactly(s.settings, Removed(s, name).0.settings, Split(name, '.'))
    ensures !Removed(s, name).1.Fine? ==> Removed(s, name) == (s, Failed(ProfileNotFound))
  {
    if IsProfileTable(s.settings, name) {
      RemoveTableExact(s.settings, name);
      assert Removed(s, name).0.settings == RemoveKey(s.settings, name);
    }
  }

  // ---------------------------------------------------------------------------
  // Removing, field by field
  // ---------------------------------------------------------------------------

  lemma {:induction false} FirstSegment(s: string, first: string)
    requires '.' !in first
    ensures Split(s, '.')[0] == first <==> s == first || first + "." <= s
  {
    var i := IndexOf(s, '.');
    assert i < |s| ==> s[..i + 1] == s[..i] + ".";
    if first + "." <= s {
      assert s == first + ['.'] + s[|first| + 1..];
      IndexOfSplit(first, '.', s[|first| + 1..]);
    }
    if s == first {
      IndexOfAbsent(first, '.');
    }
  }

  /** The setting itself, or a name below it, in any case of letters. */
  predicate Under(name: string, setting: string) {
    Lower(name) == setting || setting + "." <= Lower(name)
  }

  /** The settings that are no profiles. */
  predicate NamesSetting(name: string) {
    || Under(name, "color") || Under(name, "installed_plugins") || Under(name, "machine_uuid")
    || Under(name, "plugin_configs") || Under(name, "project-name") || Under(name, "user_info")
  }

  lemma ReservedIff(name: string)
    ensures IsReserved(name) <==> NamesSetting(name)
  {
    FirstSegment(Lower(name), "color");
    FirstSegment(Lower(name), "installed_plugins");
    FirstSegment(Lower(name), "machine_uuid");
    FirstSegment(Lower(name), "plugin_configs");
    FirstSegment(Lower(name), "project-name");
    FirstSegment(Lower(name), "user_info");
  }

  /** A profile of that name: stored under it, or carrying it. */
  predicate GoesBy(t: Table, k: string, name: string) {
    && k in t && t[k].Section? && "display_name" in t[k].entries
    && (k == name || ("profile_name" in t[k].entries && t[k].entries["profile_name"] == Leaf(name)))
  }

  /** Neither the empty name nor that of a setting removes anything. Any other removes every profile that
      goes by it, with its live-mode key, and leaves everything else as it was. */
  lemma RemovalIs(s: State, name: string, k: string)
    ensures name == "" ==> Removed(s, name) == (s, Failed(EmptyName))
    ensures name != "" && NamesSetting(name) ==> Removed(s, name) == (s, Failed(ReservedName))
    ensures name != "" && !NamesSetting(name) && (exists l :: GoesBy(s.settings, l, name)) ==>
      var (u, status) := Removed(s, name);
      && status == Fine
      && (k in u.settings <==> k in s.settings && !GoesBy(s.settings, k, name))
      && (k in u.settings ==> u.settings[k] == s.settings[k])
      && (k in u.liveKeys <==> k in s.liveKeys && !GoesBy(s.settings, k, name))
      && (k in u.liveKeys ==> u.liveKeys[k] == s.liveKeys[k])
  {
    ReservedIff(name);
    if name != "" {
      forall l ensures l in Matching(s.settings, name) <==> GoesBy(s.settings, l, name) {
      }
    }
  }

  // ---------------------------------------------------------------------------
  // When copying and switching fail
  // ---------------------------------------------------------------------------

  /** Periods become spaces, and nothing else changes. */
  lemma {:induction false} SafeIs(name: string)
    ensures |Safe(name)| == |name|
    ensures forall i :: 0 <= i < |name| ==> Safe(name)[i] == if name[i] == '.' then ' ' else name[i]
  {
    if name != "" {
      SafeIs(name[1..]);
      assert forall i :: 1 <= i < |name| ==> name[1..][i - 1] == name[i];
    }
  }

  /** A copy needs two different names, and a profile under the first. */
  lemma CopyFailsIff(t: Table, source: string, target: string)
    ensures var (u, status) := Copied(t, source, target);
      && (status == Fine <==> && source != "" && target != "" && source != target && Safe(source) in t
                              && t[Safe(source)].Section? && "display_name" in t[Safe(source)].entries)
      && (status != Fine ==> u == t)
  {
  }

  /** A switch that cannot save the active account changes nothing, and one that finds no profile of the
      requested name leaves nothing but that copy. */
  lemma SwitchStops(s: State, name: string)
    ensures var (t, saved) := Copied(s.settings, DEFAULT, DisplayName(s.settings));
      && (saved != Fine ==> Switched(s, name) == (s, saved))
      && (saved == Fine && Copied(t, name, DEFAULT).1 != Fine ==>
            Switched(s, name) == (State(t, s.liveKeys), Copied(t, name, DEFAULT).1))
  {
  }
}
