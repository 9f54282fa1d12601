/** Installed-plugin state: the metadata file, the `installed_plugins` list and the binaries.

pkg/plugins/utilities.go and pkg/plugins/plugin.go change a metadata file and the config file
without a common transaction, and undo by hand what a failing write leaves behind. Each file
operation takes the fault that befalls it as an argument, so a statement about all faults is a
statement about every pattern of failing writes.
*/
module PluginState {
  import opened Text

  /** The configuration as viper holds it: the plugin list and everything else. */
  datatype Settings = Settings(installed: seq<string>, rest: map<string, string>)

  const NO_SETTINGS := Settings([], map[])

  datatype Disk = Readable(settings: Settings) | Damaged

  /** Binaries are kept per plugin and version. */
  datatype State = State(
    files: map<string, string>,
    mem: Settings,
    disk: Disk,
    bins: map<(string, string), string>)

  /** What happens to one write or removal of a metadata file. */
  datatype FileFault = Fine | Untouched | Partial(content: string)

  /** What happens to one write of the config file (config.go:614-645). */
  datatype ConfigFault =
    | Saved
    | Refused              // fails before the file is opened
    | Broken(after: Disk)  // fails while writing
    | Unread               // written, but reading it back fails after viper was reset

  datatype Outcome =
    | Success
    | Unchanged  // an error before anything was written
    | Restored   // an error, and rollback reported none
    | Torn       // an error, and rollback failed too

  /** config.go:614: the field is set in memory first, then everything in memory is written. */
  function WriteField(s: State, installed: seq<string>, fault: ConfigFault): (State, bool) {
    var mem := s.mem.(installed := installed);
    match fault
    case Saved => (s.(mem := mem, disk := Readable(mem)), true)
    case Refused => (s.(mem := mem), false)
    case Broken(after) => (s.(mem := mem, disk := after), false)
    case Unread => (s.(mem := NO_SETTINGS, disk := Readable(mem)), false)
  }

  function Removed(names: seq<string>, name: string): seq<string> {
    if names == [] then [] else
    var rest := Removed(names[1..], name);
    if names[0] == name then rest else [names[0]] + rest
  }

  /** Every occurrence is removed, nothing else is, and distinct names stay distinct. */
  lemma {:induction false} RemovedFacts(names: seq<string>, name: string)
    ensures forall x :: x in Removed(names, name) <==> x in names && x != name
    ensures name !in names ==> Removed(names, name) == names
    ensures Distinct(names) ==> Distinct(Removed(names, name))
  {
    if names != [] {
      RemovedFacts(names[1..], name);
      assert names == [names[0]] + names[1..];
      if Distinct(names) {
        assert Distinct(names[1..]) && names[0] !in names[1..];
      }
    }
  }

  ghost predicate Distinct(names: seq<string>) {
    forall i, j :: 0 <= i < j < |names| ==> names[i] != names[j]
  }

  function Record(s: State, name: string, fault: ConfigFault): (State, bool) {
    if name == "" || name in s.mem.installed then (s, true)
    else WriteField(s, s.mem.installed + [name], fault)
  }

  function Forget(s: State, name: string, fault: ConfigFault): (State, bool) {
    if name == "" || name !in s.mem.installed then (s, true)
    else WriteField(s, Removed(s.mem.installed, name), fault)
  }

  function WriteFile(s: State, name: string, content: string, fault: FileFault): (State, bool) {
    match fault
    case Fine => (s.(files := s.files[name := content]), true)
    case Untouched => (s, false)
    case Partial(other) => (s.(files := s.files[name := other]), false)
  }

  function RemoveFile(s: State, name: string, fault: FileFault): (State, bool) {
    if fault.Fine? then (s.(files := s.files - {name}), true) else (s, false)
  }

  datatype Snapshot = Snapshot(installed: seq<string>, metadata: Option<string>)

  function Snap(s: State, name: string): Snapshot {
    Snapshot(s.mem.installed, if name in s.files then Some(s.files[name]) else None)
  }

  function RestoreMetadata(s: State, name: string, snapshot: Snapshot, fault: FileFault): (State, bool) {
    if snapshot.metadata.Some? then WriteFile(s, name, snapshot.metadata.value, fault)
    else RemoveFile(s, name, fault)
  }

  /** A failed write is not reported when the list in memory is right all the same. */
  function RestoreList(s: State, installed: seq<string>, fault: ConfigFault): (State, bool) {
    if s.mem.installed == installed then (s, true) else
    var (t, ok) := WriteField(s, installed, fault);
    (t, ok || t.mem.installed == installed)
  }

  function Rollback(s: State, name: string, snapshot: Snapshot, file: FileFault, list: ConfigFault): (State, Outcome) {
    var (t, restored) := RestoreMetadata(s, name, snapshot, file);
    var (u, listed) := RestoreList(t, snapshot.installed, list);
    (u, if restored && listed then Restored else Torn)
  }

  /** A plugin name that stays inside the metadata directory. */
  predicate ValidShortname(name: string) {
    name != "" && name != "." && name != ".." && '/' !in name && '\\' !in name
  }

  /** `read`: the snapshot can be taken. `directory`: the metadata directory can be made. */
  datatype PersistFaults = PersistFaults(
    read: bool, directory: bool, write: FileFault, record: ConfigFault, undoFile: FileFault, undoList: ConfigFault)

  function Persist(s: State, name: string, body: string, f: PersistFaults): (State, Outcome) {
    if !ValidShortname(name) || !f.read then (s, Unchanged) else
    var snapshot := Snap(s, name);
    var (t, written) := if f.directory then WriteFile(s, name, body, f.write) else (s, false);
    if !written then Rollback(t, name, snapshot, f.undoFile, f.undoList) else
    var (u, recorded) := Record(t, name, f.record);
    if recorded then (u, Success) else Rollback(u, name, snapshot, f.undoFile, f.undoList)
  }

  /** `read`: the checks and the snapshot can be made. `left`: the binaries that a failing removal of the
      plugin's directory leaves there. */
  datatype UninstallFaults = UninstallFaults(
    read: bool, remove: FileFault, forget: ConfigFault, removeAll: bool, left: set<(string, string)>,
    undoFile: FileFault, undoList: ConfigFault)

  function BinsOf(s: State, name: string): set<(string, string)> {
    set k | k in s.bins && k.0 == name
  }

  function Uninstall(s: State, name: string, f: UninstallFaults): (State, Outcome) {
    if !ValidShortname(name) || !f.read then (s, Unchanged)
    else if name !in s.mem.installed && BinsOf(s, name) == {} && name !in s.files then (s, Unchanged) else
    var snapshot := Snap(s, name);
    var (t, removed) := RemoveFile(s, name, f.remove);
    if !removed then (s, Unchanged) else
    var (u, forgotten) := Forget(t, name, f.forget);
    if !forgotten then Rollback(u, name, snapshot, f.undoFile, f.undoList)
    else if f.removeAll then (u.(bins := u.bins - BinsOf(u, name)), Success)
    else Rollback(u.(bins := u.bins - (BinsOf(u, name) - f.left)), name, snapshot, f.undoFile, f.undoList)
  }

  /** `save`: Untouched if the binary cannot be downloaded or verified, Partial if its write, which is
      in place, breaks off. `removed`: cleaning up gets as far as the binary. `stuck`: binaries that the
      sweep after a success cannot remove. */
  datatype InstallFaults = InstallFaults(
    save: FileFault, persist: PersistFaults, removed: bool, stuck: set<(string, string)>)

  function Install(s: State, name: string, version: string, body: string, binary: string, f: InstallFaults)
    : (State, Outcome)
  {
    var key := (name, version);
    if !ValidShortname(name) || f.save.Untouched? then (s, Unchanged)
    else if f.save.Partial? then (s.(bins := s.bins[key := f.save.content]), Unchanged) else
    var (u, outcome) := Persist(s.(bins := s.bins[key := binary]), name, body, f.persist);
    if outcome.Success? then (u.(bins := u.bins - (BinsOf(u, name) - {key} - f.stuck)), Success)
    else (if f.removed then u.(bins := u.bins - {key}) else u, outcome)
  }

  method Filter(names: seq<string>, name: string) returns (updated: seq<string>, removed: bool)
    ensures updated == Removed(names, name)
    ensures removed <==> name in names
  {
    updated, removed := [], false;
    for i := 0 to |names|
      invariant updated + Removed(names[i..], name) == Removed(names, name)
      invariant removed <==> name in names[..i]
    {
      assert names[i..][1..] == names[i + 1..];
      if names[i] == name {
        removed := true;
        assert Removed(names[i..], name) == Removed(names[i + 1..], name);
      } else {
        assert Removed(names[i..], name) == [names[i]] + Removed(names[i + 1..], name);
        updated := updated + [names[i]];
      }
    }
    assert names[..|names|] == names && updated + [] == updated;
  }

  // ---------------------------------------------------------------------------
  // The operations, in place
  // ---------------------------------------------------------------------------

  class Host {
    var files: map<string, string>
    var mem: Settings
    var disk: Disk
    var bins: map<(string, string), string>

    function Abs(): State
      reads this
    {
      State(files, mem, disk, bins)
    }

    constructor (s: State)
      ensures Abs() == s
    {
      files, mem, disk, bins := s.files, s.mem, s.disk, s.bins;
    }

    method WriteConfigField(installed: seq<string>, fault: ConfigFault) returns (ok: bool)
      modifies this
      ensures (Abs(), ok) == WriteField(old(Abs()), installed, fault)
    {
      mem := mem.(installed := installed);
      match fault
      case Saved => disk, ok := Readable(mem), true;
      case Refused => ok := false;
      case Broken(after) => disk, ok := after, false;
      case Unread => disk := Readable(mem); mem, ok := NO_SETTINGS, false;
    }

    method RecordInstalledPlugin(name: string, fault: ConfigFault) returns (ok: bool)
      modifies this
      ensures (Abs(), ok) == Record(old(Abs()), name, fault)
    {
      if name == "" {
        return true;
      }
      for i := 0 to |mem.installed|
        invariant name !in mem.installed[..i] && Abs() == old(Abs())
      {
        if mem.installed[i] == name {
          return true;
        }
      }
      ok := WriteConfigField(mem.installed + [name], fault);
    }

    method RemoveInstalledPlugin(name: string, fault: ConfigFault) returns (ok: bool)
      modifies this
      ensures (Abs(), ok) == Forget(old(Abs()), name, fault)
    {
      if name == "" {
        return true;
      }
      var updated, removed := Filter(mem.installed, name);
      if !removed {
        return true;
      }
      ok := WriteConfigField(updated, fault);
    }

    method WriteMetadata(name: string, content: string, fault: FileFault) returns (ok: bool)
      modifies this`files
      ensures (Abs(), ok) == WriteFile(old(Abs()), name, content, fault)
    {
      match fault
      case Fine => files, ok := files[name := content], true;
      case Untouched => ok := false;
      case Partial(other) => files, ok := files[name := other], false;
    }

    method RemoveMetadata(name: string, fault: FileFault) returns (ok: bool)
      modifies this`files
      ensures (Abs(), ok) == RemoveFile(old(Abs()), name, fault)
    {
      ok := fault.Fine?;
      if ok {
        files := files - {name};
      }
    }

    method RollbackInstalledPluginState(name: string, snapshot: Snapshot, file: FileFault, list: ConfigFault)
      returns (outcome: Outcome)
      modifies this
      ensures (Abs(), outcome) == Rollback(old(Abs()), name, snapshot, file, list)
    {
      var restored;
      if snapshot.metadata.Some? {
        restored := WriteMetadata(name, snapshot.metadata.value, file);
      } else {
        restored := RemoveMetadata(name, file);
      }
      var listed := true;
      if mem.installed != snapshot.installed {
        listed := WriteConfigField(snapshot.installed, list);
        listed := listed || mem.installed == snapshot.installed;
      }
      outcome := if restored && listed then Restored else Torn;
    }

    method PersistInstalledPluginState(name: string, body: string, f: PersistFaults) returns (outcome: Outcome)
      modifies this
      ensures (Abs(), outcome) == Persist(old(Abs()), name, body, f)
    {
      if !ValidShortname(name) || !f.read {
        return Unchanged;
      }
      var snapshot := Snap(Abs(), name);
      var ok := false;
      if f.directory {
        ok := WriteMetadata(name, body, f.write);
      }
      if ok {
        ok := RecordInstalledPlugin(name, f.record);
      }
      if ok {
        return Success;
      }
      outcome := RollbackInstalledPluginState(name, snapshot, f.undoFile, f.undoList);
    }

    method UninstallPlugin(name: string, f: UninstallFaults) returns (outcome: Outcome)
      modifies this
      ensures (Abs(), outcome) == Uninstall(old(Abs()), name, f)
    {
      if !ValidShortname(name) || !f.read {
        return Unchanged;
      }
      if name !in mem.installed && BinsOf(Abs(), name) == {} && name !in files {
        return Unchanged;
      }
      var snapshot := Snap(Abs(), name);
      var ok := RemoveMetadata(name, f.remove);
      if !ok {
        return Unchanged;
      }
      ok := RemoveInstalledPlugin(name, f.forget);
      if ok {
        if f.removeAll {
          bins := bins - BinsOf(Abs(), name);
          return Success;
        }
        bins := bins - (BinsOf(Abs(), name) - f.left);
      }
      outcome := RollbackInstalledPluginState(name, snapshot, f.undoFile, f.undoList);
    }

    method InstallPlugin(name: string, version: string, body: string, binary: string, f: InstallFaults)
      returns (outcome: Outcome)
      modifies this
      ensures (Abs(), outcome) == Install(old(Abs()), name, version, body, binary, f)
    {
      if !ValidShortname(name) || f.save.Untouched? {
        return Unchanged;
      }
      if f.save.Partial? {
        bins := bins[(name, version) := f.save.content];
        return Unchanged;
      }
      bins := bins[(name, version) := binary];
      outcome := PersistInstalledPluginState(name, body, f.persist);
      if outcome.Success? {
        bins := bins - (BinsOf(Abs(), name) - {(name, version)} - f.stuck);
      } else if f.removed {
        bins := bins - {(name, version)};
      }
    }
  }

  // ---------------------------------------------------------------------------
  // One operation is all or nothing
  // ---------------------------------------------------------------------------

  /** The pair that the two stores are meant to keep in step. */
  datatype Pair = Pair(files: map<string, string>, installed: seq<string>)

  function PairOf(s: State): Pair {
    Pair(s.files, s.mem.installed)
  }

  function Recorded(p: Pair, name: string, body: string): Pair {
    Pair(p.files[name := body], if name in p.installed then p.installed else p.installed + [name])
  }

  function Forgotten(p: Pair, name: string): Pair {
    Pair(p.files - {name}, Removed(p.installed, name))
  }

  /** From any state that differs from the snapshot in this plugin's file only, a rollback that
      reports no error has restored exactly the snapshot. */
  lemma RollbackRestores(s: State, t: State, name: string, file: FileFault, list: ConfigFault)
    requires t.files - {name} == s.files - {name}
    ensures var (u, outcome) := Rollback(t, name, Snap(s, name), file, list);
      outcome == Restored ==> PairOf(u) == PairOf(s)
  {
    var (u, outcome) := Rollback(t, name, Snap(s, name), file, list);
    if outcome == Restored {
      assert u.files - {name} == s.files - {name};
      assert name in u.files <==> name in s.files;
      assert name in s.files ==> u.files[name] == s.files[name];
      SameFiles(u.files, s.files, name);
    }
  }

  lemma SameFiles(a: map<string, string>, b: map<string, string>, name: string)
    requires a - {name} == b - {name} && (name in a <==> name in b) && (name in a ==> a[name] == b[name])
    ensures a == b
  {
    forall k ensures (k in a <==> k in b) && (k in a ==> a[k] == b[k]) {
      assert k in a - {name} <==> k in a && k != name;
      assert k in b - {name} <==> k in b && k != name;
      if k in a && k != name {
        assert (a - {name})[k] == (b - {name})[k];
      }
    }
  }

  /** Both undoings of a failed recording end in the old pair, if rollback reports no error. */
  lemma PersistRestores(s: State, name: string, body: string, f: PersistFaults)
    ensures var (t, outcome) := Persist(s, name, body, f);
      outcome == Restored ==> PairOf(t) == PairOf(s)
  {
    if ValidShortname(name) && f.read {
      var (t, written) := if f.directory then WriteFile(s, name, body, f.write) else (s, false);
      assert t.files - {name} == s.files - {name};
      if !written {
        RollbackRestores(s, t, name, f.undoFile, f.undoList);
      } else {
        RollbackRestores(s, Record(t, name, f.record).0, name, f.undoFile, f.undoList);
      }
    }
  }

  lemma PersistSucceeds(s: State, name: string, body: string, f: PersistFaults)
    requires Persist(s, name, body, f).1 == Success
    ensures var (t, _) := Persist(s, name, body, f);
      PairOf(t) == Recorded(PairOf(s), name, body) && t.mem.rest == s.mem.rest
  {
    var (t, _) := WriteFile(s, name, body, f.write);
    assert Persist(s, name, body, f).0 == Record(t, name, f.record).0;
  }

  lemma RollbackKeepsBinaries(s: State, name: string, snapshot: Snapshot, file: FileFault, list: ConfigFault)
    ensures Rollback(s, name, snapshot, file, list).0.bins == s.bins
  {
  }

  lemma RecordKeepsBinaries(s: State, name: string, fault: ConfigFault)
    ensures Record(s, name, fault).0.bins == s.bins
  {
  }

  lemma PersistKeepsBinaries(s: State, name: string, body: string, f: PersistFaults)
    ensures Persist(s, name, body, f).0.bins == s.bins
  {
    if ValidShortname(name) && f.read {
      var (t, written) := if f.directory then WriteFile(s, name, body, f.write) else (s, false);
      assert t.bins == s.bins;
      var (u, _) := Record(t, name, f.record);
      RecordKeepsBinaries(t, name, f.record);
      RollbackKeepsBinaries(t, name, Snap(s, name), f.undoFile, f.undoList);
      RollbackKeepsBinaries(u, name, Snap(s, name), f.undoFile, f.undoList);
    }
  }

  /** Recording reaches the new pair or, unless rollback fails too, leaves exactly the old one. */
  lemma PersistAtomic(s: State, name: string, body: string, f: PersistFaults)
    ensures var (t, outcome) := Persist(s, name, body, f);
      && (outcome == Success ==> PairOf(t) == Recorded(PairOf(s), name, body) && t.mem.rest == s.mem.rest)
      && (outcome == Restored ==> PairOf(t) == PairOf(s))
      && (outcome == Unchanged ==> t == s)
      && t.bins == s.bins
  {
    PersistRestores(s, name, body, f);
    PersistKeepsBinaries(s, name, body, f);
    if Persist(s, name, body, f).1 == Success {
      PersistSucceeds(s, name, body, f);
    }
  }

  /** Removing reaches the new pair or, unless rollback fails too, leaves exactly the old one. */
  lemma UninstallAtomic(s: State, name: string, f: UninstallFaults)
    ensures var (t, outcome) := Uninstall(s, name, f);
      && (outcome == Success ==> PairOf(t) == Forgotten(PairOf(s), name) && BinsOf(t, name) == {})
      && (outcome == Restored ==> PairOf(t) == PairOf(s))
      && (outcome == Unchanged ==> t == s)
  {
    var (t, removed) := RemoveFile(s, name, f.remove);
    RemovedFacts(s.mem.installed, name);
    if removed {
      assert t.files - {name} == s.files - {name};
      var (u, forgotten) := Forget(t, name, f.forget);
      assert u.files == t.files;
      RollbackRestores(s, u, name, f.undoFile, f.undoList);
      RollbackRestores(s, u.(bins := u.bins - (BinsOf(u, name) - f.left)), name, f.undoFile, f.undoList);
    }
  }

  /** A rollback reports a failure if and only if the metadata cannot be put back, or the list has to be
      and reading the config file back then empties a list that was not empty. */
  lemma RollbackFailsIff(t: State, name: string, snapshot: Snapshot, file: FileFault, list: ConfigFault)
    ensures Rollback(t, name, snapshot, file, list).1 == Torn <==>
      || !file.Fine?
      || (t.mem.installed != snapshot.installed && list.Unread? && snapshot.installed != [])
    ensures Rollback(t, name, snapshot, file, list).1 in {Restored, Torn}
  {
  }

  // ---------------------------------------------------------------------------
  // Which names are refused
  // ---------------------------------------------------------------------------

  /** A name that could lead out of a directory. */
  predicate Escapes(name: string) {
    name in {"", ".", ".."} || exists i :: 0 <= i < |name| && (name[i] == '/' || name[i] == '\\')
  }

  const NO_FAULTS := PersistFaults(true, true, Fine, Saved, Fine, Saved)

  /** Nothing is installed, recorded or uninstalled under such a name, whatever else happens; under any other
      name a recording and an installation in which nothing fails succeed. */
  lemma RefusedIff(s: State, name: string, version: string, body: string, binary: string,
                   pf: PersistFaults, insf: InstallFaults, uf: UninstallFaults)
    ensures Escapes(name) ==>
      Persist(s, name, body, pf) == Install(s, name, version, body, binary, insf) == Uninstall(s, name, uf)
      == (s, Unchanged)
    ensures Persist(s, name, body, NO_FAULTS).1 == Success <==> !Escapes(name)
    ensures Install(s, name, version, body, binary, InstallFaults(Fine, NO_FAULTS, true, {})).1 == Success
       <==> !Escapes(name)
  {
    assert ValidShortname(name) <==> !Escapes(name);
  }

  // ---------------------------------------------------------------------------
  // The binaries after an operation
  // ---------------------------------------------------------------------------

  /** A binary that is there with this content, or None. */
  function Binary(s: State, name: string, version: string): Option<string> {
    if (name, version) in s.bins then Some(s.bins[(name, version)]) else None
  }

  /** A successful installation leaves the new binary in place and every binary of other plugins as it
      was; another version of the plugin stays if and only if the sweep cannot remove it. */
  lemma InstalledBinaries(s: State, name: string, version: string, body: string, binary: string, f: InstallFaults,
                          name': string, version': string)
    requires Install(s, name, version, body, binary, f).1 == Success
    ensures Binary(Install(s, name, version, body, binary, f).0, name', version') ==
      if name' != name then Binary(s, name', version')
      else if version' == version then Some(binary)
      else if (name, version') in f.stuck then Binary(s, name, version')
      else None
  {
    PersistKeepsBinaries(s.(bins := s.bins[(name, version) := binary]), name, body, f.persist);
  }

  /** A failed one leaves every other binary as it was. */
  lemma FailedInstallFrame(s: State, name: string, version: string, body: string, binary: string, f: InstallFaults,
                           name': string, version': string)
    requires Install(s, name, version, body, binary, f).1 != Success && (name', version') != (name, version)
    ensures Binary(Install(s, name, version, body, binary, f).0, name', version') == Binary(s, name', version')
  {
    PersistKeepsBinaries(s.(bins := s.bins[(name, version) := binary]), name, body, f.persist);
  }

  lemma ForgetKeepsBinaries(s: State, name: string, fault: ConfigFault)
    ensures Forget(s, name, fault).0.bins == s.bins
  {
  }

  /** Uninstalling removes the binaries of the plugin and no others: all of them when it succeeds, those
      that the failing removal does not leave when that is what fails, and none when it fails before. */
  lemma UninstalledBinaries(s: State, name: string, f: UninstallFaults, name': string, version': string)
    ensures var (t, outcome) := Uninstall(s, name, f);
      Binary(t, name', version') ==
        if name' != name then Binary(s, name', version')
        else if outcome == Success then None
        else if outcome != Unchanged && !f.removeAll && (name !in s.mem.installed || f.forget.Saved?)
        then (if (name, version') in f.left then Binary(s, name, version') else None)
        else Binary(s, name, version')
  {
    var (t, _) := RemoveFile(s, name, f.remove);
    var (u, _) := Forget(t, name, f.forget);
    ForgetKeepsBinaries(t, name, f.forget);
    RollbackKeepsBinaries(u, name, Snap(s, name), f.undoFile, f.undoList);
    RollbackKeepsBinaries(u.(bins := u.bins - (BinsOf(u, name) - f.left)), name, Snap(s, name), f.undoFile, f.undoList);
  }

  // ---------------------------------------------------------------------------
  // Whole runs
  // ---------------------------------------------------------------------------

  datatype Op =
    | Persisting(name: string, body: string, pf: PersistFaults)
    | Uninstalling(name: string, uf: UninstallFaults)
    | Installing(name: string, version: string, body: string, binary: string, insf: InstallFaults)

  function Do(s: State, op: Op): (State, Outcome) {
    match op
    case Persisting(name, body, f) => Persist(s, name, body, f)
    case Uninstalling(name, f) => Uninstall(s, name, f)
    case Installing(name, version, body, binary, f) => Install(s, name, version, body, binary, f)
  }

  /** The operation as it would act on a single atomic store. */
  function Ideal(p: Pair, op: Op): Pair {
    match op
    case Persisting(name, body, _) => Recorded(p, name, body)
    case Uninstalling(name, _) => Forgotten(p, name)
    case Installing(name, _, body, _, _) => Recorded(p, name, body)
  }

  lemma DoAtomic(s: State, op: Op)
    ensures var (t, outcome) := Do(s, op);
      && (outcome == Success ==> PairOf(t) == Ideal(PairOf(s), op))
      && (outcome == Restored || outcome == Unchanged ==> PairOf(t) == PairOf(s))
  {
    match op
    case Persisting(name, body, f) => PersistAtomic(s, name, body, f);
    case Uninstalling(name, f) => UninstallAtomic(s, name, f);
    case Installing(name, version, body, binary, f) =>
      PersistAtomic(s.(bins := s.bins[(name, version) := binary]), name, body, f.persist);
  }

  function Run(s: State, ops: seq<Op>): State
    decreases |ops|
  {
    if ops == [] then s else Run(Do(s, ops[0]).0, ops[1..])
  }

  /** No operation of the run ends with a failed rollback. */
  ghost predicate NeverTorn(s: State, ops: seq<Op>)
    decreases |ops|
  {
    ops == [] || (Do(s, ops[0]).1 != Torn && NeverTorn(Do(s, ops[0]).0, ops[1..]))
  }

  /** The same run on the single atomic store: the failed operations have no effect. */
  function IdealRun(s: State, p: Pair, ops: seq<Op>): Pair
    decreases |ops|
  {
    if ops == [] then p else
    var (t, outcome) := Do(s, ops[0]);
    IdealRun(t, if outcome == Success then Ideal(p, ops[0]) else p, ops[1..])
  }

  /** Whatever fails, what one process holds in memory behaves as one atomic store. */
  lemma {:induction false} RunRefines(s: State, ops: seq<Op>)
    requires NeverTorn(s, ops)
    ensures PairOf(Run(s, ops)) == IdealRun(s, PairOf(s), ops)
    decreases |ops|
  {
    if ops != [] {
      DoAtomic(s, ops[0]);
      RunRefines(Do(s, ops[0]).0, ops[1..]);
    }
  }

  ghost predicate Consistent(p: Pair) {
    && (forall i :: 0 <= i < |p.installed| ==> p.installed[i] in p.files)
    && Distinct(p.installed)
  }

  lemma IdealConsistent(p: Pair, op: Op)
    requires Consistent(p)
    ensures Consistent(Ideal(p, op))
  {
    if op.Uninstalling? {
      RemovedFacts(p.installed, op.name);
      var q := Ideal(p, op);
      assert forall i :: 0 <= i < |q.installed| ==> q.installed[i] in q.installed;
    }
  }

  /** Over any run of one process, every plugin recorded in its memory has metadata and none is
      recorded twice. */
  lemma {:induction false} RunConsistent(s: State, ops: seq<Op>)
    requires Consistent(PairOf(s)) && NeverTorn(s, ops)
    ensures Consistent(PairOf(Run(s, ops)))
    decreases |ops|
  {
    if ops != [] {
      DoAtomic(s, ops[0]);
      IdealConsistent(PairOf(s), ops[0]);
      RunConsistent(Do(s, ops[0]).0, ops[1..]);
    }
  }

  // ---------------------------------------------------------------------------
  // What rollback does not restore (PluginRestarts has what later processes find)
  // ---------------------------------------------------------------------------

  /** A reload that fails after the write empties memory; undoing then writes that emptiness out,
      and every setting other than the plugin list is gone although rollback reports no error. */
  lemma FailedReloadLosesSettings(s: State, name: string, body: string, f: PersistFaults)
    requires ValidShortname(name) && f.read && f.directory && f.write.Fine? && f.undoFile.Fine?
    requires name !in s.mem.installed && s.mem.installed != []
    requires f.record.Unread? && f.undoList.Saved?
    ensures Persist(s, name, body, f).1 == Restored
    ensures Persist(s, name, body, f).0.disk == Readable(Settings(s.mem.installed, map[]))
  {
  }

  /** A failed installation keeps the binaries if and only if it wrote nothing over them: none was
      written, or what was written is what was there, or it was written where nothing was and could be
      removed. A write that breaks off over an installed binary is not undone. */
  lemma FailedInstallKeepsBinariesIff(s: State, name: string, version: string, body: string, binary: string,
                                      f: InstallFaults)
    requires Install(s, name, version, body, binary, f).1 != Success
    ensures Install(s, name, version, body, binary, f).0.bins == s.bins <==>
      var here := if (name, version) in s.bins then Some(s.bins[(name, version)]) else None;
      || !ValidShortname(name)
      || match f.save
         case Untouched => true
         case Partial(content) => here == Some(content)
         case Fine => if f.removed then here == None else here == Some(binary)
  {
    var key := (name, version);
    var bins := Install(s, name, version, body, binary, f).0.bins;
    if ValidShortname(name) && f.save.Fine? {
      PersistKeepsBinaries(s.(bins := s.bins[key := binary]), name, body, f.persist);
      assert bins == if f.removed then s.bins[key := binary] - {key} else s.bins[key := binary];
      assert key in s.bins[key := binary];
      assert key !in s.bins ==> s.bins[key := binary] - {key} == s.bins;
    } else if ValidShortname(name) && f.save.Partial? {
      assert bins[key] == f.save.content;
    }
  }
}
