/** Installed-plugin state across processes.

Every `stripe plugin` command is a process of its own: it starts from the config file and leaves a
config file behind (pkg/cmd/plugin/install.go, upgrade.go, uninstall.go). A rollback compares and
restores what viper holds in memory, so it can report success although the file is not the old one.
*/
module PluginRestarts {
  import opened Text
  import opened PluginState

  /** A file that cannot be read leaves viper empty (pkg/config/config.go:151-157). */
  function Found(d: Disk): Settings {
    if d.Readable? then d.settings else NO_SETTINGS
  }

  /** A new process reads the config file. */
  function Restart(s: State): State {
    s.(mem := Found(s.disk))
  }

  /** The two stores as the next process finds them. */
  function AtRest(s: State): Pair {
    Pair(s.files, Found(s.disk).installed)
  }

  // ---------------------------------------------------------------------------
  // What a failed operation leaves, fault by fault
  // ---------------------------------------------------------------------------

  function ContentOf(files: map<string, string>, name: string): Option<string> {
    if name in files then Some(files[name]) else None
  }

  function WithContent(files: map<string, string>, name: string, content: Option<string>): map<string, string> {
    if content.Some? then files[name := content.value] else files - {name}
  }

  /** The metadata after undoing: it was `old`, and is `now` when the rollback begins. */
  function ContentLeft(old_: Option<string>, now: Option<string>, undo: FileFault): Option<string> {
    match undo
    case Fine => old_
    case Untouched => now
    case Partial(content) => if old_.Some? then Some(content) else now
  }

  function DiskAfter(m: Settings, d: Disk, next: seq<string>, fault: ConfigFault): Disk {
    match fault
    case Refused => d
    case Broken(after) => after
    case _ => Readable(m.(installed := next))
  }

  /** The config file after the list was written as `next` and then undone. Nothing is undone when
      memory, emptied by a failed reload, already holds the old list. */
  function DiskLeft(m: Settings, d: Disk, next: seq<string>, record: ConfigFault, undo: ConfigFault): Disk {
    var written := DiskAfter(m, d, next, record);
    if record.Unread? && m.installed == [] then written
    else DiskAfter(if record.Unread? then m.(rest := map[]) else m, written, m.installed, undo)
  }

  /** How an operation comes to its rollback: the plugin's metadata at that moment, the list that was
      written (the old one if none was), and the faults. */
  datatype Failure = Failure(
    now: Option<string>, undoFile: FileFault, next: seq<string>, record: ConfigFault, undoList: ConfigFault)

  function PersistFailure(s: State, name: string, body: string, f: PersistFaults): Option<Failure> {
    if !ValidShortname(name) || !f.read then None
    else if !f.directory || !f.write.Fine? then
      var now := if f.directory && f.write.Partial? then Some(f.write.content) else ContentOf(s.files, name);
      Some(Failure(now, f.undoFile, s.mem.installed, f.record, f.undoList))
    else if name in s.mem.installed || f.record.Saved? then None
    else Some(Failure(Some(body), f.undoFile, s.mem.installed + [name], f.record, f.undoList))
  }

  function UninstallFailure(s: State, name: string, f: UninstallFaults): Option<Failure> {
    if !ValidShortname(name) || !f.read || !f.remove.Fine? then None
    else if name !in s.mem.installed && BinsOf(s, name) == {} && name !in s.files then None
    else if f.removeAll && (name !in s.mem.installed || f.forget.Saved?) then None
    else Some(Failure(None, f.undoFile, Removed(s.mem.installed, name), f.forget, f.undoList))
  }

  /** None when the operation does not reach a rollback. */
  function FailureOf(s: State, op: Op): Option<Failure> {
    match op
    case Persisting(name, body, f) => PersistFailure(s, name, body, f)
    case Uninstalling(name, f) => UninstallFailure(s, name, f)
    case Installing(name, _, body, _, f) => if f.save.Fine? then PersistFailure(s, name, body, f.persist) else None
  }

  function FilesLeft(s: State, name: string, fl: Failure): map<string, string> {
    WithContent(s.files, name, ContentLeft(ContentOf(s.files, name), fl.now, fl.undoFile))
  }

  function ConfigLeft(s: State, fl: Failure): Disk {
    if fl.next == s.mem.installed then s.disk
    else DiskLeft(s.mem, s.disk, fl.next, fl.record, fl.undoList)
  }

  lemma MetadataLeft(s: State, t: State, name: string, undo: FileFault)
    requires t.files == WithContent(s.files, name, ContentOf(t.files, name))
    ensures var u := RestoreMetadata(t, name, Snap(s, name), undo).0;
      && u.files == WithContent(s.files, name, ContentLeft(ContentOf(s.files, name), ContentOf(t.files, name), undo))
      && u.mem == t.mem && u.disk == t.disk
  {
    if name in s.files {
      assert s.files[name := s.files[name]] == s.files;
    }
  }

  lemma RollbackLeaves(s: State, t: State, name: string, undoFile: FileFault, undoList: ConfigFault)
    requires t.files == WithContent(s.files, name, ContentOf(t.files, name))
    ensures var u := Rollback(t, name, Snap(s, name), undoFile, undoList).0;
      && u.files ==
         WithContent(s.files, name, ContentLeft(ContentOf(s.files, name), ContentOf(t.files, name), undoFile))
      && u.disk == RestoreList(t, s.mem.installed, undoList).0.disk
  {
    MetadataLeft(s, t, name, undoFile);
    RestoreListAgain(RestoreMetadata(t, name, Snap(s, name), undoFile).0, t, s.mem.installed, undoList);
  }

  lemma ListUndone(s: State, next: seq<string>, record: ConfigFault, undo: ConfigFault)
    requires next != s.mem.installed
    ensures RestoreList(WriteField(s, next, record).0, s.mem.installed, undo).0.disk
         == DiskLeft(s.mem, s.disk, next, record, undo)
  {
  }

  lemma RestoreListAgain(t: State, u: State, installed: seq<string>, undo: ConfigFault)
    requires t.mem == u.mem && t.disk == u.disk
    ensures RestoreList(t, installed, undo).0.disk == RestoreList(u, installed, undo).0.disk
    ensures RestoreList(t, installed, undo).0.files == t.files
  {
  }

  lemma PersistLeaves(s: State, name: string, body: string, f: PersistFaults)
    ensures var (t, outcome) := Persist(s, name, body, f);
      match PersistFailure(s, name, body, f)
      case None => outcome == Success || (outcome == Unchanged && t == s)
      case Some(fl) =>
        && (outcome == Restored || outcome == Torn)
        && t.files == FilesLeft(s, name, fl) && t.disk == ConfigLeft(s, fl)
  {
    if PersistFailure(s, name, body, f).Some? {
      var (t, written) := if f.directory then WriteFile(s, name, body, f.write) else (s, false);
      assert t.files == WithContent(s.files, name, ContentOf(t.files, name));
      if !written {
        RollbackLeaves(s, t, name, f.undoFile, f.undoList);
      } else {
        var next := s.mem.installed + [name];
        var u := WriteField(t, next, f.record).0;
        RollbackLeaves(s, u, name, f.undoFile, f.undoList);
        assert next != s.mem.installed;
        ListUndone(t, next, f.record, f.undoList);
      }
    }
  }

  lemma UninstallLeaves(s: State, name: string, f: UninstallFaults)
    ensures var (t, outcome) := Uninstall(s, name, f);
      match UninstallFailure(s, name, f)
      case None => outcome == Success || (outcome == Unchanged && t == s)
      case Some(fl) =>
        && (outcome == Restored || outcome == Torn)
        && t.files == FilesLeft(s, name, fl) && t.disk == ConfigLeft(s, fl)
  {
    RemovedFacts(s.mem.installed, name);
    if UninstallFailure(s, name, f).Some? {
      var t := s.(files := s.files - {name});
      var next := Removed(s.mem.installed, name);
      var (u, forgotten) := Forget(t, name, f.forget);
      var v := if forgotten then u.(bins := u.bins - (BinsOf(u, name) - f.left)) else u;
      assert v.files == WithContent(s.files, name, None);
      RollbackLeaves(s, v, name, f.undoFile, f.undoList);
      RestoreListAgain(v, u, s.mem.installed, f.undoList);
      if name in s.mem.installed {
        assert next != s.mem.installed;
        ListUndone(t, next, f.forget, f.undoList);
      }
    }
  }

  /** The two stores after any operation, in closed form. */
  lemma DoLeaves(s: State, op: Op)
    requires s == Restart(s)
    ensures var (t, outcome) := Do(s, op);
      match FailureOf(s, op)
      case None =>
        && (outcome == Success || (outcome == Unchanged && t.disk == s.disk))
        && AtRest(t) == if outcome == Success then Ideal(AtRest(s), op) else AtRest(s)
      case Some(fl) =>
        && (outcome == Restored || outcome == Torn)
        && t.files == FilesLeft(s, op.name, fl) && t.disk == ConfigLeft(s, fl)
  {
    match op
    case Persisting(name, body, f) =>
      PersistLeaves(s, name, body, f);
      PersistReaches(s, name, body, f);
    case Uninstalling(name, f) =>
      UninstallLeaves(s, name, f);
      UninstallReaches(s, name, f);
    case Installing(name, version, body, binary, f) =>
      var t := s.(bins := s.bins[(name, version) := binary]);
      PersistLeaves(t, name, body, f.persist);
      PersistReaches(t, name, body, f.persist);
  }

  lemma PersistReaches(s: State, name: string, body: string, f: PersistFaults)
    requires s.mem == Found(s.disk)
    ensures Persist(s, name, body, f).1 == Success ==>
      AtRest(Persist(s, name, body, f).0) == Recorded(AtRest(s), name, body)
  {
  }

  lemma UninstallReaches(s: State, name: string, f: UninstallFaults)
    requires s.mem == Found(s.disk)
    ensures Uninstall(s, name, f).1 == Success ==>
      AtRest(Uninstall(s, name, f).0) == Forgotten(AtRest(s), name)
  {
    RemovedFacts(s.mem.installed, name);
  }

  // ---------------------------------------------------------------------------
  // When a failed operation leaves the config file as it was
  // ---------------------------------------------------------------------------

  /** The faults of a list write and of its undoing after which the config file is the old one. */
  predicate DiskBack(m: Settings, d: Disk, record: ConfigFault, undo: ConfigFault) {
    if record.Unread? && m.installed == [] then false else
    match undo
    case Broken(after) => after == d
    case Refused => record.Refused? || (record.Broken? && record.after == d)
    case _ => d.Readable? && (record.Unread? ==> m.rest == map[])
  }

  predicate DiskSurvives(s: State, op: Op) {
    var failure := FailureOf(s, op);
    failure.Some? && failure.value.next != s.mem.installed
    ==> DiskBack(s.mem, s.disk, failure.value.record, failure.value.undoList)
  }

  lemma DiskBackIff(m: Settings, d: Disk, next: seq<string>, record: ConfigFault, undo: ConfigFault)
    requires m == Found(d) && next != m.installed
    ensures DiskLeft(m, d, next, record, undo) == d <==> DiskBack(m, d, record, undo)
  {
  }

  /** Of every operation, rolled back with or without a reported error: the config file is the old
      one if and only if the faults are of the listed kinds. */
  lemma FailedDiskIff(s: State, op: Op)
    requires s == Restart(s) && Do(s, op).1 != Success
    ensures Do(s, op).0.disk == s.disk <==> DiskSurvives(s, op)
  {
    DoLeaves(s, op);
    var failure := FailureOf(s, op);
    if failure.Some? && failure.value.next != s.mem.installed {
      DiskBackIff(s.mem, s.disk, failure.value.next, failure.value.record, failure.value.undoList);
    }
  }

  /** Recording, after a rollback that reports no error. */
  lemma RestoredDiskIff(s: State, name: string, body: string, f: PersistFaults)
    requires s == Restart(s) && Persist(s, name, body, f).1 == Restored
    ensures Persist(s, name, body, f).0.disk == s.disk <==>
      !f.directory || !f.write.Fine? || DiskBack(s.mem, s.disk, f.record, f.undoList)
  {
    FailedDiskIff(s, Persisting(name, body, f));
    DoLeaves(s, Persisting(name, body, f));
  }

  /** Uninstalling: `forget` fails and is undone, or the binaries cannot be removed and the list,
      already written without the plugin, is undone. */
  lemma RestoredUninstallDiskIff(s: State, name: string, f: UninstallFaults)
    requires s == Restart(s) && Uninstall(s, name, f).1 == Restored
    ensures Uninstall(s, name, f).0.disk == s.disk <==>
      name !in s.mem.installed || DiskBack(s.mem, s.disk, f.forget, f.undoList)
  {
    RemovedFacts(s.mem.installed, name);
    FailedDiskIff(s, Uninstalling(name, f));
    DoLeaves(s, Uninstalling(name, f));
  }

  // ---------------------------------------------------------------------------
  // When a failed operation leaves both stores as the next process should find them
  // ---------------------------------------------------------------------------

  predicate ContentBack(old_: Option<string>, now: Option<string>, undo: FileFault) {
    match undo
    case Fine => true
    case Untouched => now == old_
    case Partial(content) => if old_.Some? then content == old_.value else now == None
  }

  /** As `DiskBack`, for the plugin list alone. */
  predicate ListBack(m: Settings, record: ConfigFault, undo: ConfigFault) {
    if record.Unread? && m.installed == [] then false else
    match undo
    case Broken(after) => Found(after).installed == m.installed
    case Refused => record.Refused? || (record.Broken? && Found(record.after).installed == m.installed)
    case _ => true
  }

  predicate Survives(s: State, op: Op) {
    match FailureOf(s, op)
    case None => true
    case Some(fl) =>
      && ContentBack(ContentOf(s.files, op.name), fl.now, fl.undoFile)
      && (fl.next == s.mem.installed || ListBack(s.mem, fl.record, fl.undoList))
  }

  lemma ListBackIff(m: Settings, d: Disk, next: seq<string>, record: ConfigFault, undo: ConfigFault)
    requires m == Found(d) && next != m.installed
    ensures Found(DiskLeft(m, d, next, record, undo)).installed == m.installed <==> ListBack(m, record, undo)
  {
  }

  lemma WithContentIff(files: map<string, string>, name: string, content: Option<string>)
    ensures WithContent(files, name, content) == files <==> content == ContentOf(files, name)
  {
    var other := WithContent(files, name, content);
    if content == ContentOf(files, name) {
      assert other == files;
    } else {
      assert ContentOf(other, name) == content;
    }
  }

  /** One operation in a process of its own: what the next process finds is what one atomic store
      would hold, if and only if the faults allow it. */
  lemma SurvivesIff(s: State, op: Op)
    requires s == Restart(s)
    ensures var (t, outcome) := Do(s, op);
      AtRest(t) == (if outcome == Success then Ideal(AtRest(s), op) else AtRest(s)) <==> Survives(s, op)
  {
    DoLeaves(s, op);
    var failure := FailureOf(s, op);
    if failure.Some? {
      var fl := failure.value;
      WithContentIff(s.files, op.name, ContentLeft(ContentOf(s.files, op.name), fl.now, fl.undoFile));
      if fl.next != s.mem.installed {
        ListBackIff(s.mem, s.disk, fl.next, fl.record, fl.undoList);
      }
    }
  }

  // ---------------------------------------------------------------------------
  // When every recorded plugin still has metadata
  // ---------------------------------------------------------------------------

  /** A list of distinct names that all have metadata, where `name` has some if `present`. */
  ghost predicate Covered(list: seq<string>, files: map<string, string>, name: string, present: bool) {
    Distinct(list) && forall i :: 0 <= i < |list| ==> if list[i] == name then present else list[i] in files
  }

  predicate Present(old_: Option<string>, now: Option<string>, undo: FileFault) {
    match undo
    case Fine => old_.Some?
    case Untouched => now.Some?
    case Partial(_) => old_.Some? || now.Some?
  }

  /** Which list a new process will see decides what must be covered. Only a write that breaks off
      can leave any other list than the old and the new one. */
  ghost predicate CoverLeft(s: State, name: string, fl: Failure, present: bool) {
    var withOld, withNew := name in s.mem.installed ==> present, name in fl.next ==> present;
    if fl.next == s.mem.installed then withOld
    else if fl.record.Unread? && s.mem.installed == [] then withNew
    else match fl.undoList
      case Broken(after) => Covered(Found(after).installed, s.files, name, present)
      case Refused =>
        if fl.record.Refused? then withOld
        else if fl.record.Broken? then Covered(Found(fl.record.after).installed, s.files, name, present)
        else withNew
      case _ => withOld
  }

  ghost predicate KeepsCover(s: State, op: Op) {
    match FailureOf(s, op)
    case None => true
    case Some(fl) => CoverLeft(s, op.name, fl, Present(ContentOf(s.files, op.name), fl.now, fl.undoFile))
  }

  lemma CoveredIff(p: Pair, name: string, content: Option<string>, list: seq<string>)
    ensures Consistent(Pair(WithContent(p.files, name, content), list)) <==> Covered(list, p.files, name, content.Some?)
  {
  }

  lemma CoveredNear(p: Pair, name: string, list: seq<string>, present: bool)
    requires Consistent(p) && Near(list, name, p.installed)
    ensures Covered(list, p.files, name, present) <==> (name in list ==> present)
  {
  }

  /** Distinct names, all of them recorded except perhaps the one. */
  ghost predicate Near(next: seq<string>, name: string, installed: seq<string>) {
    Distinct(next) && forall i :: 0 <= i < |next| ==> next[i] == name || next[i] in installed
  }

  lemma NextNear(s: State, op: Op)
    requires Distinct(s.mem.installed) && FailureOf(s, op).Some?
    ensures Near(FailureOf(s, op).value.next, op.name, s.mem.installed)
  {
    RemovedFacts(s.mem.installed, op.name);
    var next := FailureOf(s, op).value.next;
    assert forall i :: 0 <= i < |next| ==> next[i] in next;
  }

  /** The list that a new process sees after a failure is covered if and only if the faults allow it. */
  lemma FailedCoverIff(s: State, name: string, fl: Failure, present: bool)
    requires s == Restart(s) && Consistent(AtRest(s)) && Near(fl.next, name, s.mem.installed)
    ensures Covered(Found(ConfigLeft(s, fl)).installed, s.files, name, present) <==> CoverLeft(s, name, fl, present)
  {
    assert Near(s.mem.installed, name, s.mem.installed);
    CoveredNear(AtRest(s), name, s.mem.installed, present);
    CoveredNear(AtRest(s), name, fl.next, present);
  }

  /** One operation in a process of its own keeps every recorded plugin's metadata, as the next
      process finds them, if and only if the faults allow it. */
  lemma KeepsCoverIff(s: State, op: Op)
    requires s == Restart(s) && Consistent(AtRest(s))
    ensures Consistent(AtRest(Do(s, op).0)) <==> KeepsCover(s, op)
  {
    DoLeaves(s, op);
    match FailureOf(s, op)
    case None => IdealConsistent(AtRest(s), op);
    case Some(fl) =>
      var content := ContentLeft(ContentOf(s.files, op.name), fl.now, fl.undoFile);
      CoveredIff(AtRest(s), op.name, content, Found(ConfigLeft(s, fl)).installed);
      assert AtRest(Do(s, op).0) == Pair(WithContent(s.files, op.name, content), Found(ConfigLeft(s, fl)).installed);
      NextNear(s, op);
      FailedCoverIff(s, op.name, fl, content.Some?);
  }

  // ---------------------------------------------------------------------------
  // Runs of processes
  // ---------------------------------------------------------------------------

  /** One command: a process starts, performs an operation and ends. */
  function Command(s: State, op: Op): (State, Outcome) {
    Do(Restart(s), op)
  }

  /** At every point of the run, a new process would find what one atomic store holds, in which
      failed operations have no effect. */
  ghost predicate LikeOneStore(s: State, p: Pair, ops: seq<Op>)
    decreases |ops|
  {
    AtRest(s) == p &&
    (ops == [] ||
     (var (t, outcome) := Command(s, ops[0]);
      LikeOneStore(t, if outcome == Success then Ideal(p, ops[0]) else p, ops[1..])))
  }

  predicate AllSurvive(s: State, ops: seq<Op>)
    decreases |ops|
  {
    ops == [] || (Survives(Restart(s), ops[0]) && AllSurvive(Command(s, ops[0]).0, ops[1..]))
  }

  /** A run of processes refines one atomic store, at every point, if and only if each operation's
      faults are of the surviving kinds. */
  lemma {:induction false} ProcessesRefineIff(s: State, ops: seq<Op>)
    ensures LikeOneStore(s, AtRest(s), ops) <==> AllSurvive(s, ops)
    decreases |ops|
  {
    if ops != [] {
      SurvivesIff(Restart(s), ops[0]);
      assert AtRest(Restart(s)) == AtRest(s);
      ProcessesRefineIff(Command(s, ops[0]).0, ops[1..]);
    }
  }

  ghost predicate AlwaysConsistent(s: State, ops: seq<Op>)
    decreases |ops|
  {
    Consistent(AtRest(s)) && (ops == [] || AlwaysConsistent(Command(s, ops[0]).0, ops[1..]))
  }

  ghost predicate AllKeepCover(s: State, ops: seq<Op>)
    decreases |ops|
  {
    ops == [] || (KeepsCover(Restart(s), ops[0]) && AllKeepCover(Command(s, ops[0]).0, ops[1..]))
  }

  /** Over a run of processes, every recorded plugin has metadata and none is recorded twice at every
      point, if and only if each operation's faults are of the covering kinds. */
  lemma {:induction false} ProcessesConsistentIff(s: State, ops: seq<Op>)
    requires Consistent(AtRest(s))
    ensures AlwaysConsistent(s, ops) <==> AllKeepCover(s, ops)
    decreases |ops|
  {
    if ops != [] {
      KeepsCoverIff(Restart(s), ops[0]);
      if Consistent(AtRest(Command(s, ops[0]).0)) {
        ProcessesConsistentIff(Command(s, ops[0]).0, ops[1..]);
      }
    }
  }

  // ---------------------------------------------------------------------------
  // Failing inputs
  // ---------------------------------------------------------------------------

  /** The write of the longer list breaks off after it is in the file, and undoing it is refused:
      rollback reports no error, the metadata is gone and the next process finds the plugin recorded. */
  lemma RestoredYetInconsistent(s: State, name: string, body: string)
    requires s.disk == Readable(s.mem) && Consistent(PairOf(s))
    requires ValidShortname(name) && name !in s.files && name !in s.mem.installed
    ensures var longer := Readable(s.mem.(installed := s.mem.installed + [name]));
      var (t, outcome) := Persist(s, name, body, PersistFaults(true, true, Fine, Broken(longer), Fine, Refused));
      outcome == Restored && PairOf(t) == PairOf(s) && !Consistent(AtRest(t))
  {
    var longer := Readable(s.mem.(installed := s.mem.installed + [name]));
    var f := PersistFaults(true, true, Fine, Broken(longer), Fine, Refused);
    var (t, outcome) := Persist(s, name, body, f);
    PersistAtomic(s, name, body, f);
    assert AtRest(t).installed[|s.mem.installed|] == name;
  }

  /** The binaries cannot be removed and undoing the shortened list is refused: rollback reports no
      error, and the next process finds the plugin's metadata and binaries without its record. */
  lemma RestoredYetForgotten(s: State, name: string)
    requires s.disk == Readable(s.mem) && ValidShortname(name) && name in s.mem.installed
    ensures var f := UninstallFaults(true, Fine, Saved, false, s.bins.Keys, Fine, Refused);
      var (t, outcome) := Uninstall(s, name, f);
      && outcome == Restored && PairOf(t) == PairOf(s)
      && AtRest(t) == Pair(s.files, Removed(s.mem.installed, name)) && name !in AtRest(t).installed
  {
    var f := UninstallFaults(true, Fine, Saved, false, s.bins.Keys, Fine, Refused);
    RemovedFacts(s.mem.installed, name);
    UninstallAtomic(s, name, f);
    UninstallLeaves(s, name, f);
  }
}
