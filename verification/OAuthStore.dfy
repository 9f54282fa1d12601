/** The credential store as the OAuth code meets it: one entry of the keyring with its backing file
(pkg/config/config.go sets `KeyRing` to the store of pkg/keyring/keyring.go).

Entries do not affect each other, so each has a `Keyring.State` of its own. Unlike in `Keyring`, the
file can fail too.
*/
module OAuthStore {
  import opened Text
  import Keyring

  /** What a call meets: the keyring's condition, and whether the file can be used where it is needed. */
  datatype Io = Io(a: Keyring.Access, file: bool)

  datatype Half = Ring | File

  function Held<V>(k: Keyring.State<V>, key: string, h: Half): Option<V> {
    Keyring.Lookup(if h.Ring? then k.primary else k.fallback, key)
  }

  /** Where a `Get` finds its value. */
  function HalfRead<V>(k: Keyring.State<V>, key: string, io: Io): Half {
    if io.a.Up? && key in k.primary then Ring else File
  }

  /** Err when neither the keyring nor the file answers; `Ok(None)` is `ErrKeyNotFound`. */
  function Read<V>(k: Keyring.State<V>, key: string, io: Io): Result<Option<V>> {
    if HalfRead(k, key, io).Ring? || io.file then Ok(Keyring.Got(k, key, io.a)) else Err
  }

  /** A `Set` fails only if the keyring and the file do. */
  predicate Accepts(io: Io) {
    io.a.Up? || io.file
  }

  /** A failed `Set` that timed out may still reach the keyring. */
  function Written<V>(k: Keyring.State<V>, key: string, value: V, io: Io): Keyring.State<V> {
    if Accepts(io) then Keyring.AfterSet(k, key, value, io.a)
    else if io.a.TimedOut? then k.(late := k.late + [Keyring.Put(key, value)])
    else k
  }

  /** `Remove` reports no failure of either half. */
  function Dropped<V>(k: Keyring.State<V>, key: string, io: Io): Keyring.State<V> {
    var t := Keyring.AfterRemove(k, key, io.a);
    if io.file then t else t.(fallback := k.fallback)
  }

  lemma ReadIsHeld<V>(k: Keyring.State<V>, key: string, io: Io)
    requires Read(k, key, io).Ok?
    ensures Read(k, key, io).value == Held(k, key, HalfRead(k, key, io))
  {
  }

  /** A read fails exactly if the keyring does not give a value and the file cannot be used either. */
  lemma ReadFailsIff<V>(k: Keyring.State<V>, key: string, io: Io)
    ensures Read(k, key, io).Err? <==> !(io.a.Up? && key in k.primary) && !io.file
  {
  }

  /** A write is under way afterwards exactly if it timed out, whether or not it was reported as done. */
  lemma UnderWayIff<V>(k: Keyring.State<V>, key: string, value: V, io: Io)
    ensures Written(k, key, value, io).late == if io.a.TimedOut? then k.late + [Keyring.Put(key, value)] else k.late
    ensures Dropped(k, key, io).late == if io.a.TimedOut? then k.late + [Keyring.Drop(key)] else k.late
  {
  }

  // ---------------------------------------------------------------------------
  // What a change of an entry can bring into its halves
  // ---------------------------------------------------------------------------

  /** The value is in that half, or a late write will put it there. */
  predicate Reaches<V(==)>(k: Keyring.State<V>, key: string, h: Half, value: V) {
    Held(k, key, h) == Some(value) || (h.Ring? && Keyring.Put(key, value) in k.late)
  }

  lemma ReachesAfterWrite<V>(k: Keyring.State<V>, key: string, value: V, io: Io, h: Half, other: V)
    requires Reaches(Written(k, key, value, io), key, h, other)
    ensures other == value || Reaches(k, key, h, other)
  {
  }

  lemma ReachesAfterDrop<V>(k: Keyring.State<V>, key: string, io: Io, h: Half, other: V)
    requires Reaches(Dropped(k, key, io), key, h, other)
    ensures Reaches(k, key, h, other)
  {
  }

  lemma ReachesAfterLanding<V>(k: Keyring.State<V>, key: string, i: nat, h: Half, other: V)
    requires i < |k.late| && Reaches(Keyring.AfterLanding(k, i), key, h, other)
    ensures Reaches(k, key, h, other)
  {
    var rest := k.late[..i] + k.late[i + 1..];
    assert forall x :: x in rest ==> x in k.late;
    assert k.late[i] in k.late;
  }

  /** Another value survives a `Set` in the half that the `Set` does not write, or as a late write. */
  lemma WriteLeavesIff<V>(k: Keyring.State<V>, key: string, value: V, io: Io, h: Half, other: V)
    requires other != value && Accepts(io)
    ensures Reaches(Written(k, key, value, io), key, h, other) <==>
      || (Held(k, key, h) == Some(other) && (io.a.Up? <==> h.File?))
      || (h.Ring? && Keyring.Put(key, other) in k.late)
  {
    var t := Written(k, key, value, io);
    assert forall x :: x in t.late <==> x in k.late || (io.a.TimedOut? && x == Keyring.Put(key, value));
  }

  /** A value survives a `Remove` in a half that fails, or as a late write. */
  lemma DropLeavesIff<V>(k: Keyring.State<V>, key: string, io: Io, h: Half, other: V)
    ensures Reaches(Dropped(k, key, io), key, h, other) <==>
      || (Held(k, key, h) == Some(other) && (if h.Ring? then !io.a.Up? else !io.file))
      || (h.Ring? && Keyring.Put(key, other) in k.late)
  {
    var t := Dropped(k, key, io);
    assert forall x :: x in t.late <==> x in k.late || (io.a.TimedOut? && x == Keyring.Drop(key));
  }

  // ---------------------------------------------------------------------------
  // The store does not look at what it holds
  // ---------------------------------------------------------------------------

  function Mapped<A, B>(o: Option<A>, f: A -> B): Option<B> {
    if o.Some? then Some(f(o.value)) else None
  }

  function MappedLate<A, B>(w: Keyring.Late<A>, f: A -> B): Keyring.Late<B> {
    match w
    case Put(key, value) => Keyring.Put(key, f(value))
    case Drop(key) => Keyring.Drop(key)
  }

  /** The second store holds `f` of what the first holds, in both halves and in the late writes. */
  ghost predicate Mirrors<A, B>(k: Keyring.State<A>, m: Keyring.State<B>, key: string, f: A -> B) {
    && Held(m, key, Ring) == Mapped(Held(k, key, Ring), f)
    && Held(m, key, File) == Mapped(Held(k, key, File), f)
    && |m.late| == |k.late|
    && forall n :: 0 <= n < |k.late| ==> m.late[n] == MappedLate(k.late[n], f)
  }

  lemma WrittenMirrors<A, B>(k: Keyring.State<A>, m: Keyring.State<B>, key: string, f: A -> B, value: A, io: Io)
    requires Mirrors(k, m, key, f)
    ensures Mirrors(Written(k, key, value, io), Written(m, key, f(value), io), key, f)
  {
  }

  lemma RemovedMirrors<A, B>(
    k: Keyring.State<A>, m: Keyring.State<B>, key: string, f: A -> B, a: Keyring.Access)
    requires Mirrors(k, m, key, f)
    ensures Mirrors(Keyring.AfterRemove(k, key, a), Keyring.AfterRemove(m, key, a), key, f)
  {
  }

  lemma DroppedMirrors<A, B>(k: Keyring.State<A>, m: Keyring.State<B>, key: string, f: A -> B, io: Io)
    requires Mirrors(k, m, key, f)
    ensures Mirrors(Dropped(k, key, io), Dropped(m, key, io), key, f)
  {
    RemovedMirrors(k, m, key, f, io.a);
  }

  lemma LandingMirrors<A, B>(k: Keyring.State<A>, m: Keyring.State<B>, key: string, f: A -> B, i: nat)
    requires Mirrors(k, m, key, f) && i < |k.late|
    ensures Mirrors(Keyring.AfterLanding(k, i), Keyring.AfterLanding(m, i), key, f)
  {
    assert m.late[i] == MappedLate(k.late[i], f);
  }

  // ---------------------------------------------------------------------------
  // Constant availability: one value
  // ---------------------------------------------------------------------------

  /** The entry as the one map shows it while the keyring is always up, or always fails. */
  function Shown<V>(k: Keyring.State<V>, key: string, up: bool): Option<V> {
    Keyring.Lookup(Keyring.View(k, up), key)
  }

  predicate Steady(io: Io, up: bool) {
    io.a.Up? == up
  }

  /** With the keyring always up, nothing is under way and nothing was left in the file. */
  predicate OneHalf<V>(k: Keyring.State<V>, key: string, up: bool) {
    up ==> k.late == [] && key !in k.fallback
  }

  function HalfInUse(up: bool): Half {
    if up then Ring else File
  }

  /** So a `Get` that finds a value finds that of the one map, in the half in use. */
  lemma SteadyRead<V>(k: Keyring.State<V>, key: string, io: Io, up: bool)
    requires Steady(io, up) && OneHalf(k, key, up)
    ensures Keyring.Got(k, key, io.a) == Shown(k, key, up) == Held(k, key, HalfInUse(up))
    ensures Keyring.Got(k, key, io.a).Some? ==> HalfRead(k, key, io) == HalfInUse(up)
  {
    Keyring.ConstantRefinesMap(k, [], io.a, key);
  }
}
