/** The credential store of pkg/keyring/keyring.go: the OS keyring, backed by a plain file.

Each call meets the keyring in some condition. A call that times out is reported as failed
while its goroutine goes on, so a timed-out write may still reach the keyring at any later time.
File access is taken to succeed.
*/
module Keyring {
  import opened Text

  datatype Access =
    | Up
    | Down      // the call fails and has no effect
    | TimedOut  // the call is reported as failed, its effect is still to come

  /** A keyring write whose caller has stopped waiting. */
  datatype Late<V> = Put(key: string, value: V) | Drop(key: string)

  /** The store keeps bytes; what they encode may be any `V`. */
  datatype State<V> = State(
    primary: map<string, V>, fallback: map<string, V>, wroteToFallback: bool, late: seq<Late<V>>)

  function Lookup<V>(m: map<string, V>, key: string): Option<V> {
    if key in m then Some(m[key]) else None
  }

  /** None is `ErrKeyNotFound`. A missing key in the keyring also falls through to the file. */
  function Got<V>(s: State<V>, key: string, a: Access): Option<V> {
    if a.Up? && key in s.primary then Some(s.primary[key]) else Lookup(s.fallback, key)
  }

  function AfterSet<V>(s: State<V>, key: string, value: V, a: Access): State<V> {
    match a
    case Up => s.(primary := s.primary[key := value])
    case Down => s.(fallback := s.fallback[key := value], wroteToFallback := true)
    case TimedOut =>
      s.(fallback := s.fallback[key := value], wroteToFallback := true, late := s.late + [Put(key, value)])
  }

  function AfterRemove<V>(s: State<V>, key: string, a: Access): State<V> {
    match a
    case Up => s.(primary := s.primary - {key}, fallback := s.fallback - {key})
    case Down => s.(fallback := s.fallback - {key})
    case TimedOut => s.(fallback := s.fallback - {key}, late := s.late + [Drop(key)])
  }

  /** `Remove` reports `ErrKeyNotFound` only when both stores do. */
  predicate RemoveFound<V>(s: State<V>, key: string, a: Access) {
    !a.Up? || key in s.primary || key in s.fallback
  }

  /** A late write reaches the keyring. */
  function AfterLanding<V>(s: State<V>, i: nat): State<V>
    requires i < |s.late|
  {
    var rest := s.late[..i] + s.late[i + 1..];
    match s.late[i]
    case Put(key, value) => s.(primary := s.primary[key := value], late := rest)
    case Drop(key) => s.(primary := s.primary - {key}, late := rest)
  }

  class FallbackStore {
    var primary: map<string, string>
    var fallback: map<string, string>
    var wroteToFallback: bool
    ghost var late: seq<Late<string>>

    ghost function Abs(): State<string>
      reads this
    {
      State(primary, fallback, wroteToFallback, late)
    }

    constructor (primary: map<string, string>, fallback: map<string, string>)
      ensures Abs() == State(primary, fallback, false, [])
    {
      this.primary, this.fallback, wroteToFallback, late := primary, fallback, false, [];
    }

    method Get(key: string, a: Access) returns (value: Option<string>)
      ensures value == Got(Abs(), key, a)
    {
      if a.Up? && key in primary {
        return Some(primary[key]);
      }
      value := if key in fallback then Some(fallback[key]) else None;
    }

    method Set(key: string, value: string, a: Access)
      modifies this
      ensures Abs() == AfterSet(old(Abs()), key, value, a)
    {
      if a.Up? {
        primary := primary[key := value];
        return;
      }
      if a.TimedOut? {
        late := late + [Put(key, value)];
      }
      fallback := fallback[key := value];
      wroteToFallback := true;
    }

    method Remove(key: string, a: Access) returns (found: bool)
      modifies this
      ensures Abs() == AfterRemove(old(Abs()), key, a)
      ensures found == RemoveFound(old(Abs()), key, a)
    {
      var inPrimary := true;
      if a.Up? {
        inPrimary := key in primary;
        primary := primary - {key};
      } else if a.TimedOut? {
        late := late + [Drop(key)];
      }
      var inFallback := key in fallback;
      fallback := fallback - {key};
      found := inPrimary || inFallback;
    }
  }

  // ---------------------------------------------------------------------------
  // Runs
  // ---------------------------------------------------------------------------

  datatype Event<V> =
    | SetE(key: string, value: V, a: Access)
    | RemoveE(key: string, a: Access)
    | LandE(i: nat)

  function Step<V>(s: State<V>, e: Event<V>): State<V> {
    match e
    case SetE(key, value, a) => AfterSet(s, key, value, a)
    case RemoveE(key, a) => AfterRemove(s, key, a)
    case LandE(i) => if i < |s.late| then AfterLanding(s, i) else s
  }

  function Run<V>(s: State<V>, es: seq<Event<V>>): State<V>
    decreases |es|
  {
    if es == [] then s else Run(Step(s, es[0]), es[1..])
  }

  /** The value is on its way to, or in, one of the two stores. */
  ghost predicate Holds<V>(s: State<V>, key: string, value: V) {
    || Lookup(s.primary, key) == Some(value)
    || Lookup(s.fallback, key) == Some(value)
    || Put(key, value) in s.late
  }

  lemma HeldStep<V>(s: State<V>, e: Event<V>, key: string, value: V)
    requires Holds(Step(s, e), key, value)
    ensures Holds(s, key, value) || (e.SetE? && e.key == key && e.value == value)
  {
  }

  lemma {:induction false} HeldWasSet<V>(s: State<V>, es: seq<Event<V>>, key: string, value: V)
    requires Holds(Run(s, es), key, value)
    ensures Holds(s, key, value) || exists a :: SetE(key, value, a) in es
    decreases |es|
  {
    if es != [] {
      HeldWasSet(Step(s, es[0]), es[1..], key, value);
      if Holds(Step(s, es[0]), key, value) {
        HeldStep(s, es[0], key, value);
        assert es[0].SetE? ==> SetE(es[0].key, es[0].value, es[0].a) in es;
      } else if !Holds(Step(s, es[0]), key, value) {
        var a :| SetE(key, value, a) in es[1..];
        assert SetE(key, value, a) in es;
      }
    }
  }

  /** Whatever the keyring does, a value that is read was there initially or was set. */
  lemma NoInventedValues<V>(s: State<V>, es: seq<Event<V>>, key: string, a: Access)
    ensures var got := Got(Run(s, es), key, a);
      got.Some? ==> Holds(s, key, got.value) || exists b :: SetE(key, got.value, b) in es
  {
    var got := Got(Run(s, es), key, a);
    if got.Some? {
      HeldWasSet(s, es, key, got.value);
    }
  }

  ghost predicate Absent<V>(s: State<V>, key: string) {
    key !in s.primary && key !in s.fallback
  }

  ghost predicate NoPut<V>(late: seq<Late<V>>, key: string) {
    forall i :: 0 <= i < |late| ==> !(late[i].Put? && late[i].key == key)
  }

  ghost predicate NeverSets<V>(es: seq<Event<V>>, key: string) {
    forall i :: 0 <= i < |es| ==> !(es[i].SetE? && es[i].key == key)
  }

  lemma {:induction false} StaysAbsent<V>(s: State<V>, es: seq<Event<V>>, key: string)
    requires Absent(s, key) && NoPut(s.late, key) && NeverSets(es, key)
    ensures Absent(Run(s, es), key)
    decreases |es|
  {
    if es != [] {
      StaysAbsent(Step(s, es[0]), es[1..], key);
    }
  }

  /** No run without a new `Set` brings the key back, under any availability. */
  ghost predicate GoneForGood<V(!new)>(s: State<V>, key: string) {
    forall es, a :: NeverSets(es, key) ==> Got(Run(s, es), key, a) == None
  }

  /** A key removed while the keyring is up is gone for good if and only if no timed-out write of it
      is still under way. */
  lemma RemovedIsGoneIff<V(!new)>(s: State<V>, key: string)
    ensures GoneForGood(AfterRemove(s, key, Up), key) <==> NoPut(s.late, key)
  {
    var t := AfterRemove(s, key, Up);
    if NoPut(s.late, key) {
      forall es, a | NeverSets(es, key) ensures Got(Run(t, es), key, a) == None {
        StaysAbsent(t, es, key);
      }
    } else {
      var i :| 0 <= i < |s.late| && s.late[i].Put? && s.late[i].key == key;
      var es := [LandE(i)];
      assert es[1..] == [];
      assert Run(t, es) == AfterLanding(t, i);
      assert NeverSets(es, key) && Got(Run(t, es), key, Up) == Some(s.late[i].value);
    }
  }

  // ---------------------------------------------------------------------------
  // Constant availability: one map
  // ---------------------------------------------------------------------------

  /** What the store shows while the keyring stays up, or while every call to it fails. */
  function View<V>(s: State<V>, up: bool): map<string, V> {
    if up then s.fallback + s.primary else s.fallback
  }

  function MapStep<V>(m: map<string, V>, e: Event<V>): map<string, V> {
    match e
    case SetE(key, value, _) => m[key := value]
    case RemoveE(key, _) => m - {key}
    case LandE(_) => m
  }

  function MapRun<V>(m: map<string, V>, es: seq<Event<V>>): map<string, V>
    decreases |es|
  {
    if es == [] then m else MapRun(MapStep(m, es[0]), es[1..])
  }

  /** Every call succeeds, or every call fails or times out. Late writes may land at any time. */
  ghost predicate Steady<V>(es: seq<Event<V>>, up: bool) {
    forall i :: 0 <= i < |es| ==> es[i].LandE? || es[i].a.Up? == up
  }

  lemma ViewStep<V>(s: State<V>, e: Event<V>, up: bool)
    requires (e.LandE? || e.a.Up? == up) && (up ==> s.late == [])
    ensures View(Step(s, e), up) == MapStep(View(s, up), e) && (up ==> Step(s, e).late == [])
  {
  }

  /** While the keyring is steady the two stores refine a single map: reads look the key up, writes
      update it and removals delete it. A removal that finds nothing says so only while up. A keyring
      that is up must have no timed-out write under way. */
  lemma {:induction false} ConstantRefinesMap<V>(s: State<V>, es: seq<Event<V>>, a: Access, key: string)
    requires Steady(es, a.Up?) && (a.Up? ==> s.late == [])
    ensures var t := Run(s, es);
      && View(t, a.Up?) == MapRun(View(s, a.Up?), es)
      && Got(t, key, a) == Lookup(MapRun(View(s, a.Up?), es), key)
      && (RemoveFound(t, key, a) <==> !a.Up? || key in MapRun(View(s, a.Up?), es))
    decreases |es|
  {
    if es != [] {
      ViewStep(s, es[0], a.Up?);
      ConstantRefinesMap(Step(s, es[0]), es[1..], a, key);
    }
  }

  // ---------------------------------------------------------------------------
  // Changing availability: exactly when a read is current
  // ---------------------------------------------------------------------------

  /** No caller writes the key; late writes, of this key too, may land at any time. */
  ghost predicate Untouched<V>(es: seq<Event<V>>, key: string) {
    forall i :: 0 <= i < |es| ==> es[i].LandE? || es[i].key != key
  }

  /** What the landing of a late write puts under the key: a value, or nothing if it is a removal. */
  function Landed<V>(s: State<V>, e: Event<V>, key: string): Option<Option<V>> {
    if e.LandE? && e.i < |s.late| && s.late[e.i].key == key
    then Some(if s.late[e.i].Put? then Some(s.late[e.i].value) else None)
    else None
  }

  /** The last late write of the key that lands in the run. */
  function LastLanded<V>(s: State<V>, es: seq<Event<V>>, key: string): Option<Option<V>>
    decreases |es|
  {
    if es == [] then None else
    var later := LastLanded(Step(s, es[0]), es[1..], key);
    if later.Some? then later else Landed(s, es[0], key)
  }

  lemma LandedKey<V>(s: State<V>, e: Event<V>, key: string)
    requires e.LandE? || e.key != key
    ensures Lookup(Step(s, e).primary, key)
         == if Landed(s, e, key).Some? then Landed(s, e, key).value else Lookup(s.primary, key)
    ensures Lookup(Step(s, e).fallback, key) == Lookup(s.fallback, key)
  {
  }

  lemma {:induction false} UntouchedKey<V>(s: State<V>, es: seq<Event<V>>, key: string)
    requires Untouched(es, key)
    ensures Lookup(Run(s, es).primary, key)
         == if LastLanded(s, es, key).Some? then LastLanded(s, es, key).value else Lookup(s.primary, key)
    ensures Lookup(Run(s, es).fallback, key) == Lookup(s.fallback, key)
    decreases |es|
  {
    if es != [] {
      LandedKey(s, es[0], key);
      UntouchedKey(Step(s, es[0]), es[1..], key);
    }
  }

  /** A read returns the last value set, whatever lands in between, if and only if the store that it
      reads has that value: the file, which a failing `Set` wrote and any other `Set` left alone, or
      the keyring, where the last late write to land decides. */
  lemma ReadsLastSetIff<V>(s: State<V>, key: string, value: V, a: Access, es: seq<Event<V>>, b: Access)
    requires Untouched(es, key)
    ensures var t := AfterSet(s, key, value, a);
      Got(Run(t, es), key, b) == Some(value) <==>
        var inFile := !a.Up? || Lookup(s.fallback, key) == Some(value);
        if !b.Up? then inFile else
          match LastLanded(t, es, key)
          case Some(Some(v)) => v == value
          case Some(None) => inFile
          case None => a.Up? || key !in s.primary || s.primary[key] == value
  {
    UntouchedKey(AfterSet(s, key, value, a), es, key);
  }

  /** A removed key reads as missing if and only if the keyring is down for the read, the last late
      write to land is a removal, or none lands and the keyring was up for the removal or never held
      the key: otherwise the removed credential comes back. */
  lemma RemovedReadsMissingIff<V>(s: State<V>, key: string, a: Access, es: seq<Event<V>>, b: Access)
    requires Untouched(es, key)
    ensures var t := AfterRemove(s, key, a);
      Got(Run(t, es), key, b) == None <==>
        !b.Up? || (match LastLanded(t, es, key)
                   case Some(landed) => landed.None?
                   case None => a.Up? || key !in s.primary)
  {
    UntouchedKey(AfterRemove(s, key, a), es, key);
  }

  // ---------------------------------------------------------------------------
  // Which failed calls still have an effect
  // ---------------------------------------------------------------------------

  ghost predicate OnlyLandings<V>(es: seq<Event<V>>) {
    forall i :: 0 <= i < |es| ==> es[i].LandE?
  }

  lemma {:induction false} NothingLands<V>(s: State<V>, es: seq<Event<V>>)
    requires s.late == [] && OnlyLandings(es)
    ensures Run(s, es) == s
    decreases |es|
  {
    if es != [] {
      NothingLands(s, es[1..]);
    }
  }

  /** A `Set` can reach the keyring if and only if the keyring was up or the call timed out: one that failed
      otherwise never does. */
  lemma SetReachesIff<V(!new)>(s: State<V>, key: string, value: V, a: Access)
    requires s.late == [] && Lookup(s.primary, key) != Some(value)
    ensures a.Up? || a.TimedOut? <==>
      exists es :: OnlyLandings(es) && Lookup(Run(AfterSet(s, key, value, a), es).primary, key) == Some(value)
  {
    var t := AfterSet(s, key, value, a);
    var es: seq<Event<V>> := if a.TimedOut? then [LandE(0)] else [];
    if a.Down? {
      forall es | OnlyLandings(es) ensures Run(t, es) == t {
        NothingLands(t, es);
      }
    } else {
      assert a.TimedOut? ==> es[1..] == [];
      assert OnlyLandings(es) && Lookup(Run(t, es).primary, key) == Some(value);
    }
  }

  /** So it is for a `Remove`. */
  lemma RemoveReachesIff<V(!new)>(s: State<V>, key: string, a: Access)
    requires s.late == [] && key in s.primary
    ensures a.Up? || a.TimedOut? <==>
      exists es :: OnlyLandings(es) && key !in Run(AfterRemove(s, key, a), es).primary
  {
    var t := AfterRemove(s, key, a);
    var es: seq<Event<V>> := if a.TimedOut? then [LandE(0)] else [];
    if a.Down? {
      forall es | OnlyLandings(es) ensures Run(t, es) == t {
        NothingLands(t, es);
      }
    } else {
      assert a.TimedOut? ==> es[1..] == [];
      assert OnlyLandings(es) && key !in Run(t, es).primary;
    }
  }

  /** A late write lands once, and the others are still to land. */
  lemma LandsOnce<V>(s: State<V>, i: nat)
    requires i < |s.late|
    ensures multiset(AfterLanding(s, i).late) + multiset{s.late[i]} == multiset(s.late)
    ensures AfterLanding(s, i).fallback == s.fallback && AfterLanding(s, i).wroteToFallback == s.wroteToFallback
  {
    MultisetWithout(s.late, i);
  }

  /** `IsUsingInsecureStorage` is set exactly by a write that the keyring did not take. */
  lemma {:induction false} InsecureIff<V>(s: State<V>, es: seq<Event<V>>)
    ensures Run(s, es).wroteToFallback <==>
      s.wroteToFallback || exists i :: 0 <= i < |es| && es[i].SetE? && !es[i].a.Up?
    decreases |es|
  {
    if es != [] {
      InsecureIff(Step(s, es[0]), es[1..]);
      assert es == [es[0]] + es[1..];
    }
  }
}
