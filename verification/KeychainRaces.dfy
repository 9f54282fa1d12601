/** Overlapping calls of pkg/plugins/core_cli_helper.go, one lock section at a time.

`KeychainGetPassword` consults the pending values in one lock section and clears a value that the
keychain shows in another, and `KeychainSetPassword` writes the keychain before it remembers the value,
so the calls of other goroutines can come in between.
*/
module KeychainRaces {
  import opened Text
  import opened KeychainOverlay

  /** The keychain accesses and the lock sections. A `Set` stores and then remembers, a `Delete` forgets
      and then erases; a `Get` is a check, after which it clears if the two values agreed. */
  datatype Act =
    | Store(key: string, value: string)
    | Remember(key: string, value: string, now: int)
    | Check(id: nat, key: string, shown: Option<string>, now: int)
    | Clear(id: nat)
    | Erase(key: string)
    | Forget(key: string)

  /** `due`: the reads that found agreement and have still to clear their key. `keychain` is what the
      keychain will show in the end; what it shows to a check may be older. */
  datatype State = State(table: Table, due: map<nat, string>, keychain: map<string, string>)

  function AfterAct(s: State, act: Act): State {
    match act
    case Store(key, value) => s.(keychain := s.keychain[key := value])
    case Remember(key, value, now) => s.(table := Remembered(s.table, true, key, value, now))
    case Check(id, key, shown, now) =>
      var (u, pending) := PendingFor(s.table, true, key, now);
      s.(table := u, due := if pending.Some? && shown == pending then s.due[id := key] else s.due)
    case Clear(id) => if id in s.due then s.(table := s.table - {s.due[id]}, due := s.due - {id}) else s
    case Erase(key) => s.(keychain := s.keychain - {key})
    case Forget(key) => s.(table := s.table - {key})
  }

  function AfterActs(s: State, acts: seq<Act>): State
    decreases |acts|
  {
    if acts == [] then s else AfterActs(AfterAct(s, acts[0]), acts[1..])
  }

  /** What a read answers, decided at its check. */
  function Answered(s: State, key: string, shown: Option<string>, now: int): Option<string> {
    var pending := PendingFor(s.table, true, key, now).1;
    if pending.Some? then pending else shown
  }

  /** A read that nothing interrupts is the one of `KeychainOverlay`. */
  lemma UninterruptedGet(s: State, id: nat, key: string, shown: Option<string>, now: int)
    requires id !in s.due
    ensures var t := AfterAct(AfterAct(s, Check(id, key, shown, now)), Clear(id));
      t == s.(table := Answer(s.table, true, key, shown, now).0)
    ensures Answered(s, key, shown, now) == Answer(s.table, true, key, shown, now).1
  {
    assert s.due[id := key] - {id} == s.due;
  }

  /** No `Set` remembers a value for the key. */
  ghost predicate NoneRemembered(acts: seq<Act>, key: string) {
    forall i :: 0 <= i < |acts| ==> !(acts[i].Remember? && acts[i].key == key)
  }

  /** The act ends a pending value: a read that found agreement clears it, a `Delete` forgets it, or a
      check comes after it has expired. */
  predicate Ends(s: State, act: Act, key: string, expiresAt: int) {
    || (act.Clear? && act.id in s.due && s.due[act.id] == key)
    || (act.Forget? && act.key == key)
    || (act.Check? && act.key == key && act.now >= expiresAt)
  }

  predicate Ended(s: State, acts: seq<Act>, key: string, expiresAt: int)
    decreases |acts|
  {
    acts != [] && (Ends(s, acts[0], key, expiresAt) || Ended(AfterAct(s, acts[0]), acts[1..], key, expiresAt))
  }

  lemma {:induction false} StaysGone(s: State, acts: seq<Act>, key: string)
    requires key !in s.table && NoneRemembered(acts, key)
    ensures key !in AfterActs(s, acts).table
    decreases |acts|
  {
    if acts != [] {
      assert forall i :: 0 <= i < |acts[1..]| ==> acts[1..][i] == acts[i + 1];
      StaysGone(AfterAct(s, acts[0]), acts[1..], key);
    }
  }

  /** The pending value is there until one of these acts ends it. */
  lemma {:induction false} PendingIff(s: State, acts: seq<Act>, key: string, p: Pending)
    requires key in s.table && s.table[key] == p && NoneRemembered(acts, key)
    ensures var t := AfterActs(s, acts).table;
      (key in t <==> !Ended(s, acts, key, p.expiresAt)) && (key in t ==> t[key] == p)
    decreases |acts|
  {
    if acts != [] {
      assert forall i :: 0 <= i < |acts[1..]| ==> acts[1..][i] == acts[i + 1];
      var t := AfterAct(s, acts[0]);
      if key in t.table {
        PendingIff(t, acts[1..], key, p);
      } else {
        StaysGone(t, acts[1..], key);
      }
    }
  }

  /** However calls overlap, a read answers with the value remembered last until that value expires or is
      ended, and from then on with what the keychain shows it. The reads, `Set`s and `Delete`s may be any,
      on any key and at any time; `acts` are those after the last value for the key was remembered. */
  lemma ReadsLastRemembered(
    s: State, key: string, value: string, at: int, acts: seq<Act>, shown: Option<string>, now: int)
    requires NoneRemembered(acts, key)
    ensures var t, expiresAt := AfterAct(s, Remember(key, value, at)), at + RETRY_TIMEOUT;
      Answered(AfterActs(t, acts), key, shown, now)
      == if Ended(t, acts, key, expiresAt) || now >= expiresAt then shown else Some(value)
  {
    PendingIff(AfterAct(s, Remember(key, value, at)), acts, key, Pending(value, at + RETRY_TIMEOUT));
  }

  /** So a read answers with the value set if and only if no read that found agreement, on this value or on
      an older one, has cleared since it was remembered, nobody has deleted it and it has not expired, or
      the keychain itself shows it. */
  lemma ReadsSetValueIff(
    s: State, key: string, value: string, at: int, acts: seq<Act>, shown: Option<string>, now: int)
    requires NoneRemembered(acts, key)
    ensures var t, expiresAt := AfterAct(s, Remember(key, value, at)), at + RETRY_TIMEOUT;
      Answered(AfterActs(t, acts), key, shown, now) == Some(value)
      <==> (!Ended(t, acts, key, expiresAt) && now < expiresAt) || shown == Some(value)
  {
    ReadsLastRemembered(s, key, value, at, acts, shown, now);
  }

  function InKeychain(s: State, key: string): Option<string> {
    if key in s.keychain then Some(s.keychain[key]) else None
  }

  /** What the keychain has in the end is what was stored last, unless it was erased since. */
  lemma KeychainHasLatest(s: State, act: Act, key: string)
    ensures act.Store? && act.key == key ==> InKeychain(AfterAct(s, act), key) == Some(act.value)
    ensures act.Erase? && act.key == key ==> InKeychain(AfterAct(s, act), key) == None
    ensures !((act.Store? || act.Erase?) && act.key == key) ==>
      InKeychain(AfterAct(s, act), key) == InKeychain(s, key)
  {
  }

  /** A read to which the keychain shows what it has in the end answers with that if and only if it was
      remembered last, or the value remembered last has expired or was ended. The order in which two
      `Set`s write the keychain and that in which they remember can differ. */
  lemma ReadsKeychainIff(s: State, key: string, value: string, at: int, acts: seq<Act>, now: int)
    requires NoneRemembered(acts, key)
    ensures var t, expiresAt := AfterAct(s, Remember(key, value, at)), at + RETRY_TIMEOUT;
      var u := AfterActs(t, acts);
      Answered(u, key, InKeychain(u, key), now) == InKeychain(u, key)
      <==> InKeychain(u, key) == Some(value) || Ended(t, acts, key, expiresAt) || now >= expiresAt
  {
    var u := AfterActs(AfterAct(s, Remember(key, value, at)), acts);
    ReadsLastRemembered(s, key, value, at, acts, InKeychain(u, key), now);
  }

  ghost predicate NoneDue(s: State, key: string) {
    forall id :: id in s.due ==> s.due[id] != key
  }

  /** Checks of the key in time, none of which the keychain shows the value, and no `Delete`. */
  ghost predicate NoneAgrees(acts: seq<Act>, key: string, p: Pending) {
    forall i :: 0 <= i < |acts| ==>
      && !(acts[i].Forget? && acts[i].key == key)
      && (acts[i].Check? && acts[i].key == key ==> acts[i].now < p.expiresAt && acts[i].shown != Some(p.value))
  }

  /** The value is not ended if no read of an older value has still to clear when it is remembered, and
      none since has found it in the keychain. */
  lemma {:induction false} NotEnded(s: State, acts: seq<Act>, key: string, p: Pending)
    requires key in s.table && s.table[key] == p && NoneRemembered(acts, key) && NoneAgrees(acts, key, p)
    requires NoneDue(s, key)
    ensures !Ended(s, acts, key, p.expiresAt)
    decreases |acts|
  {
    if acts != [] {
      assert forall i :: 0 <= i < |acts[1..]| ==> acts[1..][i] == acts[i + 1];
      NotEnded(AfterAct(s, acts[0]), acts[1..], key, p);
    }
  }

  /** Two `Set`s that overlap so: `first` is written, `second` is written over it and remembered, and only
      then `first` is remembered. */
  function Crossed(key: string, first: string, second: string, at: int): State {
    AfterAct(AfterAct(AfterAct(AfterAct(State(map[], map[], map[]), Store(key, first)), Store(key, second)),
                      Remember(key, second, at)), Remember(key, first, at))
  }

  /** Then reads answer with `first` until it expires, although the keychain has `second`, however many
      reads there are and whether or not they find `second` in it; afterwards they answer with `second`. */
  lemma CrossedSets(key: string, first: string, second: string, at: int, acts: seq<Act>, now: int)
    requires first != second && NoneRemembered(acts, key) && NoneAgrees(acts, key, Pending(first, at + RETRY_TIMEOUT))
    requires forall i :: 0 <= i < |acts| ==> acts[i].Check? || acts[i].Clear?
    ensures var u := AfterActs(Crossed(key, first, second, at), acts);
      && InKeychain(u, key) == Some(second)
      && Answered(u, key, Some(second), now) == Some(if now < at + RETRY_TIMEOUT then first else second)
  {
    var s := AfterAct(AfterAct(AfterAct(State(map[], map[], map[]), Store(key, first)), Store(key, second)),
                      Remember(key, second, at));
    NotEnded(Crossed(key, first, second, at), acts, key, Pending(first, at + RETRY_TIMEOUT));
    ReadsLastRemembered(s, key, first, at, acts, Some(second), now);
    KeychainStays(Crossed(key, first, second, at), acts);
  }

  lemma {:induction false} KeychainStays(s: State, acts: seq<Act>)
    requires forall i :: 0 <= i < |acts| ==> acts[i].Check? || acts[i].Clear?
    ensures AfterActs(s, acts).keychain == s.keychain
    decreases |acts|
  {
    if acts != [] {
      assert forall i :: 0 <= i < |acts[1..]| ==> acts[1..][i] == acts[i + 1];
      KeychainStays(AfterAct(s, acts[0]), acts[1..]);
    }
  }

  /** An older read loses a newer value: it agreed on the first value, the second was set, and then it
      cleared. The next read answers with what the keychain still shows. */
  lemma OlderReadClears(key: string, first: string, second: string)
    requires first != second
    ensures var acts := [Remember(key, first, 0), Check(1, key, Some(first), 1), Remember(key, second, 2), Clear(1)];
      Answered(AfterActs(State(map[], map[], map[]), acts), key, Some(first), 3) == Some(first)
  {
    var s := State(map[], map[], map[]);
    var rest := [Remember(key, second, 2), Clear(1)];
    var acts := [Remember(key, first, 0), Check(1, key, Some(first), 1)] + rest;
    assert acts == [Remember(key, first, 0), Check(1, key, Some(first), 1), Remember(key, second, 2), Clear(1)];
    assert acts[1..][1..] == rest && rest[1..] == [Clear(1)] && [Clear(1)][1..] == [];
    var t := AfterAct(AfterAct(s, acts[0]), acts[1]);
    assert AfterActs(s, acts) == AfterActs(t, rest);
    assert AfterActs(t, rest) == AfterAct(AfterAct(t, rest[0]), Clear(1));
  }
}
