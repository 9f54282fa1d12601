/** Where the refresh token that a call fetches was stored, and so exactly when two calls submit the same
one. The steps of a run decide this; which tokens the server issued does not matter.
*/
module OAuthOrigins {
  import opened Text
  import opened OAuthStore
  import opened OAuthRefresh
  import opened OAuthRotation
  import Keyring

  // ---------------------------------------------------------------------------
  // The stored refresh token, traced back
  // ---------------------------------------------------------------------------

  /** Where a stored refresh token comes from: a half as it was at first, or the step that stored it. */
  datatype Origin = Initially(h: Half) | StoredAt(step: nat)

  /** How a step changes the entry of the refresh token, whatever values the entry holds. */
  function Changed<V>(k: Keyring.State<V>, s: State, step: Step, value: V): Keyring.State<V>
    requires Enabled(s, step)
  {
    if step.StoreRefresh? then
      if PhaseOf(s, step.c).grant.refresh.Some? then Written(k, REFRESH, value, step.io)
      else Dropped(k, REFRESH, step.io)
    else if step.Clear? && PhaseOf(s, step.c).rest == 2 then Dropped(k, REFRESH, step.io)
    else if step.Land? && step.entry.Refresh? && step.i < |k.late| then Keyring.AfterLanding(k, step.i)
    else k
  }

  /** Does the step store a replacement, and which? */
  function Replacement(s: State, step: Step): Option<Token>
    requires Enabled(s, step)
  {
    if step.StoreRefresh? then PhaseOf(s, step.c).grant.refresh else None
  }

  function OrElse<V>(o: Option<V>, v: V): V {
    if o.Some? then o.value else v
  }

  lemma ChangedNext(s: State, step: Step)
    requires Enabled(s, step)
    ensures Next(s, step).store.refresh == Changed(s.store.refresh, s, step, OrElse(Replacement(s, step), ""))
  {
    if step.Clear? {
      ClearedNext(s, step);
    } else if !step.StoreRefresh? && !step.Land? {
      RefreshStays(s, step);
    }
  }

  lemma ClearedNext(s: State, step: Step)
    requires Enabled(s, step) && step.Clear?
    ensures Next(s, step).store.refresh
         == if PhaseOf(s, step.c).rest == 2 then Dropped(s.store.refresh, REFRESH, step.io) else s.store.refresh
  {
  }

  function FirstOrigins(k: Keyring.State<Token>): Keyring.State<Origin> {
    var inFile := if Held(k, REFRESH, Ring) == Held(k, REFRESH, File) then Ring else File;
    Keyring.State(if REFRESH in k.primary then map[REFRESH := Initially(Ring)] else map[],
                  if REFRESH in k.fallback then map[REFRESH := Initially(inFile)] else map[], false, [])
  }

  /** The entry of the refresh token before step `i`, with the origin of every token in its place. A token
      that both halves had at first counts as that of the keyring. */
  ghost function Origins(s: State, steps: seq<Step>, i: nat): Keyring.State<Origin>
    requires Valid(s, steps) && i <= |steps|
    decreases i
  {
    if i == 0 then FirstOrigins(s.store.refresh)
    else
      Onward(s, steps, i - 1);
      Changed(Origins(s, steps, i - 1), Before(s, steps, i - 1), steps[i - 1], StoredAt(i - 1))
  }

  /** The replacement that step `i` stores, if it does. */
  ghost function ReplacementAt(s: State, steps: seq<Step>, i: nat): Option<Token>
    requires Valid(s, steps) && i < |steps|
  {
    Onward(s, steps, i);
    Replacement(Before(s, steps, i), steps[i])
  }

  ghost predicate StoresAt(s: State, steps: seq<Step>, i: nat)
    requires Valid(s, steps)
  {
    i < |steps| && ReplacementAt(s, steps, i).Some?
  }

  /** The token that an origin stands for. */
  ghost function TokenFrom(s: State, steps: seq<Step>, o: Origin): Token
    requires Valid(s, steps)
  {
    match o
    case Initially(h) => OrElse(Held(s.store.refresh, REFRESH, h), "")
    case StoredAt(i) =>
      if StoresAt(s, steps, i) then ReplacementAt(s, steps, i).value else ""
  }

  ghost function Tokens(s: State, steps: seq<Step>): Origin -> Token {
    (o: Origin) => if Valid(s, steps) then TokenFrom(s, steps, o) else ""
  }

  lemma {:induction false} OriginsMirror(s: State, steps: seq<Step>, i: nat)
    requires Init(s) && Valid(s, steps) && i <= |steps|
    ensures Mirrors(Origins(s, steps, i), Before(s, steps, i).store.refresh, REFRESH, Tokens(s, steps))
    decreases i
  {
    if i == 0 {
      assert steps[..0] == [];
    } else {
      OriginsMirror(s, steps, i - 1);
      Onward(s, steps, i - 1);
      ChangedNext(Before(s, steps, i - 1), steps[i - 1]);
      var token := OrElse(Replacement(Before(s, steps, i - 1), steps[i - 1]), "");
      assert Tokens(s, steps)(StoredAt(i - 1)) == token;
      ChangedMirrors(Origins(s, steps, i - 1), Before(s, steps, i - 1), steps[i - 1], StoredAt(i - 1),
                     Tokens(s, steps));
    }
  }

  lemma ChangedMirrors(k: Keyring.State<Origin>, s: State, step: Step, o: Origin, f: Origin -> Token)
    requires Enabled(s, step) && Mirrors(k, s.store.refresh, REFRESH, f)
    ensures Mirrors(Changed(k, s, step, o), Changed(s.store.refresh, s, step, f(o)), REFRESH, f)
  {
    if step.StoreRefresh? {
      WrittenMirrors(k, s.store.refresh, REFRESH, f, o, step.io);
      DroppedMirrors(k, s.store.refresh, REFRESH, f, step.io);
    } else if step.Clear? {
      DroppedMirrors(k, s.store.refresh, REFRESH, f, step.io);
    } else if step.Land? && step.entry.Refresh? {
      LandingMirrors(k, s.store.refresh, REFRESH, f, step.i);
    }
  }

  // ---------------------------------------------------------------------------
  // Different origins, different tokens
  // ---------------------------------------------------------------------------

  /** An origin that can occur before step `i`. */
  ghost predicate Occurs(s: State, steps: seq<Step>, i: nat, o: Origin)
    requires Valid(s, steps)
  {
    match o
    case Initially(h) =>
      && Held(s.store.refresh, REFRESH, h).Some?
      && (h.File? ==> Held(s.store.refresh, REFRESH, Ring) != Held(s.store.refresh, REFRESH, File))
    case StoredAt(q) => q < i && StoresAt(s, steps, q)
  }

  lemma {:induction false} OriginOccurs(s: State, steps: seq<Step>, i: nat, h: Half, o: Origin)
    requires Init(s) && Valid(s, steps) && i <= |steps| && Reaches(Origins(s, steps, i), REFRESH, h, o)
    ensures Occurs(s, steps, i, o)
    decreases i
  {
    if i > 0 {
      var k := Origins(s, steps, i - 1);
      Onward(s, steps, i - 1);
      if !(StoresAt(s, steps, i - 1) && o == StoredAt(i - 1)) {
        ChangedReaches(k, Before(s, steps, i - 1), steps[i - 1], StoredAt(i - 1), h, o);
        OriginOccurs(s, steps, i - 1, h, o);
      }
    }
  }

  lemma ChangedReaches(k: Keyring.State<Origin>, s: State, step: Step, stored: Origin, h: Half, o: Origin)
    requires Enabled(s, step) && Reaches(Changed(k, s, step, stored), REFRESH, h, o)
    ensures Reaches(k, REFRESH, h, o) || (Replacement(s, step).Some? && o == stored)
  {
    if step.StoreRefresh? {
      if PhaseOf(s, step.c).grant.refresh.Some? {
        ReachesAfterWrite(k, REFRESH, stored, step.io, h, o);
      } else {
        ReachesAfterDrop(k, REFRESH, step.io, h, o);
      }
    } else if step.Clear? && PhaseOf(s, step.c).rest == 2 {
      ReachesAfterDrop(k, REFRESH, step.io, h, o);
    } else if step.Land? && step.entry.Refresh? && step.i < |k.late| {
      ReachesAfterLanding(k, REFRESH, step.i, h, o);
    }
  }

  lemma ReleasedStep(s: State, step: Step)
    requires Enabled(s, step)
    ensures s.ledger.released <= Next(s, step).ledger.released
    ensures Replacement(s, step).Some? ==> Replacement(s, step).value in Next(s, step).ledger.released
  {
    if !Rotates(step) {
      TokensStay(s, step);
    }
  }

  lemma {:induction false} ReleasedGrows(s: State, steps: seq<Step>, lo: nat, hi: nat)
    requires Valid(s, steps) && lo <= hi <= |steps|
    ensures Before(s, steps, lo).ledger.released <= Before(s, steps, hi).ledger.released
    decreases hi
  {
    if lo < hi {
      ReleasedGrows(s, steps, lo, hi - 1);
      Onward(s, steps, hi - 1);
      ReleasedStep(Before(s, steps, hi - 1), steps[hi - 1]);
    }
  }

  /** The token of an origin has been handed to the store by the time the origin occurs. */
  lemma OriginReleased(s: State, steps: seq<Step>, i: nat, o: Origin)
    requires Init(s) && Valid(s, steps) && i <= |steps| && Occurs(s, steps, i, o)
    ensures TokenFrom(s, steps, o) in Before(s, steps, i).ledger.released
  {
    var q := if o.Initially? then 0 else o.step + 1;
    if o.StoredAt? {
      Onward(s, steps, o.step);
      ReleasedStep(Before(s, steps, o.step), steps[o.step]);
    } else {
      assert steps[..0] == [];
    }
    ReleasedGrows(s, steps, q, i);
  }

  /** And a replacement was known to nobody before it was stored. */
  lemma StoredIsNew(s: State, steps: seq<Step>, q: nat)
    requires Init(s) && Valid(s, steps) && StoresAt(s, steps, q)
    ensures TokenFrom(s, steps, StoredAt(q)) !in Before(s, steps, q).ledger.released
  {
    Onward(s, steps, q);
    RotationAt(s, steps, q);
    assert PhaseFine(Before(s, steps, q).ledger, steps[q].c, PhaseOf(Before(s, steps, q), steps[q].c));
  }

  lemma OriginsDiffer(s: State, steps: seq<Step>, i: nat, a: Origin, b: Origin)
    requires Init(s) && Valid(s, steps) && i <= |steps| && Occurs(s, steps, i, a) && Occurs(s, steps, i, b)
    ensures TokenFrom(s, steps, a) == TokenFrom(s, steps, b) <==> a == b
  {
    if a.StoredAt? && (b.Initially? || b.step < a.step) {
      StoredIsNew(s, steps, a.step);
      OriginReleased(s, steps, a.step, b);
    } else if b.StoredAt? && (a.Initially? || a.step < b.step) {
      StoredIsNew(s, steps, b.step);
      OriginReleased(s, steps, b.step, a);
    }
  }

  // ---------------------------------------------------------------------------
  // When a refresh token is submitted again
  // ---------------------------------------------------------------------------

  /** The origin of what the fetch at step `f` finds. */
  ghost function FetchedOrigin(s: State, steps: seq<Step>, f: nat): Option<Origin>
    requires Valid(s, steps) && f < |steps| && steps[f].Fetch?
  {
    Held(Origins(s, steps, f), REFRESH, HalfRead(Origins(s, steps, f), REFRESH, steps[f].io))
  }

  /** Step `i` exchanges what its call fetched at step `g`. */
  ghost predicate Exchange(s: State, steps: seq<Step>, g: nat, i: nat)
    requires Valid(s, steps)
  {
    i < |steps| && steps[i].Send? && steps[i].reply.Success? && Fetches(s, steps, g, i, steps[i].c)
  }

  /** From step `lo` up to step `hi` a call exchanges what it fetched, and that has this origin. */
  ghost predicate OriginExchangedIn(s: State, steps: seq<Step>, lo: nat, hi: nat, o: Option<Origin>)
    requires Valid(s, steps)
  {
    exists g: nat, i: nat :: lo <= i < hi && Exchange(s, steps, g, i) && FetchedOrigin(s, steps, g) == o
  }

  lemma HeldOrigin(s: State, steps: seq<Step>, i: nat, h: Half)
    requires Init(s) && Valid(s, steps) && i <= |steps|
    ensures var o := Held(Origins(s, steps, i), REFRESH, h);
      var token := Held(Before(s, steps, i).store.refresh, REFRESH, h);
      && (o.Some? <==> token.Some?)
      && (o.Some? ==> Occurs(s, steps, i, o.value) && token.value == TokenFrom(s, steps, o.value))
  {
    OriginsMirror(s, steps, i);
    var o := Held(Origins(s, steps, i), REFRESH, h);
    if o.Some? {
      OriginOccurs(s, steps, i, h, o.value);
      assert Tokens(s, steps)(o.value) == TokenFrom(s, steps, o.value);
    }
  }

  /** What a call submits is the token of the origin that its fetch found. */
  lemma SubmitsOrigin(s: State, steps: seq<Step>, f: nat, j: nat, c: Caller)
    requires Init(s) && Valid(s, steps) && j < |steps| && Fetches(s, steps, f, j, c)
    requires steps[j].Send? && steps[j].c == c
    ensures FetchedOrigin(s, steps, f).Some? && Occurs(s, steps, f, FetchedOrigin(s, steps, f).value)
    ensures FetchedOrigin(s, steps, f) == Held(Origins(s, steps, f), REFRESH, FetchedFrom(s, steps, f))
    ensures Submitted(s, steps, j) == TokenFrom(s, steps, FetchedOrigin(s, steps, f).value)
  {
    SubmitsWhatItFetched(s, steps, f, j, c);
    HeldOrigin(s, steps, f, Ring);
    HeldOrigin(s, steps, f, File);
  }

  /** Two calls submit the same token if and only if they fetched what one step stored. */
  lemma SameTokenIff(s: State, steps: seq<Step>, g: nat, i: nat, f: nat, j: nat)
    requires Init(s) && Valid(s, steps) && i < |steps| && j < |steps| && steps[i].Send? && steps[j].Send?
    requires Fetches(s, steps, g, i, steps[i].c) && Fetches(s, steps, f, j, steps[j].c)
    ensures Submitted(s, steps, i) == Submitted(s, steps, j)
       <==> FetchedOrigin(s, steps, g) == FetchedOrigin(s, steps, f)
  {
    SubmitsOrigin(s, steps, g, i, steps[i].c);
    SubmitsOrigin(s, steps, f, j, steps[j].c);
    OriginsDiffer(s, steps, |steps|, FetchedOrigin(s, steps, g).value, FetchedOrigin(s, steps, f).value);
  }

  lemma OriginExchangedIff(s: State, steps: seq<Step>, lo: nat, hi: nat, n: nat, o: Origin)
    requires Init(s) && Valid(s, steps) && lo <= hi <= |steps| && n <= |steps| && Occurs(s, steps, n, o)
    ensures ExchangedIn(s, steps, lo, hi, TokenFrom(s, steps, o)) <==> OriginExchangedIn(s, steps, lo, hi, Some(o))
  {
    var token := TokenFrom(s, steps, o);
    forall g, i | lo <= i < hi && Exchange(s, steps, g, i)
      ensures ExchangesAt(s, steps, i, token) <==> FetchedOrigin(s, steps, g) == Some(o)
    {
      SubmitsOrigin(s, steps, g, i, steps[i].c);
      OriginsDiffer(s, steps, |steps|, FetchedOrigin(s, steps, g).value, o);
    }
    if ExchangedIn(s, steps, lo, hi, token) {
      var i :| lo <= i < hi && ExchangesAt(s, steps, i, token);
      Onward(s, steps, i);
      var g := FetchBefore(s, steps, i, steps[i].c);
      assert Exchange(s, steps, g, i);
    }
  }

  /** In every interleaving, with or without the mutex, however the keyring comes and goes: the refresh
      token in one of the halves has been exchanged if and only if some call exchanged what it had
      fetched of the same origin. */
  lemma StoredTokenExchangedIff(s: State, steps: seq<Step>, h: Half)
    requires Init(s) && Valid(s, steps) && Held(Exec(s, steps).store.refresh, REFRESH, h).Some?
    ensures var t := Exec(s, steps);
      Held(t.store.refresh, REFRESH, h).value in t.ledger.exchanged <==>
        OriginExchangedIn(s, steps, 0, |steps|, Held(Origins(s, steps, |steps|), REFRESH, h))
  {
    var n := |steps|;
    Whole(s, steps);
    HeldOrigin(s, steps, n, h);
    OriginExchangedIff(s, steps, 0, n, n, Held(Origins(s, steps, n), REFRESH, h).value);
    ExchangedBefore(s, steps, n, Held(Exec(s, steps).store.refresh, REFRESH, h).value);
  }

  /** A submission repeats an exchanged refresh token if and only if, before the token was fetched, some
      call exchanged what it had fetched of the same origin, or an overlapping call did so afterwards. */
  lemma ResubmittedIff(s: State, steps: seq<Step>, f: nat, j: nat, c: Caller)
    requires Init(s) && Valid(s, steps) && j < |steps| && Fetches(s, steps, f, j, c)
    requires steps[j].Send? && steps[j].c == c
    ensures var o := FetchedOrigin(s, steps, f);
      ExchangedIn(s, steps, 0, j, Submitted(s, steps, j)) <==>
        OriginExchangedIn(s, steps, 0, f, o) || OriginExchangedIn(s, steps, f, j, o)
  {
    var token := Submitted(s, steps, j);
    SubmitsOrigin(s, steps, f, j, c);
    OriginExchangedIff(s, steps, 0, f, f, FetchedOrigin(s, steps, f).value);
    OriginExchangedIff(s, steps, f, j, f, FetchedOrigin(s, steps, f).value);
    ExchangedBefore(s, steps, f, token);
    ExchangedBefore(s, steps, j, token);
    ExchangedSince(s, steps, f, j, token);
  }

  /** Where refreshes do not overlap the first case is the only one, and every such call failed to replace
      its token, or replaced it elsewhere than in the half that the fetch reads. */
  lemma ResubmittedAloneIff(s: State, steps: seq<Step>, f: nat, j: nat, c: Caller)
    requires Init(s) && Valid(s, steps) && NoOverlap(s, steps) && j < |steps| && Fetches(s, steps, f, j, c)
    requires steps[j].Send? && steps[j].c == c
    ensures var o := FetchedOrigin(s, steps, f);
      ExchangedIn(s, steps, 0, j, Submitted(s, steps, j)) <==>
        exists g: nat, i: nat :: i < f && Exchange(s, steps, g, i) && FetchedOrigin(s, steps, g) == o
                       && Escapes(s, steps, f, steps[i].c, FetchedFrom(s, steps, f))
  {
    var token := Submitted(s, steps, j);
    SubmitsOrigin(s, steps, f, j, c);
    var o := FetchedOrigin(s, steps, f);
    ResubmittedIff(s, steps, f, j, c);
    SubmitsAlone(s, steps, f, j, c);
    OriginExchangedIff(s, steps, f, j, f, o.value);
    if OriginExchangedIn(s, steps, 0, f, o) {
      ResubmittedEscaped(s, steps, f, j, c);
      var d := Before(s, steps, f).ledger.exchanged[token];
      var i := ExchangedBy(s, steps, f, token);
      Onward(s, steps, i);
      var g := FetchBefore(s, steps, i, d);
      SameTokenIff(s, steps, g, i, f, j);
      assert Exchange(s, steps, g, i);
    }
  }

  /** Only an exchange enters a token in the ledger, under its own call. */
  lemma ExchangerStep(s: State, step: Step, token: Token)
    requires Enabled(s, step) && token in Next(s, step).ledger.exchanged
    ensures
      if step.Send? && step.reply.Success? && PhaseOf(s, step.c).token == token
      then Next(s, step).ledger.exchanged[token] == step.c
      else (token, Next(s, step).ledger.exchanged[token]) in s.ledger.exchanged.Items
  {
    if !Rotates(step) {
      TokensStay(s, step);
    }
  }

  /** The ledger names a call that exchanged the token. */
  lemma {:induction false} ExchangedBy(s: State, steps: seq<Step>, f: nat, token: Token) returns (i: nat)
    requires Init(s) && Valid(s, steps) && f <= |steps| && token in Before(s, steps, f).ledger.exchanged
    ensures i < f && ExchangesAt(s, steps, i, token) && steps[i].c == Before(s, steps, f).ledger.exchanged[token]
    decreases f
  {
    assert f > 0 by { assert steps[..0] == []; }
    i := f - 1;
    Onward(s, steps, i);
    ExchangerStep(Before(s, steps, i), steps[i], token);
    if !ExchangesAt(s, steps, i, token) {
      i := ExchangedBy(s, steps, i, token);
    }
  }
}
