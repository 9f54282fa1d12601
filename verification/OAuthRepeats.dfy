/** What a failed or misplaced replacement leads to, where refreshes do not overlap: the next fetch from the
same half submits the exchanged token again, and nothing else makes it do so.
*/
module OAuthRepeats {
  import opened Text
  import opened OAuthStore
  import opened OAuthRefresh
  import opened OAuthRotation
  import opened OAuthOrigins
  import Keyring

  // ---------------------------------------------------------------------------
  // One half of the stored refresh token
  // ---------------------------------------------------------------------------

  /** The step stores a replacement in that half. */
  predicate PutsIn(s: State, step: Step, h: Half)
    requires Enabled(s, step)
  {
    Replacement(s, step).Some? && if h.Ring? then step.io.a.Up? else !step.io.a.Up? && step.io.file
  }

  predicate LandsIn(step: Step, h: Half) {
    step.Land? && step.entry.Refresh? && h.Ring?
  }

  /** The step stores the replacement in the other half, or its removal does not reach this one. */
  predicate Misses(s: State, step: Step, h: Half)
    requires Enabled(s, step)
  {
    step.StoreRefresh? &&
    if Replacement(s, step).Some? then Accepts(step.io) && (step.io.a.Up? <==> h.File?)
    else if h.Ring? then !step.io.a.Up? else !step.io.file
  }

  function HeldRefresh(s: State, h: Half): Option<Token> {
    Held(s.store.refresh, REFRESH, h)
  }

  /** Unless something is put there, a half keeps its token or loses it. */
  lemma HalfKeeps(s: State, step: Step, h: Half)
    requires Enabled(s, step) && !PutsIn(s, step, h) && !LandsIn(step, h)
    ensures HeldRefresh(Next(s, step), h) == None || HeldRefresh(Next(s, step), h) == HeldRefresh(s, h)
  {
    ChangedNext(s, step);
  }

  /** A step that replaces the token and does not miss the half leaves nothing else there. */
  lemma HalfReplaced(s: State, step: Step, h: Half)
    requires Enabled(s, step) && step.StoreRefresh? && !Misses(s, step, h)
    requires Replacement(s, step).Some? ==> Accepts(step.io)
    ensures HeldRefresh(Next(s, step), h) == Replacement(s, step)
  {
    ChangedNext(s, step);
  }

  ghost predicate PutsAt(s: State, steps: seq<Step>, k: nat, h: Half)
    requires Valid(s, steps) && k < |steps|
  {
    Onward(s, steps, k);
    PutsIn(Before(s, steps, k), steps[k], h)
  }

  ghost predicate MissesAt(s: State, steps: seq<Step>, k: nat, d: Caller, h: Half)
    requires Valid(s, steps) && k < |steps|
  {
    Onward(s, steps, k);
    steps[k].StoreRefresh? && steps[k].c == d && Misses(Before(s, steps, k), steps[k], h)
  }

  lemma {:induction false} HalfKept(s: State, steps: seq<Step>, lo: nat, hi: nat, h: Half)
    requires Valid(s, steps) && lo <= hi <= |steps|
    requires forall m :: lo <= m < hi ==> !PutsAt(s, steps, m, h) && !LandsIn(steps[m], h)
    requires HeldRefresh(Before(s, steps, hi), h).Some?
    ensures HeldRefresh(Before(s, steps, lo), h) == HeldRefresh(Before(s, steps, hi), h)
    decreases hi
  {
    if lo < hi {
      Onward(s, steps, hi - 1);
      assert !PutsAt(s, steps, hi - 1, h);
      HalfKeeps(Before(s, steps, hi - 1), steps[hi - 1], h);
      HalfKept(s, steps, lo, hi - 1, h);
    }
  }

  /** The call exchanged a token that step `k` leaves in the half, or that a late write still holds. */
  ghost predicate LeavesOld(s: State, steps: seq<Step>, k: nat, c: Caller, h: Half)
    requires Valid(s, steps) && k < |steps|
  {
    exists token ::
      && token in Before(s, steps, k).ledger.exchanged && Before(s, steps, k).ledger.exchanged[token] == c
      && ((h.Ring? && Keyring.Put(REFRESH, token) in Before(s, steps, k).store.refresh.late)
          || (HeldRefresh(Before(s, steps, k), h) == Some(token) && MissesAt(s, steps, k, c, h)))
  }

  lemma OldTokenStays(s: State, steps: seq<Step>, k: nat, h: Half, token: Token)
    requires Init(s) && Valid(s, steps) && k < |steps| && steps[k].StoreRefresh?
    requires !ReplacementFails(s, steps, k, steps[k].c) && token in Before(s, steps, k).ledger.exchanged
    ensures Reaches(Before(s, steps, k + 1).store.refresh, REFRESH, h, token) <==>
      || (h.Ring? && Keyring.Put(REFRESH, token) in Before(s, steps, k).store.refresh.late)
      || (HeldRefresh(Before(s, steps, k), h) == Some(token) && MissesAt(s, steps, k, steps[k].c, h))
  {
    Onward(s, steps, k);
    RotationAt(s, steps, k);
    var before, c := Before(s, steps, k), steps[k].c;
    assert PhaseFine(before.ledger, c, PhaseOf(before, c));
    ChangedNext(before, steps[k]);
    ReplacementLeavesIff(before.store.refresh, PhaseOf(before, c).grant, steps[k].io, h, token);
  }

  lemma StoringKeepsExchanged(s: State, steps: seq<Step>, k: nat)
    requires Valid(s, steps) && k < |steps| && steps[k].StoreRefresh?
    ensures Before(s, steps, k + 1).ledger.exchanged == Before(s, steps, k).ledger.exchanged
  {
    Onward(s, steps, k);
  }

  /** A replacement is one elsewhere exactly if it leaves such a token. */
  lemma ReplacesElsewhereIff(s: State, steps: seq<Step>, k: nat, c: Caller, h: Half)
    requires Init(s) && Valid(s, steps) && k < |steps|
    requires steps[k].StoreRefresh? && steps[k].c == c && !ReplacementFails(s, steps, k, c)
    ensures ReplacesElsewhere(s, steps, k, c, h) <==> LeavesOld(s, steps, k, c, h)
  {
    StoringKeepsExchanged(s, steps, k);
    forall token | token in Before(s, steps, k).ledger.exchanged
      ensures StillHolds(Before(s, steps, k + 1), c, h, token) <==>
        && Before(s, steps, k).ledger.exchanged[token] == c
        && ((h.Ring? && Keyring.Put(REFRESH, token) in Before(s, steps, k).store.refresh.late)
            || (HeldRefresh(Before(s, steps, k), h) == Some(token) && MissesAt(s, steps, k, c, h)))
    {
      OldTokenStays(s, steps, k, h, token);
    }
  }

  // ---------------------------------------------------------------------------
  // Who can replace a token after the last exchange
  // ---------------------------------------------------------------------------

  ghost predicate ReplacingAt(s: State, steps: seq<Step>, i: nat, c: Caller)
    requires Valid(s, steps)
  {
    i <= |steps| && Replacing(PhaseOf(Before(s, steps, i), c))
  }

  predicate Succeeds(steps: seq<Step>, i: nat) {
    i < |steps| && steps[i].Send? && steps[i].reply.Success?
  }

  /** A call that is replacing its token has been since the exchange succeeded. */
  lemma {:induction false} ReplacingSince(s: State, steps: seq<Step>, k: nat, c: Caller) returns (i: nat)
    requires Init(s) && Valid(s, steps) && ReplacingAt(s, steps, k, c)
    ensures i < k && Succeeds(steps, i) && steps[i].c == c
    ensures forall m :: i < m <= k ==> ReplacingAt(s, steps, m, c)
    decreases k
  {
    assert k > 0 by { assert steps[..0] == []; }
    PhaseStep(s, steps, k - 1, c);
    if Succeeds(steps, k - 1) && steps[k - 1].c == c {
      i := k - 1;
    } else {
      i := ReplacingSince(s, steps, k - 1, c);
    }
  }

  /** Step `i` is the last exchange before step `f`. */
  ghost predicate LastSuccess(steps: seq<Step>, i: nat, f: nat) {
    i < f <= |steps| && Succeeds(steps, i) && forall m :: i < m < f ==> !Succeeds(steps, m)
  }

  /** And it is of the token fetched at step `g`. */
  ghost predicate LastExchange(s: State, steps: seq<Step>, g: nat, i: nat, f: nat)
    requires Valid(s, steps)
  {
    LastSuccess(steps, i, f) && Exchange(s, steps, g, i)
  }

  /** Between that fetch and step `f` nobody else replaces a token, and the call itself does so without
      interruption. */
  lemma OnlyTheLastReplaces(s: State, steps: seq<Step>, g: nat, i: nat, f: nat, k: nat, e: Caller)
    requires Init(s) && Valid(s, steps) && NoOverlap(s, steps) && LastExchange(s, steps, g, i, f)
    requires g < k < f && ReplacingAt(s, steps, k, e)
    ensures e == steps[i].c && i < k && forall m :: i < m <= k ==> ReplacingAt(s, steps, m, e)
  {
    var d := steps[i].c;
    var sent := ReplacingSince(s, steps, k, e);
    var both := if k <= i then k else i;
    if sent < both {
      SubmitsWhatItFetched(s, steps, g, both, d);
      assert ReplacingAt(s, steps, both, e) && Alone(Before(s, steps, both));
      assert Exchanging(PhaseOf(Before(s, steps, both), d)) && Exchanging(PhaseOf(Before(s, steps, both), e));
    }
  }

  /** Step `k` ends the replacing of call `e`. */
  ghost predicate EndsAt(s: State, steps: seq<Step>, k: nat, e: Caller)
    requires Valid(s, steps)
  {
    ReplacingAt(s, steps, k, e) && !ReplacingAt(s, steps, k + 1, e)
  }

  lemma EndsOnce(s: State, steps: seq<Step>, g: nat, i: nat, f: nat, k: nat, e: Caller, k': nat, e': Caller)
    requires Init(s) && Valid(s, steps) && NoOverlap(s, steps) && LastExchange(s, steps, g, i, f)
    requires g < k < f && g < k' < f && EndsAt(s, steps, k, e) && EndsAt(s, steps, k', e')
    ensures k == k' && e == e' == steps[i].c
  {
    OnlyTheLastReplaces(s, steps, g, i, f, k, e);
    OnlyTheLastReplaces(s, steps, g, i, f, k', e');
  }

  lemma StoringEnds(s: State, steps: seq<Step>, k: nat)
    requires Valid(s, steps) && k < |steps| && (steps[k].StoreRefresh? || (steps[k].StoreAccess? && !steps[k].ok))
    ensures EndsAt(s, steps, k, steps[k].c)
  {
    Onward(s, steps, k);
    Stored(Before(s, steps, k), steps[k]);
  }

  lemma Stored(s: State, step: Step)
    requires Enabled(s, step) && (step.StoreRefresh? || (step.StoreAccess? && !step.ok))
    ensures Replacing(PhaseOf(s, step.c)) && !Replacing(PhaseOf(Next(s, step), step.c))
  {
  }

  lemma {:induction false} StopsReplacing(s: State, steps: seq<Step>, lo: nat, hi: nat, c: Caller) returns (k: nat)
    requires Valid(s, steps) && lo <= hi <= |steps| && ReplacingAt(s, steps, lo, c) && !ReplacingAt(s, steps, hi, c)
    ensures lo <= k < hi && EndsAt(s, steps, k, c)
    decreases hi
  {
    if ReplacingAt(s, steps, hi - 1, c) {
      k := hi - 1;
    } else {
      k := StopsReplacing(s, steps, lo, hi - 1, c);
    }
  }

  // ---------------------------------------------------------------------------
  // The law
  // ---------------------------------------------------------------------------

  /** The call that made the exchange at step `i` fails to replace its token before step `f`, or leaves it
      in that half. */
  ghost predicate Leaves(s: State, steps: seq<Step>, i: nat, f: nat, h: Half)
    requires Valid(s, steps) && i < f <= |steps| && steps[i].Send?
  {
    exists k :: i < k < f && (ReplacementFails(s, steps, k, steps[i].c) || MissesAt(s, steps, k, steps[i].c, h))
  }

  /** Nothing is put in the half but by the step that ends the replacing. */
  lemma NothingElsePut(s: State, steps: seq<Step>, g: nat, i: nat, f: nat, h: Half, k: nat, e: Caller, m: nat)
    requires Init(s) && Valid(s, steps) && NoOverlap(s, steps) && LastExchange(s, steps, g, i, f)
    requires g < k < f && EndsAt(s, steps, k, e) && g < m < f && m != k
    ensures !PutsAt(s, steps, m, h)
  {
    if steps[m].StoreRefresh? {
      StoringEnds(s, steps, m);
      EndsOnce(s, steps, g, i, f, k, e, m, steps[m].c);
    }
  }

  /** And not by that step if the token is left there. */
  lemma NothingPut(s: State, steps: seq<Step>, g: nat, i: nat, f: nat, h: Half, k: nat, m: nat)
    requires Init(s) && Valid(s, steps) && NoOverlap(s, steps) && LastExchange(s, steps, g, i, f)
    requires i < k < f && (ReplacementFails(s, steps, k, steps[i].c) || MissesAt(s, steps, k, steps[i].c, h))
    requires g < m < f
    ensures !PutsAt(s, steps, m, h)
  {
    Onward(s, steps, k);
    if m != k {
      StoringEnds(s, steps, k);
      NothingElsePut(s, steps, g, i, f, h, k, steps[k].c, m);
    }
  }

  lemma LeavingRepeats(s: State, steps: seq<Step>, g: nat, i: nat, f: nat, j: nat, c: Caller)
    requires Init(s) && Valid(s, steps) && NoOverlap(s, steps) && j < |steps| && Fetches(s, steps, f, j, c)
    requires steps[j].Send? && steps[j].c == c && LastExchange(s, steps, g, i, f)
    requires FetchedFrom(s, steps, g) == FetchedFrom(s, steps, f)
    requires forall m :: g < m < f ==> !LandsIn(steps[m], FetchedFrom(s, steps, f))
    requires Leaves(s, steps, i, f, FetchedFrom(s, steps, f))
    ensures Submitted(s, steps, i) == Submitted(s, steps, j)
  {
    var h := FetchedFrom(s, steps, f);
    var k :| i < k < f && (ReplacementFails(s, steps, k, steps[i].c) || MissesAt(s, steps, k, steps[i].c, h));
    SubmitsWhatItFetched(s, steps, f, j, c);
    SubmitsWhatItFetched(s, steps, g, i, steps[i].c);
    forall m | g <= m < f ensures !PutsAt(s, steps, m, h) && !LandsIn(steps[m], h) {
      if m > g {
        NothingPut(s, steps, g, i, f, h, k, m);
      }
    }
    HalfKept(s, steps, g, f, h);
  }

  /** Otherwise some step puts the replacement there, or leaves nothing there. */
  lemma ReplacesAt(s: State, steps: seq<Step>, g: nat, i: nat, f: nat, h: Half) returns (k: nat)
    requires Valid(s, steps) && LastExchange(s, steps, g, i, f)
    requires !ReplacingAt(s, steps, f, steps[i].c) && !Leaves(s, steps, i, f, h)
    ensures i < k < f && EndsAt(s, steps, k, steps[i].c)
    ensures steps[k].StoreRefresh? && steps[k].c == steps[i].c
    ensures HeldRefresh(Before(s, steps, k + 1), h) == ReplacementAt(s, steps, k)
  {
    var d := steps[i].c;
    Onward(s, steps, i);
    assert ReplacingAt(s, steps, i + 1, d);
    k := StopsReplacing(s, steps, i + 1, f, d);
    PhaseStep(s, steps, k, d);
    Onward(s, steps, k);
    assert !ReplacementFails(s, steps, k, d) && !MissesAt(s, steps, k, d, h);
    StopsByStoring(Before(s, steps, k), steps[k], d);
    HalfReplaced(Before(s, steps, k), steps[k], h);
  }

  /** There it stays. */
  lemma ReplacementStays(s: State, steps: seq<Step>, g: nat, i: nat, f: nat, h: Half, k: nat)
    requires Init(s) && Valid(s, steps) && NoOverlap(s, steps) && LastExchange(s, steps, g, i, f)
    requires forall m :: g < m < f ==> !LandsIn(steps[m], h)
    requires g < i < k < f && EndsAt(s, steps, k, steps[i].c) && HeldRefresh(Before(s, steps, f), h).Some?
    ensures HeldRefresh(Before(s, steps, k + 1), h) == HeldRefresh(Before(s, steps, f), h)
  {
    forall m | k + 1 <= m < f ensures !PutsAt(s, steps, m, h) && !LandsIn(steps[m], h) {
      NothingElsePut(s, steps, g, i, f, h, k, steps[i].c, m);
    }
    HalfKept(s, steps, k + 1, f, h);
  }

  /** And no call has exchanged it. */
  lemma ReplacingEndsIt(s: State, steps: seq<Step>, g: nat, i: nat, f: nat, h: Half)
    requires Init(s) && Valid(s, steps) && NoOverlap(s, steps) && LastExchange(s, steps, g, i, f)
    requires forall m :: g < m < f ==> !LandsIn(steps[m], h)
    requires !ReplacingAt(s, steps, f, steps[i].c) && !Leaves(s, steps, i, f, h)
    requires HeldRefresh(Before(s, steps, f), h).Some?
    ensures HeldRefresh(Before(s, steps, f), h).value !in Before(s, steps, f).ledger.exchanged
  {
    var k := ReplacesAt(s, steps, g, i, f, h);
    ReplacementStays(s, steps, g, i, f, h, k);
    StoredIsUnexchanged(s, steps, i, k, f);
  }

  lemma StoredIsUnexchanged(s: State, steps: seq<Step>, i: nat, k: nat, f: nat)
    requires Init(s) && Valid(s, steps) && i < k < f <= |steps| && StoresAt(s, steps, k)
    requires forall m :: i < m < f ==> !Succeeds(steps, m)
    ensures TokenFrom(s, steps, StoredAt(k)) !in Before(s, steps, f).ledger.exchanged
  {
    var token := TokenFrom(s, steps, StoredAt(k));
    StoredIsNew(s, steps, k);
    RotationAt(s, steps, k);
    ExchangedSince(s, steps, k, f, token);
    forall m | k <= m < f ensures !ExchangesAt(s, steps, m, token) {
      assert !Succeeds(steps, m);
    }
  }

  /** A call stops replacing its token by storing the replacement, or by failing before. */
  lemma StopsByStoring(s: State, step: Step, d: Caller)
    requires Enabled(s, step) && Actor(step) == Some(d)
    requires Replacing(PhaseOf(s, d)) && !Replacing(PhaseOf(Next(s, step), d))
    ensures step.StoreRefresh? || (step.StoreAccess? && !step.ok)
  {
  }

  /** Where refreshes do not overlap: let the last exchange before a fetch be of a token that was fetched
      from the same half, and let no late write land there in between. The call then submits an exchanged
      token if and only if that exchange was followed by a failed replacement, or by one that went to the
      other half, or by a removal that did not reach this one; and it is that exchange's token. */
  lemma LeftBehindIff(s: State, steps: seq<Step>, g: nat, i: nat, f: nat, j: nat, c: Caller)
    requires Init(s) && Valid(s, steps) && NoOverlap(s, steps) && j < |steps| && Fetches(s, steps, f, j, c)
    requires steps[j].Send? && steps[j].c == c && LastExchange(s, steps, g, i, f)
    requires FetchedFrom(s, steps, g) == FetchedFrom(s, steps, f)
    requires forall m :: g < m < f ==> !LandsIn(steps[m], FetchedFrom(s, steps, f))
    ensures ExchangedIn(s, steps, 0, j, Submitted(s, steps, j)) <==> Leaves(s, steps, i, f, FetchedFrom(s, steps, f))
    ensures Leaves(s, steps, i, f, FetchedFrom(s, steps, f)) ==> Submitted(s, steps, i) == Submitted(s, steps, j)
  {
    var h, token := FetchedFrom(s, steps, f), Submitted(s, steps, j);
    if Leaves(s, steps, i, f, h) {
      LeavingRepeats(s, steps, g, i, f, j, c);
      assert ExchangesAt(s, steps, i, token);
    } else {
      SubmitsAlone(s, steps, f, j, c);
      SubmitsWhatItFetched(s, steps, f, j, c);
      ReplacingEndsIt(s, steps, g, i, f, h);
      ExchangedBefore(s, steps, j, token);
      ExchangedSince(s, steps, f, j, token);
    }
  }

  // ---------------------------------------------------------------------------
  // Any number of exchanges, from either half
  // ---------------------------------------------------------------------------

  /** No late write of the refresh token lands before step `n`. */
  ghost predicate NoLandings(steps: seq<Step>, n: nat) {
    n <= |steps| && forall m :: 0 <= m < n ==> !LandsIn(steps[m], Ring)
  }

  ghost predicate NoPutSince(s: State, steps: seq<Step>, lo: nat, hi: nat, h: Half)
    requires Valid(s, steps)
  {
    hi <= |steps| && forall m :: lo <= m < hi ==> !PutsAt(s, steps, m, h)
  }

  /** An origin that a half has without landings: the half itself, or the step that last put a token there. */
  ghost predicate LastPut(s: State, steps: seq<Step>, n: nat, h: Half, o: Origin)
    requires Valid(s, steps)
  {
    match o
    case Initially(half) => half == h && NoPutSince(s, steps, 0, n, h)
    case StoredAt(q) => q < n <= |steps| && PutsAt(s, steps, q, h) && NoPutSince(s, steps, q + 1, n, h)
  }

  lemma ChangedHalf(k: Keyring.State<Origin>, s: State, step: Step, o: Origin, h: Half)
    requires Enabled(s, step) && !LandsIn(step, h)
    ensures Held(Changed(k, s, step, o), REFRESH, h) in
      if PutsIn(s, step, h) then {Some(o)} else {None, Held(k, REFRESH, h)}
  {
  }

  predicate HalvesDiffer(k: Keyring.State<Token>) {
    Held(k, REFRESH, Ring) == Held(k, REFRESH, File) ==> Held(k, REFRESH, Ring) == None
  }

  lemma OriginStep(s: State, steps: seq<Step>, n: nat, h: Half)
    requires Valid(s, steps) && n < |steps| && !LandsIn(steps[n], h)
    ensures Held(Origins(s, steps, n + 1), REFRESH, h) in
      if PutsAt(s, steps, n, h) then {Some(StoredAt(n))} else {None, Held(Origins(s, steps, n), REFRESH, h)}
  {
    Onward(s, steps, n);
    ChangedHalf(Origins(s, steps, n), Before(s, steps, n), steps[n], StoredAt(n), h);
  }

  lemma LastPutStays(s: State, steps: seq<Step>, n: nat, h: Half, o: Origin)
    requires Valid(s, steps) && n < |steps| && LastPut(s, steps, n, h, o) && !PutsAt(s, steps, n, h)
    ensures LastPut(s, steps, n + 1, h, o)
  {
  }

  lemma {:induction false} OriginIsLastPut(s: State, steps: seq<Step>, n: nat, h: Half)
    requires Valid(s, steps) && NoLandings(steps, n) && HalvesDiffer(s.store.refresh)
    requires Held(Origins(s, steps, n), REFRESH, h).Some?
    ensures LastPut(s, steps, n, h, Held(Origins(s, steps, n), REFRESH, h).value)
    decreases n
  {
    if n > 0 {
      OriginStep(s, steps, n - 1, h);
      if !PutsAt(s, steps, n - 1, h) {
        OriginIsLastPut(s, steps, n - 1, h);
        LastPutStays(s, steps, n - 1, h, Held(Origins(s, steps, n), REFRESH, h).value);
      }
    }
  }

  /** Where refreshes do not overlap and no late write lands, a submission repeats an exchanged refresh token
      if and only if some call exchanged what it had fetched from the same half, and nothing has been put
      in that half since it fetched. The keyring may come and go, and other calls may have fetched from,
      and stored into, the other half. */
  lemma NothingPutSinceIff(s: State, steps: seq<Step>, f: nat, j: nat, c: Caller)
    requires Init(s) && Valid(s, steps) && NoOverlap(s, steps) && j < |steps| && Fetches(s, steps, f, j, c)
    requires steps[j].Send? && steps[j].c == c && NoLandings(steps, f) && HalvesDiffer(s.store.refresh)
    ensures var h := FetchedFrom(s, steps, f);
      ExchangedIn(s, steps, 0, j, Submitted(s, steps, j)) <==>
        exists g: nat, i: nat :: i < f && Exchange(s, steps, g, i) && FetchedFrom(s, steps, g) == h
                                 && NoPutSince(s, steps, g, f, h)
  {
    var h := FetchedFrom(s, steps, f);
    forall g: nat, i: nat | i < f && Exchange(s, steps, g, i)
      ensures FetchedOrigin(s, steps, g) == FetchedOrigin(s, steps, f)
         <==> FetchedFrom(s, steps, g) == h && NoPutSince(s, steps, g, f, h)
    {
      SameOriginIff(s, steps, g, i, f, j, c);
    }
    ResubmittedIff(s, steps, f, j, c);
    SubmitsAlone(s, steps, f, j, c);
    SubmitsOrigin(s, steps, f, j, c);
    OriginExchangedIff(s, steps, f, j, f, FetchedOrigin(s, steps, f).value);
  }

  lemma SameOriginIff(s: State, steps: seq<Step>, g: nat, i: nat, f: nat, j: nat, c: Caller)
    requires Init(s) && Valid(s, steps) && j < |steps| && Fetches(s, steps, f, j, c)
    requires steps[j].Send? && steps[j].c == c && NoLandings(steps, f) && HalvesDiffer(s.store.refresh)
    requires i < f && Exchange(s, steps, g, i)
    ensures var h := FetchedFrom(s, steps, f);
      FetchedOrigin(s, steps, g) == FetchedOrigin(s, steps, f)
      <==> FetchedFrom(s, steps, g) == h && NoPutSince(s, steps, g, f, h)
  {
    var h := FetchedFrom(s, steps, f);
    SubmitsOrigin(s, steps, f, j, c);
    SubmitsOrigin(s, steps, g, i, steps[i].c);
    OriginIsLastPut(s, steps, f, h);
    OriginIsLastPut(s, steps, g, FetchedFrom(s, steps, g));
    if FetchedFrom(s, steps, g) == h && NoPutSince(s, steps, g, f, h) {
      SubmitsWhatItFetched(s, steps, f, j, c);
      SubmitsWhatItFetched(s, steps, g, i, steps[i].c);
      HalfKept(s, steps, g, f, h);
      SameTokenIff(s, steps, g, i, f, j);
    }
  }

  /** The last exchange before a step, if there is any. */
  lemma {:induction false} FindLastExchange(s: State, steps: seq<Step>, f: nat) returns (g: nat, i: nat)
    requires Init(s) && Valid(s, steps) && f <= |steps| && exists m :: 0 <= m < f && Succeeds(steps, m)
    ensures LastExchange(s, steps, g, i, f)
    decreases f
  {
    if Succeeds(steps, f - 1) {
      i := f - 1;
      Onward(s, steps, i);
      g := FetchBefore(s, steps, i, steps[i].c);
    } else {
      g, i := FindLastExchange(s, steps, f - 1);
    }
  }
}
