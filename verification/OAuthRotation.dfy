/** Single use of the refresh token (section 6 of RFC 6749): what excuses a call whose exchanged token is
still stored, or submitted again. The mutex is not assumed here, and the keyring may come and go.
*/
module OAuthRotation {
  import opened Text
  import opened OAuthStore
  import opened OAuthRefresh
  import Keyring

  // ---------------------------------------------------------------------------
  // Token rotation, in every interleaving
  // ---------------------------------------------------------------------------

  predicate Replacing(phase: Phase) {
    phase.Granted? || phase.StoringRefresh?
  }

  /** A call that has exchanged its token is still about to replace it, or has failed to, or has
      replaced it elsewhere. */
  predicate Excused(s: State, c: Caller, h: Half) {
    Replacing(PhaseOf(s, c)) || c in s.ledger.unreplaced || (c, h) in s.ledger.left
  }

  predicate TokenFine(s: State, h: Half, token: Token) {
    && token in s.ledger.released
    && (token in s.ledger.exchanged ==> Excused(s, s.ledger.exchanged[token], h))
  }

  ghost predicate HalvesFine(s: State) {
    forall h, token :: Reaches(s.store.refresh, REFRESH, h, token) ==> TokenFine(s, h, token)
  }

  predicate LedgerFine(l: Ledger) {
    l.exchanged.Keys <= l.spent * l.released && l.spent <= l.issued && l.released <= l.issued
  }

  /** A replacement that is not stored yet is known to nobody else. */
  predicate PhaseFine(l: Ledger, c: Caller, phase: Phase) {
    && (phase.Sending? ==> phase.token in l.released)
    && (Replacing(phase) && phase.grant.refresh.Some? ==>
          var token := phase.grant.refresh.value;
          token in l.issued && token !in l.released && token in l.granted && l.granted[token] == c)
  }

  ghost predicate Rotation(s: State) {
    && HalvesFine(s) && LedgerFine(s.ledger)
    && forall c: Caller :: PhaseFine(s.ledger, c, PhaseOf(s, c))
  }

  /** The two steps that make refresh tokens known: an exchange and the storing of a replacement. */
  predicate Rotates(step: Step) {
    (step.Send? && step.reply.Success?) || step.StoreRefresh?
  }

  predicate SameTokens(l: Ledger, l': Ledger, spent: set<Token>) {
    && l'.issued == l.issued && l'.granted == l.granted && l'.released == l.released && l'.exchanged == l.exchanged
    && l.spent <= l'.spent <= l.spent + spent
    && l.unreplaced <= l'.unreplaced && l'.left == l.left
  }

  function SentBy(s: State, step: Step): set<Token>
    requires Enabled(s, step)
  {
    if step.Send? then {PhaseOf(s, step.c).token} else {}
  }

  /** Every other step leaves the tokens alone. */
  lemma TokensStay(s: State, step: Step)
    requires Enabled(s, step) && !Rotates(step)
    ensures SameTokens(s.ledger, Next(s, step).ledger, SentBy(s, step))
  {
    if Actor(step).None? || BeforeReply(step) {
      EarlyTokensStay(s, step);
    } else if step.Send? {
      ReplyTokensStay(s, step);
    } else {
      LateTokensStay(s, step);
    }
  }

  lemma EarlyTokensStay(s: State, step: Step)
    requires Enabled(s, step) && (Actor(step).None? || BeforeReply(step))
    ensures SameTokens(s.ledger, Next(s, step).ledger, {})
  {
  }

  lemma ReplyTokensStay(s: State, step: Step)
    requires Enabled(s, step) && step.Send? && !step.reply.Success?
    ensures SameTokens(s.ledger, Next(s, step).ledger, SentBy(s, step))
  {
  }

  lemma LateTokensStay(s: State, step: Step)
    requires Enabled(s, step) && !Rotates(step) && Actor(step).Some? && !BeforeReply(step) && !step.Send?
    ensures SameTokens(s.ledger, Next(s, step).ledger, {})
  {
    if step.Clear? {
      ClearedTokensStay(s, step);
    }
  }

  lemma ClearedTokensStay(s: State, step: Step)
    requires Enabled(s, step) && step.Clear?
    ensures SameTokens(s.ledger, Next(s, step).ledger, {})
  {
  }

  /** The stored refresh token changes only by storing or clearing it and by a landing. */
  lemma RefreshStays(s: State, step: Step)
    requires Enabled(s, step) && !step.StoreRefresh? && !step.Clear? && !step.Land?
    ensures Next(s, step).store.refresh == s.store.refresh
  {
    if step.Send? || step.SaveExpiry? || step.StoreAccess? || step.Stamp? {
      LateRefreshStays(s, step);
    }
  }

  lemma LateRefreshStays(s: State, step: Step)
    requires Enabled(s, step) && (step.Send? || step.SaveExpiry? || step.StoreAccess? || step.Stamp?)
    ensures Next(s, step).store.refresh == s.store.refresh
  {
  }

  /** Nothing new reaches a half but by storing it. */
  lemma NothingNew(s: State, step: Step, h: Half, token: Token)
    requires Enabled(s, step) && !step.StoreRefresh?
    requires Reaches(Next(s, step).store.refresh, REFRESH, h, token)
    ensures Reaches(s.store.refresh, REFRESH, h, token)
  {
    if step.Clear? {
      ClearedNothingNew(s, step, h, token);
    } else if step.Land? {
      if step.entry.Refresh? {
        ReachesAfterLanding(s.store.refresh, REFRESH, step.i, h, token);
      }
    } else {
      RefreshStays(s, step);
    }
  }

  lemma ClearedNothingNew(s: State, step: Step, h: Half, token: Token)
    requires Enabled(s, step) && step.Clear? && Reaches(Next(s, step).store.refresh, REFRESH, h, token)
    ensures Reaches(s.store.refresh, REFRESH, h, token)
  {
    if Next(s, step).store.refresh != s.store.refresh {
      ReachesAfterDrop(s.store.refresh, REFRESH, step.io, h, token);
    }
  }

  lemma StepKeepsHalves(s: State, step: Step)
    requires Rotation(s) && Enabled(s, step)
    ensures HalvesFine(Next(s, step)) && LedgerFine(Next(s, step).ledger)
  {
    if Actor(step).Some? {
      assert PhaseFine(s.ledger, step.c, PhaseOf(s, step.c));
    }
    if !Rotates(step) {
      TokensStay(s, step);
    }
    forall h, token | Reaches(Next(s, step).store.refresh, REFRESH, h, token)
      ensures TokenFine(Next(s, step), h, token)
    {
      if step.StoreRefresh? {
        StoringKeepsToken(s, step, h, token);
      } else {
        NothingNew(s, step, h, token);
        assert TokenFine(s, h, token);
        if step.Send? && step.reply.Success? {
          ExchangeKeepsToken(s, step, h, token);
        } else {
          OthersKeepToken(s, step, h, token);
        }
      }
    }
  }

  lemma OthersKeepToken(s: State, step: Step, h: Half, token: Token)
    requires Enabled(s, step) && !Rotates(step) && TokenFine(s, h, token)
    ensures TokenFine(Next(s, step), h, token)
  {
    TokensStay(s, step);
    if token in s.ledger.exchanged {
      var d := s.ledger.exchanged[token];
      if Actor(step) != Some(d) {
        OthersStay(s, step, d);
      } else if Replacing(PhaseOf(s, d)) {
        ReplacingOnwards(s, step);
      }
    }
  }

  /** A call that is replacing its token goes on to, or fails. */
  lemma ReplacingOnwards(s: State, step: Step)
    requires Enabled(s, step) && Actor(step).Some? && Replacing(PhaseOf(s, step.c)) && !step.StoreRefresh?
    ensures Replacing(PhaseOf(Next(s, step), step.c)) || step.c in Next(s, step).ledger.unreplaced
  {
  }

  lemma ExchangeKeepsToken(s: State, step: Step, h: Half, token: Token)
    requires Enabled(s, step) && step.Send? && step.reply.Success? && TokenFine(s, h, token)
    ensures TokenFine(Next(s, step), h, token)
  {
    if token in s.ledger.exchanged && s.ledger.exchanged[token] != step.c {
      OthersStay(s, step, s.ledger.exchanged[token]);
    }
  }

  lemma StoringKeepsToken(s: State, step: Step, h: Half, token: Token)
    requires HalvesFine(s) && LedgerFine(s.ledger) && Enabled(s, step) && step.StoreRefresh?
    requires PhaseFine(s.ledger, step.c, PhaseOf(s, step.c))
    requires Reaches(Next(s, step).store.refresh, REFRESH, h, token)
    ensures TokenFine(Next(s, step), h, token)
  {
    var c, grant := step.c, PhaseOf(s, step.c).grant;
    if grant.refresh.Some? {
      ReachesAfterWrite(s.store.refresh, REFRESH, grant.refresh.value, step.io, h, token);
    } else {
      ReachesAfterDrop(s.store.refresh, REFRESH, step.io, h, token);
    }
    if grant.refresh != Some(token) {
      assert TokenFine(s, h, token);
      if token in s.ledger.exchanged {
        if s.ledger.exchanged[token] == c {
          StoringExcuses(s, step, h, token);
        } else {
          OthersStay(s, step, s.ledger.exchanged[token]);
        }
      }
    }
  }

  lemma StoringExcuses(s: State, step: Step, h: Half, token: Token)
    requires Enabled(s, step) && step.StoreRefresh? && (token, step.c) in s.ledger.exchanged.Items
    requires Reaches(Next(s, step).store.refresh, REFRESH, h, token)
    ensures step.c in Next(s, step).ledger.unreplaced || (step.c, h) in Next(s, step).ledger.left
  {
  }

  lemma StepKeepsPhase(s: State, step: Step, c: Caller)
    requires Rotation(s) && Enabled(s, step)
    ensures PhaseFine(Next(s, step).ledger, c, PhaseOf(Next(s, step), c))
  {
    assert PhaseFine(s.ledger, c, PhaseOf(s, c));
    if Actor(step) == Some(c) {
      ActorKeepsPhase(s, step);
    } else {
      OthersStay(s, step, c);
      if Rotates(step) {
        assert PhaseFine(s.ledger, step.c, PhaseOf(s, step.c));
        RotatingKeepsOther(s, step, c, PhaseOf(s, c));
      } else {
        TokensStay(s, step);
      }
    }
  }

  lemma RotatingKeepsOther(s: State, step: Step, c: Caller, phase: Phase)
    requires Enabled(s, step) && Rotates(step) && c != step.c
    requires PhaseFine(s.ledger, step.c, PhaseOf(s, step.c)) && PhaseFine(s.ledger, c, phase)
    ensures PhaseFine(Next(s, step).ledger, c, phase)
  {
  }

  lemma FetchedIsReleased(s: State, io: Io)
    requires HalvesFine(s) && Read(s.store.refresh, REFRESH, io).Ok? && Read(s.store.refresh, REFRESH, io).value.Some?
    ensures Read(s.store.refresh, REFRESH, io).value.value in s.ledger.released
  {
    ReadIsHeld(s.store.refresh, REFRESH, io);
    assert Reaches(s.store.refresh, REFRESH, HalfRead(s.store.refresh, REFRESH, io),
                   Read(s.store.refresh, REFRESH, io).value.value);
  }

  lemma ActorKeepsPhase(s: State, step: Step)
    requires HalvesFine(s) && LedgerFine(s.ledger) && Enabled(s, step) && Actor(step).Some?
    requires PhaseFine(s.ledger, step.c, PhaseOf(s, step.c))
    ensures PhaseFine(Next(s, step).ledger, step.c, PhaseOf(Next(s, step), step.c))
  {
    if BeforeReply(step) {
      EarlyMoves(s, step);
    } else {
      LateMoves(s, step);
    }
    if step.Fetch? && PhaseOf(Next(s, step), step.c).Sending? {
      FetchedIsReleased(s, step.io);
    }
    if !Rotates(step) {
      TokensStay(s, step);
    }
  }

  lemma StepKeepsRotation(s: State, step: Step)
    requires Rotation(s) && Enabled(s, step)
    ensures Rotation(Next(s, step))
  {
    StepKeepsHalves(s, step);
    forall c: Caller ensures PhaseFine(Next(s, step).ledger, c, PhaseOf(Next(s, step), c)) {
      StepKeepsPhase(s, step, c);
    }
  }

  lemma {:induction false} RunKeepsRotation(s: State, steps: seq<Step>)
    requires Rotation(s) && Valid(s, steps)
    ensures Rotation(Exec(s, steps))
    decreases |steps|
  {
    if steps != [] {
      StepKeepsRotation(s, steps[0]);
      RunKeepsRotation(Next(s, steps[0]), steps[1..]);
    }
  }

  lemma RotationAt(s: State, steps: seq<Step>, i: nat)
    requires Init(s) && Valid(s, steps) && i <= |steps|
    ensures Rotation(Before(s, steps, i))
  {
    Split(s, steps, i);
    RunKeepsRotation(s, steps[..i]);
  }

  /** In every interleaving, with or without the mutex, however the keyring comes and goes: the call that
      exchanged a refresh token which is still in one of the halves is about to replace it, failed to, or
      replaced it elsewhere. */
  lemma StoredTokenExcused(s: State, steps: seq<Step>, h: Half)
    requires Init(s) && Valid(s, steps) && Held(Exec(s, steps).store.refresh, REFRESH, h).Some?
    ensures var t := Exec(s, steps);
      var token := Held(t.store.refresh, REFRESH, h).value;
      token in t.ledger.exchanged ==> Excused(t, t.ledger.exchanged[token], h)
  {
    RunKeepsRotation(s, steps);
    var t := Exec(s, steps);
    var token := Held(t.store.refresh, REFRESH, h).value;
    assert TokenFine(t, h, token) by { assert Reaches(t.store.refresh, REFRESH, h, token); }
  }

  // ---------------------------------------------------------------------------
  // When a refresh token is submitted again
  // ---------------------------------------------------------------------------

  /** The refresh token that step `i` of a run submits. */
  ghost function Submitted(s: State, steps: seq<Step>, i: nat): Token
    requires Valid(s, steps) && i < |steps| && steps[i].Send?
  {
    Onward(s, steps, i);
    PhaseOf(Before(s, steps, i), steps[i].c).token
  }

  /** Step `i` exchanges `token` in a successful refresh. */
  ghost predicate ExchangesAt(s: State, steps: seq<Step>, i: nat, token: Token)
    requires Valid(s, steps)
  {
    i < |steps| && steps[i].Send? && steps[i].reply.Success? && Submitted(s, steps, i) == token
  }

  ghost predicate ExchangedIn(s: State, steps: seq<Step>, lo: nat, hi: nat, token: Token)
    requires Valid(s, steps)
  {
    exists i :: lo <= i < hi && ExchangesAt(s, steps, i, token)
  }

  lemma ExchangedStep(s: State, steps: seq<Step>, i: nat, token: Token)
    requires Valid(s, steps) && i < |steps|
    ensures token in Before(s, steps, i + 1).ledger.exchanged
       <==> token in Before(s, steps, i).ledger.exchanged || ExchangesAt(s, steps, i, token)
  {
    Onward(s, steps, i);
    var before, step := Before(s, steps, i), steps[i];
    if !Rotates(step) {
      TokensStay(before, step);
    }
  }

  lemma {:induction false} ExchangedSince(s: State, steps: seq<Step>, lo: nat, hi: nat, token: Token)
    requires Valid(s, steps) && lo <= hi <= |steps|
    ensures token in Before(s, steps, hi).ledger.exchanged
       <==> token in Before(s, steps, lo).ledger.exchanged || ExchangedIn(s, steps, lo, hi, token)
    decreases hi
  {
    if lo < hi {
      ExchangedSince(s, steps, lo, hi - 1, token);
      ExchangedStep(s, steps, hi - 1, token);
      if ExchangesAt(s, steps, hi - 1, token) {
        assert ExchangedIn(s, steps, lo, hi, token);
      }
      if ExchangedIn(s, steps, lo, hi - 1, token) {
        var i :| lo <= i < hi - 1 && ExchangesAt(s, steps, i, token);
        assert ExchangedIn(s, steps, lo, hi, token);
      }
    }
  }

  /** Step `f` of the run fetches a refresh token for call `c`, and the call does nothing else until
      step `j`. */
  ghost predicate Fetches(s: State, steps: seq<Step>, f: nat, j: nat, c: Caller)
    requires Valid(s, steps)
  {
    && f < j <= |steps| && steps[f].Fetch? && steps[f].c == c
    && PhaseOf(Before(s, steps, f + 1), c).Sending?
    && forall k :: f < k < j ==> Actor(steps[k]) != Some(c)
  }

  /** The half that a fetch reads, and what it finds there. */
  ghost function FetchedFrom(s: State, steps: seq<Step>, f: nat): Half
    requires Valid(s, steps) && f < |steps| && steps[f].Fetch?
  {
    HalfRead(Before(s, steps, f).store.refresh, REFRESH, steps[f].io)
  }

  /** A call submits what it fetched. */
  lemma {:induction false} SubmitsWhatItFetched(s: State, steps: seq<Step>, f: nat, i: nat, c: Caller)
    requires Valid(s, steps) && Fetches(s, steps, f, i, c)
    ensures var h := FetchedFrom(s, steps, f);
      && Held(Before(s, steps, f).store.refresh, REFRESH, h).Some?
      && PhaseOf(Before(s, steps, i), c) == Sending(Held(Before(s, steps, f).store.refresh, REFRESH, h).value)
    decreases i
  {
    if i > f + 1 {
      SubmitsWhatItFetched(s, steps, f, i - 1, c);
      PhaseStep(s, steps, i - 1, c);
    } else {
      Onward(s, steps, f);
      PhaseStep(s, steps, f, c);
      ReadIsHeld(Before(s, steps, f).store.refresh, REFRESH, steps[f].io);
    }
  }

  /** Every submission follows a fetch. */
  lemma {:induction false} FetchBefore(s: State, steps: seq<Step>, j: nat, c: Caller) returns (f: nat)
    requires Valid(s, steps) && j <= |steps| && PhaseOf(s, c).Idle? && PhaseOf(Before(s, steps, j), c).Sending?
    ensures Fetches(s, steps, f, j, c)
    decreases j
  {
    assert j > 0 by { assert steps[..0] == []; }
    PhaseStep(s, steps, j - 1, c);
    if Actor(steps[j - 1]) == Some(c) {
      f := j - 1;
    } else {
      f := FetchBefore(s, steps, j - 1, c);
    }
  }

  /** When a fetched token had been exchanged, the call that did so was still about to replace it, had
      failed to, or had replaced it elsewhere than in the half that the fetch reads. */
  lemma FetchedExcused(s: State, steps: seq<Step>, f: nat, j: nat, c: Caller)
    requires Init(s) && Valid(s, steps) && j < |steps| && Fetches(s, steps, f, j, c)
    requires steps[j].Send? && steps[j].c == c
    ensures var fetched, token := Before(s, steps, f), Submitted(s, steps, j);
      token in fetched.ledger.exchanged ==>
        Excused(fetched, fetched.ledger.exchanged[token], FetchedFrom(s, steps, f))
  {
    SubmitsWhatItFetched(s, steps, f, j, c);
    Split(s, steps, f);
    StoredTokenExcused(s, steps[..f], FetchedFrom(s, steps, f));
  }

  lemma ExchangedBefore(s: State, steps: seq<Step>, i: nat, token: Token)
    requires Init(s) && Valid(s, steps) && i <= |steps|
    ensures token in Before(s, steps, i).ledger.exchanged <==> ExchangedIn(s, steps, 0, i, token)
  {
    ExchangedSince(s, steps, 0, i, token);
    assert Before(s, steps, 0) == s by { assert steps[..0] == []; }
  }

  // ---------------------------------------------------------------------------
  // Without overlap
  // ---------------------------------------------------------------------------

  /** From fetching the refresh token to replacing it. */
  predicate Exchanging(phase: Phase) {
    phase.Sending? || Replacing(phase)
  }

  ghost predicate Alone(s: State) {
    forall c: Caller, d: Caller :: Exchanging(PhaseOf(s, c)) && Exchanging(PhaseOf(s, d)) ==> c == d
  }

  /** No two calls of the run are between fetching and replacing at the same time. */
  ghost predicate NoOverlap(s: State, steps: seq<Step>)
    requires Valid(s, steps)
  {
    forall i :: 0 <= i <= |steps| ==> Alone(Before(s, steps, i))
  }

  lemma {:induction false} RunKeepsMutex(s: State, steps: seq<Step>)
    requires Mutex(s) && Valid(s, steps) && NoRetry(steps)
    ensures Mutex(Exec(s, steps))
    decreases |steps|
  {
    if steps != [] {
      StepKeepsMutex(s, steps[0]);
      RunKeepsMutex(Next(s, steps[0]), steps[1..]);
    }
  }

  /** The mutex keeps refreshes apart. */
  lemma MutexPreventsOverlap(s: State, steps: seq<Step>)
    requires Mutex(s) && Valid(s, steps) && NoRetry(steps)
    ensures NoOverlap(s, steps)
  {
    forall i | 0 <= i <= |steps| ensures Alone(Before(s, steps, i)) {
      Split(s, steps, i);
      RunKeepsMutex(s, steps[..i]);
      var t := Before(s, steps, i);
      forall c: Caller, d: Caller | Exchanging(PhaseOf(t, c)) && Exchanging(PhaseOf(t, d)) ensures c == d {
        assert Critical(PhaseOf(t, c)) && Critical(PhaseOf(t, d));
      }
    }
  }

  /** The replacement of an exchanged token fails: the access token that is stored first, or the
      refresh token itself. */
  ghost predicate ReplacementFails(s: State, steps: seq<Step>, i: nat, c: Caller)
    requires Valid(s, steps) && i < |steps|
  {
    Onward(s, steps, i);
    && Actor(steps[i]) == Some(c)
    && ((steps[i].StoreAccess? && !steps[i].ok)
        || (steps[i].StoreRefresh? && PhaseOf(Before(s, steps, i), c).grant.refresh.Some? && !Accepts(steps[i].io)))
  }

  ghost predicate HoldsOld(s: State, c: Caller, h: Half) {
    exists token :: token in s.ledger.exchanged && StillHolds(s, c, h, token)
  }

  /** The replacement, or the removal where there is none, is reported as done, but a token that the
      call exchanged is still in that half or will get there. */
  ghost predicate ReplacesElsewhere(s: State, steps: seq<Step>, i: nat, c: Caller, h: Half)
    requires Valid(s, steps) && i < |steps|
  {
    && steps[i].StoreRefresh? && steps[i].c == c && !ReplacementFails(s, steps, i, c)
    && HoldsOld(Before(s, steps, i + 1), c, h)
  }

  lemma LedgerStep(s: State, step: Step, c: Caller, h: Half)
    requires Enabled(s, step) && !step.StoreRefresh? && !(step.StoreAccess? && !step.ok)
    ensures c in Next(s, step).ledger.unreplaced <==> c in s.ledger.unreplaced
    ensures (c, h) in Next(s, step).ledger.left <==> (c, h) in s.ledger.left
  {
    if step.Send? || step.StoreAccess? || step.SaveExpiry? || step.Clear? || step.Stamp? {
      LateLedgerStep(s, step, c, h);
    }
  }

  lemma LateLedgerStep(s: State, step: Step, c: Caller, h: Half)
    requires Enabled(s, step) && !(step.StoreAccess? && !step.ok)
    requires step.Send? || step.StoreAccess? || step.SaveExpiry? || step.Clear? || step.Stamp?
    ensures c in Next(s, step).ledger.unreplaced <==> c in s.ledger.unreplaced
    ensures (c, h) in Next(s, step).ledger.left <==> (c, h) in s.ledger.left
  {
  }

  lemma FailedAccessLedger(s: State, step: Step, c: Caller, h: Half)
    requires Enabled(s, step) && step.StoreAccess? && !step.ok
    ensures c in Next(s, step).ledger.unreplaced <==> c in s.ledger.unreplaced || step.c == c
    ensures (c, h) in Next(s, step).ledger.left <==> (c, h) in s.ledger.left
  {
  }

  lemma StoredLedger(s: State, step: Step, c: Caller, h: Half)
    requires Enabled(s, step) && step.StoreRefresh?
    ensures var failed := PhaseOf(s, step.c).grant.refresh.Some? && !Accepts(step.io);
      && (c in Next(s, step).ledger.unreplaced <==> c in s.ledger.unreplaced || (step.c == c && failed))
      && ((c, h) in Next(s, step).ledger.left <==>
            (c, h) in s.ledger.left
            || (step.c == c && !failed && HoldsOld(Next(s, step), c, h)))
  {
    var t := Next(s, step);
    assert h in {Ring, File};
    assert (step.c, h) in LeftBy(t, step.c) <==> HoldsOld(t, step.c, h);
  }

  lemma RecordedStep(s: State, steps: seq<Step>, i: nat, c: Caller, h: Half)
    requires Valid(s, steps) && i < |steps|
    ensures c in Before(s, steps, i + 1).ledger.unreplaced
       <==> c in Before(s, steps, i).ledger.unreplaced || ReplacementFails(s, steps, i, c)
    ensures (c, h) in Before(s, steps, i + 1).ledger.left
       <==> (c, h) in Before(s, steps, i).ledger.left || ReplacesElsewhere(s, steps, i, c, h)
  {
    Onward(s, steps, i);
    var before, step := Before(s, steps, i), steps[i];
    if step.StoreRefresh? {
      StoredLedger(before, step, c, h);
    } else if step.StoreAccess? && !step.ok {
      FailedAccessLedger(before, step, c, h);
    } else {
      LedgerStep(before, step, c, h);
    }
  }

  /** The ledger records exactly these two kinds of steps. */
  lemma {:induction false} UnreplacedIff(s: State, steps: seq<Step>, i: nat, c: Caller)
    requires Init(s) && Valid(s, steps) && i <= |steps|
    ensures c in Before(s, steps, i).ledger.unreplaced <==> exists k :: 0 <= k < i && ReplacementFails(s, steps, k, c)
    decreases i
  {
    if i == 0 {
      assert steps[..0] == [];
    } else {
      UnreplacedIff(s, steps, i - 1, c);
      RecordedStep(s, steps, i - 1, c, Ring);
    }
  }

  lemma {:induction false} LeftAt(s: State, steps: seq<Step>, i: nat, c: Caller, h: Half) returns (k: nat)
    requires Init(s) && Valid(s, steps) && i <= |steps| && (c, h) in Before(s, steps, i).ledger.left
    ensures k < i && ReplacesElsewhere(s, steps, k, c, h)
    decreases i
  {
    assert i > 0 by { assert steps[..0] == []; }
    RecordedStep(s, steps, i - 1, c, h);
    k := i - 1;
    if (c, h) in Before(s, steps, k).ledger.left {
      k := LeftAt(s, steps, k, c, h);
    }
  }

  lemma {:induction false} LeftSince(s: State, steps: seq<Step>, k: nat, i: nat, c: Caller, h: Half)
    requires Valid(s, steps) && k < i <= |steps| && ReplacesElsewhere(s, steps, k, c, h)
    ensures (c, h) in Before(s, steps, i).ledger.left
    decreases i
  {
    if k < i - 1 {
      LeftSince(s, steps, k, i - 1, c, h);
    }
    RecordedStep(s, steps, i - 1, c, h);
  }

  lemma LeftIff(s: State, steps: seq<Step>, i: nat, c: Caller, h: Half)
    requires Init(s) && Valid(s, steps) && i <= |steps|
    ensures (c, h) in Before(s, steps, i).ledger.left
       <==> exists k :: 0 <= k < i && ReplacesElsewhere(s, steps, k, c, h)
  {
    if (c, h) in Before(s, steps, i).ledger.left {
      var _ := LeftAt(s, steps, i, c, h);
    }
    forall k | 0 <= k < i && ReplacesElsewhere(s, steps, k, c, h)
      ensures (c, h) in Before(s, steps, i).ledger.left
    {
      LeftSince(s, steps, k, i, c, h);
    }
  }

  /** An exchange or a pending replacement by another call would overlap with the submission. */
  lemma SubmitsAlone(s: State, steps: seq<Step>, f: nat, j: nat, c: Caller)
    requires Init(s) && Valid(s, steps) && NoOverlap(s, steps) && j < |steps| && Fetches(s, steps, f, j, c)
    requires steps[j].Send? && steps[j].c == c
    ensures forall d: Caller :: !Replacing(PhaseOf(Before(s, steps, f), d))
    ensures !ExchangedIn(s, steps, f, j, Submitted(s, steps, j))
  {
    Onward(s, steps, f);
    forall d: Caller ensures !Replacing(PhaseOf(Before(s, steps, f), d)) {
      if Replacing(PhaseOf(Before(s, steps, f), d)) {
        OthersStay(Before(s, steps, f), steps[f], d);
        assert Alone(Before(s, steps, f + 1));
        assert Exchanging(PhaseOf(Before(s, steps, f + 1), d)) && Exchanging(PhaseOf(Before(s, steps, f + 1), c));
      }
    }
    forall i | f <= i < j ensures !ExchangesAt(s, steps, i, Submitted(s, steps, j)) {
      if i > f && steps[i].Send? {
        Onward(s, steps, i);
        SubmitsWhatItFetched(s, steps, f, i, c);
        assert Alone(Before(s, steps, i));
        assert Exchanging(PhaseOf(Before(s, steps, i), steps[i].c)) && Exchanging(PhaseOf(Before(s, steps, i), c));
      }
    }
  }

  /** What can bring a token that call `c` exchanged before step `f` back in half `h`. */
  ghost predicate Escapes(s: State, steps: seq<Step>, f: nat, c: Caller, h: Half)
    requires Valid(s, steps) && f <= |steps|
  {
    exists i :: 0 <= i < f && (ReplacementFails(s, steps, i, c) || ReplacesElsewhere(s, steps, i, c, h))
  }

  /** Where refreshes do not overlap, a call whose exchanged token is submitted again had failed to replace
      it, or had replaced it elsewhere than in the half that the fetch reads. A failed write of the expiry
      or a failed clearing of the credentials never leads to a repetition. */
  lemma ResubmittedEscaped(s: State, steps: seq<Step>, f: nat, j: nat, c: Caller)
    requires Init(s) && Valid(s, steps) && NoOverlap(s, steps) && j < |steps| && Fetches(s, steps, f, j, c)
    requires steps[j].Send? && steps[j].c == c && ExchangedIn(s, steps, 0, j, Submitted(s, steps, j))
    ensures var fetched, token := Before(s, steps, f), Submitted(s, steps, j);
      && token in fetched.ledger.exchanged
      && Escapes(s, steps, f, fetched.ledger.exchanged[token], FetchedFrom(s, steps, f))
  {
    var fetched, token, h := Before(s, steps, f), Submitted(s, steps, j), FetchedFrom(s, steps, f);
    FetchedExcused(s, steps, f, j, c);
    SubmitsAlone(s, steps, f, j, c);
    ExchangedBefore(s, steps, j, token);
    ExchangedSince(s, steps, f, j, token);
    var d := fetched.ledger.exchanged[token];
    UnreplacedIff(s, steps, f, d);
    LeftIff(s, steps, f, d, h);
  }

  /** So a refresh token exchanged in a successful refresh is never submitted again, if refreshes do
      not overlap, none fails to replace the token it exchanged, and none replaces it elsewhere. */
  lemma NoResubmission(s: State, steps: seq<Step>, i: nat, j: nat)
    requires Init(s) && Valid(s, steps) && NoOverlap(s, steps)
    requires forall c: Caller, h :: !Escapes(s, steps, |steps|, c, h)
    requires i < j < |steps| && steps[i].Send? && steps[i].reply.Success? && steps[j].Send?
    ensures Submitted(s, steps, i) != Submitted(s, steps, j)
  {
    Onward(s, steps, j);
    var c := steps[j].c;
    var f := FetchBefore(s, steps, j, c);
    assert ExchangesAt(s, steps, i, Submitted(s, steps, i));
    forall d: Caller, h ensures !Escapes(s, steps, f, d, h) {
      assert !Escapes(s, steps, |steps|, d, h);
    }
    if Submitted(s, steps, i) == Submitted(s, steps, j) {
      ResubmittedEscaped(s, steps, f, j, c);
    }
  }

  /** Where a replacement leaves the exchanged token: in the half that it does not write, or in a write
      that has still to land. A removal leaves it in a half that it does not reach. */
  lemma ReplacementLeavesIff(k: Keyring.State<Token>, grant: Grant, io: Io, h: Half, token: Token)
    requires grant.refresh != Some(token) && (grant.refresh.Some? ==> Accepts(io))
    ensures var stored :=
        if grant.refresh.Some? then Written(k, REFRESH, grant.refresh.value, io) else Dropped(k, REFRESH, io);
      Reaches(stored, REFRESH, h, token) <==>
        || (h.Ring? && Keyring.Put(REFRESH, token) in k.late)
        || (Held(k, REFRESH, h) == Some(token)
            && if h.Ring? then !io.a.Up? else if grant.refresh.Some? then io.a.Up? else !io.file)
  {
    if grant.refresh.Some? {
      WriteLeavesIff(k, REFRESH, grant.refresh.value, io, h, token);
    } else {
      DropLeavesIff(k, REFRESH, io, h, token);
    }
  }

  // ---------------------------------------------------------------------------
  // Runs that submit an exchanged token again
  // ---------------------------------------------------------------------------

  lemma FirstCallerFailed() returns (steps: seq<Step>)
    ensures Init(Expiring()) && Valid(Expiring(), steps) && NoRetry(steps) && |steps| == 9
    ensures steps[7] == Send(1, Success(RENEWAL)) && Submitted(Expiring(), steps, 7) == "rt1"
    ensures var t := Exec(Expiring(), steps);
      && t.callers == map[1 := Failed, 2 := Waiting("oak_old")]
      && t.lock.None? && t.now == 0 && t.store == Expiring().store
  {
    var first := FirstCallerGranted();
    Extend(Expiring(), first, StoreAccess(1, UP, false, false));
    steps := first + [StoreAccess(1, UP, false, false)];
    assert steps[..7] == first[..7];
    assert Exec(Expiring(), steps).callers == map[1 := Failed, 2 := Waiting("oak_old")];
  }

  /** With the mutex, a failed write: the exchanged token stays stored, and the next caller sends it. */
  lemma FailedWriteResubmits() returns (s: State, steps: seq<Step>)
    ensures Init(s) && Valid(s, steps) && NoRetry(steps) && |steps| == 13
    ensures steps[7] == Send(1, Success(RENEWAL)) && steps[12].Send?
    ensures Submitted(s, steps, 7) == Submitted(s, steps, 12)
  {
    s := Expiring();
    var failed := FirstCallerFailed();
    steps := SecondCallerSends(failed);
    assert steps[..7] == failed[..7];
  }

  /** When the first caller is done, the second finds the expiry near in the keyring and submits `rt1`. */
  lemma SecondCallerSends(steps: seq<Step>) returns (longer: seq<Step>)
    requires Valid(Expiring(), steps) && NoRetry(steps)
    requires var t := Exec(Expiring(), steps);
      && PhaseOf(t, 2) == Waiting("oak_old") && t.lock.None? && t.now == 0
      && Held(t.store.expiry, EXPIRY, Ring) == Some(1_000) && Held(t.store.refresh, REFRESH, Ring) == Some("rt1")
    ensures Valid(Expiring(), longer) && NoRetry(longer) && |longer| == |steps| + 4 && longer[..|steps|] == steps
    ensures longer[|steps| + 3] == Send(2, InvalidGrant) && Submitted(Expiring(), longer, |steps| + 3) == "rt1"
    ensures var (t, u) := (Exec(Expiring(), steps), Exec(Expiring(), longer));
      u.ledger == t.ledger && u.tally == t.tally.(requests := t.tally.requests + 1)
  {
    var s := Expiring();
    Extend3(s, steps, Acquire(2), Recheck(2, UP), Fetch(2, UP));
    var last := steps + [Acquire(2), Recheck(2, UP), Fetch(2, UP)];
    Extend(s, last, Send(2, InvalidGrant));
    longer := last + [Send(2, InvalidGrant)];
    assert longer[..|last|] == last;
  }

  /** With every write succeeding, an overlap: the 401 retry does not take the mutex. */
  lemma RetryResubmits() returns (s: State, steps: seq<Step>)
    ensures Init(s) && Valid(s, steps) && Exec(s, steps).ledger.unreplaced == {} && Exec(s, steps).ledger.left == {}
    ensures |steps| == 10 && steps[8] == Send(1, Success(RENEWAL)) && steps[9].Send?
    ensures Submitted(s, steps, 8) == Submitted(s, steps, 9)
  {
    s := Expiring();
    var both := BothCallersSending();
    Extend(s, both, Send(1, Success(RENEWAL)));
    var longer := both + [Send(1, Success(RENEWAL))];
    Extend(s, longer, Send(3, InvalidGrant));
    steps := longer + [Send(3, InvalidGrant)];
    assert steps[..8] == both && steps[..9] == longer;
  }

  lemma BothCallersSending() returns (steps: seq<Step>)
    ensures Init(Expiring()) && Valid(Expiring(), steps) && |steps| == 8
    ensures Exec(Expiring(), steps) == Expiring().(
      callers := map[1 := Sending("rt1"), 2 := HasToken("oak_old"), 3 := Sending("rt1")], lock := Some(1))
  {
    var s := Expiring();
    var first := FirstCallerSending();
    Extend(s, first, BeginRetry(3, UP));
    Extend(s, first + [BeginRetry(3, UP)], Fetch(3, UP));
    steps := first + [BeginRetry(3, UP)] + [Fetch(3, UP)];
    assert Exec(s, steps).callers == map[1 := Sending("rt1"), 2 := HasToken("oak_old"), 3 := Sending("rt1")];
  }
}
