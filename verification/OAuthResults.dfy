/** Which access token a call to `ResolveCredentials` returns, and when it is the stored one. */
module OAuthResults {
  import opened Text
  import opened OAuthStore
  import opened OAuthRefresh
  import Keyring

  // ---------------------------------------------------------------------------
  // The stored access token along a run
  // ---------------------------------------------------------------------------

  ghost function HeldAt(s: State, steps: seq<Step>, i: nat, h: Half): Option<Token>
    requires Valid(s, steps) && i <= |steps|
  {
    Held(Before(s, steps, i).store.uat, UAT, h)
  }

  /** What step `i` puts into a half of the stored access token, if it writes it: a grant's token or a
      late write, or nothing at all when the credentials are cleared. */
  ghost function WrittenAt(s: State, steps: seq<Step>, i: nat, h: Half): Option<Option<Token>>
    requires Valid(s, steps) && i < |steps|
  {
    Onward(s, steps, i);
    var before, step := Before(s, steps, i), steps[i];
    if step.StoreAccess? && step.reached && (if h.Ring? then step.io.a.Up? else !step.io.a.Up? && step.io.file) then
      Some(Some(PhaseOf(before, step.c).grant.access))
    else if step.Clear? && step.reached && PhaseOf(before, step.c).rest == 3
            && (if h.Ring? then step.io.a.Up? else step.io.file) then Some(None)
    else if step.Land? && step.entry.Access? && h.Ring? then
      Keyring.Landed(before.store.uat, Keyring.LandE(step.i), UAT)
    else None
  }

  /** The last such write from step `lo` up to step `hi`. */
  ghost function LastWritten(s: State, steps: seq<Step>, lo: nat, hi: nat, h: Half): Option<Option<Token>>
    requires Valid(s, steps) && lo <= hi <= |steps|
    decreases hi
  {
    if lo == hi then None
    else if WrittenAt(s, steps, hi - 1, h).Some? then WrittenAt(s, steps, hi - 1, h)
    else LastWritten(s, steps, lo, hi - 1, h)
  }

  /** The other steps do not touch the stored access token. */
  lemma UatStays(s: State, step: Step)
    requires Enabled(s, step) && !step.StoreAccess? && !step.Clear? && !step.Land?
    ensures Next(s, step).store.uat == s.store.uat
  {
    if step.Send? || step.StoreRefresh? || step.SaveExpiry? || step.Stamp? {
      LateUatStays(s, step);
    }
  }

  lemma LateUatStays(s: State, step: Step)
    requires Enabled(s, step) && (step.Send? || step.StoreRefresh? || step.SaveExpiry? || step.Stamp?)
    ensures Next(s, step).store.uat == s.store.uat
  {
  }

  lemma HeldStep(s: State, steps: seq<Step>, i: nat, h: Half)
    requires Valid(s, steps) && i < |steps|
    ensures HeldAt(s, steps, i + 1, h)
         == if WrittenAt(s, steps, i, h).Some? then WrittenAt(s, steps, i, h).value else HeldAt(s, steps, i, h)
  {
    Onward(s, steps, i);
    var before, step := Before(s, steps, i), steps[i];
    if step.Land? {
      if step.entry.Access? {
        Keyring.LandedKey(before.store.uat, Keyring.LandE(step.i), UAT);
      }
    } else if step.StoreAccess? {
      AccessWritten(before, step, h);
    } else if step.Clear? {
      AccessCleared(before, step, h);
    } else {
      UatStays(before, step);
    }
  }

  lemma AccessWritten(s: State, step: Step, h: Half)
    requires Enabled(s, step) && step.StoreAccess?
    ensures Held(Next(s, step).store.uat, UAT, h)
         == if step.reached && (if h.Ring? then step.io.a.Up? else !step.io.a.Up? && step.io.file)
            then Some(PhaseOf(s, step.c).grant.access) else Held(s.store.uat, UAT, h)
  {
  }

  lemma AccessCleared(s: State, step: Step, h: Half)
    requires Enabled(s, step) && step.Clear?
    ensures Held(Next(s, step).store.uat, UAT, h)
         == if step.reached && PhaseOf(s, step.c).rest == 3 && (if h.Ring? then step.io.a.Up? else step.io.file)
            then None else Held(s.store.uat, UAT, h)
  {
  }

  lemma {:induction false} HeldSince(s: State, steps: seq<Step>, lo: nat, hi: nat, h: Half)
    requires Valid(s, steps) && lo <= hi <= |steps|
    ensures var last := LastWritten(s, steps, lo, hi, h);
      HeldAt(s, steps, hi, h) == if last.Some? then last.value else HeldAt(s, steps, lo, h)
    decreases hi
  {
    if lo < hi {
      HeldStep(s, steps, hi - 1, h);
      HeldSince(s, steps, lo, hi - 1, h);
    }
  }

  lemma {:induction false} LastWrittenIff(s: State, steps: seq<Step>, lo: nat, hi: nat, h: Half)
    requires Valid(s, steps) && lo <= hi <= |steps|
    ensures LastWritten(s, steps, lo, hi, h).Some? <==> exists k :: lo <= k < hi && WrittenAt(s, steps, k, h).Some?
    ensures LastWritten(s, steps, lo, hi, h).Some? ==>
      exists k :: lo <= k < hi && WrittenAt(s, steps, k, h) == LastWritten(s, steps, lo, hi, h)
    decreases hi
  {
    if lo < hi {
      LastWrittenIff(s, steps, lo, hi - 1, h);
    }
  }

  // ---------------------------------------------------------------------------
  // Where a caller's tokens come from, in every interleaving
  // ---------------------------------------------------------------------------

  /** Step `b` begins the call of `c`, which reads `uat`. */
  ghost predicate BeginsWith(s: State, steps: seq<Step>, b: nat, c: Caller, uat: Token)
    requires Valid(s, steps)
  {
    && b < |steps| && steps[b].Begin? && steps[b].c == c
    && Read(Before(s, steps, b).store.uat, UAT, steps[b].io) == Ok(Some(uat))
  }

  /** A token that is held was read from the store when the call began. */
  lemma {:induction false} HeldWasRead(s: State, steps: seq<Step>, i: nat, c: Caller, uat: Token) returns (b: nat)
    requires Valid(s, steps) && i <= |steps| && PhaseOf(s, c).Idle? && Holds(PhaseOf(Before(s, steps, i), c), uat)
    ensures b < i && BeginsWith(s, steps, b, c, uat)
    decreases i
  {
    assert i > 0 by { assert steps[..0] == []; }
    PhaseStep(s, steps, i - 1, c);
    if steps[i - 1].Begin? && steps[i - 1].c == c {
      b := i - 1;
    } else {
      b := HeldWasRead(s, steps, i - 1, c, uat);
    }
  }

  predicate HasGrant(phase: Phase, grant: Grant) {
    Exchanged(phase) && phase.grant == grant
  }

  lemma {:induction false} GrantWasSent(s: State, steps: seq<Step>, i: nat, c: Caller, grant: Grant) returns (b: nat)
    requires Valid(s, steps) && i <= |steps| && PhaseOf(s, c).Idle? && HasGrant(PhaseOf(Before(s, steps, i), c), grant)
    ensures b < i && steps[b] == Send(c, Success(grant))
    decreases i
  {
    assert i > 0 by { assert steps[..0] == []; }
    PhaseStep(s, steps, i - 1, c);
    if steps[i - 1] == Send(c, Success(grant)) {
      b := i - 1;
    } else {
      b := GrantWasSent(s, steps, i - 1, c, grant);
    }
  }

  /** Step `j` makes the call of `c` return `result`. */
  ghost predicate ReturnsAt(s: State, steps: seq<Step>, j: nat, c: Caller, result: Token)
    requires Valid(s, steps)
  {
    j < |steps| && Actor(steps[j]) == Some(c) && PhaseOf(Before(s, steps, j + 1), c) == Done(result)
  }

  lemma {:induction false} BeginsOnce(s: State, steps: seq<Step>, b: nat, i: nat, c: Caller)
    requires Valid(s, steps) && b < i <= |steps| && steps[b].Begin? && steps[b].c == c
    ensures !PhaseOf(Before(s, steps, i), c).Idle?
    decreases i
  {
    PhaseStep(s, steps, i - 1, c);
    if i > b + 1 {
      BeginsOnce(s, steps, b, i - 1, c);
    }
  }

  /** A call that leaves without a refresh of its own returns the token it read when it began. */
  lemma ReturnedWasRead(s: State, steps: seq<Step>, b: nat, j: nat, c: Caller, result: Token)
    requires Init(s) && Valid(s, steps) && ReturnsAt(s, steps, j, c, result)
    requires (steps[j].Check? || steps[j].Recheck?) && b < j && steps[b].Begin? && steps[b].c == c
    ensures BeginsWith(s, steps, b, c, result)
  {
    PhaseStep(s, steps, j, c);
    var read := HeldWasRead(s, steps, j, c, result);
    PhaseStep(s, steps, b, c);
    PhaseStep(s, steps, read, c);
    if read < b {
      BeginsOnce(s, steps, read, b, c);
    } else if b < read {
      BeginsOnce(s, steps, b, read, c);
    }
  }

  /** After the first check or the check under the lock a call returns the token it read when it began.
      A reader finds that token in the store at this moment if and only if the half that the reader
      gets to was last written with it since, or was not written and held it. This is so in every
      interleaving, with or without the mutex, however the keyring comes and goes. */
  lemma ReturnedIsStoredIff(s: State, steps: seq<Step>, b: nat, j: nat, c: Caller, result: Token, io: Io)
    requires Init(s) && Valid(s, steps) && ReturnsAt(s, steps, j, c, result)
    requires (steps[j].Check? || steps[j].Recheck?) && b < j && steps[b].Begin? && steps[b].c == c
    requires Read(Before(s, steps, j).store.uat, UAT, io).Ok?
    ensures BeginsWith(s, steps, b, c, result)
    ensures var h := HalfRead(Before(s, steps, j).store.uat, UAT, io);
      Read(Before(s, steps, j).store.uat, UAT, io) == Ok(Some(result)) <==>
        if LastWritten(s, steps, b, j, h).Some? then LastWritten(s, steps, b, j, h).value == Some(result)
        else HeldAt(s, steps, b, h) == Some(result)
  {
    ReturnedWasRead(s, steps, b, j, c, result);
    ReadIsHeld(Before(s, steps, j).store.uat, UAT, io);
    HeldSince(s, steps, b, j, HalfRead(Before(s, steps, j).store.uat, UAT, io));
  }

  // ---------------------------------------------------------------------------
  // A refresh of its own
  // ---------------------------------------------------------------------------

  /** `p.UAT` holds the token of the refresh that is under way. */
  ghost predicate OwnUat(s: State) {
    forall c: Caller ::
      Exchanged(PhaseOf(s, c)) && !PhaseOf(s, c).Granted? ==> s.profileUat == PhaseOf(s, c).grant.access
  }

  lemma StoreAccessOwnUat(s: State, step: Step)
    requires Enabled(s, step) && step.StoreAccess?
    requires Exchanged(PhaseOf(Next(s, step), step.c))
    ensures Next(s, step).profileUat == PhaseOf(Next(s, step), step.c).grant.access
  {
  }

  lemma LaterOwnUat(s: State, step: Step)
    requires Enabled(s, step) && (step.StoreRefresh? || step.Stamp? || Actor(step).None?)
    ensures Next(s, step).profileUat == s.profileUat
  {
  }

  lemma StepKeepsOwnUat(s: State, step: Step, c: Caller)
    requires Mutex(s) && OwnUat(s) && Enabled(s, step) && !step.BeginRetry?
    requires Exchanged(PhaseOf(Next(s, step), c)) && !PhaseOf(Next(s, step), c).Granted?
    ensures Next(s, step).profileUat == PhaseOf(Next(s, step), c).grant.access
  {
    if Actor(step) != Some(c) {
      OthersStay(s, step, c);
      assert s.lock == Some(c);
      if Actor(step).None? {
        LaterOwnUat(s, step);
      } else {
        OutsideStays(s, step);
      }
    } else if BeforeReply(step) {
      EarlyMoves(s, step);
    } else {
      LateMoves(s, step);
      if step.StoreAccess? {
        StoreAccessOwnUat(s, step);
      } else {
        LaterOwnUat(s, step);
      }
    }
  }

  lemma {:induction false} RunKeepsOwnUat(s: State, steps: seq<Step>)
    requires Mutex(s) && OwnUat(s) && Valid(s, steps) && NoRetry(steps)
    ensures OwnUat(Exec(s, steps))
    decreases |steps|
  {
    if steps != [] {
      StepKeepsMutex(s, steps[0]);
      forall c: Caller
        | Exchanged(PhaseOf(Next(s, steps[0]), c)) && !PhaseOf(Next(s, steps[0]), c).Granted?
        ensures Next(s, steps[0]).profileUat == PhaseOf(Next(s, steps[0]), c).grant.access
      {
        StepKeepsOwnUat(s, steps[0], c);
      }
      RunKeepsOwnUat(Next(s, steps[0]), steps[1..]);
    }
  }

  /** Which of the two tokens a call returns is decided by the step it leaves with: a check returns the
      token it read when it began, and the end of its own refresh returns that refresh's grant. */
  lemma ResultProvenance(s: State, steps: seq<Step>, j: nat, c: Caller, result: Token) returns (b: nat)
    requires Init(s) && Valid(s, steps) && NoRetry(steps) && ReturnsAt(s, steps, j, c, result)
    ensures b < j
    ensures steps[j].Check? || steps[j].Recheck? || steps[j].Stamp? || steps[j].SaveExpiry?
    ensures steps[j].Check? || steps[j].Recheck? ==> BeginsWith(s, steps, b, c, result)
    ensures steps[j].Stamp? || steps[j].SaveExpiry? ==>
      steps[b].Send? && steps[b].c == c && steps[b].reply.Success? && steps[b].reply.grant.access == result
  {
    PhaseStep(s, steps, j, c);
    if steps[j].Check? || steps[j].Recheck? {
      b := HeldWasRead(s, steps, j, c, result);
    } else {
      Split(s, steps, j);
      RunKeepsOwnUat(s, steps[..j]);
      b := GrantWasSent(s, steps, j, c, PhaseOf(Before(s, steps, j), c).grant);
    }
  }

  // ---------------------------------------------------------------------------
  // A waiter with a stale token
  // ---------------------------------------------------------------------------

  lemma FirstCallerStoring() returns (steps: seq<Step>)
    ensures Init(Expiring()) && Valid(Expiring(), steps) && NoRetry(steps) && |steps| == 9 && steps[7].Send?
    ensures steps[7] == Send(1, Success(RENEWAL)) && PhaseOf(Before(Expiring(), steps, 7), 1) == Sending("rt1")
    ensures Exec(Expiring(), steps) == FirstGranted().(
      callers := map[1 := StoringRefresh(RENEWAL), 2 := Waiting("oak_old")], profileUat := "oak_new",
      store := Store(InRing(UAT, "oak_new"), InRing(REFRESH, "rt1"), InRing(EXPIRY, 1_000)))
  {
    var first := FirstCallerGranted();
    Extend(Expiring(), first, StoreAccess(1, UP, true, true));
    steps := first + [StoreAccess(1, UP, true, true)];
    var t := Exec(Expiring(), steps);
    assert steps[..7] == first[..7];
    assert t.callers == map[1 := StoringRefresh(RENEWAL), 2 := Waiting("oak_old")];
    assert t.store.uat.primary == map[UAT := "oak_new"];
  }

  /** The first caller stores the replacement. */
  function FirstStored(io: Io): Store {
    Store(InRing(UAT, "oak_new"), Written(InRing(REFRESH, "rt1"), REFRESH, "rt2", io), InRing(EXPIRY, 1_000))
  }

  lemma FirstCallerStamping(io: Io) returns (steps: seq<Step>)
    requires Accepts(io)
    ensures Init(Expiring()) && Valid(Expiring(), steps) && NoRetry(steps) && |steps| == 10
    ensures steps[7] == Send(1, Success(RENEWAL)) && PhaseOf(Before(Expiring(), steps, 7), 1) == Sending("rt1")
    ensures var t := Exec(Expiring(), steps);
      && t.callers == map[1 := Stamping(RENEWAL), 2 := Waiting("oak_old")]
      && t.lock == Some(1) && t.due && t.now == 0 && t.profileUat == "oak_new" && t.ledger.unreplaced == {}
      && t.tally == FirstGranted().tally && t.store == FirstStored(io)
  {
    var storing := FirstCallerStoring();
    Extend(Expiring(), storing, StoreRefresh(1, io));
    steps := storing + [StoreRefresh(1, io)];
    assert steps[..7] == storing[..7];
    assert Exec(Expiring(), steps).callers == map[1 := Stamping(RENEWAL), 2 := Waiting("oak_old")];
  }

  lemma FirstCallerSaving(io: Io) returns (steps: seq<Step>)
    requires Accepts(io)
    ensures Init(Expiring()) && Valid(Expiring(), steps) && NoRetry(steps) && |steps| == 11
    ensures steps[7] == Send(1, Success(RENEWAL)) && PhaseOf(Before(Expiring(), steps, 7), 1) == Sending("rt1")
    ensures var t := Exec(Expiring(), steps);
      && t.callers == map[1 := SavingExpiry(RENEWAL, 3_600_000), 2 := Waiting("oak_old")]
      && t.lock == Some(1) && t.due && t.now == 0 && t.profileUat == "oak_new" && t.ledger.unreplaced == {}
      && t.tally == FirstGranted().tally && t.store == FirstStored(io)
  {
    var stamping := FirstCallerStamping(io);
    Extend(Expiring(), stamping, Stamp(1));
    steps := stamping + [Stamp(1)];
    assert steps[..7] == stamping[..7];
    assert Exec(Expiring(), steps).callers == map[1 := SavingExpiry(RENEWAL, 3_600_000), 2 := Waiting("oak_old")];
  }

  /** The second caller queues behind the first, whose refresh then succeeds. */
  lemma FirstCallerRefreshed() returns (steps: seq<Step>)
    ensures Init(Expiring()) && Valid(Expiring(), steps) && NoRetry(steps)
    ensures var t := Exec(Expiring(), steps);
      && t.callers == map[1 := Done("oak_new"), 2 := Waiting("oak_old")]
      && t.lock.None? && t.now == 0
      && t.store == Store(InRing(UAT, "oak_new"), InRing(REFRESH, "rt2"), InRing(EXPIRY, 3_600_000))
  {
    var saving := FirstCallerSaving(UP);
    Extend(Expiring(), saving, SaveExpiry(1, UP));
    steps := saving + [SaveExpiry(1, UP)];
    var t := Exec(Expiring(), steps);
    assert t.callers == map[1 := Done("oak_new"), 2 := Waiting("oak_old")];
    WrittenInRing(REFRESH, "rt1", "rt2");
    WrittenInRing(EXPIRY, 1_000, 3_600_000);
  }

  lemma WrittenInRing<V>(key: string, before: V, value: V)
    ensures Written(InRing(key, before), key, value, UP) == InRing(key, value)
  {
    assert Written(InRing(key, before), key, value, UP).primary == map[key := value];
  }

  /** Waiters are not promised a fresh token: with the keyring up all the time, the second caller waits
      out the refresh and still returns the old one. */
  lemma WaiterReturnsStaleToken() returns (s: State, steps: seq<Step>)
    ensures Init(s) && Valid(s, steps) && NoRetry(steps)
    ensures Keyring.Got(Exec(s, steps).store.uat, UAT, Keyring.Up) == Some("oak_new")
    ensures PhaseOf(Exec(s, steps), 1) == Done("oak_new") && PhaseOf(Exec(s, steps), 2) == Done("oak_old")
  {
    s := Expiring();
    var queued := FirstCallerRefreshed();
    Extend(s, queued, Acquire(2));
    Extend(s, queued + [Acquire(2)], Recheck(2, UP));
    steps := queued + [Acquire(2)] + [Recheck(2, UP)];
  }
}
