/** What the availability of the keyring does to refreshing: runs in which it comes and goes, and what
holds while it does not change, so that the store is one map.
*/
module OAuthAvailability {
  import opened Text
  import opened OAuthStore
  import opened OAuthRefresh
  import opened OAuthRotation
  import opened OAuthOrigins
  import opened OAuthRepeats
  import opened OAuthResults
  import Keyring

  // ---------------------------------------------------------------------------
  // A keyring that comes and goes
  // ---------------------------------------------------------------------------

  /** The keyring still has the old token and the old expiry; the file has the new ones. */
  function Shadowed(): Store {
    Store(InRing(UAT, "oak_new"),
          Keyring.State(map[REFRESH := "rt1"], map[REFRESH := "rt2"], true, []),
          Keyring.State(map[EXPIRY := 1_000], map[EXPIRY := 3_600_000], true, []))
  }

  /** The keyring does not answer while the first caller stores the replacement and the expiry. */
  lemma FirstCallerShadowed() returns (steps: seq<Step>)
    ensures Init(Expiring()) && Valid(Expiring(), steps) && NoRetry(steps) && |steps| == 12
    ensures steps[7] == Send(1, Success(RENEWAL)) && Submitted(Expiring(), steps, 7) == "rt1"
    ensures var t := Exec(Expiring(), steps);
      && t.callers == map[1 := Done("oak_new"), 2 := Waiting("oak_old")]
      && t.lock.None? && t.now == 0 && t.store == Shadowed() && t.ledger.unreplaced == {}
      && t.tally == Tally(1, 1, 0, 1, 0, 0)
  {
    var saving := FirstCallerSaving(DOWN);
    Extend(Expiring(), saving, SaveExpiry(1, DOWN));
    steps := saving + [SaveExpiry(1, DOWN)];
    var t := Exec(Expiring(), steps);
    assert steps[..7] == saving[..7];
    assert t.callers == map[1 := Done("oak_new"), 2 := Waiting("oak_old")];
    assert t.store.refresh.fallback == map[REFRESH := "rt2"] && t.store.expiry.fallback == map[EXPIRY := 3_600_000];
  }

  /** With the mutex and with every write reported as done: when the keyring answers again, the next
      caller finds the old expiry near and submits the exchanged token. There have been two requests
      for one entry into the window and no failure. */
  lemma ShadowedResubmits() returns (s: State, steps: seq<Step>)
    ensures Init(s) && Valid(s, steps) && NoRetry(steps) && |steps| == 16
    ensures steps[7] == Send(1, Success(RENEWAL)) && steps[15].Send?
    ensures Submitted(s, steps, 7) == Submitted(s, steps, 15)
    ensures Exec(s, steps).ledger.unreplaced == {}
    ensures Exec(s, steps).tally == Tally(2, 1, 0, 1, 0, 0)
  {
    s := Expiring();
    var shadowed := FirstCallerShadowed();
    steps := SecondCallerSends(shadowed);
    assert steps[..7] == shadowed[..7];
  }

  // ---------------------------------------------------------------------------
  // What follows a misplaced expiry
  // ---------------------------------------------------------------------------

  /** What a step puts into a half of the stored expiry, if it writes it. */
  function ExpiryWritten(s: State, step: Step, h: Half): Option<Option<int>>
    requires Enabled(s, step)
  {
    if step.SaveExpiry? && (if h.Ring? then step.io.a.Up? else !step.io.a.Up? && step.io.file) then
      Some(Some(PhaseOf(s, step.c).expiry))
    else if step.Clear? && PhaseOf(s, step.c).rest !in {2, 3} && (if h.Ring? then step.io.a.Up? else step.io.file) then
      Some(None)
    else if step.Land? && step.entry.Expiry? && h.Ring? then
      Keyring.Landed(s.store.expiry, Keyring.LandE(step.i), EXPIRY)
    else None
  }

  function HeldExpiry(s: State, h: Half): Option<int> {
    Held(s.store.expiry, EXPIRY, h)
  }

  lemma OthersKeepExpiry(s: State, step: Step)
    requires Enabled(s, step) && !step.SaveExpiry? && !step.Clear? && !step.Land?
    ensures Next(s, step).store.expiry == s.store.expiry
  {
  }

  lemma SavedExpiry(s: State, step: Step, h: Half)
    requires Enabled(s, step) && step.SaveExpiry?
    ensures HeldExpiry(Next(s, step), h)
         == if ExpiryWritten(s, step, h).Some? then ExpiryWritten(s, step, h).value else HeldExpiry(s, h)
  {
  }

  lemma ClearedExpiry(s: State, step: Step, h: Half)
    requires Enabled(s, step) && step.Clear?
    ensures HeldExpiry(Next(s, step), h)
         == if ExpiryWritten(s, step, h).Some? then ExpiryWritten(s, step, h).value else HeldExpiry(s, h)
  {
  }

  lemma ExpiryStep(s: State, step: Step, h: Half)
    requires Enabled(s, step)
    ensures HeldExpiry(Next(s, step), h)
         == if ExpiryWritten(s, step, h).Some? then ExpiryWritten(s, step, h).value else HeldExpiry(s, h)
    ensures Next(s, step).now >= s.now
  {
    if step.SaveExpiry? {
      SavedExpiry(s, step, h);
    } else if step.Clear? {
      ClearedExpiry(s, step, h);
    } else if step.Land? {
      if step.entry.Expiry? {
        Keyring.LandedKey(s.store.expiry, Keyring.LandE(step.i), EXPIRY);
      }
    } else {
      OthersKeepExpiry(s, step);
    }
  }

  /** The last such write from step `lo` up to step `hi`. */
  ghost function LastExpiry(s: State, steps: seq<Step>, lo: nat, hi: nat, h: Half): Option<Option<int>>
    requires Valid(s, steps) && lo <= hi <= |steps|
    decreases hi
  {
    if lo == hi then None
    else
      Onward(s, steps, hi - 1);
      var written := ExpiryWritten(Before(s, steps, hi - 1), steps[hi - 1], h);
      if written.Some? then written else LastExpiry(s, steps, lo, hi - 1, h)
  }

  lemma {:induction false} ExpirySince(s: State, steps: seq<Step>, lo: nat, hi: nat, h: Half)
    requires Valid(s, steps) && lo <= hi <= |steps|
    ensures var last := LastExpiry(s, steps, lo, hi, h);
      HeldExpiry(Before(s, steps, hi), h) == if last.Some? then last.value else HeldExpiry(Before(s, steps, lo), h)
    ensures Before(s, steps, hi).now >= Before(s, steps, lo).now
    decreases hi
  {
    if lo < hi {
      ExpirySince(s, steps, lo, hi - 1, h);
      Onward(s, steps, hi - 1);
      ExpiryStep(Before(s, steps, hi - 1), steps[hi - 1], h);
    }
  }

  function DueIo(s: State): Io {
    Io(if s.due then Keyring.Up else Keyring.Down, true)
  }

  /** The half in which the reading that led to the refresh finds its expiry. */
  function DueHalf(s: State): Half {
    HalfRead(s.store.expiry, EXPIRY, DueIo(s))
  }

  /** Step `k` stores an expiry where the near one can still be read. */
  ghost predicate MisplacesAt(s: State, steps: seq<Step>, k: nat)
    requires Valid(s, steps)
  {
    k < |steps| && steps[k].SaveExpiry?
    && Before(s, steps, k + 1).tally.misplaced > Before(s, steps, k).tally.misplaced
  }

  lemma MisplacedIsNear(s: State, step: Step)
    requires Enabled(s, step) && step.SaveExpiry? && Next(s, step).tally.misplaced > s.tally.misplaced
    ensures var t := Next(s, step); Near(HeldExpiry(t, DueHalf(t)), t.now)
  {
    var t := Next(s, step);
    assert NearBy(t, t.due);
  }

  lemma RefreshesIff(s: State, step: Step)
    requires Enabled(s, step) && step.Recheck? && Read(s.store.expiry, EXPIRY, step.io).Ok?
    ensures PhaseOf(Next(s, step), step.c).Fetching?
       <==> Near(HeldExpiry(s, HalfRead(s.store.expiry, EXPIRY, step.io)), s.now)
  {
    ReadIsHeld(s.store.expiry, EXPIRY, step.io);
  }

  /** After a misplaced expiry, a call that gets to the same half in its check under the lock goes on to a
      refresh, for which nobody pays, if and only if that half has not been written since, or was last
      written with an expiry that is near by then. */
  lemma MisplacedRefreshesIff(s: State, steps: seq<Step>, k: nat, r: nat)
    requires Valid(s, steps) && MisplacesAt(s, steps, k) && k < r < |steps| && steps[r].Recheck?
    requires var t := Before(s, steps, r).store.expiry;
      Read(t, EXPIRY, steps[r].io).Ok? && HalfRead(t, EXPIRY, steps[r].io) == DueHalf(Before(s, steps, k + 1))
    ensures PhaseOf(Before(s, steps, r + 1), steps[r].c).Fetching? <==>
      match LastExpiry(s, steps, k + 1, r, DueHalf(Before(s, steps, k + 1)))
      case None => true
      case Some(expiry) => Near(expiry, Before(s, steps, r).now)
  {
    Onward(s, steps, k);
    Onward(s, steps, r);
    MisplacedIsNear(Before(s, steps, k), steps[k]);
    RefreshesIff(Before(s, steps, r), steps[r]);
    ExpirySince(s, steps, k + 1, r, DueHalf(Before(s, steps, k + 1)));
  }

  // ---------------------------------------------------------------------------
  // Constant availability
  // ---------------------------------------------------------------------------

  /** The refresh token and the access token are each in the one half that is in use. */
  predicate OneStore(store: Store, up: bool) {
    OneHalf(store.refresh, REFRESH, up) && OneHalf(store.uat, UAT, up)
  }

  lemma StepKeepsOneStore(s: State, step: Step, up: bool)
    requires Enabled(s, step) && SteadyStep(step, up) && OneStore(s.store, up)
    ensures OneStore(Next(s, step).store, up)
  {
    if step.StoreRefresh? {
      StoringKeepsOneStore(s, step, up);
    } else if step.StoreAccess? {
      AccessKeepsOneStore(s, step, up);
    } else if step.Clear? {
      ClearingKeepsOneStore(s, step, up);
    } else if !step.Land? {
      RefreshStays(s, step);
      UatStays(s, step);
    }
  }

  lemma StoringKeepsOneStore(s: State, step: Step, up: bool)
    requires Enabled(s, step) && step.StoreRefresh? && Steady(step.io, up) && OneStore(s.store, up)
    ensures OneStore(Next(s, step).store, up)
  {
  }

  lemma AccessKeepsOneStore(s: State, step: Step, up: bool)
    requires Enabled(s, step) && step.StoreAccess? && Steady(step.io, up) && OneStore(s.store, up)
    ensures OneStore(Next(s, step).store, up)
  {
  }

  lemma ClearingKeepsOneStore(s: State, step: Step, up: bool)
    requires Enabled(s, step) && step.Clear? && Steady(step.io, up) && OneStore(s.store, up)
    ensures OneStore(Next(s, step).store, up)
  {
  }

  lemma {:induction false} SteadyStore(s: State, steps: seq<Step>, i: nat, up: bool)
    requires Valid(s, steps) && SteadyRun(steps, up) && OneStore(s.store, up) && i <= |steps|
    ensures OneStore(Before(s, steps, i).store, up)
    decreases i
  {
    if i == 0 {
      assert steps[..0] == [];
    } else {
      SteadyStore(s, steps, i - 1, up);
      Onward(s, steps, i - 1);
      StepKeepsOneStore(Before(s, steps, i - 1), steps[i - 1], up);
    }
  }

  /** A removal, where no replacement was issued, that finds neither the keyring nor the file. */
  ghost predicate RemovalMisses(s: State, steps: seq<Step>, i: nat, c: Caller)
    requires Valid(s, steps) && i < |steps|
  {
    Onward(s, steps, i);
    && steps[i].StoreRefresh? && steps[i].c == c
    && PhaseOf(Before(s, steps, i), c).grant.refresh.None? && !Accepts(steps[i].io)
  }

  /** No late write lands in the half in use, and what is stored goes there. */
  lemma SteadyHalf(s: State, steps: seq<Step>, k: nat, d: Caller, up: bool)
    requires Init(s) && Valid(s, steps) && SteadyRun(steps, up) && OneStore(s.store, up) && k < |steps|
    ensures !LandsIn(steps[k], HalfInUse(up))
    ensures MissesAt(s, steps, k, d, HalfInUse(up)) <==> RemovalMisses(s, steps, k, d)
  {
    Onward(s, steps, k);
    SteadyStore(s, steps, k, up);
    assert SteadyStep(steps[k], up);
  }

  /** The call that made the exchange at step `i` fails to replace its token or, where there is no
      replacement, to remove it. */
  ghost predicate LeavesStored(s: State, steps: seq<Step>, i: nat, f: nat)
    requires Valid(s, steps) && i < f <= |steps| && steps[i].Send?
  {
    exists k :: i < k < f && (ReplacementFails(s, steps, k, steps[i].c) || RemovalMisses(s, steps, k, steps[i].c))
  }

  lemma SteadyLeaves(s: State, steps: seq<Step>, i: nat, f: nat, up: bool)
    requires Init(s) && Valid(s, steps) && SteadyRun(steps, up) && OneStore(s.store, up)
    requires i < f <= |steps| && steps[i].Send?
    ensures Leaves(s, steps, i, f, HalfInUse(up)) <==> LeavesStored(s, steps, i, f)
  {
    forall k | i < k < f
      ensures MissesAt(s, steps, k, steps[i].c, HalfInUse(up)) <==> RemovalMisses(s, steps, k, steps[i].c)
    {
      SteadyHalf(s, steps, k, steps[i].c, up);
    }
  }

  /** While the availability does not change and refreshes do not overlap, a submission repeats an
      exchanged refresh token if and only if the last refresh that had succeeded before the token was
      fetched then failed to replace its token or, where there is no replacement, to remove it. */
  lemma SteadyResubmittedIff(s: State, steps: seq<Step>, f: nat, j: nat, c: Caller, up: bool)
    requires Init(s) && Valid(s, steps) && NoOverlap(s, steps) && j < |steps| && Fetches(s, steps, f, j, c)
    requires steps[j].Send? && steps[j].c == c && SteadyRun(steps, up) && OneStore(s.store, up)
    ensures ExchangedIn(s, steps, 0, j, Submitted(s, steps, j)) <==>
      exists i: nat :: LastSuccess(steps, i, f) && LeavesStored(s, steps, i, f)
  {
    if exists m :: 0 <= m < f && Succeeds(steps, m) {
      var g, i := FindLastExchange(s, steps, f);
      SteadyLastIff(s, steps, g, i, f, j, c, up);
      assert forall i': nat :: LastSuccess(steps, i', f) ==> i' == i;
    } else {
      NoExchange(s, steps, f, j, c);
    }
  }

  lemma NoExchange(s: State, steps: seq<Step>, f: nat, j: nat, c: Caller)
    requires Init(s) && Valid(s, steps) && NoOverlap(s, steps) && j < |steps| && Fetches(s, steps, f, j, c)
    requires steps[j].Send? && steps[j].c == c && forall m :: 0 <= m < f ==> !Succeeds(steps, m)
    ensures !ExchangedIn(s, steps, 0, j, Submitted(s, steps, j))
  {
    SubmitsAlone(s, steps, f, j, c);
    forall i | 0 <= i < j ensures !ExchangesAt(s, steps, i, Submitted(s, steps, j)) {
      assert i < f ==> !Succeeds(steps, i);
    }
  }

  lemma SteadyLastIff(s: State, steps: seq<Step>, g: nat, i: nat, f: nat, j: nat, c: Caller, up: bool)
    requires Init(s) && Valid(s, steps) && NoOverlap(s, steps) && j < |steps| && Fetches(s, steps, f, j, c)
    requires steps[j].Send? && steps[j].c == c && SteadyRun(steps, up) && OneStore(s.store, up)
    requires LastExchange(s, steps, g, i, f)
    ensures ExchangedIn(s, steps, 0, j, Submitted(s, steps, j)) <==> LeavesStored(s, steps, i, f)
  {
    FetchInUse(s, steps, f, j, c, up);
    FetchInUse(s, steps, g, i, steps[i].c, up);
    forall k | g < k < f ensures !LandsIn(steps[k], HalfInUse(up)) {
      SteadyHalf(s, steps, k, c, up);
    }
    SteadyLeaves(s, steps, i, f, up);
    LeftBehindIff(s, steps, g, i, f, j, c);
  }

  lemma FetchInUse(s: State, steps: seq<Step>, f: nat, j: nat, c: Caller, up: bool)
    requires Valid(s, steps) && Fetches(s, steps, f, j, c) && SteadyRun(steps, up) && OneStore(s.store, up)
    ensures FetchedFrom(s, steps, f) == HalfInUse(up)
  {
    Onward(s, steps, f);
    PhaseStep(s, steps, f, c);
    SteadyStore(s, steps, f, up);
    assert SteadyStep(steps[f], up);
    SteadyRead(Before(s, steps, f).store.refresh, REFRESH, steps[f].io, up);
  }

  /** So a refresh token exchanged in a successful refresh is never submitted again. */
  lemma SteadyNoResubmission(s: State, steps: seq<Step>, i: nat, j: nat, up: bool)
    requires Init(s) && Valid(s, steps) && NoOverlap(s, steps) && SteadyRun(steps, up) && OneStore(s.store, up)
    requires forall k, c: Caller :: 0 <= k < |steps| ==>
               !ReplacementFails(s, steps, k, c) && !RemovalMisses(s, steps, k, c)
    requires i < j < |steps| && steps[i].Send? && steps[i].reply.Success? && steps[j].Send?
    ensures Submitted(s, steps, i) != Submitted(s, steps, j)
  {
    Onward(s, steps, j);
    var c := steps[j].c;
    var f := FetchBefore(s, steps, j, c);
    SteadyResubmittedIff(s, steps, f, j, c, up);
    assert ExchangesAt(s, steps, i, Submitted(s, steps, i));
  }

  /** The stored access token, as the one map shows it. */
  ghost function StoredAt(s: State, steps: seq<Step>, i: nat, up: bool): Option<Token>
    requires Valid(s, steps) && i <= |steps|
  {
    Shown(Before(s, steps, i).store.uat, UAT, up)
  }

  /** Then a call that leaves without a refresh of its own returns the stored token if and only if the
      last write of the access token since it began, if any, wrote that same token. */
  lemma SteadyReturnedIff(s: State, steps: seq<Step>, b: nat, j: nat, c: Caller, result: Token, up: bool)
    requires Init(s) && Valid(s, steps) && SteadyRun(steps, up) && OneStore(s.store, up)
    requires ReturnsAt(s, steps, j, c, result)
    requires (steps[j].Check? || steps[j].Recheck?) && b < j && steps[b].Begin? && steps[b].c == c
    ensures StoredAt(s, steps, b, up) == Some(result)
    ensures var last := LastWritten(s, steps, b, j, HalfInUse(up));
      StoredAt(s, steps, j, up) == Some(result) <==> last == None || last == Some(Some(result))
  {
    ReturnedWasRead(s, steps, b, j, c, result);
    SteadyStore(s, steps, b, up);
    SteadyStore(s, steps, j, up);
    assert SteadyStep(steps[b], up);
    SteadyRead(Before(s, steps, b).store.uat, UAT, steps[b].io, up);
    SteadyRead(Before(s, steps, j).store.uat, UAT, steps[b].io, up);
    HeldSince(s, steps, b, j, HalfInUse(up));
  }

  /** And where no grant repeats the token it read, a waiter does so if and only if no write changed the
      stored token between its beginning and its check under the lock. */
  lemma WaiterIsCurrentIff(s: State, steps: seq<Step>, b: nat, j: nat, c: Caller, result: Token, up: bool)
    requires Init(s) && Valid(s, steps) && SteadyRun(steps, up) && OneStore(s.store, up)
    requires ReturnsAt(s, steps, j, c, result)
    requires steps[j].Recheck? && b < j && steps[b].Begin? && steps[b].c == c
    requires forall k :: b <= k < j ==> WrittenAt(s, steps, k, HalfInUse(up)) != Some(Some(result))
    ensures StoredAt(s, steps, j, up) == Some(result)
       <==> forall k :: b <= k < j ==> WrittenAt(s, steps, k, HalfInUse(up)) == None
  {
    SteadyReturnedIff(s, steps, b, j, c, result, up);
    LastWrittenIff(s, steps, b, j, HalfInUse(up));
  }
}
