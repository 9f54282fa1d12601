/** The refresh step by step: when a call goes on, which expiry it stores, which tokens the server has
finished with, and what the numbers that bound the requests count (pkg/config/profile.go,
pkg/login/oauth_refresh.go).
*/
module OAuthTally {
  import opened Text
  import opened OAuthStore
  import opened OAuthRefresh
  import opened OAuthRotation
  import opened OAuthResults
  import Keyring

  // ---------------------------------------------------------------------------
  // Checks
  // ---------------------------------------------------------------------------

  /** The reading finds an expiry less than a minute away. */
  predicate FindsNear(k: Keyring.State<int>, io: Io, now: int) {
    Read(k, "oauth_uat_expires_at", io).Ok? &&
    match Read(k, "oauth_uat_expires_at", io).value
    case None => false
    case Some(expiry) => expiry < now + 60000
  }

  /** The first check and the check under the lock go on towards a refresh if and only if they find an expiry
      less than a minute away; otherwise the call returns what it read. An expiry that is missing or cannot
      be read is not near. */
  lemma ChecksIff(s: State, steps: seq<Step>, k: nat)
    requires Valid(s, steps) && k < |steps| && (steps[k].Check? || steps[k].Recheck?)
    ensures var before := PhaseOf(Before(s, steps, k), steps[k].c);
      var after := PhaseOf(Before(s, steps, k + 1), steps[k].c);
      var near := FindsNear(Before(s, steps, k).store.expiry, steps[k].io, Before(s, steps, k).now);
      && (before.HasToken? || before.Rechecking?)
      && after == if !near then Done(before.uat) else if steps[k].Check? then Waiting(before.uat) else Fetching
  {
    Onward(s, steps, k);
  }

  /** A fetch that finds a token goes on to submit it, any other ends the call in an error. */
  lemma FetchIff(s: State, steps: seq<Step>, k: nat)
    requires Valid(s, steps) && k < |steps| && steps[k].Fetch?
    ensures PhaseOf(Before(s, steps, k + 1), steps[k].c) ==
      match Read(Before(s, steps, k).store.refresh, "oauth_refresh_token", steps[k].io)
      case Ok(Some(token)) => Sending(token)
      case _ => Failed
  {
    Onward(s, steps, k);
  }

  function Passed(steps: seq<Step>, n: nat): nat
    requires n <= |steps|
  {
    if n == 0 then 0 else Passed(steps, n - 1) + if steps[n - 1].Tick? then steps[n - 1].ms else 0
  }

  lemma ClockStep(s: State, step: Step)
    requires Enabled(s, step)
    ensures Next(s, step).now == s.now + if step.Tick? then step.ms else 0
  {
  }

  /** The clock shows the time that has passed. */
  lemma {:induction false} ClockIs(s: State, steps: seq<Step>, n: nat)
    requires Valid(s, steps) && n <= |steps|
    ensures Before(s, steps, n).now == s.now + Passed(steps, n)
  {
    if n == 0 {
      assert steps[..0] == [];
    } else {
      ClockIs(s, steps, n - 1);
      Onward(s, steps, n - 1);
      ClockStep(Before(s, steps, n - 1), steps[n - 1]);
    }
  }

  // ---------------------------------------------------------------------------
  // The expiry that is stored
  // ---------------------------------------------------------------------------

  /** Step `j` computes this expiry for a grant: its lifetime from then on, in whole seconds. */
  ghost predicate StampsAt(s: State, steps: seq<Step>, j: nat, c: Caller, grant: Grant, expiry: int)
    requires Valid(s, steps)
  {
    && j < |steps| && steps[j] == Stamp(c) && grant.expiresIn > 0 && expiry % 1000 == 0
    && expiry <= Before(s, steps, j).now + grant.expiresIn * 1000 < expiry + 1000
  }

  lemma StampStep(s: State, step: Step)
    requires Enabled(s, step) && step.Stamp?
    ensures var (grant, phase) := (PhaseOf(s, step.c).grant, PhaseOf(Next(s, step), step.c));
      if grant.expiresIn == 0 then phase == Done(s.profileUat)
      else phase.SavingExpiry? && phase.grant == grant && phase.expiry % 1000 == 0
           && phase.expiry <= s.now + grant.expiresIn * 1000 < phase.expiry + 1000
    ensures Next(s, step).store == s.store
  {
  }

  /** The expiry that a call stores is that of its own grant, from the moment at which it was computed. */
  lemma {:induction false} StoredExpiry(s: State, steps: seq<Step>, k: nat, c: Caller) returns (j: nat)
    requires Init(s) && Valid(s, steps) && k <= |steps| && PhaseOf(Before(s, steps, k), c).SavingExpiry?
    ensures var phase := PhaseOf(Before(s, steps, k), c);
      j < k && StampsAt(s, steps, j, c, phase.grant, phase.expiry)
    decreases k
  {
    assert k > 0 by { assert steps[..0] == []; }
    PhaseStep(s, steps, k - 1, c);
    Onward(s, steps, k - 1);
    if Actor(steps[k - 1]) == Some(c) {
      j := k - 1;
      StampStep(Before(s, steps, j), steps[j]);
    } else {
      j := StoredExpiry(s, steps, k - 1, c);
    }
  }

  // ---------------------------------------------------------------------------
  // What a reported write has stored, and whose lock a step releases
  // ---------------------------------------------------------------------------

  function WrittenHalf(io: Io): Half {
    if io.a.Up? then Ring else File
  }

  /** Where a call goes on after a write, the value is in the keyring, or in the file if that failed. */
  lemma AccessStored(s: State, step: Step)
    requires Enabled(s, step) && step.StoreAccess? && !PhaseOf(Next(s, step), step.c).Failed?
    ensures Held(Next(s, step).store.uat, "uat", WrittenHalf(step.io)) == Some(PhaseOf(s, step.c).grant.access)
    ensures PhaseOf(Next(s, step), step.c) == StoringRefresh(PhaseOf(s, step.c).grant)
  {
  }

  lemma RefreshStored(s: State, step: Step)
    requires Enabled(s, step) && step.StoreRefresh? && !PhaseOf(Next(s, step), step.c).Failed?
    ensures var grant := PhaseOf(s, step.c).grant;
      && PhaseOf(Next(s, step), step.c) == Stamping(grant)
      && (grant.refresh.Some? ==>
            Held(Next(s, step).store.refresh, "oauth_refresh_token", WrittenHalf(step.io)) == grant.refresh)
  {
  }

  lemma ExpiryStored(s: State, step: Step)
    requires Enabled(s, step) && step.SaveExpiry? && !PhaseOf(Next(s, step), step.c).Failed?
    ensures Held(Next(s, step).store.expiry, "oauth_uat_expires_at", WrittenHalf(step.io))
         == Some(PhaseOf(s, step.c).expiry)
    ensures PhaseOf(Next(s, step), step.c) == Done(s.profileUat)
  {
  }

  /** In every interleaving, calls without the mutex included: nobody releases or takes the lock of another. */
  lemma OthersKeepLock(s: State, step: Step, d: Caller)
    requires Enabled(s, step) && s.lock == Some(d) && Actor(step) != Some(d)
    ensures Next(s, step).lock == Some(d)
  {
  }

  // ---------------------------------------------------------------------------
  // What the server has finished with
  // ---------------------------------------------------------------------------

  /** The server took the token at step `i`, whether or not its response arrived. */
  ghost predicate TakesAt(s: State, steps: seq<Step>, i: nat, token: Token)
    requires Valid(s, steps)
  {
    && i < |steps| && steps[i].Send? && (steps[i].reply.Success? || steps[i].reply.Lost?)
    && Submitted(s, steps, i) == token
  }

  lemma TakenStep(s: State, step: Step)
    requires Enabled(s, step)
    ensures Next(s, step).ledger.spent == s.ledger.spent +
      if step.Send? && (step.reply.Success? || step.reply.Lost?) then {PhaseOf(s, step.c).token} else {}
  {
    if !Rotates(step) && !step.Send? {
      TokensStay(s, step);
    }
  }

  /** The tokens that the server no longer honours are those it took, and no others: not one that it refused. */
  lemma {:induction false} TakenIff(s: State, steps: seq<Step>, n: nat, token: Token)
    requires Valid(s, steps) && n <= |steps|
    ensures token in Before(s, steps, n).ledger.spent
       <==> token in s.ledger.spent || exists i: nat :: i < n && TakesAt(s, steps, i, token)
    decreases n
  {
    if n == 0 {
      assert steps[..0] == [];
    } else {
      TakenIff(s, steps, n - 1, token);
      Onward(s, steps, n - 1);
      TakenStep(Before(s, steps, n - 1), steps[n - 1]);
      assert TakesAt(s, steps, n - 1, token) <==>
        steps[n - 1].Send? && (steps[n - 1].reply.Success? || steps[n - 1].reply.Lost?)
        && PhaseOf(Before(s, steps, n - 1), steps[n - 1].c).token == token;
    }
  }

  /** A token is exchanged at most once, and not after a request whose response was lost. */
  lemma TakenOnce(s: State, steps: seq<Step>, i: nat, j: nat, token: Token)
    requires Valid(s, steps) && i < j < |steps| && TakesAt(s, steps, i, token)
    ensures !ExchangesAt(s, steps, j, token)
  {
    TakenIff(s, steps, j, token);
    Onward(s, steps, j);
  }

  // ---------------------------------------------------------------------------
  // What is counted
  // ---------------------------------------------------------------------------

  predicate EndsEndless(s: State, step: Step)
    requires Enabled(s, step)
  {
    step.Stamp? && PhaseOf(s, step.c).grant.expiresIn == 0
  }

  predicate EndsFailed(s: State, step: Step)
    requires Enabled(s, step)
  {
    Actor(step).Some? && PhaseOf(Next(s, step), step.c).Failed?
  }

  /** The step stores an expiry that this reading finds. */
  predicate Rewrites(s: State, step: Step, up: bool) {
    step.SaveExpiry? && Accepts(step.io)
    && if up then step.io.a.Up? || "oauth_uat_expires_at" !in s.store.expiry.primary else !step.io.a.Up?
  }

  function Reading(up: bool): Io {
    Io(if up then Keyring.Up else Keyring.Down, true)
  }

  predicate NearRead(s: State, up: bool) {
    FindsNear(s.store.expiry, Reading(up), s.now)
  }

  /** By this step a reading comes within a minute of its expiry, or is written anew within it. */
  predicate Enters(s: State, step: Step, up: bool)
    requires Enabled(s, step)
  {
    NearRead(Next(s, step), up) && (!NearRead(s, up) || Rewrites(s, step, up))
  }

  lemma CountsRequests(s: State, step: Step)
    requires Enabled(s, step)
    ensures Next(s, step).tally.requests == s.tally.requests + Count(step.Send?)
  {
  }

  lemma CountsFailures(s: State, step: Step)
    requires Enabled(s, step)
    ensures Next(s, step).tally.failures == s.tally.failures + Count(EndsFailed(s, step))
  {
  }

  lemma CountsEndless(s: State, step: Step)
    requires Enabled(s, step)
    ensures Next(s, step).tally.endless == s.tally.endless + Count(EndsEndless(s, step))
  {
  }

  /** An expiry is stored, but the reading that led to the refresh still finds the near one. */
  predicate Misplaces(s: State, step: Step)
    requires Enabled(s, step)
  {
    step.SaveExpiry? && Accepts(step.io) && NearRead(Next(s, step), s.due) && !Rewrites(s, step, s.due)
  }

  lemma CountsMisplaced(s: State, step: Step)
    requires Enabled(s, step)
    ensures Next(s, step).tally.misplaced == s.tally.misplaced + Count(Misplaces(s, step))
  {
    if step.Clear? || step.Send? {
      ClearPlacesNone(s, step);
    } else if !step.SaveExpiry? {
      OthersPlaceNone(s, step);
    }
  }

  /** Only time and the steps that touch the expiry can do that. */
  predicate MovesExpiry(step: Step) {
    step.Tick? || step.Land? || step.SaveExpiry? || step.Clear?
  }

  lemma OthersEnterNothing(s: State, step: Step)
    requires Enabled(s, step) && !MovesExpiry(step)
    ensures Next(s, step).tally.upEntries == s.tally.upEntries
    ensures Next(s, step).tally.downEntries == s.tally.downEntries
    ensures Next(s, step).store.expiry == s.store.expiry && Next(s, step).now == s.now
  {
  }

  predicate CountedEntries(s: State, step: Step)
    requires Enabled(s, step)
  {
    && Next(s, step).tally.upEntries == s.tally.upEntries + Count(Enters(s, step, true))
    && Next(s, step).tally.downEntries == s.tally.downEntries + Count(Enters(s, step, false))
  }

  lemma TickEnters(s: State, step: Step)
    requires Enabled(s, step) && (step.Tick? || step.Land?)
    ensures CountedEntries(s, step)
  {
  }

  lemma SaveEnters(s: State, step: Step)
    requires Enabled(s, step) && step.SaveExpiry?
    ensures CountedEntries(s, step)
  {
  }

  lemma ClearEnters(s: State, step: Step)
    requires Enabled(s, step) && step.Clear?
    ensures CountedEntries(s, step)
  {
  }

  lemma CountsEntries(s: State, step: Step)
    requires Enabled(s, step)
    ensures CountedEntries(s, step)
  {
    if step.Tick? || step.Land? {
      TickEnters(s, step);
    } else if step.SaveExpiry? {
      SaveEnters(s, step);
    } else if step.Clear? {
      ClearEnters(s, step);
    } else {
      OthersEnterNothing(s, step);
    }
  }

  datatype Counted = Requests | Failures | EndlessGrants | UpEntries | DownEntries | Misplaced

  predicate Happens(s: State, step: Step, what: Counted)
    requires Enabled(s, step)
  {
    match what
    case Requests => step.Send?
    case Failures => EndsFailed(s, step)
    case EndlessGrants => EndsEndless(s, step)
    case UpEntries => Enters(s, step, true)
    case DownEntries => Enters(s, step, false)
    case Misplaced => Misplaces(s, step)
  }

  /** How often it happens before step `n` of a run. */
  ghost function Times(s: State, steps: seq<Step>, n: nat, what: Counted): nat
    requires Valid(s, steps) && n <= |steps|
    decreases n
  {
    if n == 0 then 0 else
      Onward(s, steps, n - 1);
      Times(s, steps, n - 1, what) + Count(Happens(Before(s, steps, n - 1), steps[n - 1], what))
  }

  function Counter(t: Tally, what: Counted): nat {
    match what
    case Requests => t.requests
    case Failures => t.failures
    case EndlessGrants => t.endless
    case UpEntries => t.upEntries
    case DownEntries => t.downEntries
    case Misplaced => t.misplaced
  }

  lemma CountsOne(s: State, step: Step, what: Counted)
    requires Enabled(s, step)
    ensures Counter(Next(s, step).tally, what) == Counter(s.tally, what) + Count(Happens(s, step, what))
  {
    match what
    case Requests => CountsRequests(s, step);
    case Failures => CountsFailures(s, step);
    case EndlessGrants => CountsEndless(s, step);
    case Misplaced => CountsMisplaced(s, step);
    case _ => CountsEntries(s, step);
  }

  /** The numbers that bound the requests are what they are called: requests sent, calls that ended in an
      error, grants without a lifetime, entries of either reading into the last minute, and expiries stored
      beside the near one. */
  lemma {:induction false} TallyCounts(s: State, steps: seq<Step>, n: nat, what: Counted)
    requires Valid(s, steps) && n <= |steps|
    ensures Counter(Before(s, steps, n).tally, what) == Counter(s.tally, what) + Times(s, steps, n, what)
    decreases n
  {
    if n == 0 {
      assert steps[..0] == [];
    } else {
      TallyCounts(s, steps, n - 1, what);
      Onward(s, steps, n - 1);
      CountsOne(Before(s, steps, n - 1), steps[n - 1], what);
    }
  }
}
