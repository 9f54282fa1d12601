/** Refreshing the OAuth access token while any number of goroutines resolve credentials.

`Profile.ResolveCredentials` (pkg/config/profile.go) double-checks the stored expiry around
`refreshMu`, and `refreshOAuthToken` (pkg/login/oauth_refresh.go) spends a single-use refresh
token (section 6 of RFC 6749). The 401 retry of pkg/requests/base.go calls the same refresher
without the mutex. Every step below is one access to the credential store, the lock, the clock or the
token endpoint; the steps of different callers interleave freely, and each access meets the keyring
and its backing file in a condition of its own.
*/
module OAuthRefresh {
  import opened Text
  import opened OAuthStore
  import Keyring

  type Token = string
  type Caller = nat

  /** A successful token response; `refresh` is None when no replacement was issued. */
  datatype Grant = Grant(access: Token, refresh: Option<Token>, expiresIn: nat)

  datatype Reply =
    | Success(grant: Grant)
    | InvalidGrant
    | Refused        // any other failure, the token still unspent
    | Lost           // the server spent the token, but the response never arrived

  /** Where one call is. From `Rechecking` to `Clearing` it is inside the critical section. */
  datatype Phase =
    | Idle
    | HasToken(uat: Token)                   // profile.go:851 read
    | Waiting(uat: Token)                    // at refreshMu.Lock
    | Rechecking(uat: Token)                 // profile.go:861
    | Fetching                               // oauth_refresh.go:29
    | Sending(token: Token)                  // oauth_refresh.go:43
    | Granted(grant: Grant)                  // oauth_refresh.go:56
    | StoringRefresh(grant: Grant)           // oauth_refresh.go:61
    | Stamping(grant: Grant)                 // oauth_refresh.go:72
    | SavingExpiry(grant: Grant, expiry: int) // oauth_refresh.go:74
    | Clearing(rest: nat)                    // oauth_credentials.go:112, keys still to remove
    | Done(result: Token)
    | Failed

  /** The entries involved. Times are milliseconds. */
  datatype Store = Store(
    uat: Keyring.State<Token>, refresh: Keyring.State<Token>, expiry: Keyring.State<int>)

  const UAT := "uat"
  const REFRESH := "oauth_refresh_token"
  const EXPIRY := "oauth_uat_expires_at"

  /** The refresh tokens so far. */
  datatype Ledger = Ledger(
    issued: set<Token>,             // every one that the server has ever issued
    spent: set<Token>,              // those it no longer honours
    granted: map<Token, Caller>,    // to which call one was issued
    released: set<Token>,           // those that have been handed to the store
    exchanged: map<Token, Caller>,  // those exchanged in a refresh whose response arrived, by which call
    unreplaced: set<Caller>,        // calls that failed to replace the token they had exchanged
    left: set<(Caller, Half)>)      // calls that replaced it, but not in that half

  datatype Tally = Tally(
    requests: nat,                  // token requests sent
    upEntries: nat,                 // times the expiry came within the 60 s window, as read with the keyring up
    downEntries: nat,               // and as read with the keyring down
    misplaced: nat,                 // expiries stored where the near one can still be read
    failures: nat,                  // refreshes that ended in an error
    endless: nat)                   // grants without a lifetime

  datatype State = State(
    callers: map<Caller, Phase>,
    lock: Option<Caller>,
    now: int,
    store: Store,
    profileUat: Token,              // p.UAT, shared by the callers
    due: bool,                      // whether the last near expiry was found with the keyring up
    ledger: Ledger,
    tally: Tally)

  datatype Entry = Access | Refresh | Expiry

  /** `reached` says whether a profile write gets to the stored access token, `ok` whether it succeeds
      as a whole. */
  datatype Step =
    | Tick(ms: nat)
    | Land(entry: Entry, i: nat)      // a write that had timed out reaches the keyring
    | Begin(c: Caller, io: Io)
    | BeginRetry(c: Caller, io: Io)   // the 401 path: no lock
    | Check(c: Caller, io: Io)
    | Acquire(c: Caller)
    | Recheck(c: Caller, io: Io)
    | Fetch(c: Caller, io: Io)
    | Send(c: Caller, reply: Reply)
    | StoreAccess(c: Caller, io: Io, reached: bool, ok: bool)
    | StoreRefresh(c: Caller, io: Io)
    | Stamp(c: Caller)
    | SaveExpiry(c: Caller, io: Io)
    | Clear(c: Caller, io: Io, reached: bool, ok: bool)

  predicate Near(expiry: Option<int>, now: int) {
    expiry.Some? && expiry.value - now < 60_000
  }

  /** RFC 3339 text keeps whole seconds. */
  function WholeSeconds(t: int): int {
    t - t % 1000
  }

  function PhaseOf(s: State, c: Caller): Phase {
    if c in s.callers then s.callers[c] else Idle
  }

  function At(s: State, c: Caller, phase: Phase): State {
    s.(callers := s.callers[c := phase])
  }

  /** Leaves the critical section, releasing the lock if the caller holds it. */
  function Leave(s: State, c: Caller, phase: Phase): State {
    At(s, c, phase).(lock := if s.lock == Some(c) then None else s.lock)
  }

  function Fail(s: State, c: Caller): State {
    Leave(s, c, Failed).(tally := s.tally.(failures := s.tally.failures + 1))
  }

  /** An expiry that cannot be read counts as one that is not near. */
  predicate ReadNear(s: State, io: Io) {
    var read := Read(s.store.expiry, EXPIRY, io);
    read.Ok? && Near(read.value, s.now)
  }

  /** The expiry as it reads with the keyring up, or down. */
  predicate NearBy(s: State, up: bool) {
    Near(Keyring.Got(s.store.expiry, EXPIRY, if up then Keyring.Up else Keyring.Down), s.now)
  }

  function LateWrites(store: Store, entry: Entry): nat {
    match entry
    case Access => |store.uat.late|
    case Refresh => |store.refresh.late|
    case Expiry => |store.expiry.late|
  }

  predicate Enabled(s: State, step: Step) {
    match step
    case Tick(_) => true
    case Land(entry, i) => i < LateWrites(s.store, entry)
    case Begin(c, io) => PhaseOf(s, c).Idle? && Read(s.store.uat, UAT, io).Ok? && Read(s.store.uat, UAT, io).value.Some?
    case BeginRetry(c, io) =>
      PhaseOf(s, c).Idle? && Read(s.store.uat, UAT, io).Ok? && Read(s.store.uat, UAT, io).value.Some?
    case Check(c, _) => PhaseOf(s, c).HasToken?
    case Acquire(c) => PhaseOf(s, c).Waiting? && s.lock.None?
    case Recheck(c, _) => PhaseOf(s, c).Rechecking?
    case Fetch(c, _) => PhaseOf(s, c).Fetching?
    case Send(c, reply) =>
      && PhaseOf(s, c).Sending?
      && (reply.Success? ==>
            && PhaseOf(s, c).token !in s.ledger.spent
            && (reply.grant.refresh.Some? ==> reply.grant.refresh.value !in s.ledger.issued))
    case StoreAccess(c, io, reached, ok) => PhaseOf(s, c).Granted? && (ok ==> reached && Accepts(io))
    case StoreRefresh(c, _) => PhaseOf(s, c).StoringRefresh?
    case Stamp(c) => PhaseOf(s, c).Stamping?
    case SaveExpiry(c, _) => PhaseOf(s, c).SavingExpiry?
    case Clear(c, _, reached, ok) => PhaseOf(s, c).Clearing? && (ok ==> reached)
  }

  function Count(b: bool): nat {
    if b then 1 else 0
  }

  /** Counts the readings of the expiry that have come within the window, or were rewritten within it. */
  function Entered(s: State, t: State, upWritten: bool, downWritten: bool): State {
    var up := NearBy(t, true) && (upWritten || !NearBy(s, true));
    var down := NearBy(t, false) && (downWritten || !NearBy(s, false));
    t.(tally := s.tally.(upEntries := s.tally.upEntries + Count(up), downEntries := s.tally.downEntries + Count(down)))
  }

  /** The half still has, or will get, a token that this call exchanged. */
  predicate StillHolds(s: State, c: Caller, h: Half, token: Token) {
    (token, c) in s.ledger.exchanged.Items && Reaches(s.store.refresh, REFRESH, h, token)
  }

  function LeftBy(s: State, c: Caller): set<(Caller, Half)> {
    set token, h | token in s.ledger.exchanged && h in {Ring, File} && StillHolds(s, c, h, token) :: (c, h)
  }

  function Next(s: State, step: Step): State
    requires Enabled(s, step)
  {
    match step
    case Tick(ms) => Entered(s, s.(now := s.now + ms), false, false)
    case Land(entry, i) => AfterLand(s, entry, i)
    case Begin(c, io) => At(s, c, HasToken(Read(s.store.uat, UAT, io).value.value))
    case BeginRetry(c, _) => At(s, c, Fetching)
    case Check(c, io) =>
      var uat := PhaseOf(s, c).uat;
      if ReadNear(s, io) then At(s, c, Waiting(uat)) else At(s, c, Done(uat))
    case Acquire(c) => At(s, c, Rechecking(PhaseOf(s, c).uat)).(lock := Some(c))
    case Recheck(c, io) =>
      if ReadNear(s, io) then At(s, c, Fetching).(due := io.a.Up?) else Leave(s, c, Done(PhaseOf(s, c).uat))
    case Fetch(c, io) =>
      var read := Read(s.store.refresh, REFRESH, io);
      if read.Err? || read.value.None? then Fail(s, c) else At(s, c, Sending(read.value.value))
    case Send(c, reply) =>
      AfterReply(s.(tally := s.tally.(requests := s.tally.requests + 1)), c, PhaseOf(s, c).token, reply)
    case StoreAccess(c, io, reached, ok) =>
      var grant := PhaseOf(s, c).grant;
      var t := s.(profileUat := grant.access,
                  store := if reached then s.store.(uat := Written(s.store.uat, UAT, grant.access, io)) else s.store);
      if ok then At(t, c, StoringRefresh(grant)) else Unreplaced(Fail(t, c), c)
    case StoreRefresh(c, io) => AfterRefreshStored(s, c, PhaseOf(s, c).grant, io)
    case Stamp(c) =>
      var grant := PhaseOf(s, c).grant;
      if grant.expiresIn > 0 then At(s, c, SavingExpiry(grant, WholeSeconds(s.now + 1000 * grant.expiresIn)))
      else Leave(s, c, Done(s.profileUat)).(tally := s.tally.(endless := s.tally.endless + 1))
    case SaveExpiry(c, io) => AfterExpirySaved(s, c, PhaseOf(s, c).expiry, io)
    case Clear(c, io, reached, ok) => AfterClear(s, c, PhaseOf(s, c).rest, io, reached, ok)
  }

  function AfterLand(s: State, entry: Entry, i: nat): State
    requires i < LateWrites(s.store, entry)
  {
    match entry
    case Access => s.(store := s.store.(uat := Keyring.AfterLanding(s.store.uat, i)))
    case Refresh => s.(store := s.store.(refresh := Keyring.AfterLanding(s.store.refresh, i)))
    case Expiry =>
      Entered(s, s.(store := s.store.(expiry := Keyring.AfterLanding(s.store.expiry, i))), false, false)
  }

  function Unreplaced(s: State, c: Caller): State {
    s.(ledger := s.ledger.(unreplaced := s.ledger.unreplaced + {c}))
  }

  /** Without a replacement the exchanged token is removed, and no failure of that is noticed. */
  function AfterRefreshStored(s: State, c: Caller, grant: Grant, io: Io): State {
    var refresh := if grant.refresh.Some? then Written(s.store.refresh, REFRESH, grant.refresh.value, io)
                   else Dropped(s.store.refresh, REFRESH, io);
    var t := s.(store := s.store.(refresh := refresh),
                ledger := s.ledger.(
                  released := s.ledger.released + if grant.refresh.Some? then {grant.refresh.value} else {}));
    if grant.refresh.Some? && !Accepts(io) then Unreplaced(Fail(t, c), c)
    else At(t, c, Stamping(grant)).(ledger := t.ledger.(left := s.ledger.left + LeftBy(t, c)))
  }

  /** Without the keyring, a reading with it sees the file only where the keyring has no value. */
  function AfterExpirySaved(s: State, c: Caller, expiry: int, io: Io): State {
    var t := s.(store := s.store.(expiry := Written(s.store.expiry, EXPIRY, expiry, io)));
    if !Accepts(io) then Fail(t, c) else
    var upWritten, downWritten := io.a.Up? || EXPIRY !in s.store.expiry.primary, !io.a.Up?;
    var stillNear := NearBy(t, s.due) && !(if s.due then upWritten else downWritten);
    var u := Entered(s, t, upWritten, downWritten);
    Leave(u.(tally := u.tally.(misplaced := s.tally.misplaced + Count(stillNear))), c, Done(s.profileUat))
  }

  function AfterClear(s: State, c: Caller, rest: nat, io: Io, reached: bool, ok: bool): State {
    if rest == 3 then
      var t := s.(profileUat := "",
                  store := if reached then s.store.(uat := Dropped(s.store.uat, UAT, io)) else s.store);
      if ok then At(t, c, Clearing(2)) else Fail(t, c)
    else if rest == 2 then
      At(s, c, Clearing(1)).(store := s.store.(refresh := Dropped(s.store.refresh, REFRESH, io)))
    else
      Fail(Entered(s, s.(store := s.store.(expiry := Dropped(s.store.expiry, EXPIRY, io))), false, false), c)
  }

  function AfterReply(s: State, c: Caller, token: Token, reply: Reply): State {
    match reply
    case Success(grant) =>
      At(s, c, Granted(grant)).(ledger := s.ledger.(
        spent := s.ledger.spent + {token},
        exchanged := s.ledger.exchanged[token := c],
        issued := s.ledger.issued + if grant.refresh.Some? then {grant.refresh.value} else {},
        granted := if grant.refresh.Some? then s.ledger.granted[grant.refresh.value := c] else s.ledger.granted))
    case InvalidGrant => At(s, c, Clearing(3))
    case Refused => Fail(s, c)
    case Lost => Fail(s, c).(ledger := s.ledger.(spent := s.ledger.spent + {token}))
  }

  // ---------------------------------------------------------------------------
  // Runs
  // ---------------------------------------------------------------------------

  ghost predicate Init(s: State) {
    && s.callers == map[] && s.lock.None?
    && s.store.uat.late == [] && s.store.refresh.late == [] && s.store.expiry.late == []
    && (forall h :: Held(s.store.refresh, REFRESH, h).Some? ==>
          Held(s.store.refresh, REFRESH, h).value in s.ledger.released)
    && s.ledger.exchanged == map[] && s.ledger.spent <= s.ledger.issued && s.ledger.released <= s.ledger.issued
    && s.ledger.unreplaced == {} && s.ledger.left == {}
    && s.tally.requests == 0 && s.tally.failures == 0 && s.tally.endless == 0 && s.tally.misplaced == 0
    && s.tally.upEntries == (if NearBy(s, true) then 1 else 0)
    && s.tally.downEntries == (if NearBy(s, false) then 1 else 0)
  }

  ghost predicate Valid(s: State, steps: seq<Step>)
    decreases |steps|
  {
    steps == [] || (Enabled(s, steps[0]) && Valid(Next(s, steps[0]), steps[1..]))
  }

  ghost function Exec(s: State, steps: seq<Step>): State
    requires Valid(s, steps)
    decreases |steps|
  {
    if steps == [] then s else Exec(Next(s, steps[0]), steps[1..])
  }

  /** Every refresh goes through the mutex. */
  ghost predicate NoRetry(steps: seq<Step>) {
    forall i :: 0 <= i < |steps| ==> !steps[i].BeginRetry?
  }

  lemma {:induction false} Split(s: State, steps: seq<Step>, i: nat)
    requires Valid(s, steps) && i <= |steps|
    ensures Valid(s, steps[..i]) && Valid(Exec(s, steps[..i]), steps[i..])
    ensures Exec(Exec(s, steps[..i]), steps[i..]) == Exec(s, steps)
    decreases i
  {
    if i == 0 {
      assert steps[..0] == [] && steps[0..] == steps;
    } else {
      Split(Next(s, steps[0]), steps[1..], i - 1);
      assert steps[..i][1..] == steps[1..][..i - 1] && steps[i..] == steps[1..][i - 1..];
    }
  }

  lemma {:induction false} Extend(s: State, steps: seq<Step>, step: Step)
    requires Valid(s, steps) && Enabled(Exec(s, steps), step)
    ensures Valid(s, steps + [step]) && Exec(s, steps + [step]) == Next(Exec(s, steps), step)
    decreases |steps|
  {
    var longer := steps + [step];
    if steps == [] {
      assert longer[1..] == [];
    } else {
      Extend(Next(s, steps[0]), steps[1..], step);
      assert longer[1..] == steps[1..] + [step];
    }
  }

  /** The state that step `i` of a run meets. */
  ghost function Before(s: State, steps: seq<Step>, i: nat): State
    requires Valid(s, steps) && i <= |steps|
  {
    Split(s, steps, i);
    Exec(s, steps[..i])
  }

  lemma {:induction false} Onward(s: State, steps: seq<Step>, i: nat)
    requires Valid(s, steps) && i < |steps|
    ensures Enabled(Before(s, steps, i), steps[i])
    ensures Before(s, steps, i + 1) == Next(Before(s, steps, i), steps[i])
  {
    Split(s, steps, i);
    assert steps[i..][0] == steps[i];
    Extend(s, steps[..i], steps[i]);
    assert steps[..i] + [steps[i]] == steps[..i + 1];
  }

  lemma Whole(s: State, steps: seq<Step>)
    requires Valid(s, steps)
    ensures Before(s, steps, |steps|) == Exec(s, steps)
  {
    assert steps[..|steps|] == steps;
  }

  /** The caller that a step moves. */
  function Actor(step: Step): Option<Caller> {
    if step.Tick? || step.Land? then None else Some(step.c)
  }

  lemma OthersStay(s: State, step: Step, c: Caller)
    requires Enabled(s, step) && Some(c) != Actor(step)
    ensures PhaseOf(Next(s, step), c) == PhaseOf(s, c)
  {
  }

  /** The steps of a call up to submitting the refresh token. */
  predicate BeforeReply(step: Step) {
    step.Begin? || step.BeginRetry? || step.Check? || step.Acquire? || step.Recheck? || step.Fetch?
  }

  predicate Critical(phase: Phase) {
    !(phase.Idle? || phase.HasToken? || phase.Waiting? || phase.Done? || phase.Failed?)
  }

  /** A response has arrived, and its expiry is not yet stored. */
  predicate Exchanged(phase: Phase) {
    phase.Granted? || phase.StoringRefresh? || phase.Stamping? || phase.SavingExpiry?
  }

  predicate Holds(phase: Phase, uat: Token) {
    phase == HasToken(uat) || phase == Waiting(uat) || phase == Rechecking(uat)
  }

  /** How a call's own step may move it, as far as tokens go. */
  predicate Moves(before: State, step: Step, phase: Phase, phase': Phase) {
    match phase'
    case Idle => false
    case HasToken(uat) => step.Begin? && phase.Idle? && Read(before.store.uat, UAT, step.io) == Ok(Some(uat))
    case Waiting(uat) => phase == HasToken(uat)
    case Rechecking(uat) => phase == Waiting(uat)
    case Sending(token) => step.Fetch? && Read(before.store.refresh, REFRESH, step.io) == Ok(Some(token))
    case Granted(grant) => step.Send? && step.reply == Success(grant)
    case StoringRefresh(grant) => phase == Granted(grant)
    case Stamping(grant) => phase == StoringRefresh(grant)
    case SavingExpiry(grant, _) => phase == Stamping(grant)
    case Done(result) =>
      || ((step.Check? || step.Recheck?) && Holds(phase, result))
      || ((step.Stamp? || step.SaveExpiry?) && (phase.Stamping? || phase.SavingExpiry?) && result == before.profileUat)
    case _ => true
  }

  lemma EarlyMoves(s: State, step: Step)
    requires Enabled(s, step) && BeforeReply(step)
    ensures Moves(s, step, PhaseOf(s, step.c), PhaseOf(Next(s, step), step.c))
  {
  }

  lemma ReplyMoves(s: State, step: Step)
    requires Enabled(s, step) && step.Send?
    ensures Moves(s, step, PhaseOf(s, step.c), PhaseOf(Next(s, step), step.c))
  {
  }

  lemma TokenMoves(s: State, step: Step)
    requires Enabled(s, step) && (step.StoreAccess? || step.StoreRefresh?)
    ensures Moves(s, step, PhaseOf(s, step.c), PhaseOf(Next(s, step), step.c))
  {
  }

  lemma ExpiryMoves(s: State, step: Step)
    requires Enabled(s, step) && (step.Stamp? || step.SaveExpiry?)
    ensures Moves(s, step, PhaseOf(s, step.c), PhaseOf(Next(s, step), step.c))
  {
  }

  lemma ClearMoves(s: State, step: Step)
    requires Enabled(s, step) && step.Clear?
    ensures Moves(s, step, PhaseOf(s, step.c), PhaseOf(Next(s, step), step.c))
  {
  }

  lemma LateMoves(s: State, step: Step)
    requires Enabled(s, step) && !BeforeReply(step) && Actor(step).Some?
    ensures Moves(s, step, PhaseOf(s, step.c), PhaseOf(Next(s, step), step.c))
  {
    if step.Send? {
      ReplyMoves(s, step);
    } else if step.StoreAccess? || step.StoreRefresh? {
      TokenMoves(s, step);
    } else if step.Clear? {
      ClearMoves(s, step);
    } else {
      ExpiryMoves(s, step);
    }
  }

  /** What step `i` of a run does to the phase of `c`. */
  lemma PhaseStep(s: State, steps: seq<Step>, i: nat, c: Caller)
    requires Valid(s, steps) && i < |steps|
    ensures Enabled(Before(s, steps, i), steps[i])
    ensures Actor(steps[i]) != Some(c) ==>
      PhaseOf(Before(s, steps, i + 1), c) == PhaseOf(Before(s, steps, i), c)
    ensures Actor(steps[i]) == Some(c) ==>
      Moves(Before(s, steps, i), steps[i], PhaseOf(Before(s, steps, i), c), PhaseOf(Before(s, steps, i + 1), c))
  {
    Onward(s, steps, i);
    if Actor(steps[i]) != Some(c) {
      OthersStay(Before(s, steps, i), steps[i], c);
    } else if BeforeReply(steps[i]) {
      EarlyMoves(Before(s, steps, i), steps[i]);
    } else {
      LateMoves(Before(s, steps, i), steps[i]);
    }
  }

  // ---------------------------------------------------------------------------
  // Mutual exclusion
  // ---------------------------------------------------------------------------

  ghost predicate Mutex(s: State) {
    forall c: Caller :: Critical(PhaseOf(s, c)) <==> s.lock == Some(c)
  }

  /** The lock as the actor's step leaves it. */
  lemma ActorLock(s: State, step: Step)
    requires Enabled(s, step) && !step.BeginRetry? && Actor(step).Some?
    requires Critical(PhaseOf(s, step.c)) <==> s.lock == Some(step.c)
    ensures var t := Next(s, step);
      && (t.lock == s.lock || t.lock == Some(step.c) || (t.lock == None && s.lock == Some(step.c)))
      && (t.lock == Some(step.c) ==> s.lock == Some(step.c) || s.lock == None)
  {
  }

  lemma EarlyCritical(s: State, step: Step)
    requires Enabled(s, step) && BeforeReply(step) && !step.BeginRetry?
    requires Critical(PhaseOf(s, step.c)) <==> s.lock == Some(step.c)
    ensures Critical(PhaseOf(Next(s, step), step.c)) <==> Next(s, step).lock == Some(step.c)
  {
  }

  lemma LateCritical(s: State, step: Step)
    requires Enabled(s, step) && !BeforeReply(step) && Actor(step).Some?
    requires Critical(PhaseOf(s, step.c)) <==> s.lock == Some(step.c)
    ensures Critical(PhaseOf(Next(s, step), step.c)) <==> Next(s, step).lock == Some(step.c)
  {
    assert s.lock == Some(step.c);
  }

  lemma StepKeepsMutex(s: State, step: Step)
    requires Mutex(s) && Enabled(s, step) && !step.BeginRetry?
    ensures Mutex(Next(s, step))
  {
    forall c: Caller | Some(c) != Actor(step) ensures PhaseOf(Next(s, step), c) == PhaseOf(s, c) {
      OthersStay(s, step, c);
    }
    if Actor(step).Some? {
      ActorLock(s, step);
      if BeforeReply(step) {
        EarlyCritical(s, step);
      } else {
        LateCritical(s, step);
      }
    }
  }

  // ---------------------------------------------------------------------------
  // The request budget
  // ---------------------------------------------------------------------------

  /** A reading of the expiry that a request may still follow from. The one that led the lock holder to
      its refresh is owed until the response arrives, and from then on dealt with. */
  predicate Owed(s: State, up: bool) {
    if s.lock.Some? && s.due == up && Refreshing(PhaseOf(s, s.lock.value))
    then !Answered(PhaseOf(s, s.lock.value))
    else NearBy(s, up)
  }

  predicate Answered(phase: Phase) {
    Exchanged(phase) || phase.Clearing?
  }

  predicate Refreshing(phase: Phase) {
    phase.Fetching? || phase.Sending? || Answered(phase)
  }

  function Owing(s: State, ways: set<bool>): nat {
    (if true in ways && Owed(s, true) then 1 else 0) + (if false in ways && Owed(s, false) then 1 else 0)
  }

  function Entries(s: State, ways: set<bool>): nat {
    (if true in ways then s.tally.upEntries else 0) + (if false in ways then s.tally.downEntries else 0)
  }

  /** Each request is paid for by an entry into the window, a failed refresh, an endless grant or an
      expiry that was stored beside the near one. `ways` are the readings that the run makes. */
  ghost predicate Budget(s: State, ways: set<bool>) {
    && s.tally.requests + Owing(s, ways) <= Entries(s, ways) + s.tally.failures + s.tally.endless + s.tally.misplaced
    && (s.lock.Some? && Refreshing(PhaseOf(s, s.lock.value)) ==> s.due in ways)
  }

  predicate ReadsIn(step: Step, ways: set<bool>) {
    step.Recheck? ==> step.io.a.Up? in ways
  }

  ghost predicate Inv(s: State, ways: set<bool>) {
    Mutex(s) && Budget(s, ways)
  }

  lemma TickKeepsBudget(s: State, step: Step, ways: set<bool>)
    requires Budget(s, ways) && step.Tick?
    ensures Budget(Next(s, step), ways)
  {
  }

  lemma LandKeepsBudget(s: State, step: Step, ways: set<bool>)
    requires Budget(s, ways) && Enabled(s, step) && step.Land?
    ensures Budget(Next(s, step), ways)
  {
  }

  /** A step from outside the critical section changes nothing that is shared. */
  lemma OutsideStays(s: State, step: Step)
    requires Enabled(s, step) && Actor(step).Some? && !Critical(PhaseOf(s, step.c))
    ensures var t := Next(s, step);
      && t.store == s.store && t.profileUat == s.profileUat && t.now == s.now && t.due == s.due
      && t.tally == s.tally
      && (step.BeginRetry? || t.lock == s.lock || (t.lock == Some(step.c) && PhaseOf(t, step.c).Rechecking?))
  {
  }

  lemma OutsideKeepsBudget(s: State, step: Step, ways: set<bool>)
    requires Inv(s, ways) && Enabled(s, step) && !step.BeginRetry?
    requires Actor(step).Some? && !Critical(PhaseOf(s, step.c))
    ensures Budget(Next(s, step), ways)
  {
    OutsideStays(s, step);
    if s.lock.Some? {
      OthersStay(s, step, s.lock.value);
    }
  }

  lemma EarlyKeepsBudget(s: State, step: Step, ways: set<bool>)
    requires Budget(s, ways) && Enabled(s, step) && ReadsIn(step, ways)
    requires (step.Recheck? || step.Fetch?) && s.lock == Some(step.c)
    ensures Budget(Next(s, step), ways)
  {
  }

  lemma SendKeepsBudget(s: State, step: Step, ways: set<bool>)
    requires Budget(s, ways) && Enabled(s, step) && step.Send? && s.lock == Some(step.c)
    ensures Budget(Next(s, step), ways)
  {
  }

  lemma StoringKeepsBudget(s: State, step: Step, ways: set<bool>)
    requires step.StoreAccess? || step.StoreRefresh? || step.Stamp?
    requires Budget(s, ways) && Enabled(s, step) && s.lock == Some(step.c)
    ensures Budget(Next(s, step), ways)
  {
  }

  lemma SavingKeepsBudget(s: State, step: Step, ways: set<bool>)
    requires Budget(s, ways) && Enabled(s, step) && step.SaveExpiry? && s.lock == Some(step.c)
    ensures Budget(Next(s, step), ways)
  {
  }

  lemma ClearingKeepsBudget(s: State, step: Step, ways: set<bool>)
    requires Budget(s, ways) && Enabled(s, step) && step.Clear? && s.lock == Some(step.c)
    ensures Budget(Next(s, step), ways)
  {
  }

  lemma StepKeepsBudget(s: State, step: Step, ways: set<bool>)
    requires Inv(s, ways) && Enabled(s, step) && !step.BeginRetry? && ReadsIn(step, ways)
    ensures Budget(Next(s, step), ways)
  {
    if step.Tick? {
      TickKeepsBudget(s, step, ways);
    } else if step.Land? {
      LandKeepsBudget(s, step, ways);
    } else if !Critical(PhaseOf(s, step.c)) {
      OutsideKeepsBudget(s, step, ways);
    } else if step.Recheck? || step.Fetch? {
      EarlyKeepsBudget(s, step, ways);
    } else if step.Send? {
      SendKeepsBudget(s, step, ways);
    } else if step.SaveExpiry? {
      SavingKeepsBudget(s, step, ways);
    } else if step.Clear? {
      ClearingKeepsBudget(s, step, ways);
    } else {
      StoringKeepsBudget(s, step, ways);
    }
  }

  lemma StepKeepsInv(s: State, step: Step, ways: set<bool>)
    requires Inv(s, ways) && Enabled(s, step) && !step.BeginRetry? && ReadsIn(step, ways)
    ensures Inv(Next(s, step), ways)
  {
    StepKeepsMutex(s, step);
    StepKeepsBudget(s, step, ways);
  }

  ghost predicate AllReadIn(steps: seq<Step>, ways: set<bool>) {
    forall i :: 0 <= i < |steps| ==> ReadsIn(steps[i], ways)
  }

  lemma {:induction false} RunKeepsInv(s: State, steps: seq<Step>, ways: set<bool>)
    requires Inv(s, ways) && Valid(s, steps) && NoRetry(steps) && AllReadIn(steps, ways)
    ensures Inv(Exec(s, steps), ways)
    decreases |steps|
  {
    if steps != [] {
      StepKeepsInv(s, steps[0], ways);
      RunKeepsInv(Next(s, steps[0]), steps[1..], ways);
    }
  }

  lemma InitInv(s: State, ways: set<bool>)
    requires Init(s)
    ensures Inv(s, ways)
  {
  }

  /** At most one refresh is in flight, in every interleaving. */
  lemma OneRefreshInFlight(s: State, steps: seq<Step>, c: Caller, d: Caller)
    requires Init(s) && Valid(s, steps) && NoRetry(steps)
    requires Critical(PhaseOf(Exec(s, steps), c)) && Critical(PhaseOf(Exec(s, steps), d))
    ensures c == d
  {
    InitInv(s, {true, false});
    RunKeepsInv(s, steps, {true, false});
  }

  /** Token requests are at most the entries into a window, as read with the keyring up and as read
      with it down, plus failed refreshes, endless grants and misplaced expiries. */
  lemma RequestsBounded(s: State, steps: seq<Step>)
    requires Init(s) && Valid(s, steps) && NoRetry(steps)
    ensures var t := Exec(s, steps).tally;
      t.requests <= t.upEntries + t.downEntries + t.failures + t.endless + t.misplaced
  {
    InitInv(s, {true, false});
    RunKeepsInv(s, steps, {true, false});
  }

  /** The keyring is always up, or never. */
  predicate SteadyStep(step: Step, up: bool) {
    match step
    case Begin(_, io) => Steady(io, up)
    case BeginRetry(_, io) => Steady(io, up)
    case Check(_, io) => Steady(io, up)
    case Recheck(_, io) => Steady(io, up)
    case Fetch(_, io) => Steady(io, up)
    case StoreAccess(_, io, _, _) => Steady(io, up)
    case StoreRefresh(_, io) => Steady(io, up)
    case SaveExpiry(_, io) => Steady(io, up)
    case Clear(_, io, _, _) => Steady(io, up)
    case _ => true
  }

  ghost predicate SteadyRun(steps: seq<Step>, up: bool) {
    forall i :: 0 <= i < |steps| ==> SteadyStep(steps[i], up)
  }

  /** Only storing an expiry can misplace one. */
  lemma OthersPlaceNone(s: State, step: Step)
    requires Enabled(s, step) && !step.SaveExpiry? && !step.Clear? && !step.Send?
    ensures Next(s, step).tally.misplaced == s.tally.misplaced
  {
  }

  lemma ClearPlacesNone(s: State, step: Step)
    requires Enabled(s, step) && (step.Clear? || step.Send?)
    ensures Next(s, step).tally.misplaced == s.tally.misplaced
  {
  }

  lemma SteadyStepPlaces(s: State, step: Step, up: bool)
    requires Mutex(s) && Enabled(s, step) && !step.BeginRetry? && SteadyStep(step, up)
    requires s.lock.Some? && Refreshing(PhaseOf(s, s.lock.value)) ==> s.due == up
    ensures Next(s, step).tally.misplaced == s.tally.misplaced
  {
    if step.Clear? || step.Send? {
      ClearPlacesNone(s, step);
    } else if !step.SaveExpiry? {
      OthersPlaceNone(s, step);
    } else {
      assert Critical(PhaseOf(s, step.c));
    }
  }

  lemma {:induction false} SteadyRunPlaces(s: State, steps: seq<Step>, up: bool)
    requires Inv(s, {up}) && Valid(s, steps) && NoRetry(steps) && SteadyRun(steps, up)
    ensures Inv(Exec(s, steps), {up}) && Exec(s, steps).tally.misplaced == s.tally.misplaced
    decreases |steps|
  {
    if steps != [] {
      assert SteadyStep(steps[0], up);
      SteadyStepPlaces(s, steps[0], up);
      StepKeepsInv(s, steps[0], {up});
      SteadyRunPlaces(Next(s, steps[0]), steps[1..], up);
    }
  }

  /** While the availability of the keyring does not change, no expiry is misplaced, and only the
      entries of the one reading count. */
  lemma SteadyRequestsBounded(s: State, steps: seq<Step>, up: bool)
    requires Init(s) && Valid(s, steps) && NoRetry(steps) && SteadyRun(steps, up)
    ensures var t := Exec(s, steps);
      t.tally.requests <= (if up then t.tally.upEntries else t.tally.downEntries) + t.tally.failures + t.tally.endless
  {
    InitInv(s, {up});
    SteadyRunPlaces(s, steps, up);
  }

  // ---------------------------------------------------------------------------
  // The beginning of the runs that show what can go wrong
  // ---------------------------------------------------------------------------

  lemma Extend3(s: State, steps: seq<Step>, a: Step, b: Step, c: Step)
    requires Valid(s, steps) && Enabled(Exec(s, steps), a)
    requires Enabled(Next(Exec(s, steps), a), b)
    requires Enabled(Next(Next(Exec(s, steps), a), b), c)
    ensures Valid(s, steps + [a, b, c])
    ensures Exec(s, steps + [a, b, c]) == Next(Next(Next(Exec(s, steps), a), b), c)
  {
    Extend(s, steps, a);
    Extend(s, steps + [a], b);
    assert steps + [a] + [b] == steps + [a, b];
    Extend(s, steps + [a, b], c);
    assert steps + [a, b] + [c] == steps + [a, b, c];
  }

  function InRing<V>(key: string, value: V): Keyring.State<V> {
    Keyring.State(map[key := value], map[], false, [])
  }

  /** A token about to expire, and a refresh token to renew it with, all in the keyring. */
  function Expiring(): State {
    State(map[], None, 0, Store(InRing(UAT, "oak_old"), InRing(REFRESH, "rt1"), InRing(EXPIRY, 1_000)), "", true,
          Ledger({"rt1"}, {}, map[], {"rt1"}, map[], {}, {}), Tally(0, 1, 0, 0, 0, 0))
  }

  const RENEWAL := Grant("oak_new", Some("rt2"), 3600)

  const UP := Io(Keyring.Up, true)
  const DOWN := Io(Keyring.Down, true)

  lemma FirstCallerWaiting() returns (steps: seq<Step>)
    ensures Init(Expiring()) && Valid(Expiring(), steps) && NoRetry(steps) && |steps| == 3
    ensures Exec(Expiring(), steps) == Expiring().(callers := map[1 := Waiting("oak_old"), 2 := HasToken("oak_old")])
  {
    var s := Expiring();
    Extend3(s, [], Begin(1, UP), Begin(2, UP), Check(1, UP));
    steps := [] + [Begin(1, UP), Begin(2, UP), Check(1, UP)];
    assert Exec(s, steps).callers == map[1 := Waiting("oak_old"), 2 := HasToken("oak_old")];
  }

  /** The first caller takes the lock and is about to submit `rt1`. */
  lemma FirstCallerSending() returns (steps: seq<Step>)
    ensures Init(Expiring()) && Valid(Expiring(), steps) && NoRetry(steps) && |steps| == 6
    ensures Exec(Expiring(), steps) == Expiring().(
      callers := map[1 := Sending("rt1"), 2 := HasToken("oak_old")], lock := Some(1))
  {
    var s := Expiring();
    steps := FirstCallerWaiting();
    Extend3(s, steps, Acquire(1), Recheck(1, UP), Fetch(1, UP));
    steps := steps + [Acquire(1), Recheck(1, UP), Fetch(1, UP)];
    assert Exec(s, steps).callers == map[1 := Sending("rt1"), 2 := HasToken("oak_old")];
  }

  /** Both callers saw the near expiry; the response to the first has arrived. */
  function FirstGranted(): State {
    Expiring().(callers := map[1 := Granted(RENEWAL), 2 := Waiting("oak_old")], lock := Some(1),
                ledger := Ledger({"rt1", "rt2"}, {"rt1"}, map["rt2" := 1], {"rt1"}, map["rt1" := 1], {}, {}),
                tally := Tally(1, 1, 0, 0, 0, 0))
  }

  lemma FirstCallerGranted() returns (steps: seq<Step>)
    ensures Init(Expiring()) && Valid(Expiring(), steps) && NoRetry(steps) && |steps| == 8
    ensures Exec(Expiring(), steps) == FirstGranted()
    ensures steps[7] == Send(1, Success(RENEWAL))
    ensures PhaseOf(Before(Expiring(), steps, 7), 1) == Sending("rt1")
  {
    var s := Expiring();
    var first := FirstCallerSending();
    var t := Exec(s, first);
    Extend(s, first, Check(2, UP));
    var u := t.(callers := map[1 := Sending("rt1"), 2 := Waiting("oak_old")]);
    assert Next(t, Check(2, UP)).callers == u.callers;
    Extend(s, first + [Check(2, UP)], Send(1, Success(RENEWAL)));
    assert Next(u, Send(1, Success(RENEWAL))).callers == FirstGranted().callers;
    assert Next(u, Send(1, Success(RENEWAL))) == FirstGranted();
    steps := first + [Check(2, UP)] + [Send(1, Success(RENEWAL))];
    assert steps[..7] == first + [Check(2, UP)];
  }
}
