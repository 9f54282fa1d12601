/** What a rejected refresh token leaves: `refreshOAuthToken` clears the stored credentials on
`invalid_grant` (pkg/login/oauth_refresh.go), one entry after the other (pkg/login/oauth_credentials.go).
*/
module OAuthClearing {
  import opened Text
  import opened OAuthStore
  import opened OAuthRefresh
  import opened OAuthOrigins
  import opened OAuthResults
  import opened OAuthRotation
  import opened OAuthAvailability
  import Keyring

  // ---------------------------------------------------------------------------
  // Which entry a step removes
  // ---------------------------------------------------------------------------

  /** How many entries the call has set about removing before step `k`. */
  function ClearsBefore(steps: seq<Step>, k: nat, c: Caller): nat
    requires k <= |steps|
  {
    if k == 0 then 0 else ClearsBefore(steps, k - 1, c) + Count(steps[k - 1].Clear? && steps[k - 1].c == c)
  }

  /** The entries go one after the other: the access token with the profile, the refresh token, the expiry. */
  function Removes(steps: seq<Step>, k: nat): Entry
    requires k < |steps| && steps[k].Clear?
  {
    match ClearsBefore(steps, k, steps[k].c)
    case 0 => Access
    case 1 => Refresh
    case _ => Expiry
  }

  predicate InOrder(phase: Phase, clears: nat) {
    && (phase.Clearing? ==> 1 <= phase.rest && phase.rest + clears == 3)
    && (!phase.Clearing? && !phase.Failed? ==> clears == 0)
  }

  lemma ClearMovesOn(s: State, step: Step)
    requires Enabled(s, step) && step.Clear?
    ensures var (rest, phase) := (PhaseOf(s, step.c).rest, PhaseOf(Next(s, step), step.c));
      phase.Failed? || (phase == Clearing(rest - 1) && rest in {2, 3})
    ensures PhaseOf(s, step.c).rest == 3 ==> (PhaseOf(Next(s, step), step.c).Failed? <==> !step.ok)
    ensures PhaseOf(s, step.c).rest == 2 ==> !PhaseOf(Next(s, step), step.c).Failed?
  {
  }

  lemma BeginsClearing(s: State, step: Step)
    requires Enabled(s, step) && Actor(step).Some? && !step.Clear?
    ensures var phase := PhaseOf(Next(s, step), step.c);
      (phase.Clearing? <==> step.Send? && step.reply.InvalidGrant?) && (phase.Clearing? ==> phase.rest == 3)
    ensures !PhaseOf(s, step.c).Clearing? && !PhaseOf(s, step.c).Failed?
  {
    if BeforeReply(step) {
      EarlyMoves(s, step);
    } else if step.Send? {
      ReplyMoves(s, step);
    } else {
      LateMoves(s, step);
    }
  }

  lemma {:induction false} ClearsInOrder(s: State, steps: seq<Step>, k: nat, c: Caller)
    requires Init(s) && Valid(s, steps) && k <= |steps|
    ensures InOrder(PhaseOf(Before(s, steps, k), c), ClearsBefore(steps, k, c))
    decreases k
  {
    if k == 0 {
      assert steps[..0] == [];
    } else {
      ClearsInOrder(s, steps, k - 1, c);
      Onward(s, steps, k - 1);
      var before, step := Before(s, steps, k - 1), steps[k - 1];
      if Actor(step) != Some(c) {
        OthersStay(before, step, c);
      } else if step.Clear? {
        ClearMovesOn(before, step);
      } else {
        BeginsClearing(before, step);
      }
    }
  }

  // ---------------------------------------------------------------------------
  // Whether a half has an entry
  // ---------------------------------------------------------------------------

  predicate Has(s: State, e: Entry, h: Half) {
    match e
    case Access => Held(s.store.uat, UAT, h).Some?
    case Refresh => Held(s.store.refresh, REFRESH, h).Some?
    case Expiry => Held(s.store.expiry, EXPIRY, h).Some?
  }

  /** A write goes to the keyring, or to the file when the keyring fails. */
  predicate WriteReaches(io: Io, h: Half) {
    if h.Ring? then io.a.Up? else !io.a.Up? && io.file
  }

  /** A removal goes to both. */
  predicate RemovalReaches(io: Io, h: Half) {
    if h.Ring? then io.a.Up? else io.file
  }

  predicate ClearReaches(step: Step, e: Entry, h: Half)
    requires step.Clear?
  {
    (e.Access? ==> step.reached) && RemovalReaches(step.io, h)
  }

  function Landing(s: State, step: Step, e: Entry, h: Half): Option<bool>
    requires Enabled(s, step) && step.Land?
  {
    if step.entry != e || h.File? then None else
    match e
    case Access => Mapped(Keyring.Landed(s.store.uat, Keyring.LandE(step.i), UAT), (v: Option<Token>) => v.Some?)
    case Refresh =>
      Mapped(Keyring.Landed(s.store.refresh, Keyring.LandE(step.i), REFRESH), (v: Option<Token>) => v.Some?)
    case Expiry => Mapped(Keyring.Landed(s.store.expiry, Keyring.LandE(step.i), EXPIRY), (v: Option<int>) => v.Some?)
  }

  /** Whether step `k` leaves a half with the entry or without it, if it reaches that half at all. */
  ghost function Effect(s: State, steps: seq<Step>, k: nat, e: Entry, h: Half): Option<bool>
    requires Valid(s, steps) && k < |steps|
  {
    Onward(s, steps, k);
    var step := steps[k];
    match step
    case Land(_, _) => Landing(Before(s, steps, k), step, e, h)
    case StoreAccess(_, io, reached, _) => if e.Access? && reached && WriteReaches(io, h) then Some(true) else None
    case StoreRefresh(_, io) =>
      if !e.Refresh? then None
      else if ReplacementAt(s, steps, k).Some? then (if WriteReaches(io, h) then Some(true) else None)
      else if RemovalReaches(io, h) then Some(false) else None
    case SaveExpiry(_, io) => if e.Expiry? && WriteReaches(io, h) then Some(true) else None
    case Clear(_, _, _, _) => if Removes(steps, k) == e && ClearReaches(step, e, h) then Some(false) else None
    case _ => None
  }

  lemma ClearStep(s: State, step: Step, e: Entry, h: Half)
    requires Enabled(s, step) && step.Clear? && 1 <= PhaseOf(s, step.c).rest <= 3
    ensures var removed := match PhaseOf(s, step.c).rest case 3 => Access case 2 => Refresh case _ => Expiry;
      Has(Next(s, step), e, h) == (Has(s, e, h) && !(removed == e && ClearReaches(step, e, h)))
  {
    match e
    case Access => AccessCleared(s, step, h);
    case Refresh => ClearedNext(s, step);
    case Expiry => ClearedExpiry(s, step, h);
  }

  lemma LandStep(s: State, step: Step, e: Entry, h: Half)
    requires Enabled(s, step) && step.Land?
    ensures Has(Next(s, step), e, h)
         == if Landing(s, step, e, h).Some? then Landing(s, step, e, h).value else Has(s, e, h)
  {
    match step.entry
    case Access => Keyring.LandedKey(s.store.uat, Keyring.LandE(step.i), UAT);
    case Refresh => Keyring.LandedKey(s.store.refresh, Keyring.LandE(step.i), REFRESH);
    case Expiry => Keyring.LandedKey(s.store.expiry, Keyring.LandE(step.i), EXPIRY);
  }

  lemma AccessStep(s: State, steps: seq<Step>, k: nat, h: Half)
    requires Init(s) && Valid(s, steps) && k < |steps| && !steps[k].Clear? && !steps[k].Land?
    ensures Has(Before(s, steps, k + 1), Access, h)
         == (Effect(s, steps, k, Access, h) == Some(true) || Has(Before(s, steps, k), Access, h))
    ensures Effect(s, steps, k, Access, h) != Some(false)
  {
    Onward(s, steps, k);
    if steps[k].StoreAccess? {
      AccessWritten(Before(s, steps, k), steps[k], h);
    } else {
      UatStays(Before(s, steps, k), steps[k]);
    }
  }

  lemma RefreshStep(s: State, steps: seq<Step>, k: nat, h: Half)
    requires Init(s) && Valid(s, steps) && k < |steps| && !steps[k].Clear? && !steps[k].Land?
    ensures var effect := Effect(s, steps, k, Refresh, h);
      Has(Before(s, steps, k + 1), Refresh, h)
      == if effect.Some? then effect.value else Has(Before(s, steps, k), Refresh, h)
  {
    Onward(s, steps, k);
    ChangedNext(Before(s, steps, k), steps[k]);
  }

  lemma ExpiryStepped(s: State, steps: seq<Step>, k: nat, h: Half)
    requires Init(s) && Valid(s, steps) && k < |steps| && !steps[k].Clear? && !steps[k].Land?
    ensures Has(Before(s, steps, k + 1), Expiry, h)
         == (Effect(s, steps, k, Expiry, h) == Some(true) || Has(Before(s, steps, k), Expiry, h))
    ensures Effect(s, steps, k, Expiry, h) != Some(false)
  {
    Onward(s, steps, k);
    if steps[k].SaveExpiry? {
      SavedExpiry(Before(s, steps, k), steps[k], h);
    } else {
      OthersKeepExpiry(Before(s, steps, k), steps[k]);
    }
  }

  lemma EffectStep(s: State, steps: seq<Step>, k: nat, e: Entry, h: Half)
    requires Init(s) && Valid(s, steps) && k < |steps|
    ensures Has(Before(s, steps, k + 1), e, h)
         == if Effect(s, steps, k, e, h).Some? then Effect(s, steps, k, e, h).value else Has(Before(s, steps, k), e, h)
  {
    Onward(s, steps, k);
    var before, step := Before(s, steps, k), steps[k];
    if step.Clear? {
      ClearsInOrder(s, steps, k, step.c);
      ClearStep(before, step, e, h);
    } else if step.Land? {
      LandStep(before, step, e, h);
    } else {
      match e
      case Access => AccessStep(s, steps, k, h);
      case Refresh => RefreshStep(s, steps, k, h);
      case Expiry => ExpiryStepped(s, steps, k, h);
    }
  }

  /** The last effect on the half from step `lo` up to step `hi`. */
  ghost function LastEffect(s: State, steps: seq<Step>, lo: nat, hi: nat, e: Entry, h: Half): Option<bool>
    requires Valid(s, steps) && lo <= hi <= |steps|
    decreases hi
  {
    if lo == hi then None
    else if Effect(s, steps, hi - 1, e, h).Some? then Effect(s, steps, hi - 1, e, h)
    else LastEffect(s, steps, lo, hi - 1, e, h)
  }

  lemma {:induction false} HasSince(s: State, steps: seq<Step>, lo: nat, hi: nat, e: Entry, h: Half)
    requires Init(s) && Valid(s, steps) && lo <= hi <= |steps|
    ensures var last := LastEffect(s, steps, lo, hi, e, h);
      Has(Before(s, steps, hi), e, h) == if last.Some? then last.value else Has(Before(s, steps, lo), e, h)
    decreases hi
  {
    if lo < hi {
      HasSince(s, steps, lo, hi - 1, e, h);
      EffectStep(s, steps, hi - 1, e, h);
    }
  }

  // ---------------------------------------------------------------------------
  // A call that was rejected
  // ---------------------------------------------------------------------------

  predicate ClearsAt(steps: seq<Step>, k: nat, c: Caller) {
    k < |steps| && steps[k].Clear? && steps[k].c == c
  }

  /** Between these steps the call does nothing else. */
  ghost predicate Rests(steps: seq<Step>, lo: nat, hi: nat, c: Caller) {
    hi <= |steps| && forall m :: lo <= m < hi ==> Actor(steps[m]) != Some(c)
  }

  lemma {:induction false} NextClear(s: State, steps: seq<Step>, lo: nat, n: nat, c: Caller) returns (k: nat)
    requires Init(s) && Valid(s, steps) && lo <= n <= |steps|
    requires PhaseOf(Before(s, steps, lo), c).Clearing? && !PhaseOf(Before(s, steps, n), c).Clearing?
    ensures lo <= k < n && ClearsAt(steps, k, c) && Rests(steps, lo, k, c)
    ensures PhaseOf(Before(s, steps, k), c) == PhaseOf(Before(s, steps, lo), c)
    decreases n - lo
  {
    Onward(s, steps, lo);
    if Actor(steps[lo]) == Some(c) {
      k := lo;
      if !steps[lo].Clear? {
        BeginsClearing(Before(s, steps, lo), steps[lo]);
      }
    } else {
      OthersStay(Before(s, steps, lo), steps[lo], c);
      k := NextClear(s, steps, lo + 1, n, c);
    }
  }

  lemma {:induction false} FailedRests(s: State, steps: seq<Step>, lo: nat, n: nat, c: Caller)
    requires Valid(s, steps) && lo <= n <= |steps| && PhaseOf(Before(s, steps, lo), c).Failed?
    ensures Rests(steps, lo, n, c)
    decreases n - lo
  {
    if lo < n {
      Onward(s, steps, lo);
      if Actor(steps[lo]) != Some(c) {
        OthersStay(Before(s, steps, lo), steps[lo], c);
        FailedRests(s, steps, lo + 1, n, c);
      } else if !steps[lo].Clear? {
        BeginsClearing(Before(s, steps, lo), steps[lo]);
      }
    }
  }

  /** The removals that follow `invalid_grant`: that of the access token and, if it succeeds, those of the
      refresh token and of the expiry; nothing else until the call has failed. */
  ghost predicate Clears(steps: seq<Step>, i: nat, n: nat, c: Caller, k: nat, l: nat, m: nat) {
    && i < k < n && ClearsAt(steps, k, c) && Rests(steps, i + 1, k, c)
    && if !steps[k].ok then Rests(steps, k + 1, n, c)
       else && k < l < m < n && ClearsAt(steps, l, c) && ClearsAt(steps, m, c)
            && Rests(steps, k + 1, l, c) && Rests(steps, l + 1, m, c) && Rests(steps, m + 1, n, c)
  }

  /** So every step of the call in between is one of these. */
  lemma OnlyClears(steps: seq<Step>, i: nat, n: nat, c: Caller, k: nat, l: nat, m: nat, j: nat)
    requires n <= |steps| && Clears(steps, i, n, c, k, l, m) && i < j < n && Actor(steps[j]) == Some(c)
    ensures ClearsAt(steps, j, c) && j >= k
  {
  }

  lemma RejectedClears(s: State, steps: seq<Step>, i: nat, n: nat, c: Caller) returns (k: nat, l: nat, m: nat)
    requires Init(s) && Valid(s, steps) && i < n <= |steps| && steps[i] == Send(c, InvalidGrant)
    requires PhaseOf(Before(s, steps, n), c).Failed?
    ensures Clears(steps, i, n, c, k, l, m)
    ensures ClearsBefore(steps, k, c) == 0
    ensures steps[k].ok ==> ClearsBefore(steps, l, c) == 1 && ClearsBefore(steps, m, c) == 2
  {
    Onward(s, steps, i);
    BeginsClearing(Before(s, steps, i), steps[i]);
    k := NextClear(s, steps, i + 1, n, c);
    ClearsInOrder(s, steps, k, c);
    Onward(s, steps, k);
    ClearMovesOn(Before(s, steps, k), steps[k]);
    l, m := k, k;
    if !steps[k].ok {
      FailedRests(s, steps, k + 1, n, c);
    } else {
      l := SecondClear(s, steps, k, n, c);
      m := ThirdClear(s, steps, l, n, c);
    }
  }

  /** The removal after the first. */
  lemma SecondClear(s: State, steps: seq<Step>, k: nat, n: nat, c: Caller) returns (l: nat)
    requires Init(s) && Valid(s, steps) && k < n <= |steps|
    requires PhaseOf(Before(s, steps, k + 1), c) == Clearing(2) && PhaseOf(Before(s, steps, n), c).Failed?
    ensures k < l < n && ClearsAt(steps, l, c) && Rests(steps, k + 1, l, c) && ClearsBefore(steps, l, c) == 1
    ensures PhaseOf(Before(s, steps, l + 1), c) == Clearing(1)
  {
    l := NextClear(s, steps, k + 1, n, c);
    ClearsInOrder(s, steps, l, c);
    Onward(s, steps, l);
    ClearMovesOn(Before(s, steps, l), steps[l]);
  }

  /** And the last. */
  lemma ThirdClear(s: State, steps: seq<Step>, l: nat, n: nat, c: Caller) returns (m: nat)
    requires Init(s) && Valid(s, steps) && l < n <= |steps|
    requires PhaseOf(Before(s, steps, l + 1), c) == Clearing(1) && PhaseOf(Before(s, steps, n), c).Failed?
    ensures l < m < n && ClearsAt(steps, m, c) && ClearsBefore(steps, m, c) == 2
    ensures Rests(steps, l + 1, m, c) && Rests(steps, m + 1, n, c)
  {
    m := NextClear(s, steps, l + 1, n, c);
    ClearsInOrder(s, steps, m, c);
    Onward(s, steps, m);
    ClearMovesOn(Before(s, steps, m), steps[m]);
    FailedRests(s, steps, m + 1, n, c);
  }

  /** After step `k` set about removing the entry: a half is without it if and only if the removal reached
      the half, or it was without it before, and neither another call nor a landing has put one there since;
      or the last of those that reached the half since has left it without. */
  ghost predicate GoneIff(s: State, steps: seq<Step>, k: nat, n: nat, e: Entry, h: Half)
    requires Valid(s, steps) && k < n <= |steps| && steps[k].Clear?
  {
    !Has(Before(s, steps, n), e, h) <==>
      match LastEffect(s, steps, k + 1, n, e, h)
      case Some(there) => !there
      case None => ClearReaches(steps[k], e, h) || !Has(Before(s, steps, k), e, h)
  }

  lemma RemovedIff(s: State, steps: seq<Step>, k: nat, n: nat, h: Half)
    requires Init(s) && Valid(s, steps) && k < n <= |steps| && steps[k].Clear?
    ensures GoneIff(s, steps, k, n, Removes(steps, k), h)
  {
    EffectStep(s, steps, k, Removes(steps, k), h);
    HasSince(s, steps, k + 1, n, Removes(steps, k), h);
  }

  /** What a call whose refresh token was rejected leaves when it has failed. The three entries are gone from
      a half exactly where their removals reached it, apart from what other calls and landings did since. If
      writing the profile fails, the refresh token and the expiry are not touched. */
  lemma RejectedLeaves(s: State, steps: seq<Step>, i: nat, n: nat, c: Caller, h: Half)
    returns (k: nat, l: nat, m: nat)
    requires Init(s) && Valid(s, steps) && i < n <= |steps| && steps[i] == Send(c, InvalidGrant)
    requires PhaseOf(Before(s, steps, n), c).Failed?
    ensures Clears(steps, i, n, c, k, l, m)
    ensures GoneIff(s, steps, k, n, Access, h)
    ensures steps[k].ok ==> GoneIff(s, steps, l, n, Refresh, h) && GoneIff(s, steps, m, n, Expiry, h)
  {
    k, l, m := RejectedClears(s, steps, i, n, c);
    RemovedIff(s, steps, k, n, h);
    if steps[k].ok {
      RemovedIff(s, steps, l, n, h);
      RemovedIff(s, steps, m, n, h);
    }
  }

  /** The step that sets about removing an entry, where every removal works. */
  lemma RejectedRemoves(s: State, steps: seq<Step>, i: nat, n: nat, c: Caller, e: Entry, h: Half) returns (at: nat)
    requires Init(s) && Valid(s, steps) && i < n <= |steps| && steps[i] == Send(c, InvalidGrant)
    requires PhaseOf(Before(s, steps, n), c).Failed?
    requires forall k :: i < k < n && ClearsAt(steps, k, c) ==> steps[k].ok
    ensures i < at < n && ClearsAt(steps, at, c) && GoneIff(s, steps, at, n, e, h)
    ensures forall j :: i < j < n && Actor(steps[j]) == Some(c) ==> steps[j].Clear?
  {
    var k, l, m := RejectedLeaves(s, steps, i, n, c, h);
    assert ClearsAt(steps, k, c);
    forall j | i < j < n && Actor(steps[j]) == Some(c) ensures steps[j].Clear? {
      OnlyClears(steps, i, n, c, k, l, m, j);
    }
    at := match e case Access => k case Refresh => l case Expiry => m;
  }

  /** So where every removal works in both halves and nothing is put back, nothing is left. */
  lemma RejectedLeavesNothing(s: State, steps: seq<Step>, i: nat, n: nat, c: Caller, e: Entry, h: Half)
    requires Init(s) && Valid(s, steps) && i < n <= |steps| && steps[i] == Send(c, InvalidGrant)
    requires PhaseOf(Before(s, steps, n), c).Failed?
    requires forall k :: i < k < n && ClearsAt(steps, k, c) ==>
               steps[k].io.a.Up? && steps[k].io.file && steps[k].reached && steps[k].ok
    requires forall k :: i < k < n && Actor(steps[k]) != Some(c) ==> Effect(s, steps, k, e, h) != Some(true)
    ensures !Has(Before(s, steps, n), e, h)
  {
    var at := RejectedRemoves(s, steps, i, n, c, e, h);
    OthersLeave(s, steps, at + 1, n, c, e, h);
    AllGone(s, steps, at, n, e, h);
  }

  lemma AllGone(s: State, steps: seq<Step>, k: nat, n: nat, e: Entry, h: Half)
    requires Valid(s, steps) && k < n <= |steps| && steps[k].Clear? && GoneIff(s, steps, k, n, e, h)
    requires ClearReaches(steps[k], e, h) && LastEffect(s, steps, k + 1, n, e, h) != Some(true)
    ensures !Has(Before(s, steps, n), e, h)
  {
  }

  lemma {:induction false} OthersLeave(s: State, steps: seq<Step>, lo: nat, hi: nat, c: Caller, e: Entry, h: Half)
    requires Valid(s, steps) && lo <= hi <= |steps|
    requires forall k :: lo <= k < hi && Actor(steps[k]) == Some(c) ==> steps[k].Clear?
    requires forall k :: lo <= k < hi && Actor(steps[k]) != Some(c) ==> Effect(s, steps, k, e, h) != Some(true)
    ensures LastEffect(s, steps, lo, hi, e, h) != Some(true)
    decreases hi
  {
    if lo < hi {
      OthersLeave(s, steps, lo, hi - 1, c, e, h);
    }
  }

  // ---------------------------------------------------------------------------
  // The profile
  // ---------------------------------------------------------------------------

  lemma ProfileStep(s: State, step: Step)
    requires Enabled(s, step)
    ensures Next(s, step).profileUat ==
      if step.StoreAccess? then PhaseOf(s, step.c).grant.access
      else if step.Clear? && PhaseOf(s, step.c).rest == 3 then ""
      else s.profileUat
  {
  }

  /** The token that step `k` puts into the profile. */
  ghost predicate SetsProfile(s: State, steps: seq<Step>, k: nat, uat: Token)
    requires Valid(s, steps)
  {
    && k < |steps| && steps[k].StoreAccess?
    && (Onward(s, steps, k); PhaseOf(Before(s, steps, k), steps[k].c).grant.access == uat)
  }

  lemma {:induction false} ProfileSince(s: State, steps: seq<Step>, lo: nat, n: nat)
    requires Valid(s, steps) && lo <= n <= |steps| && Before(s, steps, lo).profileUat == ""
    ensures var uat := Before(s, steps, n).profileUat;
      uat == "" || exists k :: lo <= k < n && SetsProfile(s, steps, k, uat)
    decreases n
  {
    if lo < n {
      ProfileSince(s, steps, lo, n - 1);
      Onward(s, steps, n - 1);
      ProfileStep(Before(s, steps, n - 1), steps[n - 1]);
      var uat := Before(s, steps, n).profileUat;
      if steps[n - 1].StoreAccess? {
        assert SetsProfile(s, steps, n - 1, uat);
      }
    }
  }

  /** The profile then has no access token, unless another call has set one since. */
  lemma RejectedProfile(s: State, steps: seq<Step>, i: nat, n: nat, c: Caller)
    requires Init(s) && Valid(s, steps) && i < n <= |steps| && steps[i] == Send(c, InvalidGrant)
    requires PhaseOf(Before(s, steps, n), c).Failed?
    ensures var uat := Before(s, steps, n).profileUat;
      uat == "" || exists k :: i < k < n && steps[k].StoreAccess? && steps[k].c != c && SetsProfile(s, steps, k, uat)
  {
    var k, l, m := RejectedClears(s, steps, i, n, c);
    ProfileCleared(s, steps, k, c);
    ProfileSince(s, steps, k + 1, n);
    var uat := Before(s, steps, n).profileUat;
    if uat != "" {
      var j :| k + 1 <= j < n && SetsProfile(s, steps, j, uat);
      if steps[j].c == c {
        OnlyClears(steps, i, n, c, k, l, m, j);
      }
    }
  }

  lemma ProfileCleared(s: State, steps: seq<Step>, k: nat, c: Caller)
    requires Init(s) && Valid(s, steps) && ClearsAt(steps, k, c) && ClearsBefore(steps, k, c) == 0
    ensures Before(s, steps, k + 1).profileUat == ""
  {
    ClearsInOrder(s, steps, k, c);
    Onward(s, steps, k);
    ProfileStep(Before(s, steps, k), steps[k]);
  }
}
