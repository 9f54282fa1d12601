/** The session loop of `stripe listen` and `stripe logs tail`: `Run` in pkg/proxy/proxy.go and in
pkg/logtailing/tailer.go.

The loop and the goroutines it starts share the counter `nAttempts` without synchronisation, so
`nAttempts++` is a read and a write with anything in between. A watcher sets the counter to 0 when
it sees a connection, which here may be at any time after it was started.
*/
module SessionLoop {

  const MAX_CONNECT_ATTEMPTS: nat := 3

  /** Where the main goroutine is. */
  datatype Pc =
    | LoopHead
    | CreateSession
    | ReadCounter               // first half of nAttempts++
    | WriteCounter(seen: nat)   // second half
    | Select
    | CompareExpired
    | FormatError
    | Returned(result: Outcome)

  datatype Outcome =
    | Cancelled                 // nil, after ctx.Done()
    | AuthFailed                // the error of createSession
    | SessionExpired(shown: nat)
    | FellThrough               // nil, from the code after the loop

  datatype State = State(
    pc: Pc,
    nAttempts: nat,
    watchers: nat,   // started and not yet done
    sessions: nat,
    resets: nat,
    warned: bool,
    warnings: nat)

  /** `filterWarning` is the session's DisplayConnectFilterWarning; the listener never has one. */
  datatype Step =
    | EnterLoop
    | SessionFails
    | SessionOpens(filterWarning: bool)
    | Read
    | Write
    | Cancel
    | Expire
    | Compare
    | Format
    | WatcherResets

  const START := State(LoopHead, 0, 0, 0, 0, false, 0)

  predicate Enabled(s: State, step: Step) {
    match step
    case EnterLoop => s.pc.LoopHead?
    case SessionFails => s.pc.CreateSession?
    case SessionOpens(_) => s.pc.CreateSession?
    case Read => s.pc.ReadCounter?
    case Write => s.pc.WriteCounter?
    case Cancel => s.pc.Select?
    case Expire => s.pc.Select?
    case Compare => s.pc.CompareExpired?
    case Format => s.pc.FormatError?
    case WatcherResets => s.watchers > 0
  }

  function Apply(s: State, step: Step): State
    requires Enabled(s, step)
  {
    match step
    case EnterLoop =>
      s.(pc := if s.nAttempts < MAX_CONNECT_ATTEMPTS then CreateSession else Returned(FellThrough))
    case SessionFails => s.(pc := Returned(AuthFailed))
    case SessionOpens(filterWarning) =>
      var warns := filterWarning && !s.warned;
      s.(pc := ReadCounter, sessions := s.sessions + 1, watchers := s.watchers + 1,
         warned := s.warned || warns, warnings := s.warnings + if warns then 1 else 0)
    case Read => s.(pc := WriteCounter(s.nAttempts))
    case Write => s.(pc := Select, nAttempts := s.pc.seen + 1)
    case Cancel => s.(pc := Returned(Cancelled))
    case Expire => s.(pc := CompareExpired)
    case Compare => s.(pc := if s.nAttempts < MAX_CONNECT_ATTEMPTS then LoopHead else FormatError)
    case Format => s.(pc := Returned(SessionExpired(s.nAttempts)))
    case WatcherResets => s.(nAttempts := 0, watchers := s.watchers - 1, resets := s.resets + 1)
  }

  function Next(s: State, step: Step): State {
    if Enabled(s, step) then Apply(s, step) else s
  }

  function After(steps: seq<Step>): State
    decreases |steps|
  {
    if steps == [] then START else Next(After(steps[..|steps| - 1]), steps[|steps| - 1])
  }

  /** Any interleaving, from the start. */
  predicate IsRun(steps: seq<Step>)
    decreases |steps|
  {
    steps == [] || (IsRun(steps[..|steps| - 1]) && Enabled(After(steps[..|steps| - 1]), steps[|steps| - 1]))
  }

  lemma Extend(steps: seq<Step>, step: Step)
    requires IsRun(steps) && Enabled(After(steps), step)
    ensures IsRun(steps + [step]) && After(steps + [step]) == Apply(After(steps), step)
  {
    assert (steps + [step])[..|steps|] == steps;
  }

  // ---------------------------------------------------------------------------
  // Safety over every interleaving
  // ---------------------------------------------------------------------------

  /** The bound on the sessions at each point of the loop, in terms of the counter. */
  predicate Bounded(s: State) {
    match s.pc
    case LoopHead => s.nAttempts < 3 && s.sessions <= 3 * s.resets + s.nAttempts
    case CreateSession => s.nAttempts < 3 && s.sessions <= 3 * s.resets + s.nAttempts
    case ReadCounter => s.nAttempts < 3 && s.sessions <= 3 * s.resets + s.nAttempts + 1
    case WriteCounter(seen) => s.nAttempts <= seen < 3 && s.sessions <= 3 * s.resets + seen + 1
    case Select => s.nAttempts <= 3 && s.sessions <= 3 * s.resets + s.nAttempts
    case CompareExpired => s.nAttempts <= 3 && s.sessions <= 3 * s.resets + s.nAttempts
    case FormatError => s.nAttempts in {0, 3} && s.sessions <= 3 * s.resets + s.nAttempts
    case Returned(result) =>
      !result.FellThrough? && s.nAttempts <= 3 && s.sessions <= 3 * (1 + s.resets)
      && (result.SessionExpired? ==> result.shown in {0, 3})
  }

  predicate Inv(s: State) {
    && Bounded(s)
    && s.watchers + s.resets == s.sessions
    && s.warnings == if s.warned then 1 else 0
  }

  /** At most three sessions are opened for each reset and three more, a session resets at most
      once, and the code after the loop is not reached. */
  predicate Safe(s: State) {
    && s.resets <= s.sessions <= 3 * (1 + s.resets)
    && s.pc != Returned(FellThrough)
    && s.warnings <= 1
  }

  lemma InvIsSafe(s: State)
    requires Inv(s)
    ensures Safe(s)
  {
  }

  lemma StepKeepsInv(s: State, step: Step)
    requires Inv(s) && Enabled(s, step)
    ensures Inv(Apply(s, step))
  {
  }

  lemma {:induction false} RunKeepsInv(steps: seq<Step>)
    requires IsRun(steps)
    ensures Inv(After(steps))
    decreases |steps|
  {
    if steps != [] {
      RunKeepsInv(steps[..|steps| - 1]);
      StepKeepsInv(After(steps[..|steps| - 1]), steps[|steps| - 1]);
    }
  }

  /** However the goroutines interleave, every reachable state is safe; so `nil` is returned only on
      cancellation. */
  lemma ReconnectSafety(steps: seq<Step>)
    requires IsRun(steps)
    ensures Safe(After(steps))
  {
    RunKeepsInv(steps);
    InvIsSafe(After(steps));
  }

  predicate Asks(step: Step) {
    step == SessionOpens(true)
  }

  /** The account-filter warning is shown once if any session asked for it, and otherwise never. */
  lemma {:induction false} WarnedOnceIff(steps: seq<Step>)
    requires IsRun(steps)
    ensures After(steps).warnings == if exists i :: 0 <= i < |steps| && Asks(steps[i]) then 1 else 0
    decreases |steps|
  {
    if steps != [] {
      var before := steps[..|steps| - 1];
      WarnedOnceIff(before);
      RunKeepsInv(before);
      assert forall i :: 0 <= i < |before| ==> steps[i] == before[i];
      if exists i :: 0 <= i < |before| && Asks(before[i]) {
        var i :| 0 <= i < |before| && Asks(before[i]);
        assert Asks(steps[i]);
      }
      if Asks(steps[|steps| - 1]) {
        assert exists i :: 0 <= i < |steps| && Asks(steps[i]);
      }
    }
  }

  // ---------------------------------------------------------------------------
  // What the command returns, and how far it got
  // ---------------------------------------------------------------------------

  function Occurrences(steps: seq<Step>, counted: Step -> bool): nat
    decreases |steps|
  {
    if steps == [] then 0
    else Occurrences(steps[..|steps| - 1], counted) + if counted(steps[|steps| - 1]) then 1 else 0
  }

  lemma InExtended(steps: seq<Step>, step: Step)
    requires steps != []
    ensures step in steps <==> step in steps[..|steps| - 1] || step == steps[|steps| - 1]
  {
    assert steps == steps[..|steps| - 1] + [steps[|steps| - 1]];
  }

  /** The command returns without an error exactly when it was cancelled, with an authentication error
      exactly when a session could not be created, and with an expired session exactly when it says so. */
  lemma {:induction false} ReturnsIff(steps: seq<Step>)
    requires IsRun(steps)
    ensures var pc := After(steps).pc;
      && (pc == Returned(Cancelled) <==> Cancel in steps)
      && (pc == Returned(AuthFailed) <==> SessionFails in steps)
      && (pc.Returned? && pc.result.SessionExpired? <==> Format in steps)
    decreases |steps|
  {
    if steps != [] {
      ReturnsIff(steps[..|steps| - 1]);
      RunKeepsInv(steps[..|steps| - 1]);
      InExtended(steps, Cancel);
      InExtended(steps, SessionFails);
      InExtended(steps, Format);
    }
  }

  /** Sessions, their watchers and resets are counted as they happen. */
  lemma {:induction false} CountsSteps(steps: seq<Step>)
    requires IsRun(steps)
    ensures var s := After(steps);
      && s.sessions == Occurrences(steps, (step: Step) => step.SessionOpens?)
      && s.resets == Occurrences(steps, (step: Step) => step.WatcherResets?)
      && s.watchers == s.sessions - s.resets
    decreases |steps|
  {
    if steps != [] {
      CountsSteps(steps[..|steps| - 1]);
    }
  }

  // ---------------------------------------------------------------------------
  // What the counter counts
  // ---------------------------------------------------------------------------

  /** The increments since the last reset that took effect, read off the interleaving alone: a reset
      between the two halves of an increment is overwritten by the second half. */
  function Streak(steps: seq<Step>): nat
    decreases |steps|
  {
    if steps == [] then 0 else
    var before := steps[..|steps| - 1];
    match steps[|steps| - 1]
    case Write => Streak(before) + 1
    case WatcherResets => if Incrementing(before) then Streak(before) else 0
    case _ => Streak(before)
  }

  predicate Incrementing(steps: seq<Step>)
    decreases |steps|
  {
    steps != [] && match steps[|steps| - 1]
      case Read => true
      case WatcherResets => Incrementing(steps[..|steps| - 1])
      case _ => false
  }

  lemma {:induction false} CounterIsStreak(steps: seq<Step>)
    requires IsRun(steps)
    ensures var s := After(steps);
      && (Incrementing(steps) <==> s.pc.WriteCounter?)
      && (if s.pc.WriteCounter? then s.pc.seen == Streak(steps) else s.nAttempts == Streak(steps))
    decreases |steps|
  {
    if steps != [] {
      CounterIsStreak(steps[..|steps| - 1]);
    }
  }

  /** An expired session ends the command if and only if it is the third increment in a row that no
      effective reset interrupted. */
  lemma GivesUpIff(steps: seq<Step>)
    requires IsRun(steps) && After(steps).pc == CompareExpired
    ensures After(steps + [Compare]).pc == FormatError <==> Streak(steps) == MAX_CONNECT_ATTEMPTS
    ensures After(steps + [Compare]).pc == LoopHead <==> Streak(steps) < MAX_CONNECT_ATTEMPTS
  {
    Extend(steps, Compare);
    CounterIsStreak(steps);
    RunKeepsInv(steps);
  }

  // ---------------------------------------------------------------------------
  // What the message says
  // ---------------------------------------------------------------------------

  /** Some watcher has reset the counter since the last comparison before step `f`. */
  ghost predicate ResetSinceCompare(steps: seq<Step>, f: nat)
    requires f <= |steps|
  {
    exists c, i :: 0 <= c < i < f && steps[c] == Compare && steps[i] == WatcherResets && NoCompareIn(steps, c + 1, f)
  }

  predicate NoCompareIn(steps: seq<Step>, lo: nat, hi: nat)
    requires hi <= |steps|
  {
    forall j :: lo <= j < hi ==> steps[j] != Compare
  }

  lemma {:induction false} LastCompare(steps: seq<Step>) returns (c: nat)
    requires IsRun(steps) && After(steps).pc.FormatError?
    ensures c < |steps| && steps[c] == Compare && NoCompareIn(steps, c + 1, |steps|)
    decreases |steps|
  {
    c := |steps| - 1;
    if steps[c] != Compare {
      c := LastCompare(steps[..c]);
    }
  }

  lemma FormatCounter(steps: seq<Step>)
    requires IsRun(steps) && After(steps).pc.FormatError?
    ensures After(steps).nAttempts == if ResetSinceCompare(steps, |steps|) then 0 else MAX_CONNECT_ATTEMPTS
  {
    var n := |steps| - 1;
    RunKeepsInv(steps[..n]);
    if steps[n] == WatcherResets {
      var c := LastCompare(steps[..n]);
      assert NoCompareIn(steps, c + 1, |steps|);
    }
  }

  /** An expired session that ends the command is reported as 0 failed attempts if a watcher resets
      the counter between the comparison and the message, and otherwise as 3. */
  lemma {:induction false} MessageIff(steps: seq<Step>, f: nat)
    requires IsRun(steps) && f < |steps| && steps[f] == Format
    ensures After(steps).pc == Returned(SessionExpired(if ResetSinceCompare(steps, f) then 0 else MAX_CONNECT_ATTEMPTS))
    decreases |steps|
  {
    var n := |steps| - 1;
    var before := steps[..n];
    if f == n {
      FormatCounter(before);
    } else {
      MessageIff(before, f);
    }
    assert forall j :: 0 <= j < n ==> before[j] == steps[j];
    assert ResetSinceCompare(before, f) <==> ResetSinceCompare(steps, f);
  }

  // ---------------------------------------------------------------------------
  // Runs that show the bound is reached and a reset can be lost
  // ---------------------------------------------------------------------------

  /** One session that expires: from the loop head to the comparison. */
  lemma OneSession(steps: seq<Step>) returns (longer: seq<Step>)
    requires IsRun(steps) && After(steps).pc == LoopHead && After(steps).nAttempts < 3
    ensures IsRun(longer)
    ensures var s := After(steps);
      After(longer) == s.(pc := CompareExpired, nAttempts := s.nAttempts + 1,
                          watchers := s.watchers + 1, sessions := s.sessions + 1)
  {
    Extend(steps, EnterLoop);
    longer := steps + [EnterLoop];
    Extend(longer, SessionOpens(false));
    longer := longer + [SessionOpens(false)];
    Extend(longer, Read);
    longer := longer + [Read];
    Extend(longer, Write);
    longer := longer + [Write];
    Extend(longer, Expire);
    longer := longer + [Expire];
  }

  lemma ThreeSessions(steps: seq<Step>) returns (longer: seq<Step>)
    requires IsRun(steps) && After(steps).pc == LoopHead && After(steps).nAttempts == 0
    ensures IsRun(longer)
    ensures var s := After(steps);
      After(longer) == s.(pc := CompareExpired, nAttempts := 3,
                          watchers := s.watchers + 3, sessions := s.sessions + 3)
  {
    longer := OneSession(steps);
    Extend(longer, Compare);
    longer := OneSession(longer + [Compare]);
    Extend(longer, Compare);
    longer := OneSession(longer + [Compare]);
  }

  /** The bound is exact: for every number of resets some run opens that many sessions. */
  lemma {:induction false} BoundReached(resets: nat) returns (steps: seq<Step>)
    ensures IsRun(steps) && After(steps).resets == resets
    ensures After(steps).sessions == MAX_CONNECT_ATTEMPTS * (1 + resets)
    ensures After(steps).pc == CompareExpired && After(steps).watchers > 0
  {
    if resets == 0 {
      steps := ThreeSessions([]);
    } else {
      steps := BoundReached(resets - 1);
      Extend(steps, WatcherResets);
      steps := steps + [WatcherResets];
      Extend(steps, Compare);
      steps := ThreeSessions(steps + [Compare]);
    }
  }

  lemma TwoSessions() returns (steps: seq<Step>)
    ensures IsRun(steps) && After(steps) == State(LoopHead, 2, 2, 2, 0, false, 0)
  {
    steps := OneSession([]);
    Extend(steps, Compare);
    steps := OneSession(steps + [Compare]);
    Extend(steps, Compare);
    steps := steps + [Compare];
  }

  /** A connection can be forgotten: the third session connects, the reset falls between the halves
      of the increment, and the command still ends with "3 failed attempts". */
  lemma LostReset() returns (steps: seq<Step>)
    ensures IsRun(steps)
    ensures After(steps).pc == Returned(SessionExpired(3)) && After(steps).sessions == 3 && After(steps).resets == 1
  {
    steps := TwoSessions();
    Extend(steps, EnterLoop);
    steps := steps + [EnterLoop];
    Extend(steps, SessionOpens(false));
    steps := steps + [SessionOpens(false)];
    Extend(steps, Read);
    steps := steps + [Read];
    Extend(steps, WatcherResets);
    steps := steps + [WatcherResets];
    Extend(steps, Write);
    steps := steps + [Write];
    Extend(steps, Expire);
    steps := steps + [Expire];
    Extend(steps, Compare);
    steps := steps + [Compare];
    Extend(steps, Format);
    steps := steps + [Format];
  }

  /** The message reads the counter once more, so it can speak of "0 failed attempts". */
  lemma MisleadingMessage() returns (steps: seq<Step>)
    ensures IsRun(steps) && After(steps).pc == Returned(SessionExpired(0))
  {
    steps := ThreeSessions([]);
    Extend(steps, Compare);
    steps := steps + [Compare];
    Extend(steps, WatcherResets);
    steps := steps + [WatcherResets];
    Extend(steps, Format);
    steps := steps + [Format];
  }
}
