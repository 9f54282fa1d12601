/** The pending-write overlay of pkg/plugins/core_cli_helper.go.

A macOS keychain may show a write only some time after `Set` has returned. For 1500 ms the CLI
remembers what it wrote and answers with that. Times are milliseconds.
*/
module KeychainOverlay {
  import opened Text

  const RETRY_TIMEOUT := 1500

  datatype Pending = Pending(value: string, expiresAt: int)

  type Table = map<string, Pending>

  function Remembered(t: Table, enabled: bool, key: string, value: string, now: int): Table {
    if enabled then t[key := Pending(value, now + RETRY_TIMEOUT)] else t
  }

  function PendingFor(t: Table, enabled: bool, key: string, now: int): (Table, Option<string>) {
    if !enabled || key !in t then (t, None)
    else if now >= t[key].expiresAt then (t - {key}, None)
    else (t, Some(t[key].value))
  }

  /** `shown` is what the keychain answered, `now` the time of the pending check after it. */
  function Answer(t: Table, enabled: bool, key: string, shown: Option<string>, now: int): (Table, Option<string>) {
    var (u, pending) := PendingFor(t, enabled, key, now);
    if pending.Some? && shown == pending then (u - {key}, shown)
    else if pending.Some? then (u, pending)
    else (u, shown)
  }

  class Overlay {
    const enabled: bool
    var pending: Table

    constructor (enabled: bool)
      ensures this.enabled == enabled && pending == map[]
    {
      this.enabled, pending := enabled, map[];
    }

    method RememberPendingKeychainValue(key: string, value: string, now: int)
      modifies this
      ensures pending == Remembered(old(pending), enabled, key, value, now)
    {
      if enabled {
        pending := pending[key := Pending(value, now + RETRY_TIMEOUT)];
      }
    }

    method PendingKeychainValueFor(key: string, now: int) returns (value: Option<string>)
      modifies this
      ensures (pending, value) == PendingFor(old(pending), enabled, key, now)
    {
      if !enabled || key !in pending {
        return None;
      }
      if now >= pending[key].expiresAt {
        pending := pending - {key};
        return None;
      }
      value := Some(pending[key].value);
    }

    /** `read` is Err when the keychain fails for a reason other than a missing key. */
    method KeychainGetPassword(key: string, read: Result<Option<string>>, now: int)
      returns (r: Result<Option<string>>)
      modifies this
      ensures read.Err? ==> r.Err? && pending == old(pending)
      ensures read.Ok? ==> r.Ok? && (pending, r.value) == Answer(old(pending), enabled, key, read.value, now)
    {
      if read.Err? {
        return Err;
      }
      var remembered := PendingKeychainValueFor(key, now);
      if remembered.Some? && read.value == remembered {
        pending := pending - {key};
        return read;
      }
      r := if remembered.Some? then Ok(remembered) else read;
    }

    method KeychainSetPassword(key: string, value: string, written: bool, now: int) returns (ok: bool)
      modifies this
      ensures ok == written
      ensures pending == if written then Remembered(old(pending), enabled, key, value, now) else old(pending)
    {
      if written {
        RememberPendingKeychainValue(key, value, now);
      }
      ok := written;
    }

    method KeychainDeletePassword(key: string, found: Result<bool>) returns (r: Result<bool>)
      modifies this
      ensures r == found && pending == old(pending) - {key}
    {
      pending := pending - {key};
      r := found;
    }
  }

  // ---------------------------------------------------------------------------
  // Runs after one `Set`
  // ---------------------------------------------------------------------------

  /** One call. A read shows `shown` at `readAt` and consults the overlay at `at`. */
  datatype Op =
    | Read(key: string, readAt: int, shown: Option<string>, at: int)
    | Write(key: string, value: string, at: int)
    | Delete(key: string, at: int)

  function After(t: Table, enabled: bool, op: Op): Table {
    match op
    case Read(key, _, shown, at) => Answer(t, enabled, key, shown, at).0
    case Write(key, value, at) => Remembered(t, enabled, key, value, at)
    case Delete(key, _) => t - {key}
  }

  function Run(t: Table, enabled: bool, ops: seq<Op>): Table
    decreases |ops|
  {
    if ops == [] then t else Run(After(t, enabled, ops[0]), enabled, ops[1..])
  }

  /** When an operation first touches the keychain. */
  function Start(op: Op): int {
    if op.Read? then op.readAt else op.at
  }

  /** Each call begins after the one before it has ended. */
  ghost predicate Sequential(from: int, ops: seq<Op>)
    decreases |ops|
  {
    ops == [] || (from <= Start(ops[0]) <= ops[0].at && Sequential(ops[0].at, ops[1..]))
  }

  /** Nobody writes or deletes `key`. */
  ghost predicate OnlyReads(ops: seq<Op>, key: string) {
    forall i :: 0 <= i < |ops| ==> ops[i].key == key ==> ops[i].Read?
  }

  /** The keychain shows `value` from `stored + d` on, and keeps showing it once it has. */
  ghost predicate Visible(ops: seq<Op>, key: string, value: string, stored: int, d: nat) {
    && (forall i :: 0 <= i < |ops| && ops[i].Read? && ops[i].key == key && ops[i].readAt >= stored + d ==>
          ops[i].shown == Some(value))
    && (forall i, j ::
          0 <= i < |ops| && 0 <= j < |ops| && ReadOf(ops[i], key) && ReadOf(ops[j], key)
          ==> (ops[i].readAt <= ops[j].readAt && ops[i].shown == Some(value) ==> ops[j].shown == Some(value)))
  }

  predicate ReadOf(op: Op, key: string) {
    op.Read? && op.key == key
  }

  /** A read spends at most `l` between the keychain and the overlay. */
  ghost predicate Prompt(ops: seq<Op>, l: nat) {
    forall i :: 0 <= i < |ops| && ops[i].Read? ==> ops[i].at - ops[i].readAt <= l
  }

  /** Every read of `key` is answered with `value`. */
  ghost predicate AllAnswer(t: Table, enabled: bool, ops: seq<Op>, key: string, value: string)
    decreases |ops|
  {
    ops == [] ||
    ( && (ops[0].Read? && ops[0].key == key ==>
            Answer(t, enabled, key, ops[0].shown, ops[0].at).1 == Some(value))
      && AllAnswer(After(t, enabled, ops[0]), enabled, ops[1..], key, value))
  }

  /** Either the write is still remembered, or the keychain shows it to every later read. */
  ghost predicate Covered(t: Table, ops: seq<Op>, key: string, value: string, expiresAt: int) {
    || (key in t && t[key] == Pending(value, expiresAt))
    || (key !in t && forall i :: 0 <= i < |ops| && ops[i].Read? && ops[i].key == key ==> ops[i].shown == Some(value))
  }

  lemma TailVisible(ops: seq<Op>, key: string, value: string, stored: int, d: nat)
    requires ops != [] && Visible(ops, key, value, stored, d)
    ensures Visible(ops[1..], key, value, stored, d)
  {
    var rest := ops[1..];
    assert forall i :: 0 <= i < |rest| ==> rest[i] == ops[i + 1];
  }

  lemma {:induction false} SequentialAfter(from: int, ops: seq<Op>)
    requires Sequential(from, ops)
    ensures forall i :: 0 <= i < |ops| ==> from <= Start(ops[i])
    decreases |ops|
  {
    if ops != [] {
      SequentialAfter(ops[0].at, ops[1..]);
      assert ops == [ops[0]] + ops[1..];
    }
  }

  lemma {:induction false} CoveredAnswers(
    t: Table, from: int, ops: seq<Op>, key: string, value: string, stored: int, remembered: int, d: nat, l: nat)
    requires stored <= remembered <= from && Sequential(from, ops) && OnlyReads(ops, key)
    requires Visible(ops, key, value, stored, d) && Prompt(ops, l) && (d == 0 || d + l <= RETRY_TIMEOUT)
    requires Covered(t, ops, key, value, remembered + RETRY_TIMEOUT)
    ensures AllAnswer(t, true, ops, key, value)
    decreases |ops|
  {
    if ops != [] {
      var op, rest := ops[0], ops[1..];
      var u := After(t, true, op);
      TailVisible(ops, key, value, stored, d);
      SequentialAfter(op.at, rest);
      assert forall i :: 0 <= i < |rest| ==> rest[i] == ops[i + 1];
      if op.key == key {
        assert ops[0].Read?;
        if key in t && op.at >= t[key].expiresAt {
          assert op.readAt >= stored + d;
          assert op.shown == Some(value);
        }
        if key in t && op.shown == Some(value) {
          assert forall i :: 0 <= i < |rest| && rest[i].Read? && rest[i].key == key ==>
            op.readAt <= rest[i].readAt && rest[i].shown == Some(value);
        }
      }
      assert Covered(u, rest, key, value, remembered + RETRY_TIMEOUT);
      CoveredAnswers(u, op.at, rest, key, value, stored, remembered, d, l);
    }
  }

  /** All runs of sequential calls that follow a `Set` and neither set nor delete the key again. */
  ghost predicate ReadsOwnWrites(d: nat, l: nat) {
    forall t: Table, ops, key, value, stored, remembered ::
      stored <= remembered && Sequential(remembered, ops) && OnlyReads(ops, key)
      && Visible(ops, key, value, stored, d) && Prompt(ops, l)
      ==> AllAnswer(Remembered(t, true, key, value, remembered), true, ops, key, value)
  }

  /** With visibility delay `d` and check latency `l`, every sequential read between a `Set` and the
      next `Set` or `Delete` returns the value set, if and only if `d + l` fits the retry timeout
      or there is no delay at all. */
  lemma ReadsOwnWritesIff(d: nat, l: nat)
    ensures ReadsOwnWrites(d, l) <==> d == 0 || d + l <= 1500
  {
    if d == 0 || d + l <= RETRY_TIMEOUT {
      forall t: Table, ops, key, value, stored, remembered |
        stored <= remembered && Sequential(remembered, ops) && OnlyReads(ops, key)
        && Visible(ops, key, value, stored, d) && Prompt(ops, l)
        ensures AllAnswer(Remembered(t, true, key, value, remembered), true, ops, key, value)
      {
        CoveredAnswers(Remembered(t, true, key, value, remembered), remembered, ops, key, value,
                       stored, remembered, d, l);
      }
    } else {
      var readAt := if l >= RETRY_TIMEOUT then 0 else RETRY_TIMEOUT - l;
      var ops := [Read("k", readAt, None, RETRY_TIMEOUT)];
      var t: Table := map[];
      assert ops[1..] == [];
      assert Sequential(0, ops) && OnlyReads(ops, "k") && Visible(ops, "k", "v", 0, d) && Prompt(ops, l);
      assert !AllAnswer(Remembered(t, true, "k", "v", 0), true, ops, "k", "v");
    }
  }

  // ---------------------------------------------------------------------------
  // Calls that overlap
  // ---------------------------------------------------------------------------

  /** Calls that all begin after the `Set` returned at `begin`, in the order in which they consult the
      overlay. */
  ghost predicate Overlapping(begin: int, from: int, ops: seq<Op>)
    decreases |ops|
  {
    ops == [] || (begin <= Start(ops[0]) <= ops[0].at && from <= ops[0].at && Overlapping(begin, ops[0].at, ops[1..]))
  }

  lemma {:induction false} PromptIsSequential(begin: int, from: int, ops: seq<Op>)
    requires Overlapping(begin, from, ops) && Prompt(ops, 0)
    ensures Sequential(from, ops)
    decreases |ops|
  {
    if ops != [] {
      assert ops[0].Read? ==> ops[0].at - ops[0].readAt <= 0;
      assert forall i :: 0 <= i < |ops[1..]| ==> ops[1..][i] == ops[i + 1];
      PromptIsSequential(begin, ops[0].at, ops[1..]);
    }
  }

  lemma {:induction false} OverlappingAfter(begin: int, from: int, ops: seq<Op>)
    requires Overlapping(begin, from, ops)
    ensures forall i :: 0 <= i < |ops| ==> begin <= Start(ops[i])
    decreases |ops|
  {
    if ops != [] {
      OverlappingAfter(begin, ops[0].at, ops[1..]);
      assert ops == [ops[0]] + ops[1..];
    }
  }

  lemma {:induction false} ShownAnswers(t: Table, ops: seq<Op>, key: string, value: string)
    requires OnlyReads(ops, key) && (key in t ==> t[key].value == value)
    requires forall i :: 0 <= i < |ops| && ReadOf(ops[i], key) ==> ops[i].shown == Some(value)
    ensures AllAnswer(t, true, ops, key, value)
    decreases |ops|
  {
    if ops != [] {
      assert ReadOf(ops[0], key) ==> ops[0].shown == Some(value);
      assert forall i :: 0 <= i < |ops[1..]| ==> ops[1..][i] == ops[i + 1];
      ShownAnswers(After(t, true, ops[0]), ops[1..], key, value);
    }
  }

  /** All runs of calls, overlapping or not, that follow a `Set` and neither set nor delete the key. */
  ghost predicate OverlappingReadsOwnWrites(d: nat, l: nat) {
    forall t: Table, ops, key, value, stored, remembered ::
      stored <= remembered && Overlapping(remembered, remembered, ops) && OnlyReads(ops, key)
      && Visible(ops, key, value, stored, d) && Prompt(ops, l)
      ==> AllAnswer(Remembered(t, true, key, value, remembered), true, ops, key, value)
  }

  /** One read clears the overlay while the other still carries an answer from before the write became
      visible: any delay and any latency are enough. */
  lemma OverlappingReadsMiss(d: nat, l: nat)
    requires d >= 1 && l >= 1
    ensures !OverlappingReadsOwnWrites(d, l)
  {
    var ops := [Read("k", 1, Some("v"), 1), Read("k", 0, None, 1)];
    var t := Remembered(map[], true, "k", "v", 0);
    var u := After(t, true, ops[0]);
    assert "k" !in u;
    assert Answer(u, true, "k", ops[1].shown, 1).1 == None;
    assert ops[1..][0] == ops[1] && ops[1..][1..] == [];
    assert Overlapping(0, 1, ops[1..]) && Overlapping(0, 0, ops);
    assert !AllAnswer(u, true, ops[1..], "k", "v");
    assert OnlyReads(ops, "k") && Visible(ops, "k", "v", 0, d) && Prompt(ops, l);
  }

  /** Reads that overlap keep the guarantee if and only if there is no visibility delay, or no latency
      between a read and its check and a delay within the retry timeout. */
  lemma OverlappingReadsIff(d: nat, l: nat)
    ensures OverlappingReadsOwnWrites(d, l) <==> d == 0 || (l == 0 && d <= 1500)
  {
    if d == 0 || (l == 0 && d <= RETRY_TIMEOUT) {
      forall t: Table, ops, key, value, stored, remembered |
        stored <= remembered && Overlapping(remembered, remembered, ops) && OnlyReads(ops, key)
        && Visible(ops, key, value, stored, d) && Prompt(ops, l)
        ensures AllAnswer(Remembered(t, true, key, value, remembered), true, ops, key, value)
      {
        OverlappingAnswers(t, ops, key, value, stored, remembered, d, l);
      }
    } else if l >= 1 {
      OverlappingReadsMiss(d, l);
    } else {
      var ops := [Read("k", RETRY_TIMEOUT, None, RETRY_TIMEOUT)];
      var t: Table := map[];
      assert ops[1..] == [];
      assert Overlapping(0, 0, ops) && OnlyReads(ops, "k") && Visible(ops, "k", "v", 0, d) && Prompt(ops, l);
      assert !AllAnswer(Remembered(t, true, "k", "v", 0), true, ops, "k", "v");
    }
  }

  lemma OverlappingAnswers(
    t: Table, ops: seq<Op>, key: string, value: string, stored: int, remembered: int, d: nat, l: nat)
    requires stored <= remembered && Overlapping(remembered, remembered, ops) && OnlyReads(ops, key)
    requires Visible(ops, key, value, stored, d) && Prompt(ops, l)
    requires d == 0 || (l == 0 && d <= RETRY_TIMEOUT)
    ensures AllAnswer(Remembered(t, true, key, value, remembered), true, ops, key, value)
  {
    if d == 0 {
      OverlappingAfter(remembered, remembered, ops);
      ShownAnswers(Remembered(t, true, key, value, remembered), ops, key, value);
    } else {
      PromptIsSequential(remembered, remembered, ops);
      CoveredAnswers(Remembered(t, true, key, value, remembered), remembered, ops, key, value,
                     stored, remembered, d, l);
    }
  }

  /** Without a write since the last delete, the overlay is transparent. */
  lemma {:induction false} DeletedIsTransparent(
    t: Table, enabled: bool, ops: seq<Op>, key: string, shown: Option<string>, at: int)
    requires key !in t && OnlyReads(ops, key)
    ensures Answer(Run(t, enabled, ops), enabled, key, shown, at).1 == shown
    decreases |ops|
  {
    if ops != [] {
      DeletedIsTransparent(After(t, enabled, ops[0]), enabled, ops[1..], key, shown, at);
    }
  }

  // ---------------------------------------------------------------------------
  // One call among others
  // ---------------------------------------------------------------------------

  lemma {:induction false} RunExtended(t: Table, enabled: bool, ops: seq<Op>, op: Op)
    ensures Run(t, enabled, ops + [op]) == After(Run(t, enabled, ops), enabled, op)
    decreases |ops|
  {
    if ops == [] {
      assert [op][1..] == [] && [] + [op] == [op];
    } else {
      assert (ops + [op])[1..] == ops[1..] + [op];
      RunExtended(After(t, enabled, ops[0]), enabled, ops[1..], op);
    }
  }

  /** After any run of calls: for 1500 ms after a `Set`, whatever the keychain shows, its value is the
      answer; after a `Delete` the answer is what the keychain shows. No call touches what is remembered
      under another key. */
  lemma LatestCallDecides(t: Table, ops: seq<Op>, op: Op, key: string, shown: Option<string>, now: int)
    ensures var u := Run(t, true, ops + [op]);
      if op.key != key then Answer(u, true, key, shown, now).1 == Answer(Run(t, true, ops), true, key, shown, now).1
      else
        && (op.Write? && now < op.at + 1500 ==> Answer(u, true, key, shown, now).1 == Some(op.value))
        && (op.Write? && now >= op.at + 1500 ==> Answer(u, true, key, shown, now).1 == shown)
        && (op.Delete? ==> Answer(u, true, key, shown, now).1 == shown)
  {
    RunExtended(t, true, ops, op);
  }

  /** Where the overlay is switched off nothing is remembered, and every answer is the keychain's. */
  lemma {:induction false} DisabledIsTransparent(ops: seq<Op>, key: string, shown: Option<string>, now: int)
    ensures Run(map[], false, ops) == map[]
    ensures Answer(map[], false, key, shown, now) == (map[], shown)
    decreases |ops|
  {
    if ops != [] {
      assert After(map[], false, ops[0]) == map[];
      DisabledIsTransparent(ops[1..], key, shown, now);
    }
  }
}
