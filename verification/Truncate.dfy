/** Cutting a string at a code-point boundary (`truncate` in pkg/proxy/proxy.go). UTF-8 is the
encoding of section 3 of RFC 3629.
*/
module Truncate {

  newtype Byte = b: int | 0 <= b < 256

  /** Unicode scalar values: code points without the surrogates. */
  type Scalar = c: int | 0 <= c < 0xD800 || 0xE000 <= c < 0x110000 witness 0

  // ---------------------------------------------------------------------------
  // UTF-8
  // ---------------------------------------------------------------------------

  function Tail(bits: int): Byte {
    (0x80 + bits % 64) as Byte
  }

  function EncodeOne(c: Scalar): (s: seq<Byte>)
    ensures 1 <= |s| <= 4
  {
    if c < 0x80 then [c as Byte]
    else if c < 0x800 then [(0xC0 + c / 64) as Byte, Tail(c)]
    else if c < 0x10000 then [(0xE0 + c / 4096) as Byte, Tail(c / 64), Tail(c)]
    else [(0xF0 + c / 262144) as Byte, Tail(c / 4096), Tail(c / 64), Tail(c)]
  }

  /** What the bits of an encoded code point say. */
  function Decoded(s: seq<Byte>): int
    requires 1 <= |s| <= 4
  {
    if |s| == 1 then s[0] as int
    else if |s| == 2 then (s[0] as int - 192) * 64 + (s[1] as int - 128)
    else if |s| == 3 then ((s[0] as int - 224) * 64 + (s[1] as int - 128)) * 64 + (s[2] as int - 128)
    else (((s[0] as int - 240) * 64 + (s[1] as int - 128)) * 64 + (s[2] as int - 128)) * 64 + (s[3] as int - 128)
  }

  /** Encoding can be undone, and takes the number of bytes that the standard gives to the range. */
  lemma EncodedMeans(c: Scalar)
    ensures Decoded(EncodeOne(c)) == c
    ensures |EncodeOne(c)| == 1 <==> c <= 0x7F
    ensures |EncodeOne(c)| == 2 <==> 0x80 <= c <= 0x7FF
    ensures |EncodeOne(c)| == 3 <==> 0x800 <= c <= 0xFFFF
    ensures |EncodeOne(c)| == 4 <==> 0x10000 <= c <= 0x10FFFF
  {
    assert c == (c / 64) * 64 + c % 64 && c / 64 == (c / 4096) * 64 + (c / 64) % 64;
    assert c / 4096 == (c / 262144) * 64 + (c / 4096) % 64;
  }

  function Encode(text: seq<Scalar>): seq<Byte> {
    if text == [] then [] else EncodeOne(text[0]) + Encode(text[1..])
  }

  ghost predicate IsUtf8(s: seq<Byte>) {
    exists text: seq<Scalar> :: s == Encode(text)
  }

  /** How many bytes the code point that starts with this byte has. */
  function Width(lead: Byte): nat {
    if lead < 0x80 then 1 else if lead < 0xE0 then 2 else if lead < 0xF0 then 3 else 4
  }

  // ---------------------------------------------------------------------------
  // The operation
  // ---------------------------------------------------------------------------

  /** `(b & 0xC0) == 0x80`: the two high bits are 10. */
  predicate IsUTF8ContinuationByte(b: Byte) {
    b / 64 == 2
  }

  const DOTS: seq<Byte> := [0x2E, 0x2E, 0x2E]

  function Budget(n: nat, ellipsis: bool): nat {
    if ellipsis && n > 3 then n - 3 else n
  }

  function Ending(n: nat, ellipsis: bool): seq<Byte> {
    if ellipsis && n > 3 then DOTS else []
  }

  /** Not in the middle of a code point. */
  predicate Aligned(s: seq<Byte>, i: nat) {
    i == 0 || i >= |s| || !IsUTF8ContinuationByte(s[i])
  }

  function Cut(s: seq<Byte>, i: nat): (c: nat)
    ensures c <= i && Aligned(s, c) && forall j :: c < j <= i ==> !Aligned(s, j)
  {
    if Aligned(s, i) then i else Cut(s, i - 1)
  }

  function Truncated(s: seq<Byte>, n: nat, ellipsis: bool): seq<Byte> {
    if |s| <= n then s else s[..Cut(s, Budget(n, ellipsis))] + Ending(n, ellipsis)
  }

  /** For any bytes, valid UTF-8 or not. */
  method TruncateBytes(str: seq<Byte>, n: nat, ellipsis: bool) returns (result: seq<Byte>)
    ensures result == Truncated(str, n, ellipsis)
  {
    if |str| <= n {
      return str;
    }
    var maxByteLength: nat, dots := n, ellipsis;
    if dots && maxByteLength > 3 {
      maxByteLength := maxByteLength - 3;
    } else {
      dots := false;
    }
    while maxByteLength > 0 && maxByteLength < |str| && IsUTF8ContinuationByte(str[maxByteLength])
      invariant maxByteLength <= Budget(n, ellipsis)
      invariant Cut(str, maxByteLength) == Cut(str, Budget(n, ellipsis))
    {
      maxByteLength := maxByteLength - 1;
    }
    result := str[..maxByteLength];
    if dots {
      result := result + DOTS;
    }
  }

  // ---------------------------------------------------------------------------
  // Code-point boundaries
  // ---------------------------------------------------------------------------

  /** The first byte of a code point tells its width; the others are continuation bytes. */
  lemma EncodedShape(c: Scalar)
    ensures var s := EncodeOne(c);
      && Width(s[0]) == |s|
      && !IsUTF8ContinuationByte(s[0])
      && forall i :: 1 <= i < |s| ==> IsUTF8ContinuationByte(s[i])
  {
  }

  /** A byte that is not a continuation byte starts a code point, and conversely. */
  lemma {:induction false} BoundaryIff(text: seq<Scalar>, i: nat)
    requires i <= |Encode(text)|
    ensures Aligned(Encode(text), i) <==> exists k :: 0 <= k <= |text| && |Encode(text[..k])| == i
  {
    if i == 0 {
      assert |Encode(text[..0])| == 0;
    } else {
      var s, head, rest := Encode(text), EncodeOne(text[0]), text[1..];
      EncodedShape(text[0]);
      assert s == head + Encode(rest);
      if i < |head| {
        forall k | 0 <= k <= |text| ensures |Encode(text[..k])| != i {
          assert k > 0 ==> text[..k][0] == text[0];
        }
      } else {
        BoundaryIff(rest, i - |head|);
        FirstByte(rest);
        assert Aligned(s, i) <==> Aligned(Encode(rest), i - |head|);
        forall k | 1 <= k <= |text| ensures |Encode(text[..k])| == |head| + |Encode(rest[..k - 1])| {
          assert text[..k][1..] == rest[..k - 1];
        }
        if Aligned(s, i) {
          var k :| 0 <= k <= |rest| && |Encode(rest[..k])| == i - |head|;
          assert |Encode(text[..k + 1])| == i;
        }
      }
    }
  }

  lemma FirstByte(text: seq<Scalar>)
    ensures text != [] ==> Encode(text) != [] && !IsUTF8ContinuationByte(Encode(text)[0])
  {
    if text != [] {
      EncodedShape(text[0]);
    }
  }

  /** Only an aligned prefix of valid UTF-8 is valid UTF-8. */
  lemma {:induction false} ValidPrefixAligned(text: seq<Scalar>, prefix: seq<Scalar>)
    requires Encode(prefix) <= Encode(text)
    ensures Aligned(Encode(text), |Encode(prefix)|)
  {
    if prefix != [] && text != [] {
      var s, p := Encode(text), Encode(prefix);
      EncodedShape(text[0]);
      EncodedShape(prefix[0]);
      assert s[0] == p[0];
      var w := Width(s[0]);
      assert p[w..] == Encode(prefix[1..]) && s[w..] == Encode(text[1..]);
      ValidPrefixAligned(text[1..], prefix[1..]);
      FirstByte(text[1..]);
    }
  }

  // ---------------------------------------------------------------------------
  // Truncation
  // ---------------------------------------------------------------------------

  lemma {:induction false} EncodePrefix(text: seq<Scalar>, k: nat)
    requires k <= |text|
    ensures Encode(text) == Encode(text[..k]) + Encode(text[k..])
  {
    if k > 0 {
      EncodePrefix(text[1..], k - 1);
      assert text[..k][1..] == text[1..][..k - 1];
      assert text[1..][k - 1..] == text[k..];
    } else {
      assert text[..0] == [] && text[0..] == text;
    }
  }

  lemma {:induction false} DotsAreText()
    ensures Encode([0x2E, 0x2E, 0x2E]) == DOTS
  {
    assert Encode([0x2E]) == [0x2E] + Encode([]);
    assert [0x2E, 0x2E][1..] == [0x2E];
    assert [0x2E, 0x2E, 0x2E][1..] == [0x2E, 0x2E];
  }

  lemma {:induction false} EncodeConcat(a: seq<Scalar>, b: seq<Scalar>)
    ensures Encode(a + b) == Encode(a) + Encode(b)
  {
    EncodePrefix(a + b, |a|);
    assert (a + b)[..|a|] == a && (a + b)[|a|..] == b;
  }

  /** Truncating text keeps its first k code points, as many as fit in the budget, and the result is
      valid UTF-8 of at most n bytes. */
  lemma {:induction false} TruncatesCodePoints(text: seq<Scalar>, n: nat, ellipsis: bool) returns (k: nat)
    ensures k <= |text|
    ensures var r := Truncated(Encode(text), n, ellipsis);
      && |r| <= n
      && IsUtf8(r)
      && r == (if |Encode(text)| <= n then Encode(text) else Encode(text[..k]) + Ending(n, ellipsis))
    ensures |Encode(text)| <= n ==> k == |text|
    ensures |Encode(text)| > n ==> k < |text| && |Encode(text[..k])| <= Budget(n, ellipsis) < |Encode(text[..k + 1])|
  {
    var s := Encode(text);
    if |s| <= n {
      k := |text|;
    } else {
      var b := Budget(n, ellipsis);
      var c := Cut(s, b);
      BoundaryIff(text, c);
      k :| 0 <= k <= |text| && |Encode(text[..k])| == c;
      EncodePrefix(text, k);
      assert s[..c] == Encode(text[..k]);
      assert text[..|text|] == text;
      assert k < |text|;
      NextDoesNotFit(text, k, b);
      EndingKeepsUtf8(text[..k], n, ellipsis);
    }
  }

  lemma EndingKeepsUtf8(kept: seq<Scalar>, n: nat, ellipsis: bool)
    ensures IsUtf8(Encode(kept) + Ending(n, ellipsis))
  {
    if Ending(n, ellipsis) == DOTS {
      DotsAreText();
      EncodeConcat(kept, [0x2E, 0x2E, 0x2E]);
    } else {
      assert Encode(kept) + Ending(n, ellipsis) == Encode(kept);
    }
  }

  lemma NextDoesNotFit(text: seq<Scalar>, k: nat, b: nat)
    requires k < |text| && b < |Encode(text)| && |Encode(text[..k])| == Cut(Encode(text), b)
    ensures b < |Encode(text[..k + 1])|
  {
    var s, next := Encode(text), |Encode(text[..k + 1])|;
    EncodePrefix(text, k + 1);
    EncodePrefix(text[..k + 1], k);
    assert text[..k + 1][..k] == text[..k];
    assert text[..k + 1][k..] == [text[k]];
    assert Encode([text[k]]) == EncodeOne(text[k]) + Encode([]);
    BoundaryIff(text, next);
    assert Aligned(s, next);
  }

  /** No valid prefix within the budget is longer. */
  lemma LongestValidPrefix(text: seq<Scalar>, n: nat, ellipsis: bool, prefix: seq<Byte>)
    requires |Encode(text)| > n
    requires prefix <= Encode(text) && IsUtf8(prefix) && |prefix| <= Budget(n, ellipsis)
    ensures prefix <= Truncated(Encode(text), n, ellipsis)
  {
    var p :| prefix == Encode(p);
    ValidPrefixAligned(text, p);
  }
}
