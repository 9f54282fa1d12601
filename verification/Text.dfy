/** Outcomes and the few string operations of Go's standard library that several models share. */
module Text {

  datatype Option<+T> = None | Some(value: T)

  /** A Go `(value, error)` pair; which error it was does not matter to the models that use it. */
  datatype Result<+T> = Ok(value: T) | Err

  /** Unicode white space, as `unicode.IsSpace` decides it. */
  predicate IsSpace(c: char) {
    var n := c as int;
    || 9 <= n <= 13 || n == 0x20 || n == 0x85 || n == 0xA0 || n == 0x1680
    || 0x2000 <= n <= 0x200A || n == 0x2028 || n == 0x2029 || n == 0x202F || n == 0x205F || n == 0x3000
  }

  function TrimLeft(s: string): string {
    if s != "" && IsSpace(s[0]) then TrimLeft(s[1..]) else s
  }

  function TrimRight(s: string): string {
    if s != "" && IsSpace(s[|s| - 1]) then TrimRight(s[..|s| - 1]) else s
  }

  /** `strings.TrimSpace` */
  function TrimSpace(s: string): string {
    TrimRight(TrimLeft(s))
  }

  predicate IsDigit(c: char) {
    '0' <= c <= '9'
  }

  /** A non-empty string of decimal digits. */
  predicate IsNumeral(s: string) {
    s != "" && forall i :: 0 <= i < |s| ==> IsDigit(s[i])
  }

  function Digit(d: nat): (c: char)
    requires d < 10
    ensures IsDigit(c)
  {
    ('0' as int + d) as char
  }

  /** `%d` of a non-negative integer. */
  function Decimal(n: nat): (s: string)
    ensures IsNumeral(s)
  {
    if n < 10 then [Digit(n)] else Decimal(n / 10) + [Digit(n % 10)]
  }

  /** `%d` of any integer. */
  function SignedDecimal(n: int): string {
    if n < 0 then "-" + Decimal(-n) else Decimal(n)
  }

  /** Two numbers never share their decimal form. */
  lemma {:induction false} DecimalInjective(m: nat, n: nat)
    ensures Decimal(m) == Decimal(n) ==> m == n
  {
    if Decimal(m) == Decimal(n) {
      if m < 10 || n < 10 {
        assert m < 10 <==> |Decimal(m)| == 1;
        assert n < 10 <==> |Decimal(n)| == 1;
        assert Decimal(m)[0] == Digit(m) && Decimal(n)[0] == Digit(n);
      } else {
        assert Decimal(m)[..|Decimal(m)| - 1] == Decimal(m / 10);
        assert Decimal(n)[..|Decimal(n)| - 1] == Decimal(n / 10);
        assert Decimal(m)[|Decimal(m)| - 1] == Digit(m % 10);
        assert Decimal(n)[|Decimal(n)| - 1] == Digit(n % 10);
        DecimalInjective(m / 10, n / 10);
      }
    }
  }

  /** The number that decimal digits stand for. */
  function NumberOf(s: string): int
    requires forall i :: 0 <= i < |s| ==> IsDigit(s[i])
  {
    if s == "" then 0 else 10 * NumberOf(s[..|s| - 1]) + (s[|s| - 1] as int - '0' as int)
  }

  /** The decimal form stands for the number, without leading zeros. */
  lemma {:induction false} DecimalMeans(n: nat)
    ensures NumberOf(Decimal(n)) == n
    ensures Decimal(n)[0] == '0' ==> n == 0
  {
    if n >= 10 {
      DecimalMeans(n / 10);
      assert Decimal(n)[..|Decimal(n)| - 1] == Decimal(n / 10);
    } else {
      assert Decimal(n)[..0] == "";
    }
  }

  /** And so does that of any integer, after its sign. */
  lemma SignedDecimalMeans(n: int)
    ensures var s := SignedDecimal(n);
      if n >= 0 then IsNumeral(s) && NumberOf(s) == n
      else s[0] == '-' && IsNumeral(s[1..]) && NumberOf(s[1..]) == -n
  {
    DecimalMeans(if n < 0 then -n else n);
    assert n < 0 ==> SignedDecimal(n)[1..] == Decimal(-n);
  }

  /** Trimming drops white space at both ends and nothing else. */
  lemma TrimSpaceDrops(s: string) returns (left: string, right: string)
    ensures s == left + TrimSpace(s) + right
    ensures (forall i :: 0 <= i < |left| ==> IsSpace(left[i])) && forall i :: 0 <= i < |right| ==> IsSpace(right[i])
    ensures var r := TrimSpace(s); r != "" ==> !IsSpace(r[0]) && !IsSpace(r[|r| - 1])
  {
    left := TrimLeftDrops(s);
    right := TrimRightDrops(TrimLeft(s));
  }

  lemma {:induction false} TrimLeftDrops(s: string) returns (left: string)
    ensures s == left + TrimLeft(s) && forall i :: 0 <= i < |left| ==> IsSpace(left[i])
    ensures TrimLeft(s) != "" ==> !IsSpace(TrimLeft(s)[0])
  {
    left := "";
    if s != "" && IsSpace(s[0]) {
      var rest := TrimLeftDrops(s[1..]);
      left := [s[0]] + rest;
    }
  }

  lemma {:induction false} TrimRightDrops(s: string) returns (right: string)
    ensures s == TrimRight(s) + right && forall i :: 0 <= i < |right| ==> IsSpace(right[i])
    ensures TrimRight(s) != "" ==> !IsSpace(TrimRight(s)[|TrimRight(s)| - 1])
  {
    right := "";
    if s != "" && IsSpace(s[|s| - 1]) {
      var rest := TrimRightDrops(s[..|s| - 1]);
      right := rest + [s[|s| - 1]];
    }
  }

  /** The code points of property White_Space. */
  lemma SpacesAre(c: char)
    ensures IsSpace(c) <==> c in {
      '\t', '\n', '\U{B}', '\U{C}', '\r', ' ', '\U{85}', '\U{A0}', '\U{1680}', '\U{2000}', '\U{2001}', '\U{2002}',
      '\U{2003}', '\U{2004}', '\U{2005}', '\U{2006}', '\U{2007}', '\U{2008}', '\U{2009}', '\U{200A}', '\U{2028}',
      '\U{2029}', '\U{202F}', '\U{205F}', '\U{3000}'}
  {
  }

  function LowerChar(c: char): char {
    if 'A' <= c <= 'Z' then (c as int + 32) as char else c
  }

  /** `strings.ToLower` on ASCII text. */
  function Lower(s: string): string {
    if s == "" then "" else [LowerChar(s[0])] + Lower(s[1..])
  }

  lemma DigitsAre(c: char)
    ensures IsDigit(c) <==> c in {'0', '1', '2', '3', '4', '5', '6', '7', '8', '9'}
  {
  }

  /** Capitals become the letters at the same place of the small alphabet, and nothing else changes. */
  lemma {:induction false} LowerIs(s: string)
    ensures |Lower(s)| == |s|
    ensures forall i :: 0 <= i < |s| && 'A' <= s[i] <= 'Z' ==>
      Lower(s)[i] as int - 'a' as int == s[i] as int - 'A' as int
    ensures forall i :: 0 <= i < |s| && !('A' <= s[i] <= 'Z') ==> Lower(s)[i] == s[i]
  {
    if s != "" {
      LowerIs(s[1..]);
      assert forall i :: 1 <= i < |s| ==> s[1..][i - 1] == s[i] && Lower(s)[i] == Lower(s[1..])[i - 1];
    }
  }

  /** `strings.ReplaceAll` */
  function ReplaceAll(s: string, old_: string, new_: string): string
    requires old_ != ""
  {
    if |s| < |old_| then s
    else if s[..|old_|] == old_ then new_ + ReplaceAll(s[|old_|..], old_, new_)
    else [s[0]] + ReplaceAll(s[1..], old_, new_)
  }

  /** `strings.Join` */
  function Join(parts: seq<string>, sep: string): string {
    if parts == [] then "" else if |parts| == 1 then parts[0] else parts[0] + sep + Join(parts[1..], sep)
  }

  /** Joining puts the separator between neighbours only. */
  lemma {:induction false} JoinIs(parts: seq<string>, last: string, sep: string)
    ensures Join([], sep) == "" && Join([last], sep) == last
    ensures parts != [] ==> Join(parts + [last], sep) == Join(parts, sep) + sep + last
  {
    if |parts| == 1 {
      assert (parts + [last])[1..] == [last];
    } else if |parts| > 1 {
      assert (parts + [last])[1..] == parts[1..] + [last];
      JoinIs(parts[1..], last, sep);
    }
  }

  /** The index of the first `c` in `s`, or `|s|` when there is none. */
  function IndexOf(s: string, c: char): (i: nat)
    ensures i <= |s| && c !in s[..i] && (i < |s| ==> s[i] == c)
  {
    if s == "" || s[0] == c then 0 else
      var j := IndexOf(s[1..], c);
      assert s[..j + 1] == [s[0]] + s[1..][..j];
      j + 1
  }

  /** A string is cut at its first separator, however long the rest is. */
  lemma IndexOfSplit(left: string, c: char, right: string)
    requires c !in left
    ensures IndexOf(left + [c] + right, c) == |left|
  {
    var s := left + [c] + right;
    var i := IndexOf(s, c);
    assert s[|left|] == c;
    forall k | 0 <= k < |s| ensures (k < |left| ==> s[k] != c) && (k < i ==> s[k] != c) {
      assert k < |left| ==> s[k] in left;
      assert k < i ==> s[k] in s[..i];
    }
  }

  lemma IndexOfAbsent(s: string, c: char)
    requires c !in s
    ensures IndexOf(s, c) == |s|
  {
    forall k | 0 <= k < |s| ensures s[k] != c {
      assert s[k] in s;
    }
  }

  lemma CutAt(leftA: string, c: char, rightA: string, leftB: string, rightB: string)
    requires c !in leftA && c !in leftB
    requires leftA + [c] + rightA == leftB + [c] + rightB
    ensures leftA == leftB && rightA == rightB
  {
    IndexOfSplit(leftA, c, rightA);
    IndexOfSplit(leftB, c, rightB);
    var s := leftA + [c] + rightA;
    assert leftA == s[..|leftA|] && leftB == s[..|leftB|];
    assert rightA == s[|leftA| + 1..] && rightB == s[|leftB| + 1..];
  }

  lemma SeparatorIff(parts: seq<string>, c: char)
    requires parts != [] && forall i :: 0 <= i < |parts| ==> c !in parts[i]
    ensures c in Join(parts, [c]) <==> |parts| > 1
  {
    if |parts| > 1 {
      assert Join(parts, [c])[|parts[0]|] == c;
    }
  }

  /** Joining parts that do not hold the separator can be undone, unless there are no parts. */
  lemma {:induction false} JoinInjective(a: seq<string>, b: seq<string>, c: char)
    requires a != [] && forall i :: 0 <= i < |a| ==> c !in a[i]
    requires b != [] && forall i :: 0 <= i < |b| ==> c !in b[i]
    requires Join(a, [c]) == Join(b, [c])
    ensures a == b
  {
    SeparatorIff(a, c);
    SeparatorIff(b, c);
    if |a| > 1 && |b| > 1 {
      CutAt(a[0], c, Join(a[1..], [c]), b[0], Join(b[1..], [c]));
      JoinInjective(a[1..], b[1..], c);
    }
  }

  /** The order of strings: lexicographic. */
  predicate Le(a: string, b: string) {
    a == "" || (b != "" && (a[0] < b[0] || (a[0] == b[0] && Le(a[1..], b[1..]))))
  }

  /** The first characters that differ decide, and a prefix comes first. */
  lemma {:induction false} LeIff(a: string, b: string)
    ensures Le(a, b) <==> a <= b || exists i :: 0 <= i < |a| && i < |b| && a[..i] == b[..i] && a[i] < b[i]
  {
    if a != "" && b != "" {
      if a[0] == b[0] {
        LeIff(a[1..], b[1..]);
        assert a[1..] <= b[1..] <==> a <= b;
        if Le(a, b) && !(a <= b) {
          var i :| 0 <= i < |a[1..]| && i < |b[1..]| && a[1..][..i] == b[1..][..i] && a[1..][i] < b[1..][i];
          assert a[..i + 1] == [a[0]] + a[1..][..i] && b[..i + 1] == [b[0]] + b[1..][..i];
          assert a[i + 1] < b[i + 1];
        }
        forall i | 0 <= i < |a| && i < |b| && a[..i] == b[..i] && a[i] < b[i] ensures Le(a, b) {
          assert i > 0;
          assert a[1..][..i - 1] == a[..i][1..] && b[1..][..i - 1] == b[..i][1..];
          assert a[1..][i - 1] < b[1..][i - 1];
        }
      } else {
        assert a[..0] == b[..0];
        forall i | 0 <= i < |a| && i < |b| && a[..i] == b[..i] && a[i] < b[i] ensures Le(a, b) {
          assert i > 0 ==> a[..i][0] == b[..i][0];
        }
      }
    }
  }

  lemma {:induction false} LeTotal(a: string, b: string)
    ensures Le(a, b) || Le(b, a)
    ensures Le(a, b) && Le(b, a) ==> a == b
  {
    if a != "" && b != "" && a[0] == b[0] {
      LeTotal(a[1..], b[1..]);
      assert a == [a[0]] + a[1..] && b == [b[0]] + b[1..];
    }
  }

  lemma {:induction false} LeTransitive(a: string, b: string, c: string)
    requires Le(a, b) && Le(b, c)
    ensures Le(a, c)
  {
    if a != "" && a[0] == b[0] == c[0] {
      LeTransitive(a[1..], b[1..], c[1..]);
    }
  }

  lemma TailOfConcat<T>(a: seq<T>, b: seq<T>)
    requires a != []
    ensures (a + b)[0] == a[0] && (a + b)[1..] == a[1..] + b
  {
  }

  lemma Associative<T>(a: seq<T>, b: seq<T>, c: seq<T>)
    ensures a + (b + c) == a + b + c
  {
  }

  lemma MultisetSplit<T>(s: seq<T>, j: nat)
    requires j < |s|
    ensures s == s[..j] + [s[j]] + s[j + 1..]
    ensures multiset(s[..j] + s[j + 1..]) == multiset(s) - multiset{s[j]}
  {
    var left, right := s[..j], s[j + 1..];
    assert s == left + [s[j]] + right;
    assert multiset(left + [s[j]] + right) == multiset(left) + multiset{s[j]} + multiset(right);
  }

  lemma MultisetWithout<T>(s: seq<T>, j: nat)
    requires j < |s|
    ensures multiset(s[..j] + s[j + 1..]) + multiset{s[j]} == multiset(s)
  {
    MultisetSplit(s, j);
    assert s[j] in multiset(s);
  }

  /** Of two permutations, one contains the other's head, and what remains are permutations again. */
  lemma PermutationTail<T>(a: seq<T>, b: seq<T>) returns (j: nat)
    requires a != [] && multiset(a) == multiset(b)
    ensures j < |b| && b[j] == a[0] && b == b[..j] + [b[j]] + b[j + 1..]
    ensures multiset(a[1..]) == multiset(b[..j] + b[j + 1..])
  {
    assert a[0] in multiset(b);
    j :| 0 <= j < |b| && b[j] == a[0];
    MultisetSplit(b, j);
    MultisetSplit(a, 0);
    assert a[..0] + a[1..] == a[1..];
  }
}
