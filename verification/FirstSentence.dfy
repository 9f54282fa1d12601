/** The first sentence of a description (pkg/gen/resource_utils.go). Lower-casing is that of ASCII. */
module FirstSentence {
  import opened Text

  predicate CanEndSentence(c: char) {
    'a' <= c <= 'z' || 'A' <= c <= 'Z' || '0' <= c <= '9' || c in {')', ']', '`', '"'}
  }

  predicate CanStartSentence(s: string, i: nat) {
    i < |s| &&
    ('A' <= s[i] <= 'Z' || s[i] == '`' || s[i] == '['
     || (s[i] == '(' && i + 1 < |s| && 'A' <= s[i + 1] <= 'Z'))
  }

  predicate IsDelimiter(c: char) {
    c in {' ', '\t', '\n', '(', '['}
  }

  const ABBREVIATIONS := {"e.g", "i.e"}

  /** The start of the word that ends before `end`. */
  function WordStart(s: string, end: nat): (start: nat)
    requires end <= |s|
    ensures start <= end && forall j :: start <= j < end ==> !IsDelimiter(s[j])
    ensures start > 0 ==> IsDelimiter(s[start - 1])
  {
    if end == 0 || IsDelimiter(s[end - 1]) then end else WordStart(s, end - 1)
  }

  function WordBefore(s: string, end: nat): string
    requires end <= |s|
  {
    Lower(s[WordStart(s, end)..end])
  }

  function TrimTail(s: string): string {
    if s != "" && s[|s| - 1] in {' ', '\t'} then TrimTail(s[..|s| - 1]) else s
  }

  /** The index of the first empty line, or `|s|`. */
  function BreakIndex(s: string): (i: nat)
    ensures i <= |s|
    ensures i < |s| ==> i + 1 < |s| && s[i] == s[i + 1] == '\n'
    ensures forall j :: 0 <= j < i && j + 1 < |s| ==> !(s[j] == s[j + 1] == '\n')
  {
    if |s| < 2 then |s| else if s[0] == s[1] == '\n' then 0 else BreakIndex(s[1..]) + 1
  }

  function FirstParagraph(s: string): string {
    if BreakIndex(s) < |s| then TrimTail(s[..BreakIndex(s)]) else s
  }

  /** A period that ends a sentence. */
  predicate IsBoundary(s: string, i: nat) {
    && 0 < i < |s| && s[i] == '.' && CanEndSentence(s[i - 1])
    && (i == |s| - 1 || (s[i + 1] in {' ', '\n'} && CanStartSentence(s, i + 2)))
    && WordBefore(s, i) !in ABBREVIATIONS
  }

  /** Of one paragraph. */
  function FirstSentenceFrom(s: string, i: nat): string
    requires i <= |s|
    decreases |s| - i
  {
    if i == |s| then s
    else if !IsBoundary(s, i) then FirstSentenceFrom(s, i + 1)
    else if i == |s| - 1 && WordBefore(s, i) == "etc" then s
    else s[..i]
  }

  function Sentence(s: string): string {
    FirstSentenceFrom(FirstParagraph(s), 0)
  }

  method FirstSentence(text: string) returns (r: string)
    ensures r == Sentence(text)
  {
    var s := text;
    if s == "" {
      return "";
    }
    if BreakIndex(s) < |s| {
      s := TrimTail(s[..BreakIndex(s)]);
    }
    var i := 1;
    while i < |s|
      invariant 1 <= i && (i <= |s| || s == "")
      invariant s != "" ==> FirstSentenceFrom(s, 0) == FirstSentenceFrom(s, i)
      decreases |s| - i
    {
      if s[i] != '.' || !CanEndSentence(s[i - 1]) {
        i := i + 1;
        continue;
      }
      var atEnd := i == |s| - 1;
      if !atEnd && ((s[i + 1] != ' ' && s[i + 1] != '\n') || !CanStartSentence(s, i + 2)) {
        i := i + 1;
        continue;
      }
      var word := WordBefore(s, i);
      if word in ABBREVIATIONS {
        i := i + 1;
        continue;
      }
      if atEnd && word == "etc" {
        return s;
      }
      return s[..i];
    }
    return s;
  }

  // ---------------------------------------------------------------------------
  // What the first sentence is
  // ---------------------------------------------------------------------------

  lemma {:induction false} TrimTailIsPrefix(s: string)
    ensures TrimTail(s) <= s
    ensures TrimTail(s) != "" ==> TrimTail(s)[|TrimTail(s)| - 1] !in {' ', '\t'}
  {
    if s != "" && s[|s| - 1] in {' ', '\t'} {
      TrimTailIsPrefix(s[..|s| - 1]);
    }
  }

  /** The paragraph is cut before its first boundary; there is no boundary before the cut. If there
      is none at all, or only the period of a final "etc.", the whole paragraph is kept. */
  lemma {:induction false} CutsAtFirstBoundary(p: string, from: nat)
    requires from <= |p|
    ensures var r := FirstSentenceFrom(p, from);
      && r <= p
      && (forall j :: from <= j < |r| && IsBoundary(p, j) ==> r == p && j == |p| - 1 && WordBefore(p, j) == "etc")
      && (r != p ==> from <= |r| && IsBoundary(p, |r|) && (|r| == |p| - 1 ==> WordBefore(p, |r|) != "etc"))
    decreases |p| - from
  {
    if from < |p| && !IsBoundary(p, from) {
      CutsAtFirstBoundary(p, from + 1);
    }
  }

  lemma NoBreakInPrefix(s: string, n: nat)
    requires n <= BreakIndex(s)
    ensures BreakIndex(s[..n]) == n
  {
    assert forall j :: 0 <= j < n ==> s[..n][j] == s[j];
  }

  lemma ParagraphPrefix(s: string)
    ensures FirstParagraph(s) <= s
    ensures BreakIndex(FirstParagraph(s)) == |FirstParagraph(s)|
  {
    var p := FirstParagraph(s);
    TrimTailIsPrefix(s[..BreakIndex(s)]);
    assert p == s[..|p|];
    NoBreakInPrefix(s, |p|);
  }

  lemma SentencePrefix(s: string)
    ensures Sentence(s) <= FirstParagraph(s) <= s
  {
    ParagraphPrefix(s);
    CutsAtFirstBoundary(FirstParagraph(s), 0);
  }

  // ---------------------------------------------------------------------------
  // Idempotence
  // ---------------------------------------------------------------------------

  lemma {:induction false} WordStartOfPrefix(s: string, n: nat, end: nat)
    requires end <= n <= |s|
    ensures WordStart(s[..n], end) == WordStart(s, end)
  {
    if end > 0 && !IsDelimiter(s[end - 1]) {
      WordStartOfPrefix(s, n, end - 1);
    }
  }

  /** Cutting a text before a boundary creates no new one. */
  lemma BoundaryOfPrefix(s: string, n: nat, i: nat)
    requires IsBoundary(s, n) && IsBoundary(s[..n], i)
    ensures i < n - 1 && IsBoundary(s, i)
  {
    WordStartOfPrefix(s, n, i);
    assert s[..n][WordStart(s, i)..i] == s[WordStart(s, i)..i];
    assert s[..n][i] == s[i] && s[..n][i - 1] == s[i - 1];
    assert !CanEndSentence('.');
  }

  lemma {:induction false} NoBoundaryKeepsAll(p: string, from: nat)
    requires from <= |p|
    requires forall j :: from <= j < |p| ==> !IsBoundary(p, j)
    ensures FirstSentenceFrom(p, from) == p
    decreases |p| - from
  {
    if from < |p| {
      NoBoundaryKeepsAll(p, from + 1);
    }
  }

  /** The first sentence is its own first sentence. */
  lemma Idempotent(s: string)
    ensures Sentence(Sentence(s)) == Sentence(s)
  {
    var p := FirstParagraph(s);
    var r := Sentence(s);
    ParagraphPrefix(s);
    CutsAtFirstBoundary(p, 0);
    if r != p {
      assert r == p[..|r|];
      NoBreakInPrefix(p, |r|);
      forall j | 0 <= j < |r| ensures !IsBoundary(r, j) {
        if IsBoundary(r, j) {
          BoundaryOfPrefix(p, |r|, j);
        }
      }
      NoBoundaryKeepsAll(r, 0);
    }
  }

  // ---------------------------------------------------------------------------
  // Abbreviations
  // ---------------------------------------------------------------------------

  predicate IsWordAt(s: string, start: nat, end: nat)
    requires end <= |s|
  {
    start <= end
    && (start == 0 || IsDelimiter(s[start - 1]))
    && forall j :: start <= j < end ==> !IsDelimiter(s[j])
  }

  /** The word before a period is the one stretch without delimiters that nothing extends. */
  lemma WordBeforeIff(s: string, start: nat, end: nat)
    requires end <= |s|
    ensures IsWordAt(s, start, end) <==> start == WordStart(s, end)
  {
    var w := WordStart(s, end);
    assert w < start <= end ==> !IsDelimiter(s[start - 1]);
    assert start < w ==> IsDelimiter(s[w - 1]);
  }

  /** A text is never cut after "e.g" or "i.e", in any case of letters. */
  lemma NeverCutsAbbreviation(s: string, start: nat)
    requires Sentence(s) != FirstParagraph(s)
    requires start <= |Sentence(s)| && IsWordAt(Sentence(s), start, |Sentence(s)|)
    ensures Lower(Sentence(s)[start..]) !in ABBREVIATIONS
  {
    var p, r := FirstParagraph(s), Sentence(s);
    CutsAtFirstBoundary(p, 0);
    assert r == p[..|r|];
    WordStartOfPrefix(p, |r|, |r|);
    WordBeforeIff(r, start, |r|);
    assert r[start..] == p[start..|r|];
  }

  // ---------------------------------------------------------------------------
  // Where a sentence ends, character by character
  // ---------------------------------------------------------------------------

  const CAPITALS := {
    'A', 'B', 'C', 'D', 'E', 'F', 'G', 'H', 'I', 'J', 'K', 'L', 'M', 'N', 'O', 'P', 'Q', 'R', 'S', 'T', 'U',
    'V', 'W', 'X', 'Y', 'Z'}

  const SMALL := {
    'a', 'b', 'c', 'd', 'e', 'f', 'g', 'h', 'i', 'j', 'k', 'l', 'm', 'n', 'o', 'p', 'q', 'r', 's', 't', 'u',
    'v', 'w', 'x', 'y', 'z'}

  const DIGITS := {
    '0', '1', '2', '3', '4', '5', '6', '7', '8', '9'}

  /** The text up to `end` ends in this word of three characters, in any case of letters. */
  predicate EndsInWord(s: string, end: nat, first: set<char>, second: char, third: set<char>)
    requires end <= |s|
  {
    && end >= 3 && s[end - 3] in first && s[end - 2] == second && s[end - 1] in third
    && (end == 3 || s[end - 4] in {' ', '\t', '\n', '(', '['})
  }

  predicate EndsInAbbreviation(s: string, end: nat)
    requires end <= |s|
  {
    EndsInWord(s, end, {'e', 'E'}, '.', {'g', 'G'}) || EndsInWord(s, end, {'i', 'I'}, '.', {'e', 'E'})
  }

  predicate EndsInEtc(s: string, end: nat)
    requires end <= |s|
  {
    && end >= 3 && s[end - 3] in {'e', 'E'} && s[end - 2] in {'t', 'T'} && s[end - 1] in {'c', 'C'}
    && (end == 3 || s[end - 4] in {' ', '\t', '\n', '(', '['})
  }

  lemma SmallIff(c: char)
    ensures c in SMALL <==> 'a' <= c <= 'z'
  {
  }

  lemma CapitalIff(c: char)
    ensures c in CAPITALS <==> 'A' <= c <= 'Z'
  {
  }

  lemma DigitIff(c: char)
    ensures c in DIGITS <==> '0' <= c <= '9'
  {
  }

  predicate Ending(c: char) {
    c in SMALL || c in CAPITALS || c in DIGITS || c in {')', ']', '`', '"'}
  }

  lemma CanEndIff(c: char)
    ensures CanEndSentence(c) <==> Ending(c)
  {
    SmallIff(c);
    CapitalIff(c);
    DigitIff(c);
  }

  lemma CanStartIff(s: string, i: nat)
    ensures CanStartSentence(s, i) <==>
      i < |s| && (s[i] in CAPITALS || s[i] in {'`', '['} || (s[i] == '(' && i + 1 < |s| && s[i + 1] in CAPITALS))
  {
    if i < |s| {
      CapitalIff(s[i]);
    }
    if i + 1 < |s| {
      CapitalIff(s[i + 1]);
    }
  }

  lemma LowerCharIs(c: char)
    ensures LowerChar(c) == 'e' <==> c in {'e', 'E'}
    ensures LowerChar(c) == 'g' <==> c in {'g', 'G'}
    ensures LowerChar(c) == 'i' <==> c in {'i', 'I'}
    ensures LowerChar(c) == 't' <==> c in {'t', 'T'}
    ensures LowerChar(c) == 'c' <==> c in {'c', 'C'}
    ensures LowerChar(c) == '.' <==> c == '.'
  {
  }

  lemma {:induction false} LowerAt(s: string)
    ensures |Lower(s)| == |s| && forall i :: 0 <= i < |s| ==> Lower(s)[i] == LowerChar(s[i])
  {
    if s != "" {
      LowerAt(s[1..]);
    }
  }

  /** The word before `end` is one of three characters without delimiters. */
  lemma WordOfThree(s: string, end: nat, w: string)
    requires end <= |s| && |w| == 3 && forall i :: 0 <= i < 3 ==> w[i] in {'e', 'g', 'i', 't', 'c', '.'}
    ensures WordBefore(s, end) == w <==>
      && end >= 3 && (end == 3 || IsDelimiter(s[end - 4]))
      && LowerChar(s[end - 3]) == w[0] && LowerChar(s[end - 2]) == w[1] && LowerChar(s[end - 1]) == w[2]
  {
    var start := WordStart(s, end);
    LowerAt(s[start..end]);
    if WordBefore(s, end) == w {
      assert start == end - 3;
    }
    if end >= 3 && (end == 3 || IsDelimiter(s[end - 4]))
       && LowerChar(s[end - 3]) == w[0] && LowerChar(s[end - 2]) == w[1] && LowerChar(s[end - 1]) == w[2] {
      forall j | end - 3 <= j < end ensures !IsDelimiter(s[j]) {
        assert LowerChar(s[j]) == w[j - (end - 3)];
      }
      WordBeforeIff(s, end - 3, end);
      assert Lower(s[start..end]) == w;
    }
  }

  lemma AbbreviationIff(s: string, end: nat)
    requires end <= |s|
    ensures WordBefore(s, end) in ABBREVIATIONS <==> EndsInAbbreviation(s, end)
    ensures WordBefore(s, end) == "etc" <==> EndsInEtc(s, end)
  {
    WordOfThree(s, end, "e.g");
    WordOfThree(s, end, "i.e");
    WordOfThree(s, end, "etc");
    if end >= 3 {
      LowerCharIs(s[end - 3]);
      LowerCharIs(s[end - 2]);
      LowerCharIs(s[end - 1]);
    }
  }

  /** A sentence ends at a period after a letter, a digit, a closing bracket, a backquote or a quote, if the
      text ends there, or if a space or a new line and the beginning of another sentence follow: a capital, a
      backquote, an opening bracket, or a parenthesis before a capital. It never ends after "e.g" or "i.e". */
  lemma BoundaryIff(s: string, i: nat)
    ensures IsBoundary(s, i) <==>
      && 0 < i < |s| && s[i] == '.' && Ending(s[i - 1])
      && (i + 1 == |s|
          || ((s[i + 1] == ' ' || s[i + 1] == '\n') && i + 2 < |s|
              && (s[i + 2] in CAPITALS || s[i + 2] in {'`', '['}
                  || (s[i + 2] == '(' && i + 3 < |s| && s[i + 3] in CAPITALS))))
      && !EndsInAbbreviation(s, i)
  {
    if 0 < i < |s| {
      CanEndIff(s[i - 1]);
      CanStartIff(s, i + 2);
      AbbreviationIff(s, i);
    }
  }

  predicate Blank(s: string) {
    forall i :: 0 <= i < |s| ==> s[i] == ' ' || s[i] == '\t'
  }

  lemma {:induction false} TrimTailDropsBlanks(s: string)
    ensures TrimTail(s) <= s && Blank(s[|TrimTail(s)|..])
  {
    if s != "" && s[|s| - 1] in {' ', '\t'} {
      TrimTailDropsBlanks(s[..|s| - 1]);
      assert s[|TrimTail(s)|..] == s[..|s| - 1][|TrimTail(s)|..] + [s[|s| - 1]];
    }
  }

  /** The first paragraph is the text up to its first empty line, without the spaces and tabs before it. */
  lemma ParagraphIs(s: string, n: nat)
    requires n < |s| && s[n..n + 1] == "\n" && s[n + 1..] != "" && s[n + 1] == '\n'
    requires forall j :: 0 <= j < n ==> !(s[j] == '\n' && s[j + 1] == '\n')
    ensures var p := FirstParagraph(s);
      p <= s[..n] && Blank(s[|p|..n]) && (p != "" ==> p[|p| - 1] != ' ' && p[|p| - 1] != '\t')
  {
    assert s[n..n + 1][0] == s[n];
    assert BreakIndex(s) == n;
    TrimTailIsPrefix(s[..n]);
    TrimTailDropsBlanks(s[..n]);
    var p := FirstParagraph(s);
    assert s[|p|..n] == s[..n][|p|..];
  }

  /** Without an empty line it is the whole text. */
  lemma OneParagraph(s: string)
    requires forall j :: 0 <= j < |s| - 1 ==> !(s[j] == '\n' && s[j + 1] == '\n')
    ensures FirstParagraph(s) == s
  {
  }
}
