/** Word wrapping of help texts (`wrapText` in pkg/cmd/templates.go).

The display width of a word, `visibleLen`, is a parameter: any function from words to naturals.
*/
module WrapText {
  import opened Text

  type Width = string -> nat

  type Line = seq<string>

  // ---------------------------------------------------------------------------
  // Words
  // ---------------------------------------------------------------------------

  function WordEnd(s: string): (e: nat)
    ensures e <= |s| && (forall i :: 0 <= i < e ==> !IsSpace(s[i])) && (e < |s| ==> IsSpace(s[e]))
  {
    if s == "" || IsSpace(s[0]) then 0 else WordEnd(s[1..]) + 1
  }

  /** `strings.Fields` */
  function Fields(s: string): seq<string> {
    if s == "" then []
    else if IsSpace(s[0]) then Fields(s[1..])
    else [s[..WordEnd(s)]] + Fields(s[WordEnd(s)..])
  }

  predicate IsWord(w: string) {
    w != "" && forall i :: 0 <= i < |w| ==> !IsSpace(w[i])
  }

  predicate IsBlank(s: string) {
    forall i :: 0 <= i < |s| ==> IsSpace(s[i])
  }

  lemma {:induction false} FieldsAreWords(s: string)
    ensures forall i :: 0 <= i < |Fields(s)| ==> IsWord(Fields(s)[i])
  {
    if s != "" {
      if IsSpace(s[0]) {
        FieldsAreWords(s[1..]);
      } else {
        FieldsAreWords(s[WordEnd(s)..]);
      }
    }
  }

  lemma {:induction false} FieldsSkipBlank(blank: string, s: string)
    requires IsBlank(blank)
    ensures Fields(blank + s) == Fields(s)
  {
    if blank == "" {
      assert blank + s == s;
    } else {
      assert (blank + s)[1..] == blank[1..] + s;
      FieldsSkipBlank(blank[1..], s);
    }
  }

  lemma FieldsFirstWord(w: string, s: string)
    requires IsWord(w) && (s == "" || IsSpace(s[0]))
    ensures Fields(w + s) == [w] + Fields(s)
  {
    var e := WordEnd(w + s);
    assert forall i :: 0 <= i < |w| ==> (w + s)[i] == w[i];
    assert s != "" ==> (w + s)[|w|] == s[0];
    assert e == |w|;
    assert (w + s)[..e] == w && (w + s)[e..] == s;
  }

  // ---------------------------------------------------------------------------
  // The text that is built
  // ---------------------------------------------------------------------------

  function Spaces(n: nat): (s: string)
    ensures |s| == n && IsBlank(s)
  {
    seq(n, _ => ' ')
  }

  function LineWidth(width: int, indent: nat): nat {
    if width - indent < 20 then 20 else width - indent
  }

  /** The greater of 20 columns and what is left of the width beside the indentation. */
  lemma LineWidthIsMaximum(width: int, indent: nat)
    ensures LineWidth(width, indent) >= 20 && LineWidth(width, indent) >= width - indent
    ensures LineWidth(width, indent) in {20, width - indent}
  {
  }

  /** What is written for the words still to come, when the current line has reached column `col`. */
  function Rest(words: seq<string>, col: nat, lineWidth: nat, newLine: string, visible: Width): string {
    if words == [] then "" else
    var w := visible(words[0]);
    if col + 1 + w > lineWidth
    then newLine + words[0] + Rest(words[1..], w, lineWidth, newLine, visible)
    else " " + words[0] + Rest(words[1..], col + 1 + w, lineWidth, newLine, visible)
  }

  /** One more word is written. */
  lemma RestStep(text: string, words: seq<string>, i: nat, col: nat, lineWidth: nat, newLine: string, visible: Width)
    requires i < |words|
    ensures var w := visible(words[i]);
      text + Rest(words[i..], col, lineWidth, newLine, visible)
      == if col + 1 + w > lineWidth
         then text + (newLine + words[i]) + Rest(words[i + 1..], w, lineWidth, newLine, visible)
         else text + (" " + words[i]) + Rest(words[i + 1..], col + 1 + w, lineWidth, newLine, visible)
  {
    var w := visible(words[i]);
    assert words[i..][1..] == words[i + 1..];
    if col + 1 + w > lineWidth {
      Associative(text, newLine + words[i], Rest(words[i + 1..], w, lineWidth, newLine, visible));
    } else {
      Associative(text, " " + words[i], Rest(words[i + 1..], col + 1 + w, lineWidth, newLine, visible));
    }
  }

  function Wrapped(words: seq<string>, lineWidth: nat, newLine: string, visible: Width): string {
    if words == [] then "" else words[0] + Rest(words[1..], visible(words[0]), lineWidth, newLine, visible)
  }

  method WrapText(s: string, width: int, indent: nat, visible: Width) returns (text: string)
    ensures text == Wrapped(Fields(s), LineWidth(width, indent), "\n" + Spaces(indent), visible)
  {
    var words := Fields(s);
    if |words| == 0 {
      return "";
    }
    var lineWidth := width - indent;
    if lineWidth < 20 {
      lineWidth := 20;
    }
    text := WriteWords(words, lineWidth, "\n" + Spaces(indent), visible);
  }

  /** The loop over the words. */
  method WriteWords(words: seq<string>, lineWidth: nat, newLine: string, visible: Width) returns (text: string)
    ensures text == Wrapped(words, lineWidth, newLine, visible)
  {
    var col: nat := 0;
    text := "";
    for i := 0 to |words|
      invariant i == 0 ==> text == ""
      invariant i > 0 ==>
        Wrapped(words, lineWidth, newLine, visible) == text + Rest(words[i..], col, lineWidth, newLine, visible)
    {
      var word := words[i];
      var wlen := visible(word);
      RestStep(text, words, i, col, lineWidth, newLine, visible);
      if i == 0 {
        text := word;
        col := wlen;
      } else if col + 1 + wlen > lineWidth {
        text := text + (newLine + word);
        col := wlen;
      } else {
        text := text + (" " + word);
        col := col + 1 + wlen;
      }
    }
    assert words[|words|..] == [];
  }

  // ---------------------------------------------------------------------------
  // Lines
  // ---------------------------------------------------------------------------

  /** The lines, when `line` has been begun and reaches column `col`. */
  function LinesFrom(line: Line, col: nat, words: seq<string>, lineWidth: nat, visible: Width): seq<Line>
    decreases |words|
  {
    if words == [] then [line] else
    var w := visible(words[0]);
    if col + 1 + w > lineWidth
    then [line] + LinesFrom([words[0]], w, words[1..], lineWidth, visible)
    else LinesFrom(line + [words[0]], col + 1 + w, words[1..], lineWidth, visible)
  }

  function Lines(words: seq<string>, lineWidth: nat, visible: Width): seq<Line> {
    if words == [] then [] else LinesFrom([words[0]], visible(words[0]), words[1..], lineWidth, visible)
  }

  function Flatten(lines: seq<Line>): seq<string> {
    if lines == [] then [] else lines[0] + Flatten(lines[1..])
  }

  /** Columns taken by a line, a space between words. */
  function Columns(line: Line, visible: Width): nat {
    if line == [] then 0
    else if |line| == 1 then visible(line[0])
    else Columns(line[..|line| - 1], visible) + 1 + visible(line[|line| - 1])
  }

  predicate Fits(line: Line, lineWidth: nat, visible: Width) {
    line != [] && (|line| == 1 || Columns(line, visible) <= lineWidth)
  }

  function Texts(lines: seq<Line>): seq<string> {
    if lines == [] then [] else [Join(lines[0], " ")] + Texts(lines[1..])
  }

  lemma {:induction false} JoinSnoc(parts: seq<string>, last: string, sep: string)
    requires parts != []
    ensures Join(parts + [last], sep) == Join(parts, sep) + sep + last
  {
    if |parts| > 1 {
      assert (parts + [last])[1..] == parts[1..] + [last];
      JoinSnoc(parts[1..], last, sep);
    } else {
      assert (parts + [last])[1..] == [last];
    }
  }

  /** The text is exactly those lines, joined by a line break and the indentation. */
  lemma {:induction false} TextIsLines(
      line: Line, col: nat, words: seq<string>, lineWidth: nat, newLine: string, visible: Width)
    requires line != []
    ensures Join(line, " ") + Rest(words, col, lineWidth, newLine, visible)
         == Join(Texts(LinesFrom(line, col, words, lineWidth, visible)), newLine)
    ensures LinesFrom(line, col, words, lineWidth, visible) != []
    decreases |words|
  {
    if words != [] {
      var w, tail := visible(words[0]), words[1..];
      if col + 1 + w > lineWidth {
        TextIsLines([words[0]], w, tail, lineWidth, newLine, visible);
        var rest := LinesFrom([words[0]], w, tail, lineWidth, visible);
        assert ([line] + rest)[1..] == rest;
        assert Texts([line] + rest) == [Join(line, " ")] + Texts(rest);
        assert Texts([line] + rest)[1..] == Texts(rest);
      } else {
        TextIsLines(line + [words[0]], col + 1 + w, tail, lineWidth, newLine, visible);
        JoinSnoc(line, words[0], " ");
      }
    } else {
      assert Texts([line])[1..] == [];
    }
  }

  lemma {:induction false} LinesKeepWords(line: Line, col: nat, words: seq<string>, lineWidth: nat, visible: Width)
    ensures Flatten(LinesFrom(line, col, words, lineWidth, visible)) == line + words
    decreases |words|
  {
    if words != [] {
      var w, tail := visible(words[0]), words[1..];
      if col + 1 + w > lineWidth {
        LinesKeepWords([words[0]], w, tail, lineWidth, visible);
      } else {
        LinesKeepWords(line + [words[0]], col + 1 + w, tail, lineWidth, visible);
      }
    }
  }

  lemma {:induction false} LinesFit(line: Line, col: nat, words: seq<string>, lineWidth: nat, visible: Width, k: nat)
    requires Fits(line, lineWidth, visible) && col == Columns(line, visible)
    requires k < |LinesFrom(line, col, words, lineWidth, visible)|
    ensures Fits(LinesFrom(line, col, words, lineWidth, visible)[k], lineWidth, visible)
    decreases |words|
  {
    if words != [] {
      var w, tail := visible(words[0]), words[1..];
      if col + 1 + w > lineWidth {
        if k > 0 {
          LinesFit([words[0]], w, tail, lineWidth, visible, k - 1);
        }
      } else {
        assert (line + [words[0]])[..|line|] == line;
        LinesFit(line + [words[0]], col + 1 + w, tail, lineWidth, visible, k);
      }
    }
  }

  /** The wrapped text holds the words in order, cut into lines that fit or are a single word. */
  lemma {:induction false} WrapsIntoFittingLines(words: seq<string>, lineWidth: nat, newLine: string, visible: Width)
    ensures var lines := Lines(words, lineWidth, visible);
      && Wrapped(words, lineWidth, newLine, visible) == Join(Texts(lines), newLine)
      && Flatten(lines) == words
      && (forall k :: 0 <= k < |lines| ==> Fits(lines[k], lineWidth, visible))
  {
    if words != [] {
      var first, col, tail := [words[0]], visible(words[0]), words[1..];
      TextIsLines(first, col, tail, lineWidth, newLine, visible);
      LinesKeepWords(first, col, tail, lineWidth, visible);
      forall k | 0 <= k < |Lines(words, lineWidth, visible)|
        ensures Fits(Lines(words, lineWidth, visible)[k], lineWidth, visible)
      {
        LinesFit(first, col, tail, lineWidth, visible, k);
      }
    }
  }

  // ---------------------------------------------------------------------------
  // No other way of cutting the words uses fewer lines
  // ---------------------------------------------------------------------------

  /** The line breaks still to come. */
  function Breaks(words: seq<string>, col: nat, lineWidth: nat, visible: Width): nat {
    if words == [] then 0 else
    var w := visible(words[0]);
    if col + 1 + w > lineWidth then 1 + Breaks(words[1..], w, lineWidth, visible)
    else Breaks(words[1..], col + 1 + w, lineWidth, visible)
  }

  lemma {:induction false} BreaksCountLines(line: Line, col: nat, words: seq<string>, lineWidth: nat, visible: Width)
    ensures |LinesFrom(line, col, words, lineWidth, visible)| == 1 + Breaks(words, col, lineWidth, visible)
    decreases |words|
  {
    if words != [] {
      var w := visible(words[0]);
      if col + 1 + w > lineWidth {
        BreaksCountLines([words[0]], w, words[1..], lineWidth, visible);
      } else {
        BreaksCountLines(line + [words[0]], col + 1 + w, words[1..], lineWidth, visible);
      }
    }
  }

  /** Starting further to the right never helps, and costs at most one more break. */
  lemma {:induction false} StartingFurtherRight(words: seq<string>, a: nat, b: nat, lineWidth: nat, visible: Width)
    requires a <= b
    ensures Breaks(words, a, lineWidth, visible) <= Breaks(words, b, lineWidth, visible)
         <= 1 + Breaks(words, a, lineWidth, visible)
    decreases |words|
  {
    if words != [] {
      var w := visible(words[0]);
      if a + 1 + w <= lineWidth < b + 1 + w {
        StartingFurtherRight(words[1..], w, a + 1 + w, lineWidth, visible);
      } else if b + 1 + w <= lineWidth {
        StartingFurtherRight(words[1..], a + 1 + w, b + 1 + w, lineWidth, visible);
      }
    }
  }

  /** The columns a line reaches when `more` is appended at column `col`. */
  function Reach(col: nat, more: Line, visible: Width): nat
    decreases |more|
  {
    if more == [] then col else Reach(col + 1 + visible(more[0]), more[1..], visible)
  }

  lemma {:induction false} ColumnsReach(line: Line, more: Line, visible: Width)
    requires line != []
    ensures Columns(line + more, visible) == Reach(Columns(line, visible), more, visible)
    decreases |more|
  {
    if more == [] {
      assert line + more == line;
    } else {
      assert (line + [more[0]])[..|line|] == line;
      assert line + more == line + [more[0]] + more[1..];
      ColumnsReach(line + [more[0]], more[1..], visible);
    }
  }

  lemma {:induction false} ReachGrows(col: nat, more: Line, visible: Width)
    ensures Reach(col, more, visible) >= col
    decreases |more|
  {
    if more != [] {
      ReachGrows(col + 1 + visible(more[0]), more[1..], visible);
    }
  }

  /** Whatever the other lines are, the greedy text breaks no more often than they do. */
  lemma {:induction false} GreedyNeverBehind(
      col: nat, more: Line, others: seq<Line>, lineWidth: nat, visible: Width)
    requires more == [] || Reach(col, more, visible) <= lineWidth
    requires forall k :: 0 <= k < |others| ==> Fits(others[k], lineWidth, visible)
    ensures Breaks(more + Flatten(others), col, lineWidth, visible) <= |others|
    decreases |others|, |more|
  {
    if more != [] {
      var w := visible(more[0]);
      ReachGrows(col + 1 + w, more[1..], visible);
      assert (more + Flatten(others))[1..] == more[1..] + Flatten(others);
      GreedyNeverBehind(col + 1 + w, more[1..], others, lineWidth, visible);
    } else if others != [] {
      var line, rest := others[0], others[1..];
      var w, tail := visible(line[0]), line[1..] + Flatten(rest);
      assert more + Flatten(others) == line + Flatten(rest);
      assert (line + Flatten(rest))[1..] == tail;
      assert line == [line[0]] + line[1..];
      ColumnsReach([line[0]], line[1..], visible);
      GreedyNeverBehind(w, line[1..], rest, lineWidth, visible);
      StartingFurtherRight(tail, w, col + 1 + w, lineWidth, visible);
    }
  }

  /** Greedy wrapping is optimal. */
  lemma {:induction false} FewestLines(words: seq<string>, others: seq<Line>, lineWidth: nat, visible: Width)
    requires Flatten(others) == words
    requires forall k :: 0 <= k < |others| ==> Fits(others[k], lineWidth, visible)
    ensures |Lines(words, lineWidth, visible)| <= |others|
  {
    if words != [] {
      var line, rest := others[0], others[1..];
      var w := visible(line[0]);
      assert line == [line[0]] + line[1..];
      ColumnsReach([line[0]], line[1..], visible);
      GreedyNeverBehind(w, line[1..], rest, lineWidth, visible);
      assert words[1..] == line[1..] + Flatten(rest);
      BreaksCountLines([words[0]], w, words[1..], lineWidth, visible);
    }
  }

  // ---------------------------------------------------------------------------
  // Reading the text back
  // ---------------------------------------------------------------------------

  lemma {:induction false} FieldsOfRest(words: seq<string>, col: nat, lineWidth: nat, newLine: string, visible: Width)
    requires IsBlank(newLine) && newLine != ""
    requires forall i :: 0 <= i < |words| ==> IsWord(words[i])
    ensures var rest := Rest(words, col, lineWidth, newLine, visible);
      Fields(rest) == words && (rest == "" || IsSpace(rest[0]))
  {
    if words != [] {
      var w := visible(words[0]);
      var gap := if col + 1 + w > lineWidth then newLine else " ";
      var next := if col + 1 + w > lineWidth then w else col + 1 + w;
      var tail := Rest(words[1..], next, lineWidth, newLine, visible);
      FieldsOfRest(words[1..], next, lineWidth, newLine, visible);
      assert Rest(words, col, lineWidth, newLine, visible) == gap + (words[0] + tail);
      FieldsFirstWord(words[0], tail);
      FieldsSkipBlank(gap, words[0] + tail);
      assert gap != "";
    }
  }

  lemma {:induction false} FieldsOfWrapped(s: string, lineWidth: nat, indent: nat, visible: Width)
    ensures Fields(Wrapped(Fields(s), lineWidth, "\n" + Spaces(indent), visible)) == Fields(s)
  {
    var words, newLine := Fields(s), "\n" + Spaces(indent);
    FieldsAreWords(s);
    if words != [] {
      var rest := Rest(words[1..], visible(words[0]), lineWidth, newLine, visible);
      FieldsOfRest(words[1..], visible(words[0]), lineWidth, newLine, visible);
      FieldsFirstWord(words[0], rest);
    }
  }

  /** Wrapping keeps the words, so wrapping a wrapped text changes nothing. */
  lemma WrapAgain(s: string, width: int, indent: nat, visible: Width)
    ensures var once := Wrapped(Fields(s), LineWidth(width, indent), "\n" + Spaces(indent), visible);
      && Fields(once) == Fields(s)
      && Wrapped(Fields(once), LineWidth(width, indent), "\n" + Spaces(indent), visible) == once
  {
    FieldsOfWrapped(s, LineWidth(width, indent), indent, visible);
  }
}
