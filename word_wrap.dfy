/**
 * How the list menu draws an entry too wide for the terminal: the entry is
 * split at spaces and the words are laid out greedily, a word joining the
 * current line while the line stays shorter than the terminal and starting
 * a new line otherwise. Every line but the last loses its trailing space.
 */
module Wrapping {
  import opened Text

  /** Python's s[:-1]: everything but the last character; "" stays "". */
  function DropLast(s: string): (r: string)
    ensures |s| >= 1 ==> r == s[..|s| - 1]
    ensures s == [] ==> r == []
  {
    if s == [] then [] else s[..|s| - 1]
  }

  /** Whether a word joins the line built so far: the extended line stays shorter than the width. */
  predicate Joins(line: string, word: string, width: int) {
    |line| + |word| + 1 < width
  }

  /** The line being filled ends with the space that follows its last word. */
  predicate EndsWithSpace(line: string) {
    |line| >= 1 && line[|line| - 1] == ' '
  }

  /**
   * Laying out one more word: it joins the last line, or the last line
   * loses its trailing space and the word starts a new line.
   */
  function Step(lines: seq<string>, word: string, width: int): seq<string>
    requires |lines| >= 1
  {
    var line := lines[|lines| - 1];
    if Joins(line, word, width) then lines[..|lines| - 1] + [line + word + " "]
    else (lines[..|lines| - 1] + [DropLast(line)]) + [word + " "]
  }

  /** A step keeps every line but the last, and leaves a last line ending in a space. */
  lemma StepShape(lines: seq<string>, word: string, width: int)
    requires |lines| >= 1
    ensures var r := Step(lines, word, width);
      |r| >= |lines| && EndsWithSpace(r[|r| - 1]) && r[..|lines| - 1] == lines[..|lines| - 1]
  {
  }

  /** The lines after laying out the words one at a time, starting from one empty line. */
  function WrapLines(words: seq<string>, width: int): (lines: seq<string>)
    ensures |lines| >= 1
    ensures words != [] ==> EndsWithSpace(lines[|lines| - 1])
  {
    if words == [] then [""]
    else
      var prev := WrapLines(words[..|words| - 1], width);
      StepShape(prev, words[|words| - 1], width);
      Step(prev, words[|words| - 1], width)
  }

  /** A line that is shorter than the width, or that holds a single word (no space before its last character). */
  predicate Fits(line: string, width: int) {
    |line| < width || ' ' !in DropLast(line)
  }

  /** One step keeps every line fitting. */
  lemma StepFits(lines: seq<string>, word: string, width: int)
    requires |lines| >= 1 && ' ' !in word
    requires forall i :: 0 <= i < |lines| ==> Fits(lines[i], width)
    ensures var r := Step(lines, word, width);
      forall i :: 0 <= i < |r| ==> Fits(r[i], width)
  {
    var line := lines[|lines| - 1];
    var r := Step(lines, word, width);
    if !Joins(line, word, width) {
      assert DropLast(word + " ") == word;
      var cut := DropLast(line);
      if |cut| >= width && |cut| >= 1 {
        assert ' ' !in DropLast(line);
        assert DropLast(cut) == cut[..|cut| - 1];
        assert forall k :: 0 <= k < |cut| - 1 ==> DropLast(cut)[k] == cut[k];
      }
      assert r == lines[..|lines| - 1] + [cut, word + " "];
    }
    forall i | 0 <= i < |r| ensures Fits(r[i], width) {
      if i < |lines| - 1 {
        assert r[i] == r[..|lines| - 1][i] == lines[i];
      }
    }
  }

  /** Every line is shorter than the terminal unless it holds one word that is already too long on its own. */
  lemma {:induction false} WrapLinesFit(words: seq<string>, width: int)
    requires forall i :: 0 <= i < |words| ==> ' ' !in words[i]
    ensures forall i :: 0 <= i < |WrapLines(words, width)| ==> Fits(WrapLines(words, width)[i], width)
  {
    if words != [] {
      var ws := words[..|words| - 1];
      WrapLinesFit(ws, width);
      var prev := WrapLines(ws, width);
      assert forall i :: 0 <= i < |prev| ==> Fits(prev[i], width);
      StepFits(prev, words[|words| - 1], width);
    }
  }

  /** The lines put back together with a space between each two, built from the last line backwards. */
  function Rejoin(lines: seq<string>): string {
    if |lines| == 0 then ""
    else if |lines| == 1 then lines[0]
    else Rejoin(lines[..|lines| - 1]) + " " + lines[|lines| - 1]
  }

  /** Rejoin is Python's " ".join. */
  lemma {:induction false} RejoinIsJoin(lines: seq<string>)
    ensures Rejoin(lines) == Join(lines, ' ')
  {
    if |lines| >= 2 {
      var init := lines[..|lines| - 1];
      RejoinIsJoin(init);
      JoinSnoc(init, lines[|lines| - 1], ' ');
      assert init + [lines[|lines| - 1]] == lines;
    }
  }

  /** Rejoining one more line adds a space and the line. */
  lemma RejoinSnoc(init: seq<string>, x: string)
    ensures Rejoin(init + [x]) == if init == [] then x else Rejoin(init) + " " + x
  {
    assert (init + [x])[..|init|] == init;
  }

  /** The result of a step, spelt out. */
  lemma StepCases(lines: seq<string>, word: string, width: int)
    requires |lines| >= 1
    ensures var init, line := lines[..|lines| - 1], lines[|lines| - 1];
      && lines == init + [line]
      && Step(lines, word, width) ==
        if Joins(line, word, width) then init + [line + word + " "]
        else (init + [DropLast(line)]) + [word + " "]
  {
  }

  /** A line ending in a space is its cut form followed by that space. */
  lemma SpaceAfterCut(line: string)
    requires EndsWithSpace(line)
    ensures line == DropLast(line) + " "
  {
  }

  lemma Associative(a: string, b: string, c: string)
    ensures (a + b) + c == a + (b + c)
  {
  }

  /** Joining after a step: the word and its space follow what was there. */
  lemma StepRejoin(lines: seq<string>, word: string, width: int)
    requires |lines| >= 1 && EndsWithSpace(lines[|lines| - 1])
    ensures Rejoin(Step(lines, word, width)) == Rejoin(lines) + word + " "
  {
    var init, line := lines[..|lines| - 1], lines[|lines| - 1];
    StepCases(lines, word, width);
    RejoinSnoc(init, line);
    if Joins(line, word, width) {
      var extended := line + word + " ";
      RejoinSnoc(init, extended);
      if init != [] {
        var a := Rejoin(init) + " ";
        Associative(a, line, word);
        Associative(a, line + word, " ");
      }
    } else {
      var cut := DropLast(line);
      var x := Rejoin(init + [cut]);
      RejoinSnoc(init + [cut], word + " ");
      RejoinSnoc(init, cut);
      SpaceAfterCut(line);
      if init != [] {
        Associative(Rejoin(init) + " ", cut, " ");
      }
      assert Rejoin(lines) == x + " ";
      Associative(x + " ", word, " ");
      Associative(x, " ", word + " ");
      Associative(x, " ", word);
    }
  }

  /**
   * No text is lost or reordered: the lines joined with spaces give back
   * the words joined with spaces, plus the last line's trailing space, and
   * a leading space for the empty first line left when the first word
   * does not fit.
   */
  lemma {:induction false} WrapLinesRejoin(words: seq<string>, width: int)
    requires words != []
    ensures Rejoin(WrapLines(words, width)) ==
      (if Joins("", words[0], width) then "" else " ") + Rejoin(words) + " "
  {
    var ws := words[..|words| - 1];
    var word := words[|words| - 1];
    if ws == [] {
      assert words == [word];
      assert WrapLines(ws, width) == [""];
    } else {
      WrapLinesRejoin(ws, width);
      StepRejoin(WrapLines(ws, width), word, width);
      assert ws[0] == words[0];
      var lead := if Joins("", words[0], width) then "" else " ";
      assert words == ws + [word];
      RejoinSnoc(ws, word);
      var a := lead + Rejoin(ws);
      Associative(a, " ", word);
      Associative(a + " " + word, " ", word + " ");
      Associative(lead, Rejoin(ws) + " ", word);
      Associative(lead, Rejoin(ws), " ");
      Associative(lead + (Rejoin(ws) + " "), word, " ");
      Associative(lead, Rejoin(ws) + " " + word, " ");
      Associative(Rejoin(ws), " ", word);
    }
  }

  /** A first word that does not fit on its own leaves the first line empty and starts a second one. */
  lemma {:induction false} LongFirstWordBlankLine(words: seq<string>, width: int)
    requires words != [] && !Joins("", words[0], width)
    ensures |WrapLines(words, width)| >= 2 && WrapLines(words, width)[0] == ""
  {
    var ws := words[..|words| - 1];
    var prev := WrapLines(ws, width);
    if ws != [] {
      assert ws[0] == words[0];
      LongFirstWordBlankLine(ws, width);
      assert Step(prev, words[|words| - 1], width)[..|prev| - 1] == prev[..|prev| - 1];
      assert prev[..|prev| - 1][0] == "";
    } else {
      assert prev == [""];
    }
  }

  /** Assigning to the last element replaces it. */
  lemma ReplaceLast(lines: seq<string>, x: string)
    requires |lines| >= 1
    ensures lines[|lines| - 1 := x] == lines[..|lines| - 1] + [x]
  {
  }

  /** The loop in MenuList.render that wraps an entry wider than the terminal. */
  method WordWrap(item: string, width: int) returns (lines: seq<string>)
    ensures lines == WrapLines(Split(item, ' '), width)
  {
    var words := Split(item, ' ');
    lines := [""];
    var index := 0;
    var i := 0;
    while i < |words|
      invariant 0 <= i <= |words|
      invariant lines == WrapLines(words[..i], width)
      invariant index == |lines| - 1
    {
      var word := words[i];
      assert words[..i + 1][..i] == words[..i];
      ghost var prev := lines;
      StepCases(prev, word, width);
      if |lines[index]| + |word| + 1 < width {
        lines := lines[index := lines[index] + word + " "];
        ReplaceLast(prev, prev[index] + word + " ");
      } else {
        lines := lines[index := DropLast(lines[index])];
        ReplaceLast(prev, DropLast(prev[index]));
        index := index + 1;
        lines := lines + [word + " "];
      }
      assert lines == Step(prev, word, width);
      i := i + 1;
    }
    assert words[..i] == words;
  }

  /** The rows render draws for one entry: the entry itself when it is narrower than the terminal, else its wrapped lines. */
  method EntryRows(item: string, width: int) returns (rows: seq<string>)
    ensures |item| < width ==> rows == [item]
    ensures |item| >= width ==> rows == WrapLines(Split(item, ' '), width)
  {
    if |item| < width {
      rows := [item];
    } else {
      rows := WordWrap(item, width);
    }
  }

  /** Wrapping an entry keeps its text: its rows rejoined with spaces give the entry back, up to the spaces the layout adds. */
  lemma WrappedEntryRejoins(item: string, width: int)
    ensures var words := Split(item, ' ');
      Join(WrapLines(words, width), ' ') == (if Joins("", words[0], width) then "" else " ") + item + " "
  {
    var words := Split(item, ' ');
    WrapLinesRejoin(words, width);
    RejoinIsJoin(words);
    RejoinIsJoin(WrapLines(words, width));
    JoinSplit(item, ' ');
  }

  /** Every row of a wrapped entry is shorter than the terminal unless it is a single over-long word. */
  lemma WrappedEntryFits(item: string, width: int)
    ensures var lines := WrapLines(Split(item, ' '), width);
      forall i :: 0 <= i < |lines| ==> Fits(lines[i], width)
  {
    WrapLinesFit(Split(item, ' '), width);
  }
}
