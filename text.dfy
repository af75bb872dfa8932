/**
 * The few pieces of Python's string behaviour the application relies on:
 * str.split with a one-character separator, str.join, str.strip, int() and
 * str() on integers, and iterating over the lines of a text file.
 */
module Text {
  import opened Options

  /** Python's str.isspace() for one character. */
  predicate IsSpace(c: char) {
    var n := c as int;
    n == 32 || 9 <= n <= 13 || 28 <= n <= 31 || n == 0x85 || n == 0xA0 || n == 0x1680
    || 0x2000 <= n <= 0x200A || n == 0x2028 || n == 0x2029 || n == 0x202F
    || n == 0x205F || n == 0x3000
  }

  /** str.lstrip(): drop leading whitespace. */
  function LStrip(s: string): (r: string)
    ensures |r| <= |s|
  {
    if s != [] && IsSpace(s[0]) then LStrip(s[1..]) else s
  }

  /** lstrip() removes exactly the leading run of whitespace. */
  lemma {:induction false} LStripSpec(s: string)
    ensures LStrip(s) == s[|s| - |LStrip(s)|..]
    ensures LStrip(s) == [] || !IsSpace(LStrip(s)[0])
    ensures forall i :: 0 <= i < |s| - |LStrip(s)| ==> IsSpace(s[i])
  {
    if s != [] && IsSpace(s[0]) {
      LStripSpec(s[1..]);
    }
  }

  /** str.rstrip(): drop trailing whitespace. */
  function RStrip(s: string): (r: string)
    ensures |r| <= |s|
  {
    if s != [] && IsSpace(s[|s| - 1]) then RStrip(s[..|s| - 1]) else s
  }

  /** rstrip() removes exactly the trailing run of whitespace. */
  lemma {:induction false} RStripSpec(s: string)
    ensures RStrip(s) == s[..|RStrip(s)|]
    ensures RStrip(s) == [] || !IsSpace(RStrip(s)[|RStrip(s)| - 1])
    ensures forall i :: |RStrip(s)| <= i < |s| ==> IsSpace(s[i])
  {
    if s != [] && IsSpace(s[|s| - 1]) {
      RStripSpec(s[..|s| - 1]);
    }
  }

  /** str.strip(): drop whitespace at both ends. */
  function Strip(s: string): string {
    RStrip(LStrip(s))
  }

  /** A string that strip() leaves alone: empty, or no whitespace at either end. */
  predicate Trimmed(s: string) {
    s == [] || (!IsSpace(s[0]) && !IsSpace(s[|s| - 1]))
  }

  lemma StripTrimmed(s: string)
    requires Trimmed(s)
    ensures Strip(s) == s
  {
  }

  /** Stripping a trimmed text followed by whitespace gives the text back. */
  lemma StripTrailingSpace(s: string, c: char)
    requires Trimmed(s) && IsSpace(c)
    ensures Strip(s + [c]) == s
  {
    var t := s + [c];
    assert t[..|t| - 1] == s;
    if s == [] {
      assert LStrip(t) == [];
    } else {
      assert t[0] == s[0];
      assert LStrip(t) == t;
      assert RStrip(s) == s;
      assert RStrip(t) == RStrip(s);
    }
  }

  /** s.split(sep) for a one-character separator: never empty, pieces free of sep. */
  function Split(s: string, sep: char): (parts: seq<string>)
    ensures |parts| >= 1
    ensures forall i :: 0 <= i < |parts| ==> sep !in parts[i]
  {
    if s == [] then [""]
    else if s[0] == sep then [""] + Split(s[1..], sep)
    else
      var rest := Split(s[1..], sep);
      [[s[0]] + rest[0]] + rest[1..]
  }

  /** sep.join(parts). */
  function Join(parts: seq<string>, sep: char): string {
    if |parts| == 0 then ""
    else if |parts| == 1 then parts[0]
    else parts[0] + [sep] + Join(parts[1..], sep)
  }

  /** Joining the pieces of a split gives back the original string. */
  lemma {:induction false} JoinSplit(s: string, sep: char)
    ensures Join(Split(s, sep), sep) == s
  {
    if s == [] {
    } else if s[0] == sep {
      JoinSplit(s[1..], sep);
      assert s == [sep] + s[1..];
    } else {
      var rest := Split(s[1..], sep);
      JoinSplit(s[1..], sep);
      if |rest| == 1 {
        assert s == [s[0]] + rest[0];
      } else {
        var r := [[s[0]] + rest[0]] + rest[1..];
        assert r[1..] == rest[1..];
        assert Join(rest, sep) == rest[0] + [sep] + Join(rest[1..], sep);
        assert s == [s[0]] + s[1..];
      }
    }
  }

  /** Joining one more piece adds the separator and the piece at the end. */
  lemma {:induction false} JoinSnoc(parts: seq<string>, x: string, sep: char)
    requires |parts| >= 1
    ensures Join(parts + [x], sep) == Join(parts, sep) + [sep] + x
  {
    if |parts| > 1 {
      assert (parts + [x])[1..] == parts[1..] + [x];
      JoinSnoc(parts[1..], x, sep);
    }
  }

  /** A string without the separator splits into itself alone. */
  lemma {:induction false} SplitNoSep(s: string, sep: char)
    requires sep !in s
    ensures Split(s, sep) == [s]
  {
    if s != [] {
      SplitNoSep(s[1..], sep);
      assert s == [s[0]] + s[1..];
    }
  }

  /** Splitting at a separator splits each side independently. */
  lemma {:induction false} SplitAround(a: string, b: string, sep: char)
    ensures Split(a + [sep] + b, sep) == Split(a, sep) + Split(b, sep)
  {
    var s := a + [sep] + b;
    if a == [] {
      assert s[1..] == b;
    } else {
      assert s[1..] == a[1..] + [sep] + b;
      SplitAround(a[1..], b, sep);
    }
  }

  /** Splitting a join of separator-free pieces gives the pieces back. */
  lemma {:induction false} SplitJoin(parts: seq<string>, sep: char)
    requires |parts| >= 1
    requires forall i :: 0 <= i < |parts| ==> sep !in parts[i]
    ensures Split(Join(parts, sep), sep) == parts
  {
    if |parts| == 1 {
      SplitNoSep(parts[0], sep);
    } else {
      SplitJoin(parts[1..], sep);
      SplitNoSep(parts[0], sep);
      SplitAround(parts[0], Join(parts[1..], sep), sep);
      assert parts == [parts[0]] + parts[1..];
    }
  }

  /** The decimal digit that stands for d. */
  function DigitChar(d: nat): char
    requires d < 10
  {
    "0123456789"[d]
  }

  predicate IsDigit(c: char) {
    '0' <= c <= '9'
  }

  function DigitValue(c: char): nat
    requires IsDigit(c)
  {
    (c as int) - ('0' as int)
  }

  /**
   * The digit strings int() accepts for base 10: ASCII digits, where a
   * single underscore may stand between two digits.
   */
  predicate DigitString(d: string) {
    && |d| >= 1
    && IsDigit(d[0]) && IsDigit(d[|d| - 1])
    && (forall i :: 0 <= i < |d| ==> IsDigit(d[i]) || d[i] == '_')
    && NoDoubleUnderscore(d)
  }

  /** No two underscores stand next to each other. */
  predicate NoDoubleUnderscore(d: string) {
    |d| < 2 || (!(d[0] == '_' && d[1] == '_') && NoDoubleUnderscore(d[1..]))
  }

  /** The value of a digit string, underscores skipped. */
  function DigitsValue(d: string): nat
    requires forall i :: 0 <= i < |d| ==> IsDigit(d[i]) || d[i] == '_'
  {
    if d == [] then 0
    else if d[|d| - 1] == '_' then DigitsValue(d[..|d| - 1])
    else 10 * DigitsValue(d[..|d| - 1]) + DigitValue(d[|d| - 1])
  }

  /** Python's int(s) on a str: None where int() raises ValueError. */
  function ParseInt(s: string): (r: Option<int>)
    ensures r.Some? ==> Strip(s) != []
  {
    var t := Strip(s);
    if |t| >= 1 && (t[0] == '-' || t[0] == '+') then
      var d := t[1..];
      var v: int := if DigitString(d) then DigitsValue(d) else 0;
      if DigitString(d) then Some(if t[0] == '-' then -v else v) else None
    else if DigitString(t) then Some(DigitsValue(t))
    else None
  }

  /** str(n) for a non-negative n. */
  function NatToString(n: nat): (s: string)
    ensures |s| >= 1
    ensures forall i :: 0 <= i < |s| ==> IsDigit(s[i])
  {
    if n < 10 then [DigitChar(n)] else NatToString(n / 10) + [DigitChar(n % 10)]
  }

  /** A non-empty run of plain digits is a digit string. */
  lemma {:induction false} AllDigitsString(s: string)
    requires |s| >= 1 && forall i :: 0 <= i < |s| ==> IsDigit(s[i])
    ensures DigitString(s)
  {
    if |s| >= 2 {
      AllDigitsString(s[1..]);
    }
  }

  /** str(n). */
  function IntToString(n: int): (s: string)
    ensures |s| >= 1 && IsDigit(s[|s| - 1])
    ensures s[0] == '-' || IsDigit(s[0])
    ensures forall i :: 0 <= i < |s| ==> s[i] != ',' && s[i] != '\n'
  {
    if n < 0 then "-" + NatToString(-n) else NatToString(n)
  }

  lemma {:induction false} NatToStringValue(n: nat)
    ensures DigitsValue(NatToString(n)) == n
  {
    var s := NatToString(n);
    if n >= 10 {
      NatToStringValue(n / 10);
      assert s[..|s| - 1] == NatToString(n / 10);
    }
  }

  /** int(str(n)) == n. */
  lemma ParseIntToString(n: int)
    ensures ParseInt(IntToString(n)) == Some(n)
  {
    var s := IntToString(n);
    assert !IsSpace(s[0]) && !IsSpace(s[|s| - 1]);
    StripTrimmed(s);
    var d := NatToString(if n < 0 then -n else n);
    AllDigitsString(d);
    NatToStringValue(if n < 0 then -n else n);
    if n < 0 {
      assert s[1..] == d;
    } else {
      assert s == d;
    }
  }

  /** The concatenation of a sequence of strings. */
  function Concat(ls: seq<string>): string {
    if ls == [] then "" else ls[0] + Concat(ls[1..])
  }

  lemma {:induction false} ConcatSnoc(ls: seq<string>, l: string)
    ensures Concat(ls + [l]) == Concat(ls) + l
  {
    if ls != [] {
      assert (ls + [l])[1..] == ls[1..] + [l];
      ConcatSnoc(ls[1..], l);
    }
  }

  /** Index of the first occurrence of c in s. */
  function IndexOf<T(==)>(s: seq<T>, c: T): (i: nat)
    requires c in s
    ensures i < |s| && s[i] == c
    ensures forall j :: 0 <= j < i ==> s[j] != c
  {
    if s[0] == c then 0 else 1 + IndexOf(s[1..], c)
  }

  /**
   * The lines of a text file, as `for line in f` yields them: each line
   * keeps its '\n'; a last line without one is yielded as it is.
   */
  function FileLines(text: string): (lines: seq<string>)
    ensures forall i :: 0 <= i < |lines| ==> lines[i] != []
    decreases |text|
  {
    if text == [] then []
    else if '\n' !in text then [text]
    else
      var i := IndexOf(text, '\n');
      [text[..i + 1]] + FileLines(text[i + 1..])
  }

  /** A line as `for line in f` yields it: no '\n' except possibly the last character. */
  predicate BreakOnlyAtEnd(l: string) {
    forall k :: 0 <= k < |l| - 1 ==> l[k] != '\n'
  }

  /** Every line of a file breaks only at its end. */
  lemma {:induction false} FileLinesBreakOnlyAtEnd(text: string)
    ensures forall i :: 0 <= i < |FileLines(text)| ==> BreakOnlyAtEnd(FileLines(text)[i])
    decreases |text|
  {
    if text != [] && '\n' in text {
      var i := IndexOf(text, '\n');
      FileLinesBreakOnlyAtEnd(text[i + 1..]);
      assert BreakOnlyAtEnd(text[..i + 1]);
    }
  }

  /** Stripping a line that breaks only at its end leaves no '\n' and no whitespace at either end. */
  lemma StripLine(l: string)
    requires BreakOnlyAtEnd(l)
    ensures '\n' !in Strip(l) && Trimmed(Strip(l))
  {
    LStripSpec(l);
    var t := LStrip(l);
    RStripSpec(t);
    var r := RStrip(t);
    var a := |l| - |t|;
    forall k | 0 <= k < |r|
      ensures r[k] != '\n'
    {
      assert r[k] == l[a + k];
      if a + k == |l| - 1 {
        assert k == |r| - 1;
      }
    }
  }

  /** A line as a text file stores it: a body without '\n', then '\n'. */
  predicate IsLine(l: string) {
    |l| >= 1 && l[|l| - 1] == '\n' && '\n' !in l[..|l| - 1]
  }

  /** Writing complete lines one after another and reading the file gives the lines back. */
  lemma {:induction false} FileLinesConcat(ls: seq<string>)
    requires forall i :: 0 <= i < |ls| ==> IsLine(ls[i])
    ensures FileLines(Concat(ls)) == ls
  {
    if ls != [] {
      var l, text := ls[0], Concat(ls);
      assert text == l + Concat(ls[1..]);
      assert text[|l| - 1] == '\n';
      var i := IndexOf(text, '\n');
      assert forall j :: 0 <= j < |l| - 1 ==> text[j] == l[..|l| - 1][j];
      assert i == |l| - 1;
      assert text[..i + 1] == l;
      assert text[i + 1..] == Concat(ls[1..]);
      FileLinesConcat(ls[1..]);
    }
  }
}
