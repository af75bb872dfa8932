/**
 * Activity records and the activities file: one record per line, written
 * as `name,priority`. Only the last comma-separated field is the priority;
 * the name is everything before it and may itself contain commas.
 */
module Activities {
  import opened Text

  /** An activity: its name (the source's `choice`) and its priority. */
  datatype Activity = Activity(name: string, priority: int)

  /** Why reading a line failed: int() rejected its last field. */
  datatype ParseError = BadPriority(line: string)

  datatype Result<+T> = Ok(value: T) | Err(error: ParseError)

  /** The comma-separated fields of a line once surrounding whitespace is stripped. */
  function Fields(line: string): (f: seq<string>)
    ensures |f| >= 1
  {
    Split(Strip(line), ',')
  }

  /** One line of the activities file: the name is every field but the last, rejoined with ','. */
  function ParseLine(line: string): Result<Activity> {
    var f := Fields(line);
    var name := Join(f[..|f| - 1], ',');
    match ParseInt(f[|f| - 1])
    case Some(p) => Ok(Activity(name, p))
    case None => Err(BadPriority(line))
  }

  /** A line that is `name,text` after stripping yields that name and int(text). */
  lemma ParseLineSplitsAtLastComma(line: string, name: string, text: string)
    requires Strip(line) == name + [','] + text && ',' !in text
    ensures ParseLine(line).Ok? <==> ParseInt(text).Some?
    ensures ParseLine(line).Ok? ==> ParseLine(line).value == Activity(name, ParseInt(text).value)
  {
    SplitAround(name, text, ',');
    SplitNoSep(text, ',');
    var f := Fields(line);
    assert f == Split(name, ',') + [text];
    assert f[..|f| - 1] == Split(name, ',');
    JoinSplit(name, ',');
  }

  /** A line without a comma has an empty name. */
  lemma ParseLineWithoutComma(line: string)
    requires ',' !in Strip(line)
    ensures ParseLine(line).Ok? ==> ParseLine(line).value.name == ""
  {
    SplitNoSep(Strip(line), ',');
  }

  /** An empty or blank line has no integer field: reading it fails. */
  lemma ParseBlankLine(line: string)
    requires forall i :: 0 <= i < |line| ==> IsSpace(line[i])
    ensures ParseLine(line) == Err(BadPriority(line))
  {
    LStripSpec(line);
    assert LStrip(line) == [];
    assert Fields(line) == [""];
  }

  /** write_activities' line for one activity. */
  function FormatLine(a: Activity): string {
    a.name + "," + IntToString(a.priority) + "\n"
  }

  /** A written record occupies exactly one line of the file when its name has no line break. */
  lemma FormatLineIsLine(a: Activity)
    requires '\n' !in a.name
    ensures IsLine(FormatLine(a))
  {
    var l := FormatLine(a);
    assert l[..|l| - 1] == a.name + "," + IntToString(a.priority);
  }

  /** Names that survive a write and a read: no line break, no leading whitespace. */
  predicate StorableName(name: string) {
    '\n' !in name && (name == [] || !IsSpace(name[0]))
  }

  /** A name read from a line that breaks only at its end can be written and read back. */
  lemma ParsedNameStorable(line: string)
    requires BreakOnlyAtEnd(line)
    ensures ParseLine(line).Ok? ==> StorableName(ParseLine(line).value.name)
  {
    var s := Strip(line);
    var f := Fields(line);
    var name := Join(f[..|f| - 1], ',');
    StripLine(line);
    if |f| >= 2 {
      JoinSplit(s, ',');
      assert f == f[..|f| - 1] + [f[|f| - 1]];
      JoinSnoc(f[..|f| - 1], f[|f| - 1], ',');
      assert s == name + [','] + f[|f| - 1];
      assert forall k :: 0 <= k < |name| ==> name[k] == s[k];
    }
  }

  /** Reading back a written line gives the same activity. */
  lemma ParseFormatLine(a: Activity)
    requires StorableName(a.name)
    ensures ParseLine(FormatLine(a)) == Ok(a)
  {
    var digits := IntToString(a.priority);
    var body := a.name + [','] + digits;
    assert FormatLine(a) == body + ['\n'];
    assert Trimmed(body);
    StripTrailingSpace(body, '\n');
    ParseLineSplitsAtLastComma(FormatLine(a), a.name, digits);
    ParseIntToString(a.priority);
  }

  /**
   * The outcome of reading several lines: every activity in order when all
   * lines parse, otherwise the error of the first line that does not.
   */
  function Collect<T>(rs: seq<Result<T>>): (r: Result<seq<T>>)
    ensures r.Ok? <==> forall i :: 0 <= i < |rs| ==> rs[i].Ok?
    ensures r.Ok? ==> |r.value| == |rs| && forall i :: 0 <= i < |rs| ==> rs[i] == Ok(r.value[i])
  {
    if rs == [] then Ok([])
    else match rs[0]
      case Err(e) => Err(e)
      case Ok(a) =>
        match Collect(rs[1..])
        case Err(e) => Err(e)
        case Ok(rest) => Ok([a] + rest)
  }

  /** Reading stops at the first line that fails, and reports that line's error. */
  lemma {:induction false} CollectFirstError<T>(rs: seq<Result<T>>, i: nat)
    requires i < |rs| && rs[i].Err?
    requires forall j :: 0 <= j < i ==> rs[j].Ok?
    ensures Collect(rs) == Err(rs[i].error)
  {
    if i > 0 {
      CollectFirstError(rs[1..], i - 1);
    }
  }

  /** Each line's own parse, in file order. */
  function ParseEach(lines: seq<string>): (rs: seq<Result<Activity>>)
    ensures |rs| == |lines|
  {
    if lines == [] then [] else ParseEach(lines[..|lines| - 1]) + [ParseLine(lines[|lines| - 1])]
  }

  lemma {:induction false} ParseEachAt(lines: seq<string>, i: nat)
    requires i < |lines|
    ensures ParseEach(lines)[i] == ParseLine(lines[i])
  {
    if i < |lines| - 1 {
      ParseEachAt(lines[..|lines| - 1], i);
    }
  }

  /** The text read_activities accepts: one record per line of the file. */
  function Decode(text: string): Result<seq<Activity>> {
    Collect(ParseEach(FileLines(text)))
  }

  /** Every name read from a file can be written and read back. */
  lemma DecodedNamesStorable(text: string)
    ensures Decode(text).Ok? ==> forall i :: 0 <= i < |Decode(text).value| ==> StorableName(Decode(text).value[i].name)
  {
    var lines := FileLines(text);
    var rs := ParseEach(lines);
    if Collect(rs).Ok? {
      var acts := Collect(rs).value;
      FileLinesBreakOnlyAtEnd(text);
      forall i | 0 <= i < |acts|
        ensures StorableName(acts[i].name)
      {
        ParseEachAt(lines, i);
        ParsedNameStorable(lines[i]);
      }
    }
  }

  /** The lines write_activities writes, one per activity in list order. */
  function FormatLines(acts: seq<Activity>): (ls: seq<string>)
    ensures |ls| == |acts|
    ensures forall i :: 0 <= i < |acts| ==> ls[i] == FormatLine(acts[i])
  {
    if acts == [] then [] else FormatLines(acts[..|acts| - 1]) + [FormatLine(acts[|acts| - 1])]
  }

  /** The whole file write_activities produces. */
  function Encode(acts: seq<Activity>): string {
    Concat(FormatLines(acts))
  }

  /** Round trip: reading what was written gives back the same activities in the same order. */
  lemma DecodeEncode(acts: seq<Activity>)
    requires forall i :: 0 <= i < |acts| ==> StorableName(acts[i].name)
    ensures Decode(Encode(acts)) == Ok(acts)
  {
    var ls := FormatLines(acts);
    forall i | 0 <= i < |ls| ensures IsLine(ls[i]) {
      FormatLineIsLine(acts[i]);
    }
    FileLinesConcat(ls);
    var rs := ParseEach(ls);
    forall i | 0 <= i < |acts| ensures rs[i] == Ok(acts[i]) {
      ParseEachAt(ls, i);
      ParseFormatLine(acts[i]);
    }
    assert Collect(rs).value == acts;
  }

  /** read_activities: parse the file line by line, appending one activity per line. */
  method ReadActivities(text: string) returns (r: Result<seq<Activity>>)
    ensures r == Decode(text)
  {
    var lines := FileLines(text);
    ghost var rs := ParseEach(lines);
    var acts: seq<Activity> := [];
    var i := 0;
    while i < |lines|
      invariant 0 <= i <= |lines|
      invariant |acts| == i
      invariant forall j :: 0 <= j < i ==> rs[j] == Ok(acts[j])
    {
      var parsed := ParseLine(lines[i]);
      ParseEachAt(lines, i);
      if parsed.Err? {
        CollectFirstError(rs, i);
        return Err(parsed.error);
      }
      acts := acts + [parsed.value];
      i := i + 1;
    }
    assert Collect(rs).value == acts;
    r := Ok(acts);
  }

  /** write_activities: one `name,priority` line per activity, in list order. */
  method WriteActivities(acts: seq<Activity>) returns (text: string)
    ensures text == Encode(acts)
  {
    text := "";
    var i := 0;
    while i < |acts|
      invariant 0 <= i <= |acts|
      invariant text == Concat(FormatLines(acts[..i]))
    {
      assert acts[..i + 1][..i] == acts[..i];
      ConcatSnoc(FormatLines(acts[..i]), FormatLine(acts[i]));
      text := text + FormatLine(acts[i]);
      i := i + 1;
    }
    assert acts[..i] == acts;
  }
}
