/**
 * Saved week plans: the files of the plans directory, the order in which
 * they are read (file names in reverse order, which for names of the form
 * week_plan_YYYY-MM-DD.txt is newest first), and the activity a plan line
 * names.
 */
module Plans {
  import opened Text

  /** One file of the plans directory: its name and its text. */
  datatype PlanFile = PlanFile(name: string, text: string)

  /** Python's a < b on str: code point by code point, a proper prefix first. */
  predicate Below(a: string, b: string)
    decreases |a|
  {
    if a == [] then b != []
    else if b == [] then false
    else if a[0] != b[0] then a[0] < b[0]
    else Below(a[1..], b[1..])
  }

  lemma {:induction false} BelowIrreflexive(a: string)
    ensures !Below(a, a)
  {
    if a != [] {
      BelowIrreflexive(a[1..]);
    }
  }

  lemma {:induction false} BelowTransitive(a: string, b: string, c: string)
    requires Below(a, b) && Below(b, c)
    ensures Below(a, c)
    decreases |a|
  {
    if a != [] && a[0] == b[0] && b[0] == c[0] {
      BelowTransitive(a[1..], b[1..], c[1..]);
    }
  }

  lemma BelowAsymmetric(a: string, b: string)
    requires Below(a, b)
    ensures !Below(b, a)
  {
    if Below(b, a) {
      BelowTransitive(a, b, a);
      BelowIrreflexive(a);
    }
  }

  /** Any two different names are ordered one way or the other. */
  lemma {:induction false} BelowTotal(a: string, b: string)
    requires a != b
    ensures Below(a, b) || Below(b, a)
    decreases |a|
  {
    if a != [] && b != [] && a[0] == b[0] {
      assert a == [a[0]] + a[1..] && b == [b[0]] + b[1..];
      BelowTotal(a[1..], b[1..]);
    }
  }

  /** "Not below" is transitive: a >= b and b >= c give a >= c. */
  lemma NotBelowTransitive(a: string, b: string, c: string)
    requires !Below(a, b) && !Below(b, c)
    ensures !Below(a, c)
  {
    if Below(a, c) && a != b {
      BelowTotal(a, b);
      BelowTransitive(b, a, c);
    }
  }

  /** Each plan's name is no smaller than the names after it. */
  predicate Descending(ps: seq<PlanFile>) {
    forall i, j :: 0 <= i < j < |ps| ==> !Below(ps[i].name, ps[j].name)
  }

  /** Puts p in front of the first plan whose name it is not below. */
  function Insert(p: PlanFile, ps: seq<PlanFile>): (r: seq<PlanFile>)
    ensures multiset(r) == multiset(ps) + multiset{p}
    ensures |r| == |ps| + 1
    ensures forall x :: x in r <==> x == p || x in ps
  {
    if ps == [] || !Below(p.name, ps[0].name) then [p] + ps
    else
      assert ps == [ps[0]] + ps[1..];
      [ps[0]] + Insert(p, ps[1..])
  }

  lemma {:induction false} InsertDescending(p: PlanFile, ps: seq<PlanFile>)
    requires Descending(ps)
    ensures Descending(Insert(p, ps))
  {
    var r := Insert(p, ps);
    if ps != [] && Below(p.name, ps[0].name) {
      InsertDescending(p, ps[1..]);
      var tail := Insert(p, ps[1..]);
      assert r == [ps[0]] + tail;
      forall j | 0 < j < |r| ensures !Below(r[0].name, r[j].name) {
        assert r[j] == tail[j - 1];
        assert r[j] in tail;
        if r[j] == p {
          BelowAsymmetric(p.name, ps[0].name);
        } else {
          assert r[j] in ps[1..];
          var k :| 0 <= k < |ps[1..]| && ps[1..][k] == r[j];
          assert ps[k + 1] == r[j];
        }
      }
    } else if ps != [] {
      assert r == [p] + ps;
      forall j | 0 < j < |r| ensures !Below(r[0].name, r[j].name) {
        if j > 1 {
          assert r[j] == ps[j - 1];
          NotBelowTransitive(p.name, ps[0].name, r[j].name);
        }
      }
    }
  }

  /** plans.sort(reverse=True): the plans, reordered by name from largest to smallest. */
  function NewestFirst(ps: seq<PlanFile>): (r: seq<PlanFile>)
    ensures multiset(r) == multiset(ps)
    ensures |r| == |ps|
  {
    if ps == [] then []
    else
      assert ps == [ps[0]] + ps[1..];
      Insert(ps[0], NewestFirst(ps[1..]))
  }

  /** The order in which plans are read is sorted, newest name first, and holds every plan exactly once. */
  lemma {:induction false} NewestFirstDescending(ps: seq<PlanFile>)
    ensures Descending(NewestFirst(ps))
    ensures multiset(NewestFirst(ps)) == multiset(ps)
  {
    if ps != [] {
      NewestFirstDescending(ps[1..]);
      InsertDescending(ps[0], NewestFirst(ps[1..]));
    }
  }

  /** line.split(":")[1] exists: the line has a ':'. */
  predicate HasField(line: string) {
    |Split(line, ':')| >= 2
  }

  /** The activity a plan line names: the text after its first ':' (up to any second one), stripped. */
  function PlanEntry(line: string): string
    requires HasField(line)
  {
    Strip(Split(line, ':')[1])
  }

  /** A line without ':' has no second field: reading it raises. */
  lemma NoColonNoField(line: string)
    requires ':' !in line
    ensures !HasField(line)
  {
    SplitNoSep(line, ':');
  }

  /** The line export_plan writes for a day is read back as the activity it names. */
  lemma {:induction false} PlanEntryOfDayLine(day: string, value: string)
    requires ':' !in day && ':' !in value && Trimmed(value)
    ensures HasField(day + ": " + value + "\n")
    ensures PlanEntry(day + ": " + value + "\n") == value
  {
    var rest := " " + value + "\n";
    assert day + ": " + value + "\n" == day + [':'] + rest;
    SplitAround(day, rest, ':');
    assert ':' !in rest;
    SplitNoSep(rest, ':');
    SplitNoSep(day, ':');
    var parts := Split(day + ": " + value + "\n", ':');
    assert parts == [day, rest];
    LStripSpec(rest);
    RStripSpec(rest);
    StripPadded(value);
  }

  /** Stripping one leading space and a trailing line break off a trimmed text gives the text. */
  lemma StripPadded(value: string)
    requires Trimmed(value)
    ensures Strip(" " + value + "\n") == value
  {
    var t := " " + value + "\n";
    assert t[1..] == value + "\n";
    assert LStrip(t) == LStrip(value + "\n");
    StripTrailingSpace(value, '\n');
    if value == [] {
      assert LStrip("\n") == [];
    } else {
      assert (value + "\n")[0] == value[0];
      assert LStrip(value + "\n") == value + "\n";
    }
  }
}
