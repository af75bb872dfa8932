/**
 * Choosing a random activity: priorities are raised for every activity the
 * recent plans did not schedule, then each activity is entered into a pool
 * once per point of priority and one entry of the pool is drawn.
 *
 * Priority adjustment reads the saved plans newest first. It keeps the list
 * of activity names not yet seen in any plan ("remaining") and the list of
 * names seen so far ("found"); after each plan every activity whose name
 * has not been found gains one point, and reading stops once every name
 * has been found.
 */
module Scheduler {
  import opened Options
  import opened Text
  import opened Activities
  import opened Plans

  /** The name of every activity, in list order. */
  function Names(acts: seq<Activity>): (names: seq<string>)
    ensures |names| == |acts|
    ensures forall i :: 0 <= i < |acts| ==> names[i] == acts[i].name
  {
    seq(|acts|, i requires 0 <= i < |acts| => acts[i].name)
  }

  /** list.remove(x): the list without the first occurrence of x. */
  function RemoveFirst(s: seq<string>, x: string): (r: seq<string>)
    requires x in s
    ensures multiset(r) == multiset(s) - multiset{x}
  {
    var i := IndexOf(s, x);
    assert s == s[..i] + [x] + s[i + 1..];
    s[..i] + s[i + 1..]
  }

  /** The two lists adjust_priorities keeps while reading plans. */
  datatype Scan = Scan(remaining: seq<string>, found: seq<string>)

  /** One plan line naming entry: a name still remaining moves to found. */
  function ScanEntry(sc: Scan, entry: string): Scan {
    if entry in sc.remaining then Scan(RemoveFirst(sc.remaining, entry), sc.found + [entry])
    else sc
  }

  /** Reading the lines of one plan; None where a line has no ':' and reading it raises. */
  function ScanLines(sc: Scan, lines: seq<string>): Option<Scan>
    decreases |lines|
  {
    if lines == [] then Some(sc)
    else if !HasField(lines[0]) then None
    else ScanLines(ScanEntry(sc, PlanEntry(lines[0])), lines[1..])
  }

  /** One point more for every activity whose name has not been found. */
  function Bump(acts: seq<Activity>, found: seq<string>): (r: seq<Activity>)
    ensures |r| == |acts|
    ensures forall i :: 0 <= i < |acts| ==> r[i].name == acts[i].name
    ensures forall i :: 0 <= i < |acts| ==>
      r[i].priority == acts[i].priority + (if acts[i].name in found then 0 else 1)
  {
    seq(|acts|, i requires 0 <= i < |acts| =>
      if acts[i].name in found then acts[i] else acts[i].(priority := acts[i].priority + 1))
  }

  /** Reading plans (already in reading order) from the given lists onwards; None where a plan line raises. */
  function AdjustFrom(acts: seq<Activity>, sc: Scan, plans: seq<PlanFile>): Option<seq<Activity>>
    decreases |plans|
  {
    if plans == [] then Some(acts)
    else match ScanLines(sc, FileLines(plans[0].text))
      case None => None
      case Some(next) =>
        var bumped := Bump(acts, next.found);
        if next.remaining == [] then Some(bumped)
        else AdjustFrom(bumped, next, plans[1..])
  }

  /** adjust_priorities on the files of the plans directory. */
  function Adjusted(acts: seq<Activity>, dir: seq<PlanFile>): Option<seq<Activity>> {
    if dir == [] then Some(acts)
    else AdjustFrom(acts, Scan(Names(acts), []), NewestFirst(dir))
  }

  /** Adjustment keeps the activities and their order, and raises each priority by at most one per plan. */
  lemma {:induction false} AdjustFromShape(acts: seq<Activity>, sc: Scan, plans: seq<PlanFile>)
    requires AdjustFrom(acts, sc, plans).Some?
    ensures var r := AdjustFrom(acts, sc, plans).value;
      && |r| == |acts|
      && (forall i :: 0 <= i < |acts| ==> r[i].name == acts[i].name)
      && (forall i :: 0 <= i < |acts| ==> acts[i].priority <= r[i].priority <= acts[i].priority + |plans|)
    decreases |plans|
  {
    if plans != [] {
      var next := ScanLines(sc, FileLines(plans[0].text)).value;
      var bumped := Bump(acts, next.found);
      if next.remaining != [] {
        AdjustFromShape(bumped, next, plans[1..]);
      }
    }
  }

  lemma AdjustedShape(acts: seq<Activity>, dir: seq<PlanFile>)
    requires Adjusted(acts, dir).Some?
    ensures var r := Adjusted(acts, dir).value;
      && |r| == |acts|
      && (forall i :: 0 <= i < |acts| ==> r[i].name == acts[i].name)
      && (forall i :: 0 <= i < |acts| ==> acts[i].priority <= r[i].priority <= acts[i].priority + |dir|)
  {
    if dir != [] {
      AdjustFromShape(acts, Scan(Names(acts), []), NewestFirst(dir));
    }
  }

  /** Whether some line of a plan names the activity. */
  predicate Mentions(lines: seq<string>, name: string) {
    exists j :: 0 <= j < |lines| && HasField(lines[j]) && PlanEntry(lines[j]) == name
  }

  /** Every name is either remaining or found, as often as the activity list holds it. */
  predicate Accounted(names: seq<string>, sc: Scan) {
    multiset(sc.remaining) + multiset(sc.found) == multiset(names)
  }

  /** Reading a line keeps every name accounted for, and finds a listed name exactly when it is named. */
  lemma ScanEntryFinds(names: seq<string>, sc: Scan, entry: string, name: string)
    requires Accounted(names, sc) && name in names
    ensures Accounted(names, ScanEntry(sc, entry))
    ensures name in ScanEntry(sc, entry).found <==> name in sc.found || name == entry
  {
    if entry !in sc.remaining && name == entry {
      assert name in multiset(names);
    }
  }

  /** Found names are never lost. */
  lemma {:induction false} ScanLinesKeepsFound(sc: Scan, lines: seq<string>)
    requires ScanLines(sc, lines).Some?
    ensures forall x :: x in sc.found ==> x in ScanLines(sc, lines).value.found
    decreases |lines|
  {
    if lines != [] {
      ScanLinesKeepsFound(ScanEntry(sc, PlanEntry(lines[0])), lines[1..]);
    }
  }

  /** After a plan, a listed name is found exactly when it was found before or the plan names it. */
  lemma {:induction false} ScanLinesFinds(names: seq<string>, sc: Scan, lines: seq<string>, name: string)
    requires Accounted(names, sc) && name in names && ScanLines(sc, lines).Some?
    ensures Accounted(names, ScanLines(sc, lines).value)
    ensures name in ScanLines(sc, lines).value.found <==> name in sc.found || Mentions(lines, name)
    decreases |lines|
  {
    if lines != [] {
      var entry := PlanEntry(lines[0]);
      ScanEntryFinds(names, sc, entry, name);
      ScanLinesFinds(names, ScanEntry(sc, entry), lines[1..], name);
      if Mentions(lines[1..], name) {
        var j :| 0 <= j < |lines[1..]| && HasField(lines[1..][j]) && PlanEntry(lines[1..][j]) == name;
        assert lines[j + 1] == lines[1..][j];
      }
      if Mentions(lines, name) && entry != name {
        var j :| 0 <= j < |lines| && HasField(lines[j]) && PlanEntry(lines[j]) == name;
        assert lines[1..][j - 1] == lines[j];
      }
    }
  }

  /** The position, in reading order, of the first plan that names the activity; the number of plans if none does. */
  function FirstMention(plans: seq<PlanFile>, name: string): (k: nat)
    ensures k <= |plans|
  {
    if plans == [] then 0
    else if Mentions(FileLines(plans[0].text), name) then 0
    else 1 + FirstMention(plans[1..], name)
  }

  /** How many plans are read before every name has been found or the plans run out. */
  function ReadCount(sc: Scan, plans: seq<PlanFile>): (n: nat)
    ensures n <= |plans|
    decreases |plans|
  {
    if plans == [] then 0
    else match ScanLines(sc, FileLines(plans[0].text))
      case None => 1
      case Some(next) => if next.remaining == [] then 1 else 1 + ReadCount(next, plans[1..])
  }

  /** An activity already found keeps its priority from then on. */
  lemma {:induction false} FoundKeepsPriority(acts: seq<Activity>, sc: Scan, plans: seq<PlanFile>, i: nat)
    requires i < |acts| && acts[i].name in sc.found && AdjustFrom(acts, sc, plans).Some?
    ensures AdjustFromShapeAt(acts, sc, plans, i) && AdjustFrom(acts, sc, plans).value[i].priority == acts[i].priority
    decreases |plans|
  {
    AdjustFromShape(acts, sc, plans);
    if plans != [] {
      var next := ScanLines(sc, FileLines(plans[0].text)).value;
      ScanLinesKeepsFound(sc, FileLines(plans[0].text));
      var bumped := Bump(acts, next.found);
      if next.remaining != [] {
        FoundKeepsPriority(bumped, next, plans[1..], i);
      }
    }
  }

  /** The adjusted list still has an activity at position i. */
  predicate AdjustFromShapeAt(acts: seq<Activity>, sc: Scan, plans: seq<PlanFile>, i: nat) {
    AdjustFrom(acts, sc, plans).Some? && i < |AdjustFrom(acts, sc, plans).value|
  }

  /**
   * An activity not yet found gains one point for every plan read before
   * the first plan that names it: the position of that plan, or the number
   * of plans read if reading stops first.
   */
  lemma {:induction false} MissedPlans(names: seq<string>, acts: seq<Activity>, sc: Scan, plans: seq<PlanFile>, i: nat)
    requires Accounted(names, sc) && i < |acts| && acts[i].name in names && acts[i].name !in sc.found
    requires AdjustFrom(acts, sc, plans).Some?
    ensures AdjustFromShapeAt(acts, sc, plans, i)
    ensures var n, k := FirstMention(plans, acts[i].name), ReadCount(sc, plans);
      AdjustFrom(acts, sc, plans).value[i].priority == acts[i].priority + (if n < k then n else k)
    decreases |plans|
  {
    AdjustFromShape(acts, sc, plans);
    if plans != [] {
      var lines := FileLines(plans[0].text);
      var next := ScanLines(sc, lines).value;
      var bumped := Bump(acts, next.found);
      ScanLinesFinds(names, sc, lines, acts[i].name);
      if next.remaining != [] {
        if Mentions(lines, acts[i].name) {
          FoundKeepsPriority(bumped, next, plans[1..], i);
        } else {
          MissedPlans(names, bumped, next, plans[1..], i);
        }
      }
    }
  }

  /**
   * The effect of adjust_priorities on each activity: its priority rises by
   * the number of plans, newest first, that were read before one named it.
   */
  lemma AdjustedMissedPlans(acts: seq<Activity>, dir: seq<PlanFile>, i: nat)
    requires dir != [] && i < |acts| && Adjusted(acts, dir).Some?
    ensures i < |Adjusted(acts, dir).value|
    ensures var plans := NewestFirst(dir);
      var n, k := FirstMention(plans, acts[i].name), ReadCount(Scan(Names(acts), []), plans);
      Adjusted(acts, dir).value[i].priority == acts[i].priority + (if n < k then n else k)
  {
    MissedPlans(Names(acts), acts, Scan(Names(acts), []), NewestFirst(dir), i);
  }

  /** An activity the newest plan names keeps its priority. */
  lemma NewestPlanKeepsPriority(acts: seq<Activity>, dir: seq<PlanFile>, i: nat)
    requires dir != [] && i < |acts| && Adjusted(acts, dir).Some?
    requires Mentions(FileLines(NewestFirst(dir)[0].text), acts[i].name)
    ensures i < |Adjusted(acts, dir).value| && Adjusted(acts, dir).value[i].priority == acts[i].priority
  {
    AdjustedMissedPlans(acts, dir, i);
  }

  /** A listed name that no plan mentions keeps reading going to the last plan. */
  lemma {:induction false} UnmentionedReadsAll(names: seq<string>, acts: seq<Activity>, sc: Scan, plans: seq<PlanFile>, name: string)
    requires Accounted(names, sc) && name in names && name !in sc.found
    requires AdjustFrom(acts, sc, plans).Some?
    requires forall p :: p in plans ==> !Mentions(FileLines(p.text), name)
    ensures ReadCount(sc, plans) == |plans| && FirstMention(plans, name) == |plans|
    decreases |plans|
  {
    if plans != [] {
      var lines := FileLines(plans[0].text);
      var next := ScanLines(sc, lines).value;
      ScanLinesFinds(names, sc, lines, name);
      assert multiset(names)[name] > 0 && multiset(next.found)[name] == 0;
      assert name in multiset(next.remaining);
      assert forall p :: p in plans[1..] ==> p in plans;
      UnmentionedReadsAll(names, Bump(acts, next.found), next, plans[1..], name);
    }
  }

  /** An activity no plan names gains one point per plan. */
  lemma UnmentionedGainsPerPlan(acts: seq<Activity>, dir: seq<PlanFile>, i: nat)
    requires i < |acts| && Adjusted(acts, dir).Some?
    requires forall p :: p in dir ==> !Mentions(FileLines(p.text), acts[i].name)
    ensures i < |Adjusted(acts, dir).value| && Adjusted(acts, dir).value[i].priority == acts[i].priority + |dir|
  {
    if dir != [] {
      var plans := NewestFirst(dir);
      assert forall p :: p in plans ==> p in multiset(dir);
      UnmentionedReadsAll(Names(acts), acts, Scan(Names(acts), []), plans, acts[i].name);
      AdjustedMissedPlans(acts, dir, i);
    }
  }

  /** adjust_priorities: reads the plans newest first, moving each named activity from remaining to found and bumping the rest after every plan. */
  method AdjustPriorities(activities: seq<Activity>, dir: seq<PlanFile>) returns (r: Option<seq<Activity>>)
    ensures r == Adjusted(activities, dir)
  {
    if |dir| == 0 {
      return Some(activities);
    }
    var plans := NewestFirst(dir);
    var all := Names(activities);
    var found: seq<string> := [];
    var acts := activities;
    var i := 0;
    while i < |plans|
      invariant 0 <= i <= |plans|
      invariant AdjustFrom(acts, Scan(all, found), plans[i..]) == Adjusted(activities, dir)
    {
      var lines := FileLines(plans[i].text);
      ghost var start := Scan(all, found);
      assert plans[i..][0] == plans[i] && plans[i..][1..] == plans[i + 1..];
      var j := 0;
      while j < |lines|
        invariant 0 <= j <= |lines|
        invariant ScanLines(Scan(all, found), lines[j..]) == ScanLines(start, lines)
      {
        assert lines[j..][0] == lines[j] && lines[j..][1..] == lines[j + 1..];
        if !HasField(lines[j]) {
          return None;
        }
        var entry := PlanEntry(lines[j]);
        if entry in all {
          found := found + [entry];
          all := RemoveFirst(all, entry);
        }
        j := j + 1;
      }
      assert lines[j..] == [];
      ghost var before := acts;
      var k := 0;
      while k < |acts|
        invariant 0 <= k <= |acts| && |acts| == |before|
        invariant forall m :: 0 <= m < k ==> acts[m] == Bump(before, found)[m]
        invariant forall m :: k <= m < |acts| ==> acts[m] == before[m]
      {
        if acts[k].name !in found {
          acts := acts[k := acts[k].(priority := acts[k].priority + 1)];
        }
        k := k + 1;
      }
      assert acts == Bump(before, found);
      if |all| == 0 {
        return Some(acts);
      }
      i := i + 1;
    }
    return Some(acts);
  }

  /** range(n) repetitions of a name: none when n is zero or negative. */
  function Repeat(name: string, n: int): (r: seq<string>)
    ensures |r| == if n > 0 then n else 0
    ensures forall j :: 0 <= j < |r| ==> r[j] == name
  {
    if n <= 0 then [] else Repeat(name, n - 1) + [name]
  }

  /** The pool get_random_activity draws from: each name repeated by its priority, in list order. */
  function Pool(acts: seq<Activity>): seq<string> {
    if acts == [] then []
    else Pool(acts[..|acts| - 1]) + Repeat(acts[|acts| - 1].name, acts[|acts| - 1].priority)
  }

  /** The total positive priority of the activities with a given name. */
  function Weight(acts: seq<Activity>, name: string): (w: nat) {
    if acts == [] then 0
    else
      var last := acts[|acts| - 1];
      Weight(acts[..|acts| - 1], name) + (if last.name == name && last.priority > 0 then last.priority else 0)
  }

  lemma RepeatCount(name: string, n: int, x: string)
    ensures multiset(Repeat(name, n))[x] == if x == name && n > 0 then n else 0
  {
    var r := Repeat(name, n);
    if x != name {
      assert x !in r;
    } else {
      assert r == seq(|r|, j => name);
      RepeatAll(name, |r|);
    }
  }

  lemma {:induction false} RepeatAll(name: string, n: nat)
    ensures multiset(seq(n, j => name))[name] == n
  {
    if n > 0 {
      RepeatAll(name, n - 1);
      assert seq(n, j => name) == seq(n - 1, j => name) + [name];
    }
  }

  /** A name appears in the pool as many times as its total positive priority: the draw is weighted by priority. */
  lemma {:induction false} PoolCount(acts: seq<Activity>, x: string)
    ensures multiset(Pool(acts))[x] == Weight(acts, x)
  {
    if acts != [] {
      var last := acts[|acts| - 1];
      PoolCount(acts[..|acts| - 1], x);
      RepeatCount(last.name, last.priority, x);
    }
  }

  /** A name is in the pool exactly when some activity of that name has a positive priority. */
  lemma {:induction false} PoolMembers(acts: seq<Activity>, x: string)
    ensures x in Pool(acts) <==> exists i :: 0 <= i < |acts| && acts[i].name == x && acts[i].priority > 0
  {
    PoolCount(acts, x);
    WeightPositive(acts, x);
  }

  lemma {:induction false} WeightPositive(acts: seq<Activity>, x: string)
    ensures Weight(acts, x) > 0 <==> exists i :: 0 <= i < |acts| && acts[i].name == x && acts[i].priority > 0
  {
    if acts != [] {
      var init := acts[..|acts| - 1];
      WeightPositive(init, x);
      if exists i :: 0 <= i < |init| && init[i].name == x && init[i].priority > 0 {
        var i :| 0 <= i < |init| && init[i].name == x && init[i].priority > 0;
        assert acts[i] == init[i];
      }
      if exists i :: 0 <= i < |acts| && acts[i].name == x && acts[i].priority > 0 {
        var i :| 0 <= i < |acts| && acts[i].name == x && acts[i].priority > 0;
        if i < |init| {
          assert init[i] == acts[i];
        }
      }
    }
  }

  /** With distinct names, an activity fills exactly as many pool entries as its priority, none if it is zero or less. */
  lemma {:induction false} DistinctWeight(acts: seq<Activity>, i: nat)
    requires i < |acts|
    requires forall a, b :: 0 <= a < b < |acts| ==> acts[a].name != acts[b].name
    ensures Weight(acts, acts[i].name) == if acts[i].priority > 0 then acts[i].priority else 0
  {
    var init := acts[..|acts| - 1];
    if i < |init| {
      assert init[i] == acts[i];
      DistinctWeight(init, i);
    } else {
      NoWeight(init, acts[i].name);
    }
  }

  lemma {:induction false} NoWeight(acts: seq<Activity>, x: string)
    requires forall i :: 0 <= i < |acts| ==> acts[i].name != x
    ensures Weight(acts, x) == 0
  {
    if acts != [] {
      NoWeight(acts[..|acts| - 1], x);
    }
  }

  /** The loop that builds the pool of choices. */
  method BuildPool(acts: seq<Activity>) returns (choices: seq<string>)
    ensures choices == Pool(acts)
  {
    choices := [];
    var i := 0;
    while i < |acts|
      invariant 0 <= i <= |acts|
      invariant choices == Pool(acts[..i])
    {
      var name, priority := acts[i].name, acts[i].priority;
      assert acts[..i + 1][..i] == acts[..i];
      var j := 0;
      while j < priority
        invariant 0 <= j && (if priority > 0 then j <= priority else j == 0)
        invariant choices == Pool(acts[..i]) + Repeat(name, j)
      {
        choices := choices + [name];
        j := j + 1;
      }
      assert Repeat(name, j) == Repeat(name, priority);
      assert Pool(acts[..i + 1]) == Pool(acts[..i]) + Repeat(name, priority);
      i := i + 1;
    }
    assert acts[..i] == acts;
  }

  /** What asking for a random activity ends in. */
  datatype Outcome =
    | Chosen(name: string)
    | UnreadableActivities(error: ParseError)  // read_activities raised
    | UnreadablePlan                           // a plan line without ':' raised
    | NothingToChoose                          // random.choice on an empty pool raised

  /** get_random_activity for the activities file text, the plans directory and the pool index drawn. */
  function RandomActivity(text: string, dir: seq<PlanFile>, draw: nat): Outcome {
    match Decode(text)
    case Err(e) => UnreadableActivities(e)
    case Ok(acts) =>
      match Adjusted(acts, dir)
      case None => UnreadablePlan
      case Some(adjusted) =>
        var pool := Pool(adjusted);
        if pool == [] then NothingToChoose else Chosen(pool[draw % |pool|])
  }

  /** get_random_activity. */
  method GetRandomActivity(text: string, dir: seq<PlanFile>, draw: nat) returns (o: Outcome)
    ensures o == RandomActivity(text, dir, draw)
  {
    var read := ReadActivities(text);
    if read.Err? {
      return UnreadableActivities(read.error);
    }
    var adjusted := AdjustPriorities(read.value, dir);
    if adjusted.None? {
      return UnreadablePlan;
    }
    var choices := BuildPool(adjusted.value);
    if |choices| == 0 {
      return NothingToChoose;
    }
    return Chosen(choices[draw % |choices|]);
  }

  /**
   * A drawn name belongs to an activity of the file whose adjusted priority
   * is positive, and nothing can be drawn exactly when no adjusted priority
   * is positive.
   */
  lemma RandomActivityChoosesWeighted(text: string, dir: seq<PlanFile>, draw: nat)
    requires Decode(text).Ok? && Adjusted(Decode(text).value, dir).Some?
    ensures var acts, adjusted := Decode(text).value, Adjusted(Decode(text).value, dir).value;
      && |adjusted| == |acts|
      && (RandomActivity(text, dir, draw).Chosen? ==>
            exists i :: 0 <= i < |acts| && acts[i].name == RandomActivity(text, dir, draw).name && adjusted[i].priority > 0)
      && (RandomActivity(text, dir, draw) == NothingToChoose <==>
            forall i :: 0 <= i < |adjusted| ==> adjusted[i].priority <= 0)
  {
    var acts, adjusted := Decode(text).value, Adjusted(Decode(text).value, dir).value;
    AdjustedShape(acts, dir);
    var pool := Pool(adjusted);
    if pool != [] {
      var x := pool[draw % |pool|];
      PoolMembers(adjusted, x);
      var i :| 0 <= i < |adjusted| && adjusted[i].name == x && adjusted[i].priority > 0;
      assert acts[i].name == x;
    } else {
      forall i | 0 <= i < |adjusted| ensures adjusted[i].priority <= 0 {
        PoolMembers(adjusted, adjusted[i].name);
      }
    }
  }

  /** The line "Monday: X\n" is one line that names X. */
  lemma MondayLine(text: string)
    requires text == "Monday: X\n"
    ensures FileLines(text) == [text]
    ensures HasField(text) && PlanEntry(text) == "X"
  {
    assert IsLine(text) by {
      assert text[..|text| - 1] == "Monday: X";
    }
    FileLinesConcat([text]);
    assert Concat([text]) == text + Concat([]);
    assert text == "Monday" + ": " + "X" + "\n";
    PlanEntryOfDayLine("Monday", "X");
  }

  /** A plan of one line that has a ':' reads that line's entry. */
  lemma ScanOneLine(sc: Scan, line: string)
    requires HasField(line)
    ensures ScanLines(sc, [line]) == Some(ScanEntry(sc, PlanEntry(line)))
  {
    assert [line][1..] == [];
  }

  /** Reading a single plan that leaves some name unfound: every unfound activity gains one point. */
  lemma AdjustOnePlan(acts: seq<Activity>, sc: Scan, plan: PlanFile, next: Scan)
    requires ScanLines(sc, FileLines(plan.text)) == Some(next) && next.remaining != []
    ensures AdjustFrom(acts, sc, [plan]) == Some(Bump(acts, next.found))
  {
    assert [plan][1..] == [];
  }

  /** Two activities of priority 1 and one plan that names only the first: the second gains a point. */
  lemma OnePlanExample(acts: seq<Activity>, plan: PlanFile)
    requires acts == [Activity("X", 1), Activity("Y", 1)]
    requires plan == PlanFile("week_plan_2024-01-01.txt", "Monday: X\n")
    ensures Adjusted(acts, [plan]) == Some([Activity("X", 1), Activity("Y", 2)])
  {
    assert NewestFirst([plan]) == [plan];
    assert Names(acts) == ["X", "Y"];
    var start, next := Scan(["X", "Y"], []), Scan(["Y"], ["X"]);
    MondayLine(plan.text);
    ScanEntryExample(start, "X");
    ScanOneLine(start, plan.text);
    AdjustOnePlan(acts, start, plan, next);
    BumpExample(acts, next.found);
  }

  lemma ScanEntryExample(sc: Scan, entry: string)
    requires sc == Scan(["X", "Y"], []) && entry == "X"
    ensures ScanEntry(sc, entry) == Scan(["Y"], ["X"])
  {
    assert IndexOf(sc.remaining, entry) == 0;
    assert sc.remaining[1..] == ["Y"];
  }

  lemma BumpExample(acts: seq<Activity>, found: seq<string>)
    requires acts == [Activity("X", 1), Activity("Y", 1)] && found == ["X"]
    ensures Bump(acts, found) == [Activity("X", 1), Activity("Y", 2)]
  {
    var r := Bump(acts, found);
    assert "Y" !in found;
    assert r[0] == Activity("X", 1) && r[1] == Activity("Y", 2);
  }

  /** The file written for Reading (1) and Gaming (3). */
  lemma ReadingGamingText(acts: seq<Activity>)
    requires acts == [Activity("Reading", 1), Activity("Gaming", 3)]
    ensures Encode(acts) == "Reading,1\nGaming,3\n"
  {
    assert IntToString(1) == "1" && IntToString(3) == "3";
    var l0, l1 := FormatLine(acts[0]), FormatLine(acts[1]);
    assert l0 == "Reading,1\n" && l1 == "Gaming,3\n";
    assert FormatLines(acts) == [l0, l1];
    assert Concat([l0, l1]) == l0 + Concat([l1]);
    assert Concat([l1]) == l1 + Concat([]);
  }

  /** The pool for Reading (1) and Gaming (3). */
  lemma ReadingGamingPool(acts: seq<Activity>)
    requires acts == [Activity("Reading", 1), Activity("Gaming", 3)]
    ensures Pool(acts) == ["Reading", "Gaming", "Gaming", "Gaming"]
  {
    assert acts[..1] == [Activity("Reading", 1)];
    assert acts[..1][..0] == [];
    assert Pool(acts[..1]) == ["Reading"];
    assert Repeat("Gaming", 3) == ["Gaming", "Gaming", "Gaming"];
  }

  /** Drawing from the pool Reading, Gaming, Gaming, Gaming. */
  lemma ReadingGamingDraw(pool: seq<string>, draw: nat)
    requires pool == ["Reading", "Gaming", "Gaming", "Gaming"]
    ensures pool[draw % |pool|] == if draw % 4 == 0 then "Reading" else "Gaming"
  {
    var k := draw % 4;
    assert k == 0 || k == 1 || k == 2 || k == 3;
  }

  /** The activities file "Reading,1\nGaming,3\n" with no plans: the pool is Reading once and Gaming three times. */
  lemma ReadingGamingExample(text: string, draw: nat)
    requires text == "Reading,1\nGaming,3\n"
    ensures Decode(text) == Ok([Activity("Reading", 1), Activity("Gaming", 3)])
    ensures Pool(Decode(text).value) == ["Reading", "Gaming", "Gaming", "Gaming"]
    ensures RandomActivity(text, [], draw) == Chosen(if draw % 4 == 0 then "Reading" else "Gaming")
  {
    var acts := [Activity("Reading", 1), Activity("Gaming", 3)];
    ReadingGamingText(acts);
    DecodeEncode(acts);
    ReadingGamingPool(acts);
    ReadingGamingDraw(Pool(acts), draw);
  }
}
