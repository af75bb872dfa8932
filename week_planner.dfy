/**
 * The week planner screen: a label and a combobox of activity names for
 * each day of the week, a button that fills every combobox with a random
 * activity, and a button that exports the plan as one "Day: activity" line
 * per combobox, the text later read back when priorities are adjusted.
 */
module WeekPlanner {
  import opened Options
  import opened Text
  import opened Components
  import opened Plans
  import opened Activities
  import opened Scheduler

  /** calendar.day_name, fixed to English. */
  const DAY_NAMES: seq<string> := ["Monday", "Tuesday", "Wednesday", "Thursday", "Friday", "Saturday", "Sunday"]

  /** The day written before the k-th combobox's value: Monday onwards, and Sunday again once the days run out. */
  function DayOf(k: nat): (day: string)
    ensures day in DAY_NAMES
  {
    DAY_NAMES[if k < 6 then k else 6]
  }

  /** No day name holds a ':' or a line break. */
  lemma DayNamesPlain(k: nat)
    ensures ':' !in DayOf(k) && '\n' !in DayOf(k)
  {
    var d := if k < 6 then k else 6;
    assert d in {0, 1, 2, 3, 4, 5, 6};
  }

  /** The line export_plan writes for a day and the value chosen for it. */
  function DayLine(day: string, value: string): string {
    day + ": " + value + "\n"
  }

  /** The lines of a plan whose comboboxes show these values, in order. */
  function PlanLines(values: seq<string>): (lines: seq<string>)
    ensures |lines| == |values|
  {
    seq(|values|, j requires 0 <= j < |values| => DayLine(DayOf(j), values[j]))
  }

  lemma PlanLinesSnoc(values: seq<string>, v: string)
    ensures PlanLines(values + [v]) == PlanLines(values) + [DayLine(DayOf(|values|), v)]
  {
  }

  /** The text of the plan file. */
  function PlanText(values: seq<string>): string {
    Concat(PlanLines(values))
  }

  /** The kinds of a container's widgets, in order. */
  function Kinds(cs: seq<Widget>): (ks: seq<Kind>)
    ensures |ks| == |cs|
    ensures forall i :: 0 <= i < |cs| ==> ks[i] == cs[i].kind
  {
    seq(|cs|, i requires 0 <= i < |cs| => cs[i].kind)
  }

  /** Every combobox's index picks one of its items, so reading the shown value cannot raise. */
  predicate Exportable(ks: seq<Kind>) {
    forall i :: 0 <= i < |ks| && ks[i].Combobox? ==> 0 <= ks[i].index < |ks[i].items|
  }

  /** The values the comboboxes show, in widget order. */
  function Values(ks: seq<Kind>): seq<string>
    requires Exportable(ks)
  {
    if ks == [] then []
    else
      var k := ks[|ks| - 1];
      Values(ks[..|ks| - 1]) + (if k.Combobox? then [k.items[k.index]] else [])
  }

  /** How many comboboxes there are. */
  function ComboCount(ks: seq<Kind>): nat {
    if ks == [] then 0
    else ComboCount(ks[..|ks| - 1]) + (if ks[|ks| - 1].Combobox? then 1 else 0)
  }

  /** There is one value per combobox, and the j-th value is what the j-th combobox shows. */
  lemma {:induction false} ValuesAreShown(ks: seq<Kind>, i: nat)
    requires Exportable(ks) && i < |ks| && ks[i].Combobox?
    ensures |Values(ks)| == ComboCount(ks)
    ensures ComboCount(ks[..i]) < |Values(ks)| && Values(ks)[ComboCount(ks[..i])] == ks[i].items[ks[i].index]
  {
    var init := ks[..|ks| - 1];
    assert Exportable(init);
    if i == |ks| - 1 {
      assert ks[..i] == init;
      ValuesCount(init);
    } else {
      ValuesAreShown(init, i);
      assert init[..i] == ks[..i];
    }
  }

  lemma {:induction false} ValuesCount(ks: seq<Kind>)
    requires Exportable(ks)
    ensures |Values(ks)| == ComboCount(ks)
  {
    if ks != [] {
      var init := ks[..|ks| - 1];
      assert Exportable(init);
      ValuesCount(init);
    }
  }

  /**
   * export_plan's loop: one line per combobox, in widget order, headed by
   * Monday, Tuesday, ... and Sunday for every combobox after the seventh.
   */
  method PlanOf(components: seq<Widget>) returns (plan: string)
    requires Exportable(Kinds(components))
    ensures plan == PlanText(Values(Kinds(components)))
  {
    ghost var ks := Kinds(components);
    plan := "";
    var day := 0;
    ghost var count := 0;
    var x := 0;
    while x < |components|
      invariant 0 <= x <= |components|
      invariant Exportable(ks[..x])
      invariant count == |Values(ks[..x])|
      invariant day == if count < 6 then count else 6
      invariant plan == PlanText(Values(ks[..x]))
    {
      assert ks[..x + 1][..x] == ks[..x];
      var k := components[x].kind;
      if k.Combobox? {
        var value := k.items[k.index];
        assert Values(ks[..x + 1]) == Values(ks[..x]) + [value];
        assert DAY_NAMES[day] == DayOf(count);
        PlanLinesSnoc(Values(ks[..x]), value);
        ConcatSnoc(PlanLines(Values(ks[..x])), DayLine(DAY_NAMES[day], value));
        plan := plan + DayLine(DAY_NAMES[day], value);
        if day < 6 {
          day := day + 1;
        }
        count := count + 1;
      } else {
        assert Values(ks[..x + 1]) == Values(ks[..x]);
      }
      x := x + 1;
    }
    assert ks[..x] == ks;
  }

  /** export_plan: the plan file for the given date (YYYY-MM-DD), holding the comboboxes' plan. */
  method ExportPlan(c: Container, date: string) returns (file: PlanFile)
    requires Exportable(Kinds(c.components))
    ensures file.name == "week_plan_" + date + ".txt"
    ensures file.text == PlanText(Values(Kinds(c.components)))
  {
    var plan := PlanOf(c.components);
    file := PlanFile("week_plan_" + date + ".txt", plan);
  }

  /** A value the plan reader recovers unchanged: no ':' or line break, and no surrounding whitespace. */
  predicate Plain(value: string) {
    ':' !in value && '\n' !in value && Trimmed(value)
  }

  /**
   * Reading an exported plan back: it splits into one line per combobox,
   * and each line names the value its combobox showed.
   */
  lemma PlanReadsBack(values: seq<string>)
    requires forall j :: 0 <= j < |values| ==> Plain(values[j])
    ensures FileLines(PlanText(values)) == PlanLines(values)
    ensures forall j :: 0 <= j < |values| ==> HasField(PlanLines(values)[j]) && PlanEntry(PlanLines(values)[j]) == values[j]
  {
    var lines := PlanLines(values);
    forall j | 0 <= j < |values|
      ensures IsLine(lines[j]) && HasField(lines[j]) && PlanEntry(lines[j]) == values[j]
    {
      DayNamesPlain(j);
      DayLineIsLine(DayOf(j), values[j]);
      PlanEntryOfDayLine(DayOf(j), values[j]);
    }
    FileLinesConcat(lines);
  }

  lemma DayLineIsLine(day: string, value: string)
    requires '\n' !in day && '\n' !in value
    ensures IsLine(DayLine(day, value))
  {
    var l := DayLine(day, value);
    assert l[..|l| - 1] == day + ": " + value;
  }

  // ---------------------------------------------------------------------
  // The screen's layout

  /** The widgets of the week planner screen for the given activity names. */
  function PlannerKinds(labels: seq<string>): seq<Kind> {
    [Label("Welcome to Week Planner!")] + DayWidgets(DAY_NAMES, labels) +
    [Button("Randomise!", Randomise), Button("Export Plan", Action.ExportPlan), Button("Back", Back)]
  }

  /** A label and a combobox of the activity names per day. */
  function DayWidgets(days: seq<string>, labels: seq<string>): (ks: seq<Kind>)
    ensures |ks| == 2 * |days|
  {
    if days == [] then []
    else DayWidgets(days[..|days| - 1], labels) + [Label(days[|days| - 1]), Combobox(labels, 0)]
  }

  /** The day widgets hold one combobox per day, each showing the first name. */
  lemma {:induction false} DayWidgetsValues(days: seq<string>, labels: seq<string>)
    requires |labels| >= 1
    ensures Exportable(DayWidgets(days, labels))
    ensures Values(DayWidgets(days, labels)) == seq(|days|, _ => labels[0])
  {
    if days != [] {
      var init := days[..|days| - 1];
      DayWidgetsValues(init, labels);
      var ks := DayWidgets(days, labels);
      var prev := DayWidgets(init, labels);
      assert ks == prev + [Label(days[|days| - 1]), Combobox(labels, 0)];
      assert ks[..|ks| - 1] == prev + [Label(days[|days| - 1])];
      assert ks[..|ks| - 1][..|ks| - 2] == prev;
    }
  }

  lemma ValuesAppend(a: seq<Kind>, b: seq<Kind>)
    requires Exportable(a) && Exportable(b)
    ensures Exportable(a + b) && Values(a + b) == Values(a) + Values(b)
    decreases |b|
  {
    if b != [] {
      var init := b[..|b| - 1];
      assert (a + b)[..|a + b| - 1] == a + init;
      assert (a + b)[|a + b| - 1] == b[|b| - 1];
      assert Exportable(init);
      ValuesAppend(a, init);
    } else {
      assert a + b == a;
    }
  }

  /**
   * A fresh week planner shows the first activity on each of the seven
   * days: exporting it at once writes seven lines, Monday to Sunday.
   */
  lemma FreshPlannerPlan(labels: seq<string>)
    requires |labels| >= 1
    ensures Exportable(PlannerKinds(labels))
    ensures Values(PlannerKinds(labels)) == seq(7, _ => labels[0])
    ensures |PlanLines(Values(PlannerKinds(labels)))| == 7
  {
    var head: seq<Kind> := [Label("Welcome to Week Planner!")];
    var days := DayWidgets(DAY_NAMES, labels);
    var tail: seq<Kind> := [Button("Randomise!", Randomise), Button("Export Plan", Action.ExportPlan), Button("Back", Back)];
    DayWidgetsValues(DAY_NAMES, labels);
    assert Values(head) == [] by {
      assert head[..0] == [];
    }
    assert Values(tail) == [] by {
      assert tail[..2][..1][..0] == [];
      assert tail[..2] == tail[..|tail| - 1];
    }
    ValuesAppend(head, days);
    ValuesAppend(head + days, tail);
  }

  /** StateWeekPlanner's constructor: the screen's widgets, added one by one. */
  method NewPlanner(labels: seq<string>) returns (c: Container)
    ensures fresh(c) && c.Valid()
    ensures c.components == Built(PlannerKinds(labels))
  {
    c := new Container();
    var kinds := PlannerKinds(labels);
    var x := 0;
    while x < |kinds|
      invariant 0 <= x <= |kinds|
      invariant c.Valid() && c.components == Built(kinds[..x])
    {
      assert kinds[..x + 1][..x] == kinds[..x];
      c.AddComponent(kinds[x]);
      x := x + 1;
    }
    assert kinds[..x] == kinds;
  }

  // ---------------------------------------------------------------------
  // Randomising

  /** How many comboboxes come before widget i: the i-th combobox takes drawn name number Slot(cs, i). */
  function Slot(cs: seq<Widget>, i: nat): nat
    requires i <= |cs|
  {
    ComboCount(Kinds(cs)[..i])
  }

  lemma SlotStep(cs: seq<Widget>, i: nat)
    requires i < |cs|
    ensures Slot(cs, i + 1) == Slot(cs, i) + (if cs[i].kind.Combobox? then 1 else 0)
  {
    assert Kinds(cs)[..i + 1][..i] == Kinds(cs)[..i];
  }

  /** Every combobox has a drawn name to take, and the name is among its items. */
  predicate Drawable(cs: seq<Widget>, choices: seq<string>) {
    forall i :: 0 <= i < |cs| && cs[i].kind.Combobox? ==>
      Slot(cs, i) < |choices| && choices[Slot(cs, i)] in cs[i].kind.items
  }

  /** The widget after randomising: a combobox moves to the first of its items equal to its drawn name. */
  function Redrawn(w: Widget, choice: string): Widget
    requires w.kind.Combobox? && choice in w.kind.items
  {
    w.(kind := w.kind.(index := IndexOf(w.kind.items, choice)))
  }

  /** The widgets after each combobox, in order, takes the next drawn name. */
  function Randomised(cs: seq<Widget>, choices: seq<string>): (r: seq<Widget>)
    requires Drawable(cs, choices)
    ensures |r| == |cs|
  {
    seq(|cs|, i requires 0 <= i < |cs| =>
      if cs[i].kind.Combobox? then Redrawn(cs[i], choices[Slot(cs, i)]) else cs[i])
  }

  /** Randomising keeps every widget, its selection and every kind but the comboboxes' indices. */
  lemma RandomisedKeeps(cs: seq<Widget>, choices: seq<string>)
    requires Drawable(cs, choices)
    ensures var r := Randomised(cs, choices);
      && (forall i :: 0 <= i < |cs| ==> r[i].selected == cs[i].selected)
      && (forall i :: 0 <= i < |cs| && !cs[i].kind.Combobox? ==> r[i] == cs[i])
      && (forall i :: 0 <= i < |cs| && cs[i].kind.Combobox? ==> r[i].kind.Combobox? && r[i].kind.items == cs[i].kind.items)
  {
  }

  /** The comboboxes then show the drawn names, one each, in order. */
  lemma {:induction false} RandomisedShows(cs: seq<Widget>, choices: seq<string>)
    requires Drawable(cs, choices)
    ensures ComboCount(Kinds(cs)) <= |choices|
    ensures Exportable(Kinds(Randomised(cs, choices)))
    ensures Values(Kinds(Randomised(cs, choices))) == choices[..ComboCount(Kinds(cs))]
  {
    var r := Randomised(cs, choices);
    if cs != [] {
      var n := |cs| - 1;
      var init := cs[..n];
      assert Drawable(init, choices) by {
        forall i | 0 <= i < n ensures Slot(init, i) == Slot(cs, i) {
          assert Kinds(init)[..i] == Kinds(cs)[..i];
        }
      }
      RandomisedShows(init, choices);
      RandomisedPrefix(cs, choices);
      assert Kinds(cs)[..n] == Kinds(init);
      assert Kinds(r)[..n] == Kinds(r[..n]);
      assert Kinds(cs)[..n + 1] == Kinds(cs);
      SlotStep(cs, n);
      var m := Slot(cs, n);
      if cs[n].kind.Combobox? {
        assert choices[..m + 1] == choices[..m] + [choices[m]];
      }
    }
  }

  /** Randomising a prefix gives the prefix of the randomised widgets. */
  lemma RandomisedPrefix(cs: seq<Widget>, choices: seq<string>)
    requires Drawable(cs, choices) && |cs| >= 1
    ensures Drawable(cs[..|cs| - 1], choices)
    ensures Randomised(cs, choices)[..|cs| - 1] == Randomised(cs[..|cs| - 1], choices)
  {
    var init := cs[..|cs| - 1];
    forall i | 0 <= i < |init| ensures Slot(init, i) == Slot(cs, i) {
      assert Kinds(init)[..i] == Kinds(cs)[..i];
    }
  }

  /** Randomising keeps the container's invariant. */
  lemma RandomisedWellFormed(cs: seq<Widget>, choices: seq<string>)
    requires WellFormed(cs) && Drawable(cs, choices)
    ensures WellFormed(Randomised(cs, choices))
  {
    RandomisedKeeps(cs, choices);
  }

  /**
   * randomise_activities: each combobox in turn gets the next drawn name
   * (the name get_random_activity returned for it) and moves its index to
   * that name's first place among its items.
   */
  method RandomiseActivities(c: Container, choices: seq<string>)
    requires c.Valid() && Drawable(c.components, choices)
    modifies c
    ensures c.Valid()
    ensures c.components == Randomised(old(c.components), choices)
  {
    ghost var before := c.components;
    ghost var target := Randomised(before, choices);
    var k := 0;
    var x := 0;
    while x < |c.components|
      invariant 0 <= x <= |c.components| == |before|
      invariant k == Slot(before, x)
      invariant forall y :: 0 <= y < x ==> c.components[y] == target[y]
      invariant forall y :: x <= y < |before| ==> c.components[y] == before[y]
    {
      SlotStep(before, x);
      var w := c.components[x];
      if w.kind.Combobox? {
        var index := IndexOf(w.kind.items, choices[k]);
        c.components := c.components[x := w.(kind := w.kind.(index := index))];
        k := k + 1;
      }
      x := x + 1;
    }
    RandomisedWellFormed(before, choices);
  }

  // ---------------------------------------------------------------------
  // How the screen's actions meet the scheduler

  /** A name get_random_activity returns is an activity of the file, so a combobox listing the activities' names can take it. */
  lemma DrawnNameIsListed(text: string, dir: seq<PlanFile>, draw: nat)
    requires Decode(text).Ok? && RandomActivity(text, dir, draw).Chosen?
    ensures RandomActivity(text, dir, draw).name in Names(Decode(text).value)
  {
    var acts := Decode(text).value;
    RandomActivityChoosesWeighted(text, dir, draw);
    var i :| 0 <= i < |acts| && acts[i].name == RandomActivity(text, dir, draw).name;
    assert Names(acts)[i] == acts[i].name;
  }

  /**
   * Randomising the week planner and exporting it writes the first seven
   * drawn names, one per day from Monday to Sunday.
   */
  lemma RandomisedPlannerPlan(labels: seq<string>, choices: seq<string>)
    requires |labels| >= 1 && Drawable(Built(PlannerKinds(labels)), choices)
    ensures |choices| >= 7
    ensures PlanText(Values(Kinds(Randomised(Built(PlannerKinds(labels)), choices)))) == PlanText(choices[..7])
  {
    var kinds := PlannerKinds(labels);
    var cs := Built(kinds);
    BuiltSelectsFirstSelectable(kinds);
    assert Kinds(cs) == kinds;
    FreshPlannerPlan(labels);
    ValuesCount(kinds);
    RandomisedShows(cs, choices);
  }

  /**
   * A plan exported with plain values is read back line by line: when it is
   * the newest plan, every activity it names keeps its priority.
   */
  lemma ExportedNamesKeepPriority(acts: seq<Activity>, dir: seq<PlanFile>, values: seq<string>, i: nat)
    requires dir != [] && i < |acts| && Adjusted(acts, dir).Some?
    requires NewestFirst(dir)[0].text == PlanText(values)
    requires forall j :: 0 <= j < |values| ==> Plain(values[j])
    requires acts[i].name in values
    ensures i < |Adjusted(acts, dir).value| && Adjusted(acts, dir).value[i].priority == acts[i].priority
  {
    PlanReadsBack(values);
    var j :| 0 <= j < |values| && values[j] == acts[i].name;
    assert HasField(PlanLines(values)[j]) && PlanEntry(PlanLines(values)[j]) == acts[i].name;
    NewestPlanKeepsPriority(acts, dir, i);
  }
}
