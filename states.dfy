/**
 * The screens and the navigation history between them.
 *
 * Every screen, as it is constructed, is appended to one shared history.
 * A screen asks to move on by recording the screen to show next; the main
 * loop collects that screen with update, which also runs the screen's
 * on_regress hook whenever the screen handed back is the top of the
 * history. Going back pops the history and asks for the new top. Because
 * a button constructs its target screen (appending it) before asking for
 * it, the hook runs on forward moves as well as on going back.
 *
 * The edit-activities screen shows a list menu of the activity names with
 * "Back" appended, refreshed by its hook; the edit-activity and
 * new-activity screens delete, re-prioritise and append activities and
 * write the list back.
 */
module States {
  import opened Options
  import opened Text
  import opened Components
  import opened MenuLists
  import opened Activities
  import opened Scheduler

  /** The screens of the program. */
  datatype ScreenKind =
    | MainScreen | WeekPlannerScreen | RandomActivityScreen | ConfigScreen
    | EditActivitiesScreen | WeekConfigScreen | EditActivityScreen | NewActivityScreen

  /** state_history: the screens constructed and not yet popped, oldest first. */
  class History {
    var states: seq<Screen>

    constructor ()
      ensures states == []
    {
      states := [];
    }
  }

  class Screen {
    const kind: ScreenKind
    /** The list menu, which only the edit-activities screen has. */
    const menu: MenuList?
    var nextState: Screen?
    /** How many times on_regress has run on this screen. */
    ghost var regressions: nat

    ghost predicate Valid()
      reads this, menu
    {
      kind == EditActivitiesScreen <==> menu != null
    }

    /**
     * State.__init__ (and, for the edit-activities screen,
     * create_list_menu over the names read from the activities file): the
     * new screen goes on top of the history and asks for nothing yet.
     */
    constructor (h: History, kind: ScreenKind, names: seq<string>)
      modifies h
      ensures Valid() && this.kind == kind
      ensures h.states == old(h.states) + [this]
      ensures nextState == null && regressions == 0
      ensures menu != null ==>
        && fresh(menu) && menu.Valid() && menu.items == MenuItems(names) && menu.functions == MenuFunctions(names)
        && menu.selected == 0 && menu.offset == 0 && menu.menuTitle == Some(EDIT_ACTIVITIES_TITLE)
    {
      this.kind := kind;
      if kind == EditActivitiesScreen {
        var m := CreateListMenu(names);
        this.menu := m;
      } else {
        this.menu := null;
      }
      nextState := null;
      regressions := 0;
      new;
      h.states := h.states + [this];
    }

    /** advance_state: the given screen is the one to show next. */
    method AdvanceState(s: Screen)
      modifies this
      ensures nextState == s && regressions == old(regressions)
    {
      nextState := s;
    }

    /** regress_state: pop the top of the history and ask for the screen now on top. */
    method RegressState(h: History)
      requires |h.states| >= 2
      modifies this, h
      ensures h.states == old(h.states[..|h.states| - 1])
      ensures nextState == h.states[|h.states| - 1] && regressions == old(regressions)
    {
      h.states := h.states[..|h.states| - 1];
      nextState := h.states[|h.states| - 1];
    }

    /** on_regress: nothing, except that the edit-activities screen refreshes its list menu from the current names. */
    method OnRegress(names: seq<string>)
      requires Valid()
      modifies this, menu
      ensures nextState == old(nextState)
      ensures regressions == old(regressions) + 1
      ensures menu != null ==>
        && menu.items == MenuItems(names) && menu.functions == MenuFunctions(names)
        && menu.selected == Refreshed(old(menu.selected)) && menu.offset == old(menu.offset)
        && (old(menu.Valid()) && old(menu.selected) < |names| + 2 ==> menu.Valid())
    {
      regressions := regressions + 1;
      if menu != null {
        UpdateListMenu(menu, names);
      }
    }

    /**
     * update: hand back the screen asked for, at most once, and run its
     * on_regress hook when it is the top of the history. The names are the
     * activity names the hook would read from the activities file.
     */
    method Update(h: History, names: seq<string>) returns (r: Screen?)
      requires nextState != null ==> |h.states| >= 1 && nextState.Valid()
      modifies this, nextState, if nextState != null && nextState.menu != null then {nextState.menu} else {}
      ensures r == old(nextState) && nextState == null
      ensures r != null ==> r.regressions == old(r.regressions) + (if r == h.states[|h.states| - 1] then 1 else 0)
      ensures r != null && r != this ==> r.nextState == old(r.nextState)
      ensures r != this ==> regressions == old(regressions)
      ensures r != null && r.menu != null ==>
        if r == h.states[|h.states| - 1] then
          && r.menu.items == MenuItems(names) && r.menu.functions == MenuFunctions(names)
          && r.menu.selected == Refreshed(old(r.menu.selected)) && r.menu.offset == old(r.menu.offset)
        else
          && r.menu.items == old(r.menu.items) && r.menu.functions == old(r.menu.functions)
          && r.menu.selected == old(r.menu.selected) && r.menu.offset == old(r.menu.offset)
    {
      if nextState != null {
        var regressing := false;
        if h.states[|h.states| - 1] == nextState {
          regressing := true;
        }
        var state := nextState;
        nextState := null;
        if regressing {
          state.OnRegress(names);
        }
        return state;
      }
      return null;
    }
  }

  /** A button that opens another screen: the target is constructed, which puts it on the history, and then asked for. */
  method Open(h: History, from: Screen, kind: ScreenKind, names: seq<string>) returns (target: Screen)
    modifies h, from
    ensures fresh(target) && target.Valid() && target.kind == kind && target.nextState == null && target.regressions == 0
    ensures target.menu != null ==> fresh(target.menu)
    ensures h.states == old(h.states) + [target]
    ensures from.nextState == target && from.regressions == old(from.regressions)
  {
    target := new Screen(h, kind, names);
    from.AdvanceState(target);
  }

  /**
   * Opening a screen and going back: update hands over the new screen and
   * runs its on_regress hook although the move was forward; going back
   * from it hands over the very screen that opened it (not a copy), runs
   * its hook, and leaves the history as it was.
   */
  method ForwardAndBack(names: seq<string>) returns (first: Screen, second: Screen, shown: Screen?, back: Screen?, history: seq<Screen>)
    ensures shown == second && back == first
    ensures history == [first]
    ensures second.regressions == 1 && first.regressions == 1
    ensures first.nextState == null && second.nextState == null
  {
    var h := new History();
    first := new Screen(h, MainScreen, names);
    second := Open(h, first, ConfigScreen, names);
    shown := first.Update(h, names);
    second.RegressState(h);
    back := second.Update(h, names);
    history := h.states;
  }

  /**
   * The same round trip from any screen on top of a history: the screen
   * that opened the new one is handed back, its on_regress hook has run
   * once more, and the history is as it was before the button was pressed.
   */
  method ForwardAndBackFrom(h: History, first: Screen, kind: ScreenKind, names: seq<string>) returns (second: Screen, shown: Screen?, back: Screen?)
    requires |h.states| >= 1 && h.states[|h.states| - 1] == first
    requires first.Valid() && first.nextState == null
    modifies h, first, first.menu
    ensures fresh(second) && second.kind == kind && second.regressions == 1
    ensures shown == second && back == first
    ensures h.states == old(h.states)
    ensures first.nextState == null && first.regressions == old(first.regressions) + 1
    ensures first.menu != null ==>
      && first.menu.items == MenuItems(names) && first.menu.functions == MenuFunctions(names)
      && first.menu.selected == Refreshed(old(first.menu.selected)) && first.menu.offset == old(first.menu.offset)
  {
    second := Open(h, first, kind, names);
    shown := first.Update(h, names);
    second.RegressState(h);
    back := second.Update(h, names);
  }

  // ---------------------------------------------------------------------
  // The edit-activities list menu

  const EDIT_ACTIVITIES_TITLE := "Welcome to Edit Activities!"

  /** The entries: the activity names, then "Back". */
  function MenuItems(names: seq<string>): (items: seq<string>)
    ensures |items| == |names| + 1
  {
    names + ["Back"]
  }

  /** The actions: edit the named activity for each name, then go back. */
  function MenuFunctions(names: seq<string>): (fs: seq<Action>)
    ensures |fs| == |names| + 1
  {
    seq(|names|, i requires 0 <= i < |names| => EditActivity(names[i])) + [Back]
  }

  /** Each entry's action edits the activity it shows, and the last entry goes back. */
  lemma MenuEntriesMatch(names: seq<string>)
    ensures var items, fs := MenuItems(names), MenuFunctions(names);
      && (forall i :: 0 <= i < |names| ==> items[i] == names[i] && fs[i] == EditActivity(items[i]))
      && items[|names|] == "Back" && fs[|names|] == Back
  {
  }

  /**
   * Escape in the list menu runs the action of the first "Back" entry: it
   * goes back, unless an activity is itself named "Back", which is then
   * opened for editing instead.
   */
  lemma EscapeAction(names: seq<string>)
    ensures "Back" in MenuItems(names)
    ensures MenuFunctions(names)[IndexOf(MenuItems(names), "Back")] ==
      if "Back" in names then EditActivity("Back") else Back
  {
    var items := MenuItems(names);
    assert items[|names|] == "Back";
    var i := IndexOf(items, "Back");
    if "Back" in names {
      var j :| 0 <= j < |names| && names[j] == "Back";
      assert items[j] == "Back";
      assert i <= j;
    } else {
      assert forall j :: 0 <= j < |names| ==> items[j] != "Back";
    }
  }

  /** create_list_menu: a list menu over the names and "Back", titled. */
  method CreateListMenu(names: seq<string>) returns (m: MenuList)
    ensures fresh(m) && m.Valid()
    ensures m.items == MenuItems(names) && m.functions == MenuFunctions(names)
    ensures m.selected == 0 && m.offset == 0 && m.menuTitle == Some(EDIT_ACTIVITIES_TITLE)
  {
    var items := names + ["Back"];
    var functions := seq(|names|, i requires 0 <= i < |names| => EditActivity(names[i])) + [Back];
    m := new MenuList(items, functions, Some(EDIT_ACTIVITIES_TITLE));
  }

  /** The selection after a refresh: one entry up, unless it is already the first. */
  function Refreshed(selected: int): (r: int)
    ensures selected > 0 ==> r == selected - 1
    ensures selected <= 0 ==> r == selected
  {
    if selected > 0 then selected - 1 else selected
  }

  /**
   * After one activity is deleted the selection, which was inside the
   * longer list, is inside the new one, and the entry it was on moved up by
   * one unless it was the first.
   */
  lemma RefreshedAfterDelete(selected: int, names: seq<string>)
    requires 0 <= selected < |names| + 2
    ensures 0 <= Refreshed(selected) < |MenuItems(names)|
  {
  }

  /** update_list_menu: new entries and actions from the current names, the selection moved up one unless at the top. */
  method UpdateListMenu(m: MenuList, names: seq<string>)
    modifies m
    ensures m.items == MenuItems(names) && m.functions == MenuFunctions(names)
    ensures m.selected == Refreshed(old(m.selected))
    ensures m.offset == old(m.offset) && m.menuTitleHeight == old(m.menuTitleHeight)
    ensures old(m.Valid()) && old(m.selected) < |names| + 2 ==> m.Valid()
  {
    var items := names + ["Back"];
    var functions := seq(|names|, i requires 0 <= i < |names| => EditActivity(names[i])) + [Back];
    m.functions := functions;
    m.items := items;
    if m.selected > 0 {
      m.selected := m.selected - 1;
    }
  }

  // ---------------------------------------------------------------------
  // Editing the activity list

  /** Where the search for the edited activity stops: the first activity with the name, or the length when there is none. */
  function FirstNamed(acts: seq<Activity>, name: string): (i: nat)
    ensures i <= |acts|
    ensures i < |acts| ==> acts[i].name == name
    ensures forall j :: 0 <= j < i ==> acts[j].name != name
  {
    if acts == [] then 0
    else if acts[0].name == name then 0
    else 1 + FirstNamed(acts[1..], name)
  }

  /** The activities without the first one with the given name. */
  function WithoutFirstNamed(acts: seq<Activity>, name: string): seq<Activity> {
    if acts == [] then []
    else if acts[0].name == name then acts[1..]
    else [acts[0]] + WithoutFirstNamed(acts[1..], name)
  }

  /** The activities with the first one of the given name re-prioritised. */
  function WithPriority(acts: seq<Activity>, name: string, priority: int): (r: seq<Activity>)
    ensures |r| == |acts|
  {
    if acts == [] then []
    else if acts[0].name == name then [acts[0].(priority := priority)] + acts[1..]
    else [acts[0]] + WithPriority(acts[1..], name, priority)
  }

  /** Deleting removes exactly the first activity with the name, and nothing when there is none. */
  lemma {:induction false} WithoutFirstNamedIs(acts: seq<Activity>, name: string)
    ensures var i := FirstNamed(acts, name);
      WithoutFirstNamed(acts, name) == if i < |acts| then acts[..i] + acts[i + 1..] else acts
  {
    if acts != [] && acts[0].name != name {
      WithoutFirstNamedIs(acts[1..], name);
      var i := FirstNamed(acts, name);
      if i < |acts| {
        SplitAtTail(acts, i);
      }
    }
  }

  /** Saving changes only the first activity with the name, and only its priority; nothing when there is none. */
  lemma {:induction false} WithPriorityIs(acts: seq<Activity>, name: string, priority: int)
    ensures var i := FirstNamed(acts, name);
      WithPriority(acts, name, priority) == if i < |acts| then acts[i := acts[i].(priority := priority)] else acts
  {
    if acts != [] {
      if acts[0].name == name {
        UpdateAtHead(acts, acts[0].(priority := priority));
      } else {
        WithPriorityIs(acts[1..], name, priority);
        var i := FirstNamed(acts, name);
        if i < |acts| {
          UpdateAtTail(acts, i, acts[i].(priority := priority));
        }
      }
    }
  }

  /** The search finds an activity exactly when one has the name. */
  lemma FirstNamedFinds(acts: seq<Activity>, name: string)
    ensures FirstNamed(acts, name) < |acts| <==> name in Names(acts)
  {
    if name in Names(acts) {
      var j :| 0 <= j < |acts| && Names(acts)[j] == name;
      assert acts[j].name == name;
    }
  }

  lemma SplitAtTail(acts: seq<Activity>, i: nat)
    requires 1 <= i < |acts|
    ensures acts[..i] + acts[i + 1..] == [acts[0]] + (acts[1..][..i - 1] + acts[1..][i..])
  {
    assert acts[..i] == [acts[0]] + acts[1..][..i - 1];
    assert acts[i + 1..] == acts[1..][i..];
  }

  lemma UpdateAtHead(acts: seq<Activity>, a: Activity)
    requires 1 <= |acts|
    ensures acts[0 := a] == [a] + acts[1..]
  {
  }

  lemma UpdateAtTail(acts: seq<Activity>, i: nat, a: Activity)
    requires 1 <= i < |acts|
    ensures acts[i := a] == [acts[0]] + acts[1..][i - 1 := a]
  {
  }

  /** StateEditActivity.__init__'s search: the priority of the first activity with the name (which must exist). */
  method FindPriority(acts: seq<Activity>, name: string) returns (priority: int)
    requires name in Names(acts)
    ensures priority == acts[FirstNamed(acts, name)].priority
  {
    FirstNamedFinds(acts, name);
    var i := 0;
    while i < |acts|
      invariant 0 <= i <= FirstNamed(acts, name)
    {
      if acts[i].name == name {
        priority := acts[i].priority;
        return;
      }
      i := i + 1;
    }
  }

  /** delete_activity's loop: remove the first activity with the name. */
  method RemoveNamed(acts: seq<Activity>, name: string) returns (r: seq<Activity>)
    ensures r == WithoutFirstNamed(acts, name)
  {
    WithoutFirstNamedIs(acts, name);
    var i := 0;
    while i < |acts|
      invariant 0 <= i <= FirstNamed(acts, name)
    {
      if acts[i].name == name {
        return acts[..i] + acts[i + 1..];
      }
      i := i + 1;
    }
    return acts;
  }

  /** save_activity's loop: give the first activity with the name the new priority. */
  method SetPriority(acts: seq<Activity>, name: string, priority: int) returns (r: seq<Activity>)
    ensures r == WithPriority(acts, name, priority)
  {
    WithPriorityIs(acts, name, priority);
    r := acts;
    var i := 0;
    while i < |acts|
      invariant 0 <= i <= FirstNamed(acts, name)
    {
      if acts[i].name == name {
        r := r[i := r[i].(priority := priority)];
        return;
      }
      i := i + 1;
    }
  }

  /**
   * delete_activity: remove the edited activity from the screen's list,
   * write the list, and go back.
   */
  method DeleteActivity(s: Screen, h: History, acts: seq<Activity>, name: string) returns (remaining: seq<Activity>, written: string)
    requires |h.states| >= 2
    modifies s, h
    ensures remaining == WithoutFirstNamed(acts, name) && written == Encode(remaining)
    ensures h.states == old(h.states[..|h.states| - 1]) && s.nextState == h.states[|h.states| - 1]
  {
    remaining := RemoveNamed(acts, name);
    written := WriteActivities(remaining);
    s.RegressState(h);
  }

  /** save_activity: give the edited activity the priority chosen in the combobox and write the list. */
  method SaveActivity(acts: seq<Activity>, name: string, index: int) returns (updated: seq<Activity>, written: string)
    ensures updated == WithPriority(acts, name, index) && written == Encode(updated)
  {
    updated := SetPriority(acts, name, index);
    written := WriteActivities(updated);
  }

  /**
   * create_activity: read the activities file, append the new activity,
   * write the list and go back; an unreadable file raises before anything
   * is written.
   */
  method CreateActivity(s: Screen, h: History, text: string, name: string, index: int) returns (written: Result<string>)
    requires |h.states| >= 2
    modifies s, h
    ensures written == match Decode(text)
      case Err(e) => Err(e)
      case Ok(acts) => Ok(Encode(acts + [Activity(name, index)]))
    ensures written.Ok? ==> h.states == old(h.states[..|h.states| - 1]) && s.nextState == h.states[|h.states| - 1]
    ensures written.Err? ==> h.states == old(h.states) && s.nextState == old(s.nextState)
  {
    var read := ReadActivities(text);
    if read.Err? {
      return Err(read.error);
    }
    var acts := read.value + [Activity(name, index)];
    var text' := WriteActivities(acts);
    s.RegressState(h);
    return Ok(text');
  }

  /** Every activity's name survives a write and a read. */
  predicate Storable(acts: seq<Activity>) {
    forall i :: 0 <= i < |acts| ==> StorableName(acts[i].name)
  }

  /** Reading the file create_activity wrote gives the old activities and the new one last. */
  lemma CreatedReadsBack(text: string, name: string, index: int)
    requires Decode(text).Ok? && StorableName(name)
    ensures Decode(Encode(Decode(text).value + [Activity(name, index)])) == Ok(Decode(text).value + [Activity(name, index)])
  {
    DecodedNamesStorable(text);
    DecodeEncode(Decode(text).value + [Activity(name, index)]);
  }

  /** Reading the file delete_activity wrote gives the list without the first activity of that name, the others in order. */
  lemma DeletedReadsBack(acts: seq<Activity>, name: string)
    requires Storable(acts) && name in Names(acts)
    ensures var i := FirstNamed(acts, name);
      i < |acts| && Decode(Encode(WithoutFirstNamed(acts, name))) == Ok(acts[..i] + acts[i + 1..])
  {
    StorableWithout(acts, name);
    DecodeEncode(WithoutFirstNamed(acts, name));
    WithoutFirstNamedIs(acts, name);
    FirstNamedFinds(acts, name);
  }

  /** Reading the file save_activity wrote gives the list with only that activity's priority changed. */
  lemma SavedReadsBack(acts: seq<Activity>, name: string, index: int)
    requires Storable(acts) && name in Names(acts)
    ensures var i := FirstNamed(acts, name);
      i < |acts| && Decode(Encode(WithPriority(acts, name, index))) == Ok(acts[i := acts[i].(priority := index)])
  {
    StorableWithPriority(acts, name, index);
    DecodeEncode(WithPriority(acts, name, index));
    WithPriorityIs(acts, name, index);
    FirstNamedFinds(acts, name);
  }

  lemma {:induction false} StorableWithout(acts: seq<Activity>, name: string)
    requires Storable(acts)
    ensures Storable(WithoutFirstNamed(acts, name))
  {
    if acts != [] && acts[0].name != name {
      StorableWithout(acts[1..], name);
    }
  }

  lemma {:induction false} StorableWithPriority(acts: seq<Activity>, name: string, priority: int)
    requires Storable(acts)
    ensures Storable(WithPriority(acts, name, priority))
  {
    if acts != [] && acts[0].name != name {
      StorableWithPriority(acts[1..], name, priority);
    }
  }
}
