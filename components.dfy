/**
 * On-screen widgets and the container that moves the focus between them.
 *
 * A container holds its widgets in order. At most one of them is selected,
 * and only a selectable widget (anything but a label) can be. Up and down
 * move the selection to the nearest selectable widget in that direction,
 * wrapping around the ends; every key is then handed to the selected
 * widget. Button actions are tags the owning screen dispatches.
 */
module Components {
  import opened Options
  import opened Keys

  /** What a button or a menu entry asks its screen to do. */
  datatype Action =
    | GoWeekPlanner | GoRandomActivity | GoConfig | Quit
    | Randomise | ExportPlan | Reroll
    | GoNewActivity | GoEditActivities | GoWeekConfig
    | EditActivity(name: string)
    | DeleteActivity | SaveActivity | CreateActivity
    | Back

  /** The kind of a widget, with the state that kind keeps. */
  datatype Kind =
    | Label(text: string)
    | Combobox(items: seq<string>, index: int)
    | Button(text: string, action: Action)
    | TextInput(text: string)

  /** A widget in a container, with its `selected` flag. */
  datatype Widget = Widget(kind: Kind, selected: bool)

  /** Labels are never selectable; every other widget is. */
  predicate Selectable(k: Kind) {
    !k.Label?
  }

  // ---------------------------------------------------------------------
  // The leaf widgets' key handling

  /** Combobox.handle_input: left and right step the index, clamped to the item range. */
  function ComboboxIndex(items: seq<string>, index: int, key: Key): (r: int)
    ensures key != KEY_LEFT && key != KEY_RIGHT ==> r == index
    ensures 0 <= index < |items| ==> 0 <= r < |items| && -1 <= r - index <= 1
    ensures key == KEY_LEFT && 0 < index ==> r == index - 1
    ensures key == KEY_LEFT && index <= 0 ==> r == 0
    ensures key == KEY_RIGHT && 0 <= index < |items| - 1 ==> r == index + 1
    ensures key == KEY_RIGHT && index == |items| - 1 ==> r == index
  {
    if key == NO_KEY then index
    else if key == KEY_LEFT then (if 0 > index - 1 then 0 else index - 1)
    else if key == KEY_RIGHT then (if |items| - 1 < index + 1 then |items| - 1 else index + 1)
    else index
  }

  /** A key that a text input appends as one character. */
  predicate Typable(key: Key) {
    key != NO_KEY && key != ESC && key != BS && key != NEWLINE && key < 256
  }

  /** TextInput.handle_input: escape clears, backspace drops the last character, other byte-sized keys append. */
  function TextInputText(text: string, key: Key): (r: string)
    ensures key == ESC ==> r == ""
    ensures key == BS ==> r == text[..if text == [] then 0 else |text| - 1]
    ensures key == NO_KEY || key == NEWLINE || key >= 256 ==> r == text
    ensures Typable(key) ==> |r| == |text| + 1 && r[..|text|] == text && r[|text|] as int == key
  {
    if key == NO_KEY then text
    else if key == ESC then ""
    else if key == BS then (if text == [] then text else text[..|text| - 1])
    else if key == NEWLINE then text
    else if key < 256 then text + [key as char]
    else text
  }

  /** Backspace undoes typing one character. */
  lemma BackspaceUndoesTyping(text: string, key: Key)
    requires Typable(key)
    ensures TextInputText(TextInputText(text, key), BS) == text
  {
    var typed := TextInputText(text, key);
    assert typed[..|typed| - 1] == text;
  }

  /** Button.handle_input: newline fires the button's action. */
  function ButtonAction(action: Action, key: Key): (r: Option<Action>)
    ensures r.Some? <==> key == NEWLINE
    ensures r.Some? ==> r.value == action
  {
    if key == NO_KEY then None
    else if key == NEWLINE then Some(action)
    else None
  }

  /** One widget's handle_input: its new state and the action it fired, if any. */
  function KindKey(k: Kind, key: Key): (r: (Kind, Option<Action>))
    ensures r.1.Some? <==> k.Button? && key == NEWLINE
    ensures r.1.Some? ==> r.1.value == k.action
  {
    match k
    case Label(_) => (k, None)
    case Combobox(items, index) => (Combobox(items, ComboboxIndex(items, index, key)), None)
    case Button(_, action) => (k, ButtonAction(action, key))
    case TextInput(text) => (TextInput(TextInputText(text, key)), None)
  }

  /** A widget's handling keeps its kind and whatever is not its editable state. */
  lemma KindKeyKeepsShape(k: Kind, key: Key)
    ensures Selectable(KindKey(k, key).0) == Selectable(k)
    ensures k.Label? ==> KindKey(k, key).0 == k
    ensures k.Button? ==> KindKey(k, key).0 == k
    ensures k.Combobox? ==> KindKey(k, key).0.Combobox? && KindKey(k, key).0.items == k.items
    ensures k.TextInput? ==> KindKey(k, key).0.TextInput?
  {
  }

  /** Up and down mean nothing to any widget. */
  lemma KindKeyIgnoresNavigation(k: Kind, key: Key)
    requires key == KEY_DOWN || key == KEY_UP
    ensures KindKey(k, key) == (k, None)
  {
  }

  // ---------------------------------------------------------------------
  // Selection in a sequence of widgets

  /** The container's invariant: only selectable widgets are selected, and at most one is. */
  predicate WellFormed(cs: seq<Widget>) {
    && (forall i :: 0 <= i < |cs| && cs[i].selected ==> Selectable(cs[i].kind))
    && (forall i, j :: 0 <= i < |cs| && 0 <= j < |cs| && cs[i].selected && cs[j].selected ==> i == j)
  }

  /** Exactly the widget at j is selected. */
  predicate OnlySelected(cs: seq<Widget>, j: int) {
    forall x :: 0 <= x < |cs| ==> (cs[x].selected <==> x == j)
  }

  /** The first selected widget at or after `from`, if any. */
  function SelectedFrom(cs: seq<Widget>, from: nat): (r: Option<nat>)
    ensures r.Some? ==> from <= r.value < |cs| && cs[r.value].selected
    ensures r.Some? ==> forall x :: from <= x < r.value ==> !cs[x].selected
    ensures r.None? ==> forall x :: from <= x < |cs| ==> !cs[x].selected
    decreases |cs| - from
  {
    if from >= |cs| then None
    else if cs[from].selected then Some(from)
    else SelectedFrom(cs, from + 1)
  }

  /** The selected widget, if any. */
  function Selected(cs: seq<Widget>): Option<nat> {
    SelectedFrom(cs, 0)
  }

  /** Which widgets are selectable, position by position. */
  function Mask(cs: seq<Widget>): (m: seq<bool>)
    ensures |m| == |cs|
    ensures forall x :: 0 <= x < |cs| ==> m[x] == Selectable(cs[x].kind)
  {
    seq(|cs|, x requires 0 <= x < |cs| => Selectable(cs[x].kind))
  }

  /** The direction a key moves the selection: down +1, up -1, otherwise 0. */
  function Direction(key: Key): int {
    if key == KEY_DOWN then 1 else if key == KEY_UP then -1 else 0
  }

  /** The position k steps from i (down for positive d, up otherwise), wrapping around n positions. */
  function Pos(i: int, d: int, k: int, n: int): (p: int)
    requires 0 <= i < n && 0 <= k <= n
    ensures 0 <= p < n
  {
    if d > 0 then (if i + k < n then i + k else i + k - n)
    else (if i - k >= 0 then i - k else i - k + n)
  }

  /** Python's `x % n` for a positive n: the remainder in [0, n), by repeated adding or subtracting of n. */
  function Mod(x: int, n: int): (r: int)
    requires n > 0
    ensures 0 <= r < n
    decreases if x < 0 then n - x else x
  {
    if x < 0 then Mod(x + n, n) else if x >= n then Mod(x - n, n) else x
  }

  /** The wrapped position is Python's `(i + v) % n` for the signed step v. */
  lemma PosIsModulo(i: int, d: int, k: int, n: int)
    requires 0 <= i < n && 0 <= k <= n
    ensures Mod(i + (if d > 0 then k else -k), n) == Pos(i, d, k, n)
  {
  }

  /** Python's `v // abs(v)`: the sign of a non-zero v. */
  function Sign(v: int): (r: int)
    requires v != 0
    ensures r == if v < 0 then -1 else 1
  {
    v / (if v < 0 then -v else v)
  }

  /**
   * The number of steps from a selectable position i, in direction d, to the
   * nearest selectable position, looking no nearer than k steps.
   */
  function Distance(mask: seq<bool>, i: nat, d: int, k: nat): (r: nat)
    requires i < |mask| && mask[i] && 1 <= k <= |mask|
    ensures k <= r <= |mask|
    ensures mask[Pos(i, d, r, |mask|)]
    ensures forall m :: k <= m < r ==> !mask[Pos(i, d, m, |mask|)]
    decreases |mask| - k
  {
    if mask[Pos(i, d, k, |mask|)] then k
    else
      assert Pos(i, d, |mask|, |mask|) == i;
      Distance(mask, i, d, k + 1)
  }

  /** The distance is the first selectable step at or beyond k. */
  lemma {:induction false} DistanceIs(mask: seq<bool>, i: nat, d: int, k: nat, m: nat)
    requires i < |mask| && mask[i] && 1 <= k <= m <= |mask|
    requires mask[Pos(i, d, m, |mask|)]
    requires forall x :: k <= x < m ==> !mask[Pos(i, d, x, |mask|)]
    ensures Distance(mask, i, d, k) == m
    decreases m - k
  {
    if k < m {
      DistanceIs(mask, i, d, k + 1, m);
    }
  }

  /** Where the scan from the selected position i in direction d stops. */
  function Target(mask: seq<bool>, i: nat, d: int): (t: nat)
    requires i < |mask| && mask[i]
    ensures t < |mask| && mask[t]
  {
    Pos(i, d, Distance(mask, i, d, 1), |mask|)
  }

  /** The selection move of Container.handle_input, before the key is forwarded. */
  function Navigate(cs: seq<Widget>, key: Key): (r: seq<Widget>)
    requires WellFormed(cs)
    ensures |r| == |cs| && WellFormed(r)
  {
    match Selected(cs)
    case None => cs
    case Some(i) =>
      var j := if Direction(key) == 0 then i else Target(Mask(cs), i, Direction(key));
      cs[i := cs[i].(selected := false)][j := cs[j].(selected := true)]
  }

  /** Handing the key to the selected widget: its new state and the action it fired. */
  function Forward(cs: seq<Widget>, key: Key): (r: (seq<Widget>, Option<Action>))
    ensures |r.0| == |cs|
  {
    match Selected(cs)
    case None => (cs, None)
    case Some(j) =>
      var (k, fired) := KindKey(cs[j].kind, key);
      (cs[j := Widget(k, true)], fired)
  }

  /** Container.handle_input on the widget sequence: the new widgets and the fired action. */
  function HandleKey(cs: seq<Widget>, key: Key): (r: (seq<Widget>, Option<Action>))
    requires WellFormed(cs)
    ensures WellFormed(r.0) && |r.0| == |cs|
    ensures key == KEY_DOWN || key == KEY_UP ==> SameKinds(r.0, cs) && r.1.None?
  {
    if key == NO_KEY then (cs, None) else Forward(Navigate(cs, key), key)
  }

  /** Widgets hold the same kinds in the same places. */
  predicate SameKinds(a: seq<Widget>, b: seq<Widget>) {
    |a| == |b| && forall x :: 0 <= x < |a| ==> a[x].kind == b[x].kind
  }

  /**
   * What one key does to a container: the sole selection moves to the target
   * (stays put for a key that is not up or down), the invariant is kept, only
   * the newly selected widget's state may change, and an action fires only
   * from a button receiving newline.
   */
  lemma HandleKeyEffect(cs: seq<Widget>, key: Key, i: nat)
    requires WellFormed(cs) && i < |cs| && cs[i].selected
    ensures var (r, fired) := HandleKey(cs, key);
      var j := if key == NO_KEY || Direction(key) == 0 then i else Target(Mask(cs), i, Direction(key));
      && WellFormed(r) && |r| == |cs|
      && OnlySelected(r, j) && Selectable(r[j].kind)
      && (forall x :: 0 <= x < |cs| && x != j ==> r[x].kind == cs[x].kind)
      && r[j].kind == (if key == NO_KEY then cs[j].kind else KindKey(cs[j].kind, key).0)
      && fired == (if key == NO_KEY then None else KindKey(cs[j].kind, key).1)
  {
    var d := Direction(key);
    assert Selected(cs) == Some(i);
    if key != NO_KEY {
      var j := if d == 0 then i else Target(Mask(cs), i, d);
      var nav := Navigate(cs, key);
      assert OnlySelected(nav, j);
      SelectedIsOnly(nav, j);
      KindKeyKeepsShape(cs[j].kind, key);
    }
  }

  /** Up and down move the sole selection to the target and change no widget's state. */
  lemma NavigationMovesSelection(cs: seq<Widget>, key: Key, i: nat)
    requires WellFormed(cs) && i < |cs| && cs[i].selected
    requires key == KEY_DOWN || key == KEY_UP
    ensures OnlySelected(HandleKey(cs, key).0, Target(Mask(cs), i, Direction(key)))
  {
    HandleKeyEffect(cs, key, i);
  }

  /** Without a selection, no key changes anything. */
  lemma HandleKeyNoSelection(cs: seq<Widget>, key: Key)
    requires WellFormed(cs) && Selected(cs).None?
    ensures HandleKey(cs, key) == (cs, None)
  {
  }

  // ---------------------------------------------------------------------
  // Pressing down once per selectable widget brings the selection back

  /** The number of selectable positions before b. */
  function CountBefore(mask: seq<bool>, b: nat): (c: nat)
    requires b <= |mask|
    ensures c <= b
  {
    if b == 0 then 0 else CountBefore(mask, b - 1) + (if mask[b - 1] then 1 else 0)
  }

  lemma {:induction false} CountFlat(mask: seq<bool>, a: nat, b: nat)
    requires a <= b <= |mask|
    requires forall x :: a <= x < b ==> !mask[x]
    ensures CountBefore(mask, b) == CountBefore(mask, a)
  {
    if a < b {
      CountFlat(mask, a, b - 1);
    }
  }

  lemma {:induction false} CountMonotone(mask: seq<bool>, a: nat, b: nat)
    requires a <= b <= |mask|
    ensures CountBefore(mask, a) <= CountBefore(mask, b)
  {
    if a < b {
      CountMonotone(mask, a, b - 1);
    }
  }

  /** Distinct selectable positions have distinct ranks, below the number of selectable positions. */
  lemma RankOrder(mask: seq<bool>, x: nat, y: nat)
    requires x < y < |mask| && mask[x]
    ensures CountBefore(mask, x) < CountBefore(mask, y)
  {
    CountMonotone(mask, x + 1, y);
  }

  lemma RankBound(mask: seq<bool>, x: nat)
    requires x < |mask| && mask[x]
    ensures CountBefore(mask, x) < CountBefore(mask, |mask|)
  {
    CountMonotone(mask, x + 1, |mask|);
  }

  /** Moving down goes to the selectable position of the next rank, and from the last back to the first. */
  lemma RankOfNextDown(mask: seq<bool>, i: nat)
    requires i < |mask| && mask[i]
    ensures CountBefore(mask, Target(mask, i, 1)) ==
      if CountBefore(mask, i) + 1 == CountBefore(mask, |mask|) then 0 else CountBefore(mask, i) + 1
  {
    var n := |mask|;
    var r := Distance(mask, i, 1, 1);
    var j := Target(mask, i, 1);
    RankBound(mask, i);
    RankBound(mask, j);
    if i + r < n {
      assert j == i + r;
      forall x | i + 1 <= x < j ensures !mask[x] {
        assert Pos(i, 1, x - i, n) == x;
      }
      CountFlat(mask, i + 1, j);
    } else {
      assert j == i + r - n;
      forall x | i + 1 <= x < n ensures !mask[x] {
        assert Pos(i, 1, x - i, n) == x;
      }
      CountFlat(mask, i + 1, n);
      forall x | 0 <= x < j ensures !mask[x] {
        assert Pos(i, 1, n - i + x, n) == x;
      }
      CountFlat(mask, 0, j);
    }
  }

  /** The position reached from i after m moves down. */
  function DownSteps(mask: seq<bool>, i: nat, m: nat): (p: nat)
    requires i < |mask| && mask[i]
    ensures p < |mask| && mask[p]
  {
    if m == 0 then i else Target(mask, DownSteps(mask, i, m - 1), 1)
  }

  /** Each move down advances the rank by one, wrapping after the last selectable position. */
  lemma {:induction false} RankOfDownSteps(mask: seq<bool>, i: nat, m: nat)
    requires i < |mask| && mask[i]
    requires m <= CountBefore(mask, |mask|)
    ensures CountBefore(mask, DownSteps(mask, i, m)) ==
      if CountBefore(mask, i) + m < CountBefore(mask, |mask|) then CountBefore(mask, i) + m
      else CountBefore(mask, i) + m - CountBefore(mask, |mask|)
  {
    RankBound(mask, i);
    if m > 0 {
      RankOfDownSteps(mask, i, m - 1);
      RankOfNextDown(mask, DownSteps(mask, i, m - 1));
    }
  }

  /** After as many moves down as there are selectable positions, the selection is back where it began. */
  lemma DownStepsCycle(mask: seq<bool>, i: nat)
    requires i < |mask| && mask[i]
    ensures DownSteps(mask, i, CountBefore(mask, |mask|)) == i
  {
    var p := DownSteps(mask, i, CountBefore(mask, |mask|));
    RankOfDownSteps(mask, i, CountBefore(mask, |mask|));
    if p < i {
      RankOrder(mask, p, i);
    } else if i < p {
      RankOrder(mask, i, p);
    }
  }

  /** Widgets with the same kinds have the same selectable positions. */
  lemma MaskOfSameKinds(a: seq<Widget>, b: seq<Widget>)
    requires SameKinds(a, b)
    ensures Mask(a) == Mask(b)
  {
    assert forall x :: 0 <= x < |a| ==> Mask(a)[x] == Mask(b)[x];
  }

  /** The sole selected widget is the one Selected reports. */
  lemma SelectedIsOnly(cs: seq<Widget>, j: nat)
    requires j < |cs| && OnlySelected(cs, j)
    ensures Selected(cs) == Some(j)
  {
    assert cs[j].selected;
  }

  /** One press of down moves the selection at p to the next selectable position and keeps every kind. */
  lemma DownOnce(prev: seq<Widget>, p: nat)
    requires WellFormed(prev) && Selected(prev) == Some(p)
    ensures Selected(HandleKey(prev, KEY_DOWN).0) == Some(Target(Mask(prev), p, 1))
  {
    NavigationMovesSelection(prev, KEY_DOWN, p);
    SelectedIsOnly(HandleKey(prev, KEY_DOWN).0, Target(Mask(prev), p, 1));
  }

  /** A run of containers, each the one before it after pressing down. */
  predicate DownRun(run: seq<seq<Widget>>) {
    forall k :: 0 <= k < |run| - 1 ==> WellFormed(run[k]) && run[k + 1] == HandleKey(run[k], KEY_DOWN).0
  }

  /** After k presses of down from a selection at i, the selection is k moves down from i, and nothing else changed. */
  lemma {:induction false} DownRunSelects(run: seq<seq<Widget>>, i: nat, k: nat)
    requires DownRun(run) && k < |run| && WellFormed(run[0]) && Selected(run[0]) == Some(i)
    ensures WellFormed(run[k]) && SameKinds(run[k], run[0])
    ensures Selected(run[k]) == Some(DownSteps(Mask(run[0]), i, k))
  {
    if k > 0 {
      DownRunSelects(run, i, k - 1);
      var prev := run[k - 1];
      assert WellFormed(prev) && run[k] == HandleKey(prev, KEY_DOWN).0;
      MaskOfSameKinds(prev, run[0]);
      DownOnce(prev, DownSteps(Mask(run[0]), i, k - 1));
    }
  }

  /**
   * Pressing down once per selectable widget returns the container to
   * exactly where it started: same widgets, same selection.
   */
  lemma DownRunCycle(run: seq<seq<Widget>>, i: nat)
    requires DownRun(run) && |run| >= 1 && WellFormed(run[0]) && i < |run[0]| && run[0][i].selected
    requires |run| == CountBefore(Mask(run[0]), |run[0]|) + 1
    ensures run[|run| - 1] == run[0]
  {
    var cs, last := run[0], run[|run| - 1];
    SelectedIsOnly(cs, i);
    DownRunSelects(run, i, |run| - 1);
    DownStepsCycle(Mask(cs), i);
    assert last[i].selected;
    forall x | 0 <= x < |cs| ensures last[x] == cs[x] {
      assert last[x].kind == cs[x].kind;
      assert last[x].selected == cs[x].selected;
    }
    assert last == cs;
  }

  // ---------------------------------------------------------------------
  // Building a container

  /** The widgets a container holds after adding each kind in turn. */
  function Built(kinds: seq<Kind>): (cs: seq<Widget>)
    ensures |cs| == |kinds|
  {
    if kinds == [] then []
    else
      var prev := Built(kinds[..|kinds| - 1]);
      var k := kinds[|kinds| - 1];
      prev + [Widget(k, Selectable(k) && Selected(prev).None?)]
  }

  /** Adding widgets in turn selects exactly the first selectable one. */
  lemma {:induction false} BuiltSelectsFirstSelectable(kinds: seq<Kind>)
    ensures forall x :: 0 <= x < |kinds| ==> Built(kinds)[x].kind == kinds[x]
    ensures forall x :: 0 <= x < |kinds| ==>
      (Built(kinds)[x].selected <==> Selectable(kinds[x]) && forall y :: 0 <= y < x ==> !Selectable(kinds[y]))
    ensures Selected(Built(kinds)).None? <==> forall y :: 0 <= y < |kinds| ==> !Selectable(kinds[y])
    ensures WellFormed(Built(kinds))
  {
    if kinds != [] {
      var init := kinds[..|kinds| - 1];
      var prev := Built(init);
      BuiltSelectsFirstSelectable(init);
      var cs := Built(kinds);
      assert forall x :: 0 <= x < |init| ==> cs[x] == prev[x];
      if Selected(cs).Some? {
        assert cs[Selected(cs).value].selected;
      }
    }
  }

  // ---------------------------------------------------------------------
  // The container object

  /**
   * The scan inside handle_input: from position i, step by the signed
   * movement v, growing it by one each time, until `(i + v) % n` is selectable.
   */
  method NextSelectable(cs: seq<Widget>, i: nat, d: int) returns (j: nat)
    requires i < |cs| && Selectable(cs[i].kind) && -1 <= d <= 1
    ensures j == if d == 0 then i else Target(Mask(cs), i, d)
  {
    ghost var mask := Mask(cs);
    var n := |cs|;
    var v := d;
    ghost var k := 1;
    PosIsModulo(i, d, 0, n);
    PosIsModulo(i, d, n, n);
    while !Selectable(cs[Mod(i + v, n)].kind)
      invariant 1 <= k <= n
      invariant v == if d > 0 then k else if d < 0 then -k else 0
      invariant Mod(i + 0, n) == i && Pos(i, d, n, n) == i
      invariant forall m :: 1 <= m < k ==> !mask[Pos(i, d, m, n)]
      decreases n - k
    {
      assert d != 0;
      PosIsModulo(i, d, k, n);
      assert !mask[Pos(i, d, k, n)];
      assert k < n;
      v := v + Sign(v);
      k := k + 1;
    }
    j := Mod(i + v, n);
    if d == 0 {
      PosIsModulo(i, d, 0, n);
    } else {
      PosIsModulo(i, d, k, n);
      DistanceIs(mask, i, d, 1, k);
    }
  }

  class Container {
    var components: seq<Widget>

    ghost predicate Valid()
      reads this
    {
      WellFormed(components)
    }

    constructor ()
      ensures Valid() && components == []
    {
      components := [];
    }

    /** add_component: append the widget, selecting it when it is selectable and nothing is selected yet. */
    method AddComponent(k: Kind)
      requires Valid()
      modifies this
      ensures Valid()
      ensures components == old(components) + [Widget(k, Selectable(k) && Selected(old(components)).None?)]
    {
      components := components + [Widget(k, false)];
      var anySelected := false;
      var x := 0;
      while x < |components|
        invariant 0 <= x <= |components|
        invariant anySelected <==> exists y :: 0 <= y < x && components[y].selected
      {
        anySelected := anySelected || components[x].selected;
        x := x + 1;
      }
      if Selectable(k) && !anySelected {
        components := components[|components| - 1 := Widget(k, true)];
      }
      assert Selected(old(components)).Some? ==> components[Selected(old(components)).value].selected;
    }

    /**
     * handle_input: find the selected widget, move the selection to the
     * nearest selectable widget in the key's direction (wrapping), then hand
     * the key to the selected widget.
     */
    method HandleInput(key: Key) returns (fired: Option<Action>)
      requires Valid()
      modifies this
      ensures Valid()
      ensures (components, fired) == HandleKey(old(components), key)
    {
      if key == NO_KEY {
        return None;
      }
      ghost var before := components;
      MoveSelection(key);
      fired := ForwardKey(key);
      match Selected(before)
      case None => HandleKeyNoSelection(before, key);
      case Some(i) => HandleKeyEffect(before, key, i);
    }

    /** The first loop of handle_input: deselect the selected widget and select the next selectable one. */
    method MoveSelection(key: Key)
      requires Valid()
      modifies this
      ensures components == Navigate(old(components), key)
    {
      ghost var before := components;
      var n := |components|;
      var i := 0;
      while i < n
        invariant 0 <= i <= n == |before|
        invariant components == before
        invariant forall x :: 0 <= x < i ==> !before[x].selected
      {
        if components[i].selected {
          components := components[i := components[i].(selected := false)];
          var j := NextSelectable(components, i, Direction(key));
          assert Mask(components) == Mask(before);
          components := components[j := components[j].(selected := true)];
          assert Selected(before) == Some(i);
          return;
        }
        i := i + 1;
      }
    }

    /** The second loop of handle_input: the selected widget handles the key. */
    method ForwardKey(key: Key) returns (fired: Option<Action>)
      requires Valid()
      modifies this
      ensures (components, fired) == Forward(old(components), key)
    {
      ghost var before := components;
      ghost var after := Forward(before, key);
      fired := None;
      var n := |components|;
      var x := 0;
      while x < n
        invariant 0 <= x <= n == |components|
        invariant forall y :: x <= y < n ==> components[y] == before[y]
        invariant forall y :: 0 <= y < x ==> components[y] == after.0[y]
        invariant fired == if Selected(before).Some? && Selected(before).value < x then after.1 else None
      {
        if components[x].selected {
          var (k, a) := KindKey(components[x].kind, key);
          components := components[x := Widget(k, true)];
          if a.Some? {
            fired := a;
          }
        }
        x := x + 1;
      }
      assert components == after.0;
    }
  }
}
