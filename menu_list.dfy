/**
 * The scrolling list menu: a list of labelled entries, each bound to an
 * action, with a selected entry and a scroll offset. Up and down wrap
 * around the ends, page keys move by ten without passing either end, home
 * and end jump, escape is a shortcut to the entry labelled "Back", and
 * enter confirms the selected entry.
 */
module MenuLists {
  import opened Options
  import opened Keys
  import opened Text
  import opened Components

  /** How far page up and page down move the selection. */
  const PAGE_SKIP := 10

  /**
   * utils.clamp, which is not part of this model; taken to be
   * max(lo, min(x, hi)).
   */
  function Clamp(x: int, lo: int, hi: int): (r: int)
    ensures lo <= hi ==> lo <= r <= hi
    ensures lo <= x <= hi ==> r == x
    ensures lo <= hi && x < lo ==> r == lo
    ensures lo <= hi && hi < x ==> r == hi
  {
    var m := if x < hi then x else hi;
    if lo > m then lo else m
  }

  /** MenuList.wrap: a value below the range goes to its top, one above it to its bottom. */
  function Wrap(selection: int, lo: int, hi: int): (r: int)
    ensures lo <= hi ==> lo <= r <= hi
    ensures lo <= selection <= hi ==> r == selection
    ensures selection < lo ==> r == hi
    ensures hi < selection && lo <= selection ==> r == lo
  {
    if selection < lo then hi
    else if selection > hi then lo
    else selection
  }

  /** The largest distance of the selection below the offset that MenuList.scroll leaves in place. */
  function Viewport(height: int, titleHeight: int): int {
    height - 1 - titleHeight
  }

  /** MenuList.scroll: the new offset and the unchanged selection. */
  function Scroll(offset: int, selection: int, height: int, titleHeight: int): (r: (int, int))
    ensures r.1 == selection
    ensures offset <= selection <= offset + Viewport(height, titleHeight) ==> r.0 == offset
    ensures selection < offset ==> r.0 == selection
    ensures offset <= selection && selection > offset + Viewport(height, titleHeight) ==> r.0 == selection - Viewport(height, titleHeight)
  {
    if selection < offset then (selection, selection)
    else if selection >= offset + height - 1 - titleHeight then
      (selection - height + 1 + titleHeight, selection)
    else (offset, selection)
  }

  /** After scrolling, the selection lies within the viewport that starts at the new offset. */
  lemma ScrollShowsSelection(offset: int, selection: int, height: int, titleHeight: int)
    requires 0 <= offset && 0 <= selection && 0 <= Viewport(height, titleHeight)
    ensures var o := Scroll(offset, selection, height, titleHeight).0;
      0 <= o <= selection <= o + Viewport(height, titleHeight)
  {
  }

  /** Scrolling a second time changes nothing. */
  lemma ScrollIdempotent(offset: int, selection: int, height: int, titleHeight: int)
    requires 0 <= Viewport(height, titleHeight)
    ensures var r := Scroll(offset, selection, height, titleHeight);
      Scroll(r.0, r.1, height, titleHeight) == r
  {
  }

  /** The keys that confirm the selected entry. */
  predicate IsEnter(key: Key) {
    key == KEY_ENTER || key == NEWLINE || key == CR
  }

  /**
   * The selected entry after MenuList.handle_input moves it (every key but
   * an escape that finds a "Back" entry): the movement the key asks for,
   * then wrapped into the list.
   */
  function MenuStep(selected: int, n: int, key: Key): (r: int)
    requires 1 <= n && 0 <= selected < n
    ensures 0 <= r < n
    ensures key == KEY_UP ==> r == if selected == 0 then n - 1 else selected - 1
    ensures key == KEY_DOWN ==> r == if selected == n - 1 then 0 else selected + 1
    ensures key == KEY_PPAGE ==> r == if selected < PAGE_SKIP then 0 else selected - PAGE_SKIP
    ensures key == KEY_NPAGE ==> r == if n - 1 < selected + PAGE_SKIP then n - 1 else selected + PAGE_SKIP
    ensures key == KEY_HOME ==> r == 0
    ensures key == KEY_END ==> r == n - 1
    ensures key !in {KEY_UP, KEY_DOWN, KEY_PPAGE, KEY_NPAGE, KEY_HOME, KEY_END} ==> r == selected
  {
    var up := if key == KEY_UP then -1 else 0;
    var down := if key == KEY_DOWN then up + 1 else up;
    var pageUp := if key == KEY_PPAGE then Clamp(down - PAGE_SKIP, -selected, n - 1 - selected) else down;
    var pageDown := if key == KEY_NPAGE then Clamp(pageUp + PAGE_SKIP, -selected, n - 1 - selected) else pageUp;
    var home := if key == KEY_HOME then -selected else pageDown;
    var vinput := if key == KEY_END then n - 1 - selected else home;
    Wrap(selected + vinput, 0, n - 1)
  }

  /** Pressing up after down, or down after up, returns to the same entry. */
  lemma UpUndoesDown(selected: int, n: int)
    requires 1 <= n && 0 <= selected < n
    ensures MenuStep(MenuStep(selected, n, KEY_DOWN), n, KEY_UP) == selected
    ensures MenuStep(MenuStep(selected, n, KEY_UP), n, KEY_DOWN) == selected
  {
  }

  /** Python's s[lo:hi] for a non-negative lo: negative bounds count from the end, and bounds are cut to the length. */
  function Slice<T>(s: seq<T>, lo: int, hi: int): (r: seq<T>)
    ensures 0 <= lo <= hi <= |s| ==> r == s[lo..hi]
    ensures 0 <= lo <= |s| && lo <= hi ==> r == s[lo..if hi > |s| then |s| else hi]
    ensures |r| <= |s|
  {
    var a := if lo < 0 then (if lo + |s| < 0 then 0 else lo + |s|) else (if lo > |s| then |s| else lo);
    var b := if hi < 0 then (if hi + |s| < 0 then 0 else hi + |s|) else (if hi > |s| then |s| else hi);
    if a < b then s[a..b] else []
  }

  /**
   * The entries render draws once it has scrolled: the selected entry is
   * among them, at its place relative to the offset, whenever the terminal
   * has room for the title and one entry.
   */
  lemma SelectedIsDrawn(items: seq<string>, offset: int, selected: int, height: int, titleHeight: int, titleRows: int)
    requires 0 <= offset && 0 <= selected < |items|
    requires 0 <= titleRows <= titleHeight && 0 <= Viewport(height, titleHeight)
    ensures var o := Scroll(offset, selected, height, titleHeight).0;
      var drawn := Slice(items, o, o + height - titleRows);
      o <= selected < o + |drawn| && drawn[selected - o] == items[selected]
  {
    var o := Scroll(offset, selected, height, titleHeight).0;
    ScrollShowsSelection(offset, selected, height, titleHeight);
    var hi := if o + height - titleRows > |items| then |items| else o + height - titleRows;
    assert Slice(items, o, o + height - titleRows) == items[o..hi];
  }

  class MenuList {
    const menuTitle: Option<string>
    var items: seq<string>
    var functions: seq<Action>
    var selected: int
    var offset: int
    var menuTitleHeight: int

    /** One action per entry, a selection inside the list, and a non-negative offset. */
    ghost predicate Valid()
      reads this
    {
      1 <= |items| && |functions| == |items| && 0 <= selected < |items| && 0 <= offset
    }

    constructor (items: seq<string>, functions: seq<Action>, menuTitle: Option<string>)
      requires 1 <= |items| && |functions| == |items|
      ensures Valid()
      ensures this.items == items && this.functions == functions && this.menuTitle == menuTitle
      ensures selected == 0 && offset == 0 && menuTitleHeight == 2
    {
      this.menuTitle := menuTitle;
      this.items := items;
      this.functions := functions;
      selected := 0;
      offset := 0;
      menuTitleHeight := 2;
    }

    /**
     * handle_input: escape returns the "Back" entry's action when there is
     * one, leaving everything as it was; any other key moves the selection,
     * scrolls, and returns the selected action if the key confirms.
     */
    method HandleInput(key: Key, height: int) returns (r: Option<Action>)
      requires Valid()
      modifies this
      ensures Valid()
      ensures items == old(items) && functions == old(functions) && menuTitleHeight == old(menuTitleHeight)
      ensures key == ESC && "Back" in items ==>
        && r == Some(functions[IndexOf(items, "Back")])
        && selected == old(selected) && offset == old(offset)
      ensures !(key == ESC && "Back" in items) ==>
        && selected == MenuStep(old(selected), |items|, key)
        && offset == Scroll(old(offset), selected, height, menuTitleHeight).0
        && r == if IsEnter(key) then Some(functions[selected]) else None
    {
      var vinput := 0;
      if key == KEY_UP {
        vinput := vinput - 1;
      }
      if key == KEY_DOWN {
        vinput := vinput + 1;
      }
      if key == KEY_PPAGE {
        vinput := vinput - PAGE_SKIP;
        vinput := Clamp(vinput, -selected, |items| - 1 - selected);
      }
      if key == KEY_NPAGE {
        vinput := vinput + PAGE_SKIP;
        vinput := Clamp(vinput, -selected, |items| - 1 - selected);
      }
      if key == KEY_HOME {
        vinput := -selected;
      }
      if key == KEY_END {
        vinput := |items| - 1 - selected;
      }
      if key == ESC {
        if "Back" in items {
          var backIndex := IndexOf(items, "Back");
          return Some(functions[backIndex]);
        }
      }
      selected := selected + vinput;
      selected := Wrap(selected, 0, |items| - 1);
      offset, selected := Scroll(offset, selected, height, menuTitleHeight).0, Scroll(offset, selected, height, menuTitleHeight).1;
      if IsEnter(key) {
        return Some(functions[selected]);
      }
      return None;
    }

    /**
     * The state changes of render: the title's measured height (titleRows)
     * becomes the title height when there is a title, the offset is
     * scrolled, and the entries from the offset that fit below the title
     * are the ones drawn.
     */
    method Render(height: int, titleRows: int) returns (drawn: seq<string>)
      requires Valid()
      modifies this
      ensures Valid()
      ensures items == old(items) && functions == old(functions) && selected == old(selected)
      ensures menuTitleHeight == if menuTitle.Some? then titleRows else old(menuTitleHeight)
      ensures offset == Scroll(old(offset), selected, height, menuTitleHeight).0
      ensures drawn == Slice(items, offset, offset + height - (if menuTitle.Some? then titleRows else 0))
    {
      var dy := 0;
      if menuTitle.Some? {
        dy := titleRows;
        menuTitleHeight := dy;
      }
      offset, selected := Scroll(offset, selected, height, menuTitleHeight).0, Scroll(offset, selected, height, menuTitleHeight).1;
      drawn := Slice(items, offset, offset + height - dy);
    }
  }
}
