/**
 * Key codes as curses delivers them from getch(): -1 when no key is
 * waiting, otherwise a non-negative code. The named codes are the ncurses
 * values of the curses constants the application compares against.
 */
module Keys {
  /** A code returned by getch(). */
  type Key = k: int | -1 <= k witness -1

  const NO_KEY: Key := -1
  const BS: Key := 8           // curses.ascii.BS
  const NEWLINE: Key := 10     // ord("\n")
  const CR: Key := 13
  const ESC: Key := 27         // curses.ascii.ESC
  const KEY_DOWN: Key := 258
  const KEY_UP: Key := 259
  const KEY_LEFT: Key := 260
  const KEY_RIGHT: Key := 261
  const KEY_HOME: Key := 262
  const KEY_NPAGE: Key := 338  // page down
  const KEY_PPAGE: Key := 339  // page up
  const KEY_ENTER: Key := 343
  const KEY_END: Key := 360
}
