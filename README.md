# Week Planner, modelled in Dafny

Week Planner is a terminal program for planning a week of activities. The
activities live in a text file, one `name,priority` record per line. The
user moves between screens:

- the main menu;
- the week planner, with one combobox per weekday, a "Randomise!" button
  and an "Export Plan" button;
- a random-activity screen;
- a configuration menu;
- a scrolling list of activities to edit;
- an edit screen and a new-activity screen.

An exported plan is a file `week_plan_<date>.txt` holding one
`Day: activity` line per weekday. When an activity is drawn at random,
every activity that recent plans did not schedule is first given a higher
priority. The draw then picks from a pool that holds each activity once
per point of its priority.

This project models the widgets and the container that moves focus
between them, the scrolling list menu and its word wrap, the activities
file, the screens and their history, and the scheduling logic behind the
planner. It proves what each operation promises.

Modules, one per concern:

- `Keys`, `Options`, `Text`: key codes, an optional value, and the string
  operations the program uses. `Text` covers `strip`, `split`/`join`,
  `int()` and `str()`, and reading a file line by line.
- `Activities` (`activity.py`): the activity record, `read_activities`
  and `write_activities`. The file text is a parameter. Reading returns
  `Err` where `int()` raises.
- `Components` (`components.py`, `Container`, `Label`, `Combobox`,
  `Button`, `TextInput`):
  - widgets are values;
  - the container is a class whose `components` field its methods
    reassign;
  - `Container.HandleInput` is proved equal to the functional `HandleKey`,
    and the navigation lemmas are proved about `HandleKey`.
- `MenuLists` (`components.py`, `MenuList`): the list menu as a class with
  the fields it updates (`items`, `functions`, `selected`, `offset`,
  `menu_title_height`). Also the pure `clamp`, `wrap` and `scroll`
  arithmetic.
- `Wrapping` (`components.py`, the word wrap inside `MenuList.render`):
  the loop as a method, proved against a recursive specification.
- `Plans` (`states.py`): plan files, their newest-first order, and the
  `line.split(":")[1].strip()` parse.
- `Scheduler` (`states.py`): `adjust_priorities`, `get_random_activity`,
  and worked examples of both.
- `WeekPlanner` (`states.py`, `StateWeekPlanner`): the planner's layout,
  `randomise_activities` and `export_plan`.
- `States` (`states.py`):
  - the `State` base class with `next_state` and the shared history;
  - `update`, `advance_state`, `regress_state` and `on_regress`;
  - the edit-activities list menu;
  - deleting, saving and creating an activity.

Where the code and its documentation differ, the model follows the code:

- `update` calls `on_regress` on the next screen whenever that screen is
  the newest entry of the history. A freshly opened screen has just
  appended itself, so `on_regress` also runs on forward moves.
  `Screen.Update` and `ForwardAndBack` state this.
- A priority is whatever `int()` accepts, negative values included. A
  non-positive priority puts no copies of the activity into the pool.
- `adjust_priorities` keeps one `found` list across all plans, so a name
  found in a newer plan keeps its priority for every older plan too. Once
  every name has been found, reading stops.
- A first word of at least `t_width - 1` characters, where `t_width` is
  the terminal width, makes the wrap emit an empty first line
  (`Wrapping.LongFirstWordBlankLine`). A later long word only ends the
  line before it and starts a new one.
- Escape in the list menu returns the action of the first entry labelled
  "Back". When an activity is itself named "Back", that is the activity's
  edit action, not the menu's back action (`States.EscapeAction`).

## Model

| member | source | states |
|---|---|---|
| Activities.ParseLineSplitsAtLastComma | activity.py:15-16 | a stripped line `name,text` with no comma in `text` reads back as an activity named `name` exactly when `int(text)` succeeds; the name may itself contain commas |
| Activities.ParseLineWithoutComma | activity.py:15 | a line without a comma, when it parses, gives an activity with the empty name |
| Activities.ParseBlankLine | activity.py:15-16 | a blank line has no integer field, so reading it fails |
| Activities.ParseFormatLine | activity.py:15-22 | a record written as `name,priority\n` reads back as the same activity when the name has no newline and no leading whitespace |
| Activities.Collect | activity.py:12-17 | reading succeeds exactly when every line parses, and then yields one activity per line in file order |
| Activities.CollectFirstError | activity.py:14-16 | reading fails with the error of the first line that does not parse |
| Activities.DecodeEncode | activity.py:11-22 | writing a list of activities and reading the file back returns the same list |
| Activities.ParsedNameStorable | activity.py:14-16 | a name read from a line of the file has no newline and no leading whitespace, so it can be written and read back |
| Activities.DecodedNamesStorable | activity.py:11-17 | every name in a list read from a file can be written and read back |
| Activities.ReadActivities | activity.py:11-17 | the loop over the file's lines returns what the reading specification gives, including its error |
| Activities.WriteActivities | activity.py:19-22 | the loop writes the text of the writing specification |
| Components.ComboboxIndex | components.py:125-132 | left moves the index down by one but not below 0, right moves it up by one but not past the last item, other keys leave it; an in-range index stays in range |
| Components.TextInputText | components.py:397-408 | escape clears the text, backspace drops the last character, newline and keys of 256 or more leave it, any other key appends its character |
| Components.BackspaceUndoesTyping | components.py:403-408 | typing a character and then backspace gives the original text back |
| Components.ButtonAction | components.py:172-180 | a button fires its action exactly on newline |
| Components.KindKey | components.py:172-180 | only a button fires, only on newline, and it fires its own action |
| Components.KindKeyKeepsShape | components.py:125-132 | a key never changes a widget's kind or selectability, and a combobox keeps its items |
| Components.KindKeyIgnoresNavigation | components.py:125-132 | up and down change no widget and fire nothing |
| Components.HandleKeyEffect | components.py:44-69 | after a key, exactly one widget is selected: the nearest selectable one in the key's direction, with wrap-around, or the same one for other keys; only that widget handles the key and only its action fires |
| Components.NavigationMovesSelection | components.py:55-64 | up and down select exactly the next selectable widget in that direction |
| Components.HandleKeyNoSelection | components.py:55-69 | with nothing selected, a key changes nothing and fires nothing |
| Components.HandleKey | components.py:44-69 | a key keeps the container well formed (at most one widget selected, never a label); up and down keep every widget's kind and fire nothing |
| Components.DownStepsCycle | components.py:55-64 | moving down once per selectable widget comes back to the starting widget |
| Components.DownRunCycle | components.py:44-69 | pressing down once per selectable widget returns the container to exactly its starting state |
| Components.BuiltSelectsFirstSelectable | components.py:85-91 | adding widgets in turn selects exactly the first selectable one, keeps every kind, and leaves the container well formed |
| Components.NextSelectable | components.py:59-61 | the scan stepping by a growing movement modulo the length stops at the nearest selectable widget in that direction |
| Components.Container.AddComponent | components.py:85-91 | appends the widget and selects it when it is selectable and nothing else is selected; the container stays well formed |
| Components.Container.HandleInput | components.py:44-69 | the container's new widgets and fired action are those of the key-handling specification; the container stays well formed |
| Components.Container.MoveSelection | components.py:55-64 | the first loop moves the selection as the navigation specification says |
| Components.Container.ForwardKey | components.py:66-69 | the second loop hands the key to the selected widget as the forwarding specification says |
| MenuLists.Clamp | components.py:239-243 | the result lies between the bounds, is the input when the input is in range, and otherwise the nearer bound |
| MenuLists.Wrap | components.py:375-382 | below the range gives the top, above gives the bottom, inside is unchanged |
| MenuLists.Scroll | components.py:363-373 | the selection is returned unchanged; the offset stays while the selection is at most `height - 1 - menu_title_height` rows below it, moves up to a selection above it, and otherwise moves down to that many rows above the selection |
| MenuLists.ScrollShowsSelection | components.py:363-373 | after scrolling, the selection lies inside the visible window |
| MenuLists.ScrollIdempotent | components.py:363-373 | scrolling twice is the same as scrolling once |
| MenuLists.MenuStep | components.py:226-265 | up and down move by one and wrap at the ends; page keys move by ten but stop at the first or last entry; home and end jump to the ends; other keys keep the selection; the result is always a valid entry |
| MenuLists.UpUndoesDown | components.py:229-265 | up after down, and down after up, return to the same entry |
| MenuLists.Slice | components.py:304 | Python slicing: the plain slice when the bounds are in range, the slice up to the end when the upper bound runs past it, never longer than the list |
| MenuLists.SelectedIsDrawn | components.py:301-304 | after scrolling, the selected entry is among the entries drawn, at its own position |
| MenuLists.MenuList.constructor | components.py:201-224 | a new menu keeps its items, actions and title, selects the first entry, and starts at offset 0 with title height 2 |
| MenuLists.MenuList.HandleInput | components.py:226-275 | escape with a "Back" entry returns that entry's action and changes nothing; otherwise the selection moves as specified, the offset scrolls to show it, and enter, newline or carriage return return the selected action; items and actions never change |
| MenuLists.MenuList.Render | components.py:277-304 | the title height is updated when there is a title, the offset scrolls to show the selection, and the entries drawn are the slice from the offset |
| Wrapping.WrapLinesFit | components.py:321-331 | every wrapped line fits the width or holds a single word |
| Wrapping.WrapLinesRejoin | components.py:321-331 | the wrapped lines joined by spaces give back the words joined by spaces, plus a trailing space and a leading space when the first word is too long |
| Wrapping.LongFirstWordBlankLine | components.py:325-331 | a first word of at least `t_width - 1` characters leaves an empty first line and starts a second one |
| Wrapping.WordWrap | components.py:321-331 | the loop produces the lines of the wrapping specification |
| Wrapping.EntryRows | components.py:313-331 | an entry narrower than the width is drawn as one row, a wider one as its wrapped lines |
| Wrapping.WrappedEntryRejoins | components.py:321-331 | no text of an entry is lost or reordered by wrapping |
| Wrapping.WrappedEntryFits | components.py:321-331 | each row of a wrapped entry fits the width or holds a single word |
| Plans.BelowTransitive | states.py:71 | the string order used to sort plan names is transitive |
| Plans.BelowTotal | states.py:71 | any two different plan names are ordered one way or the other |
| Plans.NewestFirstDescending | states.py:71 | sorting in reverse gives the plans in descending name order (newest date first) and is a permutation of them |
| Plans.NoColonNoField | states.py:78 | a line without ':' has no second field, so reading it raises |
| Plans.PlanEntryOfDayLine | states.py:78 | a `Day: value` line reads back as `value` when neither part holds ':' and the value has no surrounding whitespace |
| Scheduler.Bump | states.py:86-90 | every activity not yet found gains one point of priority; names and order are kept |
| Scheduler.AdjustedShape | states.py:66-96 | adjustment keeps every activity's name and position and raises each priority by at most the number of plans |
| Scheduler.ScanLinesFinds | states.py:77-81 | after reading a plan, a name counts as found exactly when it was found before or the plan schedules it; found and remaining names together are always the original names |
| Scheduler.AdjustedMissedPlans | states.py:66-96 | an activity's priority rises by the number of newest plans before the first that schedules it, but never by more than the number of plans read before every name was found |
| Scheduler.NewestPlanKeepsPriority | states.py:71-90 | an activity scheduled in the newest plan keeps its priority |
| Scheduler.UnmentionedGainsPerPlan | states.py:66-96 | an activity no plan schedules gains one point per plan |
| Scheduler.AdjustPriorities | states.py:66-96 | the loop over the plans, newest first, produces the adjustment specification's result, or None where a plan line has no ':' |
| Scheduler.PoolCount | states.py:59-62 | a name appears in the pool as many times as the positive priorities of the activities so named add up to |
| Scheduler.PoolMembers | states.py:59-62 | a name is in the pool exactly when some activity with that name has a positive priority |
| Scheduler.DistinctWeight | states.py:59-62 | with distinct names, each activity appears as many times as its priority, or not at all when the priority is not positive |
| Scheduler.BuildPool | states.py:59-62 | the nested loop builds the pool of the specification |
| Scheduler.GetRandomActivity | states.py:53-64 | the drawn outcome is the specification's: read, adjust, build the pool, pick the draw-th entry |
| Scheduler.RandomActivityChoosesWeighted | states.py:53-64 | the chosen name belongs to an activity whose adjusted priority is positive, and there is nothing to choose exactly when every adjusted priority is at most zero |
| Scheduler.OnePlanExample | states.py:66-96 | with activities X and Y at priority 1 and one plan `Monday: X`, X stays at 1 and Y rises to 2 |
| Scheduler.ReadingGamingExample | states.py:53-64 | the file `Reading,1` / `Gaming,3` with no plans reads back, pools as one Reading and three Gaming, and draws Reading for one draw in four |
| WeekPlanner.PlanLinesSnoc | states.py:153-162 | the k-th combobox gives the k-th weekday's line, the last weekday repeating beyond seven |
| WeekPlanner.ValuesAreShown | states.py:156-158 | the k-th combobox contributes its shown item as the k-th value of the plan |
| WeekPlanner.PlanOf | states.py:151-162 | the loop over the widgets writes one `Day: item` line per combobox, in order, with the shown item |
| WeekPlanner.ExportPlan | states.py:149-171 | the file is named `week_plan_<date>.txt` and holds the plan text of the comboboxes |
| WeekPlanner.PlanReadsBack | states.py:152-162 | an exported plan splits into its day lines, and each line reads back as the value that was exported |
| WeekPlanner.FreshPlannerPlan | states.py:115-137 | a fresh planner has seven comboboxes, each showing the first activity |
| WeekPlanner.NewPlanner | states.py:115-137 | the planner holds the title label, a label and combobox per weekday, and the three buttons, added in turn |
| WeekPlanner.RandomisedKeeps | states.py:139-147 | randomising changes only the comboboxes' indices: selection, items and every other widget are kept |
| WeekPlanner.RandomisedShows | states.py:139-147 | after randomising, the k-th combobox shows the k-th draw |
| WeekPlanner.RandomisedWellFormed | states.py:139-147 | randomising keeps the container well formed |
| WeekPlanner.RandomiseActivities | states.py:139-147 | the loop sets each combobox in turn to the index of its draw, giving the randomising specification |
| WeekPlanner.DrawnNameIsListed | states.py:146-147 | a drawn name is the name of a listed activity, so looking up its index in a combobox built from the activities succeeds |
| WeekPlanner.RandomisedPlannerPlan | states.py:130-171 | exporting a randomised planner writes the first seven draws, one per weekday |
| WeekPlanner.ExportedNamesKeepPriority | states.py:66-96 | an activity written into the newest exported plan keeps its priority at the next adjustment |
| States.History.constructor | states.py:11 | the history starts empty |
| States.Screen.constructor | states.py:14-18 | a new screen joins the end of the history with no next screen; the edit-activities screen gets a fresh list menu of the activity names plus "Back", titled, at the first entry |
| States.Screen.AdvanceState | states.py:43-44 | the next screen becomes the given one |
| States.Screen.RegressState | states.py:46-48 | the newest history entry is dropped, and the one before it becomes the next screen |
| States.Screen.OnRegress | states.py:244-246 | the list menu, where there is one, is refreshed with the current names and the selection moves up one |
| States.Screen.Update | states.py:20-33 | returns the pending next screen and clears it; the returned screen runs on_regress exactly when it is the newest history entry, which refreshes an edit-activities list menu from the current names and otherwise leaves that menu untouched |
| States.Open | states.py:106-108 | opening a screen appends a new screen to the history and makes it the next screen |
| States.ForwardAndBack | states.py:14-51 | opening a screen and then going back shows the new screen and then the old one, leaves the history as it was, and runs on_regress once on each |
| States.ForwardAndBackFrom | states.py:14-51 | from any screen on top of any history, opening a screen and going back hands over the new screen and then that same screen, restores the history, and runs on_regress once more on it, refreshing its list menu |
| States.MenuEntriesMatch | states.py:218-226 | the list menu has one entry per activity name, each editing that activity, followed by "Back" |
| States.EscapeAction | components.py:253-257 | escape in the edit-activities menu opens the activity named "Back" when there is one, otherwise goes back |
| States.CreateListMenu | states.py:218-226 | builds that menu, titled, at the first entry |
| States.RefreshedAfterDelete | states.py:228-241 | after one activity is deleted, the refreshed selection is still a valid entry |
| States.UpdateListMenu | states.py:228-241 | the entries are replaced, the selection moves up one unless it is at the top, and the offset is kept |
| States.FirstNamedFinds | states.py:267-270 | the first activity with a name is found exactly when some activity has that name |
| States.FindPriority | states.py:267-270 | returns the priority of the first activity with the name |
| States.WithoutFirstNamedIs | states.py:287-290 | deleting removes only the first activity with the name, and nothing when there is none |
| States.RemoveNamed | states.py:287-290 | the loop removes the first activity with the name |
| States.DeleteActivity | states.py:284-296 | removes the first activity with the name, writes the rest, and goes back |
| States.DeletedReadsBack | states.py:284-296 | the written file reads back as the activities without the deleted one |
| States.WithPriorityIs | states.py:300-303 | saving sets the priority of the first activity with the name, and changes nothing when there is none |
| States.SetPriority | states.py:300-303 | the loop sets the priority of the first activity with the name |
| States.SaveActivity | states.py:298-306 | sets the priority to the combobox index and writes the activities |
| States.SavedReadsBack | states.py:298-306 | the written file reads back with only that activity's priority changed |
| States.CreateActivity | states.py:321-334 | an unreadable file leaves everything unchanged; otherwise the activities plus the new one are written and the screen goes back |
| States.CreatedReadsBack | states.py:321-334 | for any readable file, the written file reads back as the old activities followed by the new one |
| States.StorableWithout | states.py:284-296 | deleting keeps every name writable |
| States.StorableWithPriority | states.py:298-306 | saving keeps every name writable |

## Left out

- Drawing to the terminal is not modelled: colours, centring, the title rule, cursor positions, `render` of every widget and of the container, `Container.update`, and the recovery path inside `MenuList.render` for drawing past the bottom. `MenuList.Render` returns the entries it would draw, and `Wrapping` models the word wrap.
- `main.py` (the event loop) and `colours.py` are not part of this model.
- File-system access is replaced by parameters. The activities file is its text, the plans directory is a sequence of named plan texts, and writing returns the new text. Opening, listing and creating directories are not modelled.
- The current date is a parameter of `ExportPlan`.
- `random.choice` is a draw number taken modulo the pool size. An empty pool, where Python raises, is the `NothingToChoose` outcome.
- Exceptions become values or preconditions:
  - a bad priority is `Err`;
  - a plan line without ':' makes the adjustment `None`;
  - `RegressState` needs two history entries;
  - `ExportPlan` needs in-range combobox indices;
  - `RandomiseActivities` needs every draw to be one of its combobox's items;
  - `FindPriority` needs the name to be present.
- Day names are the English ones from `calendar.day_name`; other locales are not modelled.
- Universal newlines (`\r` and `\r\n`) and Unicode digits accepted by `int()` are not modelled. Lines split only at `\n`, and `int()` accepts optional surrounding whitespace, an optional sign and ASCII digits with single underscores between them.
- Logging and `curses.flushinp` are not modelled.
- Button callbacks are action tags. `exit` from the Quit button is not modelled.
- The screens other than the week planner and the edit-activities list are not laid out widget by widget: main, random activity, config, week config, edit activity and new activity. Their transitions are the `Open`/`Update`/`RegressState` pattern, and their edit operations are modelled on values.
- `MenuList.width`, `height` and the paddings are not modelled because nothing reads them. The terminal height is a parameter.
- `utils.clamp` is not part of this model; it is taken to be `max(lo, min(x, hi))`.
- Activities are values, so Python's in-place update of a shared `Activity` object is modelled by returning the updated list.
- `States.Screen.OnRegress`, `States.UpdateListMenu`: promise a valid menu only when the old selection was at most one past the new last entry. The source itself can leave the selection past the end when several activities disappear at once.
- `States.SaveActivity`, `States.CreateActivity`: take the combobox index as given. The link from the edit screen's priority combobox (eleven labels, index set from the priority) to this index is not modelled.
- `Components.ComboboxIndex`: the index is an integer, but Python's negative indexing in `Combobox.value` is not modelled. `Exportable` requires an in-range index instead.
