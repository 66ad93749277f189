# Calendar to-do list: task store, link annotation and date keys

This project models the logic inside the single screen of the calendar to-do
application (`MainActivity.java`). The user picks a date on a calendar and
adds, edits or deletes free-text tasks for it. Tasks are kept in a map from a
date key to an ordered list of strings, saved to the application's
preferences as one string set per date, and shown with every web address
turned into a clickable link.

Modules:

- `DecimalText` (decimal_text.dfy): how Java renders an `int` inside a string
  concatenation, and a parser back.
- `DateKeys` (date_keys.dfy): the key `year-(month+1)-day` built by the
  calendar's change listener. It has no zero padding, and a reference parser
  shows that the key determines the date.
- `Links` (links.dfy): the link target for each URL match (`http://` prefixed
  unless a scheme is present) and the loop that sets one span per match.
- `TaskMaps` (task_maps.dfy): the task map as a value. It holds the
  functions that specify add, edit, delete, save and load, and the lemmas
  about them: inverses, the lossy round trip through the set-valued store,
  and the exactness of the list of dates with tasks.
- `Store` (task_store.dfy): class `TaskStore`, holding the activity's fields
  `taskMap`, `datesWithTasks` and the preference store `prefs`. Its methods
  are the handlers, with the loops of `loadTaskMap`, `saveTaskMap` and
  `updateDatesWithTasks`.

The preference store is a field of type `map<string, Option<set<string>>>`.
`None` stands for an entry whose string set reads back as null, which
`loadTaskMap` skips. Java's unordered iteration over `HashMap` keys and
`HashSet` elements is modelled as a nondeterministic choice (`:|`). A loaded
list's order is therefore left open, and only what the code guarantees is
proved about it.

The add handler ignores only the empty string (`isEmpty`, not a trimmed
test). The model follows the code here: a task made of blanks is added.

## Model

| member | source | states |
|---|---|---|
| `DecimalText.NatToString` | calendarapp7/app/src/main/java/com/cookandroid/calendarapp7/MainActivity.java:64 | a number renders as a non-empty digit string with no leading zero (no padding), one digit exactly below ten |
| `DecimalText.ParseNatToString` | calendarapp7/app/src/main/java/com/cookandroid/calendarapp7/MainActivity.java:64 | reading the rendered digits back gives the number: rendering loses nothing |
| `DecimalText.NatToStringParse` | calendarapp7/app/src/main/java/com/cookandroid/calendarapp7/MainActivity.java:64 | every unpadded digit string is the rendering of the number it denotes |
| `DecimalText.NatToStringInjective` | calendarapp7/app/src/main/java/com/cookandroid/calendarapp7/MainActivity.java:64 | distinct numbers render differently |
| `DecimalText.IntToString` | calendarapp7/app/src/main/java/com/cookandroid/calendarapp7/MainActivity.java:64 | an `int` renders as a minus sign exactly when negative, followed by the unpadded digits of its magnitude, which read back as that magnitude |
| `DateKeys.DateKey` | calendarapp7/app/src/main/java/com/cookandroid/calendarapp7/MainActivity.java:64 | for a non-negative year and day (month from -1 up), the key is the three unpadded numbers year, month + 1, day, split by exactly two dashes |
| `DateKeys.MonthComponentUnpadded` | calendarapp7/app/src/main/java/com/cookandroid/calendarapp7/MainActivity.java:64 | for a 0-based month 0..11 the middle component denotes month + 1, never starts with '0', and has one digit exactly for months 0..8 |
| `DateKeys.KeyExample` | calendarapp7/app/src/main/java/com/cookandroid/calendarapp7/MainActivity.java:64 | 2024, month 0, day 2 gives "2024-1-2" |
| `DateKeys.SplitKey` | calendarapp7/app/src/main/java/com/cookandroid/calendarapp7/MainActivity.java:64 | reference splitter, not part of the application, used to read the line-64 key back: it succeeds only at exactly two dashes, giving three dash-free parts that rejoin to the key |
| `DateKeys.ParseDateKeyRoundTrip` | calendarapp7/app/src/main/java/com/cookandroid/calendarapp7/MainActivity.java:64 | parsing a date's key gives back that date, with the month 0-based again |
| `DateKeys.DateKeyOfParse` | calendarapp7/app/src/main/java/com/cookandroid/calendarapp7/MainActivity.java:64 | three unpadded numbers joined by two dashes parse to a date whose key is that very string |
| `DateKeys.DateKeyInjective` | calendarapp7/app/src/main/java/com/cookandroid/calendarapp7/MainActivity.java:64 | two dates share a key only when they are the same date |
| `DateKeys.PaddedSpellingIsAnotherKey` | calendarapp7/app/src/main/java/com/cookandroid/calendarapp7/MainActivity.java:64 | "2024-01-02" parses to the same date as the key "2024-1-2" but is a different string, so it is a different map key |
| `Links.Normalize` | calendarapp7/app/src/main/java/com/cookandroid/calendarapp7/MainActivity.java:201-204 | the link target starts with "http://" or "https://", ends with the matched text, and is at most "http://" longer |
| `Links.NormalizeFixedPoints` | calendarapp7/app/src/main/java/com/cookandroid/calendarapp7/MainActivity.java:202-203 | the target equals the match if and only if the match already starts with "http://" or "https://" |
| `Links.NormalizeIdempotent` | calendarapp7/app/src/main/java/com/cookandroid/calendarapp7/MainActivity.java:202-203 | normalising a target again changes nothing |
| `Links.NormalizeExamples` | calendarapp7/app/src/main/java/com/cookandroid/calendarapp7/MainActivity.java:202-203 | "example.com" gets "http://"; "https://a.com" and "http://b.com" stay as they are |
| `Links.Render` | calendarapp7/app/src/main/java/com/cookandroid/calendarapp7/MainActivity.java:197-205 | the text is unchanged; there is one span per match, in order, over exactly the match's offsets, whose target is the normalised matched text and so always has a scheme; the spans do not overlap |
| `TaskMaps.TasksFor` | calendarapp7/app/src/main/java/com/cookandroid/calendarapp7/MainActivity.java:93-96 | the tasks shown for a date are its list when it has an entry, and are non-empty exactly when the date has a non-empty list; an absent date shows an empty list, never a failure |
| `TaskMaps.ListedIffShown` | calendarapp7/app/src/main/java/com/cookandroid/calendarapp7/MainActivity.java:129-135 | a date is in an exact dates list exactly when selecting it shows some tasks |
| `TaskMaps.Added` | calendarapp7/app/src/main/java/com/cookandroid/calendarapp7/MainActivity.java:69-74 | empty text leaves the map unchanged; otherwise the date's list, created if absent, is its old list with the text as new last element, and every other date is untouched |
| `TaskMaps.Edited` | calendarapp7/app/src/main/java/com/cookandroid/calendarapp7/MainActivity.java:175 | only the element at the position changes, to the new text; the length, the other elements, the keys and the other dates stay |
| `TaskMaps.Deleted` | calendarapp7/app/src/main/java/com/cookandroid/calendarapp7/MainActivity.java:153 | the list is one shorter; elements before the position stay, those after move up by one in the same order; the keys, including this date, and the other dates stay |
| `TaskMaps.ListOf` | calendarapp7/app/src/main/java/com/cookandroid/calendarapp7/MainActivity.java:120 | the list made from a set holds every element of the set exactly once |
| `TaskMaps.ElementsCount` | calendarapp7/app/src/main/java/com/cookandroid/calendarapp7/MainActivity.java:106 | turning a list into a set never adds elements, and keeps its size exactly when the list has no repeated task |
| `TaskMaps.SaveLoadRoundTrip` | calendarapp7/app/src/main/java/com/cookandroid/calendarapp7/MainActivity.java:101-127 | after save then load: the same dates, each with the same set of tasks, empty exactly when it was, never longer; a list comes back as a permutation of itself if and only if it had no duplicates |
| `TaskMaps.LoadSaveRoundTrip` | calendarapp7/app/src/main/java/com/cookandroid/calendarapp7/MainActivity.java:101-127 | saving a freshly loaded map writes back exactly the readable entries of the store |
| `TaskMaps.SavedForgetsOrder` | calendarapp7/app/src/main/java/com/cookandroid/calendarapp7/MainActivity.java:104-108 | two maps with the same dates and the same task sets save to the same store: order and multiplicity are not persisted |
| `TaskMaps.DuplicateTasksCollapse` | calendarapp7/app/src/main/java/com/cookandroid/calendarapp7/MainActivity.java:106-121 | a date holding the same task twice reloads holding it once |
| `TaskMaps.DatesExactUpToOrder` | calendarapp7/app/src/main/java/com/cookandroid/calendarapp7/MainActivity.java:129-135 | two lists that each name the dates with tasks exactly once are permutations of each other |
| `TaskMaps.AddThenDeleteLast` | calendarapp7/app/src/main/java/com/cookandroid/calendarapp7/MainActivity.java:71-74 | deleting the task just added restores the map, except that a date that had no entry keeps an empty one |
| `TaskMaps.EditBack` | calendarapp7/app/src/main/java/com/cookandroid/calendarapp7/MainActivity.java:175 | editing a task and then editing it back to its old text restores the map |
| `TaskMaps.EditKeepsDates` | calendarapp7/app/src/main/java/com/cookandroid/calendarapp7/MainActivity.java:172-178 | an edit keeps the list of dates with tasks exact, which is why the edit handler need not recompute it |
| `TaskMaps.DeleteOnlyTask` | calendarapp7/app/src/main/java/com/cookandroid/calendarapp7/MainActivity.java:151-156 | deleting a date's only task leaves the date mapped to an empty list, not removed, and out of the dates with tasks |
| `TaskMaps.AddShowsDate` | calendarapp7/app/src/main/java/com/cookandroid/calendarapp7/MainActivity.java:74-78 | after a non-empty add, the date is among the dates with tasks and its shown list ends with the new task |
| `Store.TaskStore.constructor` | calendarapp7/app/src/main/java/com/cookandroid/calendarapp7/MainActivity.java:56-58 | opening the screen keeps the given store and loads the map from it, with the dates list exact |
| `Store.TaskStore.Load` | calendarapp7/app/src/main/java/com/cookandroid/calendarapp7/MainActivity.java:112-127 | leaves the store alone; the map has one list per readable entry, holding that set's elements once each, and skips the unreadable ones; the dates list names exactly the dates with non-empty lists, each once |
| `Store.TaskStore.Save` | calendarapp7/app/src/main/java/com/cookandroid/calendarapp7/MainActivity.java:101-110 | the store is overwritten: its keys are exactly the map's dates, each holding the set of that date's tasks |
| `Store.TaskStore.UpdateDatesWithTasks` | calendarapp7/app/src/main/java/com/cookandroid/calendarapp7/MainActivity.java:129-135 | the dates list names exactly the dates with non-empty lists, each once |
| `Store.TaskStore.Add` | calendarapp7/app/src/main/java/com/cookandroid/calendarapp7/MainActivity.java:68-79 | empty text changes nothing; otherwise the map becomes `Added` of the old one, the store holds its save, and the dates list is exact |
| `Store.TaskStore.Edit` | calendarapp7/app/src/main/java/com/cookandroid/calendarapp7/MainActivity.java:164-178 | an absent date or a position out of range is reported (the dialog fails when it opens) and changes nothing, whatever the text; otherwise empty text is ignored, and non-empty text always succeeds: the map becomes `Edited` of the old one, the store holds its save, and the dates list stays as it was and stays exact |
| `Store.TaskStore.Delete` | calendarapp7/app/src/main/java/com/cookandroid/calendarapp7/MainActivity.java:150-157 | an absent date is a no-op; a position out of range is reported and changes nothing; a present date with a valid position always succeeds: the map becomes `Deleted` of the old one, the store holds its save, and the dates list is exact |
| `Store.Reopen` | calendarapp7/app/src/main/java/com/cookandroid/calendarapp7/MainActivity.java:56-58 | reopening after a save gives the same dates with the same task sets and the same dates with tasks up to order; a list comes back as a permutation of itself exactly when it had no repeated task |

## Left out

- Android user-interface wiring is not modelled: the calendar and list views, the adapters and their view recycling, the dialogs, `LinkMovementMethod` and `notifyDataSetChanged`. `TaskMaps.TasksFor` models only the lookup of `loadTasksForSelectedDate` (lines 93-96).
- Preference I/O and the asynchronous `editor.apply()` are not modelled. The store is the field `prefs`, and the write takes effect at once.
- The `Patterns.WEB_URL` regular expression is platform code. Its matches are an input: in-range `(start, end)` ranges in left-to-right, non-overlapping order.
- Match offsets are character indices into the task string. Java's `matcher.start()` and `end()` count UTF-16 code units, so a task with a character outside the Basic Multilingual Plane (an emoji, say) before a URL has different offsets in the source.
- The initial key from `SimpleDateFormat("yyyy-MM-dd", Locale.getDefault())` (lines 60-61) depends on the locale and a library. It is not modelled. `DateKeys.PaddedSpellingIsAnotherKey` shows that a zero-padded spelling is a different key for the same date.
- The long-press handler uses the screen's `selectedDate` field (line 212), while the dates list's click handler shows a different date (line 88). This coupling of UI state is not modelled. Edit and delete take the date as a parameter.
- Opening the edit dialog reads the task at the position to pre-fill its input (line 169). `Store.TaskStore.Edit` models the failure of that read, for an absent date or a bad position, before the text is looked at. It does not model the pre-filled text itself, which is display only.
- Exceptions are modelled as values. On edit, an absent date (a NullPointerException in the source) and a position out of range (an IndexOutOfBoundsException) are returned as `Outcome` values, and so is a position out of range on delete. The state is then unchanged. In the source they end the handler, and with it the application.
- DateKeys.DateKey: does not model the 32-bit wrap-around of `month + 1`, because the calendar passes months 0..11. The round-trip lemmas cover non-negative years and days only. A negative year would render with a leading minus sign, which the reference parser does not read.
- The order of HashMap keys and HashSet elements is not modelled. Loading, saving and recomputing the dates list pick keys and elements in an unspecified order, and the contracts hold for every order.
