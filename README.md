# MiniTasks reminder core, modelled in Dafny

MiniTasks is a small desktop to-do widget built with Qt. It stores task
records (`text`, `isCompleted`, `alarmTime` in epoch milliseconds, 0 = no
alarm) in a JSON file. Each new or edited text goes through a
deadline parser that recognises phrases like "in 15m" or "in exactly 2 hours".
Three views share the records:

- a popup list that puts urgent records first and completed ones last;
- a side panel listing the upcoming alarms, nearest first;
- a floating button whose icon turns urgent while an alarm is overdue.

This project models that core and proves what it promises.

- `Wrappers.dfy`: `Option`.
- `Text.dfy`: `QString::trimmed` and the `QChar::isSpace` character set.
- `SmartParser.dfy`: `SmartParser::parse`.
  - A hand-written scanner for its single regular expression.
  - An independent declarative description of what the expression accepts
    (`IsOccurrence`), with soundness and completeness lemmas linking the two.
  - "First match wins" stated as "the leftmost occurrence decides".
- `ParserExamples.dfy`: worked inputs of the parser. Among them are upper case,
  "exactly", an amount of 0, "within" (no word boundary) and "months" (no unit
  boundary).
- `Storage.dfy`: the JSON document model, `load`/`saveInternal`, their round
  trip, and the class `TaskStorage`.
  - The class owns the file contents and has the five read-modify-write
    operations.
  - Each operation is proved against a specification function on sequences.
- `Popup.dfy`: the popup side.
  - The urgency predicate and the three-tier comparator.
  - `std::stable_sort` as an in-place insertion sort on an `array`, proved
    equal to a reference ordering. That ordering is itself proved sorted, a
    permutation and stable.
  - Text elision and the `realIndex` back-reference search.
  - The class `TaskPopup` (`reloadTasks`, `scrollToTask`, `onReturnPressed`).
- `Schedule.dfy`: the side panel.
  - The upcoming filter and the unstable sort by alarm time, proved to give a
    sorted permutation.
  - The class `SidePanel`.
- `Button.dfy`: the class `FloatingButton`.
  - The urgency flag with a counter of icon loads, so that edge triggering can
    be stated.
  - `checkAlarms`, `updateSvgState`, the initial state, the five edit handlers
    and the forwarding of scroll requests.

Inputs from outside the program become parameters:

- the clock is a `now` argument;
- the contents of `tasks.json` are an `Option<Json>` field (`None` = missing,
  unreadable or not JSON).

## Model

| member | source | states |
|---|---|---|
| `Text.Trim` | src/TaskStorage.cpp:73 | The result has no `QChar::isSpace` character at either end, and it is empty exactly when the input is all white space. |
| `Text.TrimCutsSpaceOnly` | src/TaskStorage.cpp:73 | The result is a slice of the input, with only `QChar::isSpace` characters cut from either end. |
| `Text.CutTwice` | src/TaskStorage.cpp:73 | Cutting whitespace off the start and then off the end of what is left cuts only whitespace off both ends. |
| `Text.TrimFixes` | src/TaskStorage.cpp:73-75 | Trimming leaves a text unchanged if and only if it has no space at either end. |
| `Text.TrimIdempotent` | src/TaskPopup.cpp:173 | Trimming twice is trimming once. |
| `SmartParser.Parse` | src/utils/SmartParser.cpp:5-32 | The clean text is the input unchanged, and the deadline is either 0 or strictly after `now`. |
| `SmartParser.UnitUnique` | src/utils/SmartParser.cpp:11 | At most one unit alternative can end at a word boundary at a given position, so the alternatives' order never changes the capture. |
| `SmartParser.UnitAtFinds` | src/utils/SmartParser.cpp:11 | The scanner's unit step finds every unit alternative that is present and followed by a boundary. |
| `SmartParser.MatchAtSound` | src/utils/SmartParser.cpp:11-12 | Whenever the scanner matches at a position, there is an occurrence of the pattern starting there, with the same amount and unit. |
| `SmartParser.MatchAtComplete` | src/utils/SmartParser.cpp:11-12 | Every occurrence of the pattern is matched by the scanner at its start, with its amount and its unit. |
| `SmartParser.FirstMatchIsLeftmost` | src/utils/SmartParser.cpp:12 | The match used is at the smallest position where the scanner matches; no match means no position matches. |
| `SmartParser.ContributionIsUnitMs` | src/utils/SmartParser.cpp:18-23 | The milliseconds added are the amount times 60000 for minute spellings and times 3600000 for hour spellings. |
| `SmartParser.ParseWithoutOccurrence` | src/utils/SmartParser.cpp:14-31 | A text with no occurrence of the pattern gets no alarm. |
| `SmartParser.LeftmostOccurrenceFound` | src/utils/SmartParser.cpp:12 | The match taken is the leftmost occurrence, with its amount and unit. |
| `SmartParser.ParseUsesLeftmost` | src/utils/SmartParser.cpp:14-28 | The deadline is `now + amount * unit-ms` of the leftmost occurrence, or 0 when its amount is 0. |
| `ParserExamples.Leftmost` | src/utils/SmartParser.cpp:12 | An occurrence with no word-initial "in" before it is the leftmost one. |
| `ParserExamples.NoAnchorNoAlarm` | src/utils/SmartParser.cpp:14-31 | A text without a word-initial "in" gets no alarm. |
| `ParserExamples.BuyMilk` | src/utils/SmartParser.cpp:5-32 | "buy milk" gets no alarm. |
| `ParserExamples.Within` | src/utils/SmartParser.cpp:11 | "within 5 min" gets no alarm: `\b` is required before "in". |
| `ParserExamples.Ping` | src/utils/SmartParser.cpp:11-26 | "ping in 15m" gets `now + 900000`. |
| `ParserExamples.Meeting` | src/utils/SmartParser.cpp:11-26 | "meeting in 2 hours" gets `now + 7200000`. |
| `ParserExamples.WaitZero` | src/utils/SmartParser.cpp:25 | "wait in 0 minutes" matches, but a zero amount gives no alarm. |
| `ParserExamples.UpperCase` | src/utils/SmartParser.cpp:11-16 | "IN 5 MIN" matches case-insensitively and gets `now + 300000`. |
| `ParserExamples.Exactly` | src/utils/SmartParser.cpp:11 | "in exactly 5 min" gets `now + 300000`. |
| `ParserExamples.FirstOfTwo` | src/utils/SmartParser.cpp:12 | In "in 5m or in 2h" the first phrase wins, giving `now + 300000`. |
| `ParserExamples.Months` | src/utils/SmartParser.cpp:11 | "in 5 months" gets no alarm, because no unit is followed by a word boundary. |
| `Storage.Encode` | src/TaskStorage.cpp:22-31 | The document is an array with one object per record, in order, holding the three fields. |
| `Storage.Decode` | src/TaskStorage.cpp:52-66 | Anything other than a JSON array decodes to no records. |
| `Storage.ItemRoundTrip` | src/TaskStorage.cpp:58-63 | An object written for a record reads back as that record. |
| `Storage.DecodeSkipsNonObject` | src/TaskStorage.cpp:56-57 | An array element that is not an object is skipped, wherever it is. |
| `Storage.DecodeObject` | src/TaskStorage.cpp:56-63 | Each object element yields one record, in its place. |
| `Storage.ItemOfFields` | src/TaskStorage.cpp:59-63 | Each field is read on its own, for any object. A present field of the right JSON type gives its value. A missing or mistyped `text`, `isCompleted` or `alarmTime` reads as "", false or 0. |
| `Storage.RoundTrip` | src/TaskStorage.cpp:22-66 | Loading what `saveInternal` wrote gives back the same records. |
| `Storage.NewItem` | src/TaskStorage.cpp:75-77 | A new record keeps its text, is not completed, and has no alarm or one after `now`. |
| `Storage.Added` | src/TaskStorage.cpp:71-79 | A blank text changes nothing. Otherwise one record is appended after the unchanged old ones, with the trimmed text, not completed, and the parsed alarm of the trimmed text. |
| `Storage.Updated` | src/TaskStorage.cpp:81-93 | A blank text or a bad index changes nothing. Otherwise only the record at the index changes: it gets the trimmed text and the re-parsed alarm and keeps its flag. |
| `Storage.WithCompleted` | src/TaskStorage.cpp:95-103 | A bad index changes nothing; otherwise only that record's flag is set. |
| `Storage.Snoozed` | src/TaskStorage.cpp:105-118 | A bad index or a record without an alarm changes nothing. Otherwise only that record's alarm becomes `max(alarm, now) + 1800000`. |
| `Storage.Removed` | src/TaskStorage.cpp:120-129 | A bad index changes nothing; otherwise that record is erased and the rest shift down in order. |
| `Storage.SnoozeBounds` | src/TaskStorage.cpp:111-115 | A snoozed alarm is after `now`, at least 30 minutes after the old alarm, and exactly 30 minutes after one of them. Text and flag are unchanged. |
| `Storage.SetCompletedIdempotent` | src/TaskStorage.cpp:95-103 | Setting the same flag twice is setting it once. |
| `Storage.AddKeepsTextsTrimmed` | src/TaskStorage.cpp:73-77 | If every stored text is non-empty and trimmed, that stays true after an add. |
| `Storage.UpdateKeepsTextsTrimmed` | src/TaskStorage.cpp:83-90 | The same invariant survives an update. |
| `Storage.OthersKeepTextsTrimmed` | src/TaskStorage.cpp:95-129 | The same invariant survives setCompleted, snooze and remove. |
| `Storage.TaskStorage.Load` | src/TaskStorage.cpp:41-69 | Returns the records the file holds, object elements only, in order. |
| `Storage.TaskStorage.SaveInternal` | src/TaskStorage.cpp:22-39 | The file becomes the encoding of the records, and reading it back gives those records. |
| `Storage.TaskStorage.Add` | src/TaskStorage.cpp:71-79 | A blank text leaves the file untouched. Otherwise the file holds `Added` of the old records. |
| `Storage.TaskStorage.Update` | src/TaskStorage.cpp:81-93 | A blank text or a bad index leaves the file untouched. Otherwise the file holds `Updated` of the old records. |
| `Storage.TaskStorage.SetCompleted` | src/TaskStorage.cpp:95-103 | A bad index leaves the file untouched. Otherwise the file holds `WithCompleted` of the old records. |
| `Storage.TaskStorage.Snooze` | src/TaskStorage.cpp:105-118 | A bad index or a record without an alarm leaves the file untouched. Otherwise the file holds `Snoozed` of the old records. |
| `Storage.TaskStorage.Remove` | src/TaskStorage.cpp:120-129 | A bad index leaves the file untouched. Otherwise the file holds `Removed` of the old records. |
| `Popup.Tier` | src/TaskPopup.cpp:90-99 | Tier 0 exactly for urgent records (pending, with an alarm, `now >= alarm`) and tier 2 exactly for completed ones; all others are tier 1. |
| `Popup.Comes` | src/TaskPopup.cpp:90-99 | The comparator says "a before b" exactly when a's tier is lower than b's, so equal tiers are never reordered. |
| `Popup.InTierTier` | src/TaskPopup.cpp:89-99 | Every record picked for a tier is of that tier. |
| `Popup.InTierNone` | src/TaskPopup.cpp:89-99 | A list with no record of a tier contributes nothing to it. |
| `Popup.OrderedSorted` | src/TaskPopup.cpp:89-99 | The display order goes urgent, then pending, then completed. |
| `Popup.OrderedPermutation` | src/TaskPopup.cpp:87-90 | The display order holds the same records, with the same multiplicities. |
| `Popup.OrderedStable` | src/TaskPopup.cpp:98 | Within each tier the records keep their store order. |
| `Popup.TiersPartition` | src/TaskPopup.cpp:89-99 | Every record is in exactly one of the three tiers. |
| `Popup.OrderedSnoc` | src/TaskPopup.cpp:90 | Adding a record at the end of the input puts it at the end of its own tier's group. |
| `Popup.InsertStep` | src/TaskPopup.cpp:90 | Inserting the next record after the last entry of its tier or a lower one gives the ordering of the longer input. |
| `Popup.InsertLast` | src/TaskPopup.cpp:90 | The swap loop moves the last element down just past the entries of higher tier. The rest of the array is untouched. |
| `Popup.StableSortByTier` | src/TaskPopup.cpp:87-99 | Sorting the array in place leaves exactly the stable tier ordering of its old contents. |
| `Popup.ExampleOrder` | src/TaskPopup.cpp:89-99 | [A pending, B urgent, C done] is shown as [B, A, C]. |
| `Popup.Elide` | src/TaskItemWidget.cpp:41-45 | Texts up to 90 characters are shown whole. Longer ones are shown as their first 86 characters followed by "...", 89 characters in all. |
| `Popup.FirstIndexOf` | src/TaskPopup.cpp:126-132 | The result is -1 exactly when the value does not occur. Otherwise it is an index holding the value, with no earlier index holding it. |
| `Popup.FindRealIndex` | src/TaskPopup.cpp:126-132 | The search loop with `break` returns the first index of a record equal in all three fields, or -1. |
| `Popup.RowsBackReference` | src/TaskPopup.cpp:101-134 | Every row's back-reference is in range and points at exactly the record that row displays. It is `FirstIndexOf` that record, so duplicates share the first copy's index. The row's urgency flag is the urgency predicate, and a completed row is never urgent. |
| `Popup.SortedCopy` | src/TaskPopup.cpp:87-99 | The copy holds the records in display order. |
| `Popup.BuildRows` | src/TaskPopup.cpp:75-143 | The rows are the display order, each tagged with its back-reference, urgency and elided text. |
| `Popup.TaskPopup.ReloadTasks` | src/TaskPopup.cpp:75-143 | The list is rebuilt as `RowsFor` of the records; the input field and visibility are untouched. |
| `Popup.TaskPopup.ScrollToTask` | src/TaskPopup.cpp:145-169 | The reported row is the first one carrying the target back-reference; none is reported when no row carries it. |
| `Popup.TaskPopup.OnReturnPressed` | src/TaskPopup.cpp:171-178 | Blank input emits nothing and keeps the field. Otherwise the trimmed input is emitted, non-empty and trimmed, and the field is cleared. |
| `Schedule.UpcomingMembers` | src/SidePanel.cpp:74-79 | An entry is selected if and only if its index is in range, it carries the record stored there, and that record is pending with an alarm at or after `now`. |
| `Schedule.UpcomingIndicesIncrease` | src/SidePanel.cpp:74-77 | The selection lists each store index at most once, in increasing order. |
| `Schedule.CollectUpcoming` | src/SidePanel.cpp:71-79 | The collecting loop produces exactly `Upcoming`. |
| `Schedule.SinkLast` | src/SidePanel.cpp:82-84 | The swap loop moves the last entry down just past the larger alarm times; the rest is untouched. |
| `Schedule.SpliceSorted` | src/SidePanel.cpp:82-84 | Splicing an entry between the alarm times not above it and the larger ones keeps a sorted list sorted. |
| `Schedule.SortStep` | src/SidePanel.cpp:82-84 | One insertion round keeps the prefix sorted and adds exactly the next entry. |
| `Schedule.SortByAlarm` | src/SidePanel.cpp:82-84 | After the sort the entries are non-decreasing in alarm time and are a permutation of the old ones. |
| `Schedule.ScheduleMembers` | src/SidePanel.cpp:74-92 | Any permutation of the selection holds exactly the upcoming records, each with its store index. |
| `Schedule.BoundaryInBothLists` | src/SidePanel.cpp:76 | A record is both upcoming and urgent exactly when it is pending and its alarm is a positive time equal to `now`. |
| `Schedule.SidePanel.ReloadSchedule` | src/SidePanel.cpp:66-95 | The list is a permutation of the upcoming entries, non-decreasing by alarm time. The panel remembers which records and time it shows. |
| `Schedule.SidePanel.OnItemClicked` | src/SidePanel.cpp:57-63 | A click emits the store index stored in the clicked entry. After a reload, that index is in range for the records shown, holds the clicked record, and that record is upcoming. |
| `Button.ScanForUrgent` | src/FloatingButton.cpp:259-268 | The loop with `break` reports whether some record is urgent. |
| `Button.UrgentIffTopTier` | src/FloatingButton.cpp:263-266 | The icon's urgency is exactly "the popup's urgent group is non-empty". |
| `Button.InTierContains` | src/TaskPopup.cpp:89-99 | A record of a tier makes that tier's group non-empty. |
| `Button.FloatingButton.constructor` | src/FloatingButton.cpp:23-81 | The flag starts at true and is flipped to Normal with one icon load, then checked at once. It ends as the urgency of the stored records, after one load (two if urgent). |
| `Button.FloatingButton.UpdateSvgState` | src/FloatingButton.cpp:275-278 | The flag becomes the argument, and an icon is loaded only when it changes. |
| `Button.FloatingButton.CheckAlarms` | src/FloatingButton.cpp:257-273 | The flag becomes the urgency of the stored records, and the icon reloads only on a change. |
| `Button.FloatingButton.Refresh` | src/FloatingButton.cpp:215-218 | After reload, the popup rows, the schedule and the flag all reflect the stored records, and the popup's input field and visibility are kept. |
| `Button.FloatingButton.HandleTaskAdded` | src/FloatingButton.cpp:212-219 | The store holds `Added` of the old records, and both views and the flag reflect the new records. The popup's input field and visibility are unchanged. |
| `Button.FloatingButton.HandleTaskDeleted` | src/FloatingButton.cpp:221-228 | The store holds `Removed` of the old records, and both views and the flag reflect the new records. The popup's input field and visibility are unchanged. |
| `Button.FloatingButton.HandleTaskEdited` | src/FloatingButton.cpp:230-237 | The store holds `Updated` of the old records, and both views and the flag reflect the new records. The popup's input field and visibility are unchanged. |
| `Button.FloatingButton.HandleTaskDone` | src/FloatingButton.cpp:239-246 | The store holds `WithCompleted` of the old records, and both views and the flag reflect the new records. The popup's input field and visibility are unchanged. |
| `Button.FloatingButton.HandleTaskSnoozed` | src/FloatingButton.cpp:248-255 | The store holds `Snoozed` of the old records, and both views and the flag reflect the new records. The popup's input field and visibility are unchanged. |
| `Button.FloatingButton.OnScrollTargetRequested` | src/FloatingButton.cpp:46-50 | A scroll request reaches the popup only while it is visible, and then scrolls to the first matching row. |
| `Button.MarkDoneScenario` | src/FloatingButton.cpp:239-273 | One overdue pending record makes the button urgent. Marking it done makes it normal with exactly one more icon load, and a later check keeps it normal. |
| `Button.QuietStartScenario` | src/FloatingButton.cpp:23-81 | With nothing urgent the button starts normal after exactly one icon load, and a recheck loads nothing. |

## Left out

- File I/O is left out: opening, reading and writing `tasks.json`, the data
  directory, and the silent drop of a write when the file cannot be opened
  (src/TaskStorage.cpp:12-20, 34-38). The file is an `Option<Json>` value.
- JSON numbers are integers. `alarmTime` passes through a double
  (`toDouble`, then a cast back), and values at or above 2^53 or with fractions
  are not modelled.
- `SmartParser.Parse`: does not model the 32-bit `int` overflow of
  `amount * 60` and `amount * 60 * 60`, which are formed before widening. Nor
  does it model `toInt` returning 0 on an overflowing digit string. The amount
  and the deadline are unbounded integers.
- `SmartParser.Parse`: the regular expression is modelled with ASCII `\s`, `\d`
  and `\w`, and case-insensitivity as ASCII lower-casing. Unicode case folding
  (for example U+017F matching 's') is not modelled, and neither is a general
  regular-expression engine; the one pattern is hand-coded.
- `Popup.Elide`: it counts Dafny characters, where Qt counts UTF-16 code units.
  The two differ for characters outside the Basic Multilingual Plane.
- The clock: every handler takes one `now`. The source reads the clock
  separately in the parser, in `snooze`, in each view's reload and in
  `checkAlarms`, so successive steps may see slightly different times.
- The 15-second alarm timer (src/FloatingButton.cpp:78-80) is left out: each
  timer tick is one call of `CheckAlarms`. The `HH:mm` labels of the side
  panel (src/SidePanel.cpp:87-88) are left out: the model keeps the alarm time
  itself.
- Window behaviour is left out:
  - `togglePopup`, dragging and the click deadzone (src/FloatingButton.cpp:101-204);
  - the 150 ms toggle suppression, the saved button position and the blur
    effects (src/FloatingButton.cpp:52-92);
  - the font-metric row heights (src/TaskPopup.cpp:111-120);
  - the scroll-into-view and the one-second highlight (src/TaskPopup.cpp:153-165);
  - focus handling, the edit modal and all styling.

  The popup's visibility is a plain field set by the window system.
- `Popup.TaskPopup.ScrollToTask`: it reports which row the list scrolls to. It
  does not model the scrolling itself or the highlight flash.
- The signal and slot wiring is direct method calls: the popup's signals
  become the handler calls of `FloatingButton`.
- The root-level copies of `TaskStorage`, `TaskPopup`, `FloatingButton`,
  `SidePanel` and `TaskItemWidget` are an older snapshot that does not
  compile together. The `src/` versions are the ones modelled.
