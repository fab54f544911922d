# Task manager: task state on the page and on the server

A model, in Dafny, of the state logic of a small task-tracking web
application: a Flask server that keeps a `tasks` table, and a browser page
(static/js/scripts.js) that lists, filters and edits the tasks through a JSON
API.

The page side:

- **timers** (`Timers`, `TimerObjects`): the per-task stopwatches behind the
  Start/Pause/Reset buttons, their one-second ticks, and the stop on
  completion.
- **cache** (`TaskCache`): the page's copy of the task list (`allTasks`),
  patched after a successful progress or notes save.
- **card view** (`CardView`): the search filter, the notes preview and the
  tag chips of a card.
- **drag reorder** (`DragReorder`): the drop rule of drag-and-drop and the
  order array it sends.
- **card lines** (`CardLines`): the element children of a card, and where
  the progress save and mark-complete write the status text.
- **clock** (`Clock`): the `HH:MM:SS` display of a duration.

The server side:

- **handlers** (`TaskTable`): a class holding the table as a map from
  primary key to row, with one method per handler that changes it: progress,
  mark complete, time, notes, reorder and add. The dashboard tally and the
  next display order are methods with loops.
- **rules** (`ServerRules`): the row rules those handlers apply, and the
  filtered, sorted listing of `/api/tasks` and `/tasks`.

`ListOrder` joins the two sides. When the user drags over the unfiltered
list and the server accepts the order array, the default listing gives back
the cards in the order the user left them.

Supporting modules:

- `Text`: the JavaScript string operations the page uses, namely
  `toLowerCase`, `includes`, `split`, `join` and `trim`.
- `Records`: the row and JSON record types.
- `Wrappers`: `Option`.
- `Sets`: a witness for a non-empty set.

Time is in seconds and dates are day numbers. Wall-clock time, the network
and the DOM are parameters:

- `today` is the current date.
- `ok` is whether the response was OK.
- `cardShown` is whether the task's card is on the page.
- `pauseShown` is whether the card still shows the timer's Pause button
  when the task is marked complete.
- `newId` is the key the database assigns.
- `user` is the signed-in user.

A successful mark-complete (static/js/scripts.js:258-298) does not touch
`allTasks`; only the next fetch refreshes the cache, so `TaskCache.Cache`
has no completion method.

The page and the server also disagree on status after a progress save.
Below 100 the page always writes "Status: In Progress" on the card
(`CardLines.StatusLandsOnDueDate` says where) and "In Progress" into its
cache. The server keeps a Pending task Pending.
`TaskCache.ProgressStatusAgreement` states exactly when the two agree.

## Model

| member | source | states |
|---|---|---|
| Text.Lower | static/js/scripts.js:163-165 | `toLowerCase`, letter by letter over the ASCII letters |
| Text.Contains | static/js/scripts.js:163-165 | `includes`: the needle occurs at some position of the string |
| Text.LowerIdempotent | static/js/scripts.js:163 | lower-casing twice is lower-casing once |
| Text.ContainsEmpty | static/js/scripts.js:163 | the empty search text occurs in every string |
| Text.LowerOccursAt | static/js/scripts.js:163-165 | an occurrence of a string is still an occurrence after both are lower-cased |
| Text.Split | static/js/scripts.js:185 | `split` on a one-character separator gives at least one piece |
| Text.JoinSplit | static/js/scripts.js:185 | joining the pieces of a split with the same separator gives back the string |
| Text.SplitPiecesFree | static/js/scripts.js:185 | no piece of a split holds the separator |
| Text.SplitCount | static/js/scripts.js:185 | a split has one more piece than the string has separators |
| Text.SplitPieceOccurs | static/js/scripts.js:185 | every piece of a split occurs in the string |
| Text.SplitJoin | static/js/scripts.js:185 | separator-free pieces, joined and split again, come back unchanged |
| Text.Trim | static/js/scripts.js:185 | the trimmed string neither starts nor ends with white space |
| Text.TrimKeepsMiddle | static/js/scripts.js:185 | trim keeps one contiguous part of the string and drops only white space on either side |
| Text.TrimFixed | static/js/scripts.js:185 | a string without white space at its ends is its own trim |
| Text.TrimIdempotent | static/js/scripts.js:185 | trimming twice is trimming once |
| Clock.FormatTime | static/js/scripts.js:24-29 | the page's display: floored hours, JavaScript's truncating remainder for minutes and seconds, each padded to two digits and joined by `:` (its properties are the `FormatTime*` and `ExportAgreesWithPage` rows) |
| Clock.ExportFormatTime | app.py:291-295 | the export's display: Python's floor division and floor remainder, each field padded to two digits and joined by `:` |
| Clock.NatToString | static/js/scripts.js:25-27 | `toString` of a natural number is a non-empty string of decimal digits |
| Clock.NatToStringValue | static/js/scripts.js:25-27 | the digits of `n` read back as `n` |
| Clock.Pad2Field | static/js/scripts.js:25-27 | a padded number is a field of at least two digits, holds no `:`, reads back as the number, and is exactly two characters below 100 |
| Clock.FormatTimeFields | static/js/scripts.js:24-29 | for a non-negative duration `formatTime` gives three `:`-separated fields, minutes and seconds below 60, adding up to the duration |
| Clock.FormatTimeWidth | static/js/scripts.js:24-29 | below 100 hours the display is exactly eight characters |
| Clock.FormatTimeInjective | static/js/scripts.js:24-29 | different non-negative durations are displayed differently |
| Clock.FormatTimeExample | static/js/scripts.js:24-29 | 3661 seconds display as `01:01:01` |
| Clock.ExportAgreesWithPage | app.py:291-295 | the export's `format_time` and the page's `formatTime` agree on every non-negative duration |
| Clock.ExportDiffersOnNegative | app.py:291-295 | on -1 second the page shows `-1:-1:-1` and the export writes `-1:59:59` |
| ServerRules.Access | app.py:214-216 | `get_or_404` then the owner check, as every JSON handler does them (also app.py:230-232, 240-242, 251-253, 262-264): 404 for a missing row, 403 for another user's row, success otherwise |
| ServerRules.RequestedProgress | app.py:266 | `data.get('progress', task.progress)`: the supplied value, or the stored progress when the key is missing |
| ServerRules.ProgressOf | app.py:267 | the progress a JSON value stands for: an integer from 0 to 100 as itself, `true` as 1 and `false` as 0, anything else refused |
| ServerRules.WithProgress | app.py:269-273 | the row after an accepted progress: the progress stored, Completed at 100, a Completed task below 100 back to In Progress, other statuses kept |
| ServerRules.ProgressReply | app.py:258-268 | the reply of `update_progress`: 404 for a missing row, 403 for another user's row, 400 for a refused progress, success otherwise |
| ServerRules.ProgressValidation | app.py:266-268 | the progress is accepted exactly when it is an integer in [0, 100] or a boolean, or is missing while the stored progress is in [0, 100] |
| ServerRules.ProgressStatusRule | app.py:269-273 | 100 completes the task, below 100 a completed task becomes In Progress, otherwise the status stays; nothing but progress and status changes |
| ServerRules.ProgressMakesConsistent | app.py:266-273 | after an accepted progress the row has progress in [0, 100] and is Completed exactly at 100, whatever it was before |
| ServerRules.MarkCompleted | app.py:217-218 | the row after mark-complete: status Completed and progress 100 |
| ServerRules.MarkCompletedFacts | app.py:217-218 | a completed row is consistent and never overdue; only status and progress change |
| ServerRules.WithTime | app.py:244 | the row after `update_time`: the supplied time, or the row unchanged when the key is missing |
| ServerRules.WithNotes | app.py:255 | the row after `update_notes`: the supplied notes (null included), or the row unchanged when the key is missing |
| ServerRules.TimeAndNotesFacts | app.py:244-255 | time and notes take the supplied value or keep the old one when the key is missing, change nothing else, and keep a consistent row consistent |
| ServerRules.SetOrder | app.py:233 | one `task.order = order`: that row takes the entry's order, every other row is kept |
| ServerRules.ReorderReply | app.py:227-232 | the reply of `reorder_tasks`: the first entry whose task is missing (404) or not the user's (403) decides; success when there is none |
| ServerRules.ApplyOrders | app.py:227-233 | the rows after `reorder_tasks`: the entries applied in list order, each setting its task's order, so a later entry for the same task wins |
| ServerRules.ReorderReplySuccess | app.py:227-232 | the reorder succeeds exactly when every listed task exists and belongs to the user |
| ServerRules.ApplyOrdersKeepsRest | app.py:227-233 | the order assignments keep the set of rows and change nothing but `order` |
| ServerRules.ApplyOrdersUnlisted | app.py:227-233 | a task the request does not list keeps its row |
| ServerRules.ApplyOrdersListed | app.py:227-233 | when no id is listed twice, each listed task gets the order supplied for it |
| ServerRules.Selected | app.py:125-129 | the `filter_by` of the listing: the user's task, with the category and the status each either `all` or equal to the task's |
| ServerRules.KeyLeq | app.py:130-137 | the `order_by` of the listing: due date ascending or descending, priority in binary string order, or display order for any other sort |
| ServerRules.StrLeqTotal | app.py:134-135 | the priority string order is total |
| ServerRules.StrLeqTrans | app.py:134-135 | the priority string order is transitive |
| ServerRules.KeyLeqTotal | app.py:130-137 | each of the four sort orders is total |
| ServerRules.KeyLeqTrans | app.py:130-137 | each of the four sort orders is transitive |
| ServerRules.SortIds | app.py:130-138 | the ids come out each once, all of them, in sort order |
| ServerRules.QueryRows | app.py:125-138 | the query returns exactly the user's stored rows that pass the category and status filters, each once, in sort order |
| ServerRules.ApiTasks | app.py:139-153 | the `/api/tasks` body: the JSON of each row of the filtered, sorted query, in query order |
| ServerRules.ApiTasksSorted | app.py:125-153 | the JSON list is in query order, so it is sorted by the requested key |
| ServerRules.ApiTasksListing | app.py:139-153 | `/api/tasks` lists as many tasks as pass the filters, only the user's, each once, each as the JSON of its stored row, overdue exactly when the due date has passed and the task is not Completed |
| ServerRules.ApiTasksComplete | app.py:125-153 | every one of the user's tasks that passes the filters is listed |
| ServerRules.TallyStart | app.py:281-282 | the starting counts hold the three choices at zero and tally the empty list |
| ServerRules.TallyStep | app.py:283-285 | one `counts.get(x, 0) + 1` step keeps the counts equal to the occurrences and their sum equal to the number of tasks |
| Records.IsOverdue | app.py:152 | a task is overdue when its due date is before today and it is not Completed |
| Records.ToJson | app.py:140-153 | a row's JSON: every column of the row and the overdue flag |
| TaskTable.NewRow | app.py:161-171 | the new row carries every field of the form, the owner and the order, with time spent 0, no notes and progress 0 |
| TaskTable.NextOrder | app.py:160 | the order is above every order of the user's tasks and one past the largest, or 1 when the user has no task |
| TaskTable.Dashboard | app.py:280-285 | both tallies start from their three choices and count every task under its status and its priority, adding up to the number of tasks |
| TaskTable.Table.constructor | models.py:21-35 | the table starts with the given rows, each stored under its own id |
| TaskTable.Table.UpdateProgress | app.py:259-275 | 404 for a missing row, 403 for another user's, 400 for a rejected progress; on success only that row changes, by the status rule, and it ends consistent; on failure nothing changes |
| TaskTable.Table.MarkComplete | app.py:211-220 | 404 or 403 change nothing; on success only that row becomes Completed at 100 and consistent |
| TaskTable.Table.UpdateTime | app.py:237-246 | 404 or 403 change nothing; on success only that row's time spent changes, to the supplied value when present |
| TaskTable.Table.UpdateNotes | app.py:248-257 | 404 or 403 change nothing; on success only that row's notes change, to the supplied value or null when present |
| TaskTable.Table.ReorderTasks | app.py:222-235 | the reply is that of the first missing or foreign entry; on success every entry's order is stored, on failure nothing is |
| TaskTable.Table.AddTask | app.py:155-176 | one new row under the fresh key, with order one past the largest order of the user's tasks, or 1 when the user had none; the other rows are unchanged |
| CardView.NotesPreview | static/js/scripts.js:186 | absent or empty notes read "None", up to 20 characters are shown whole, longer notes are cut to 20 characters plus "..." |
| CardView.PreviewIsPrefix | static/js/scripts.js:96 | the preview is at most 23 characters and, without the ellipsis, starts the notes |
| CardView.PreviewForgetsTail | static/js/scripts.js:186 | long notes that share their first 20 characters have the same preview |
| CardView.TagChips | static/js/scripts.js:185 | no chips for absent or empty tags, else one trimmed chip per comma-separated piece |
| CardView.TagChipsShape | static/js/scripts.js:185 | there is one chip more than there are commas; no chip holds a comma or has white space at its ends, and every chip occurs in the tags |
| CardView.TagChipsJoin | static/js/scripts.js:185 | trimmed, comma-free chips joined by commas come back as exactly those chips |
| CardView.Matches | static/js/scripts.js:163-165 | a task matches when its lower-cased title, or its non-empty tags, or its non-empty notes contain the lower-cased search text |
| CardView.Filter | static/js/scripts.js:162-166 | the result holds exactly the cached tasks whose title, tags or notes contain the search text ignoring case, and is no longer than the list |
| CardView.FilterConcat | static/js/scripts.js:162-166 | filtering a concatenation is the concatenation of the filtered parts, so the order is kept |
| CardView.FilterEmptySearch | static/js/scripts.js:162-166 | an empty search shows every task |
| CardView.FilterIgnoresCase | static/js/scripts.js:162-166 | searches that differ only in case show the same tasks |
| CardView.FilterIdempotent | static/js/scripts.js:162-166 | filtering twice with the same search is filtering once |
| CardView.ChipFindsTask | static/js/scripts.js:164 | searching for one of a task's tag chips finds the task |
| DragReorder.IndexOf | static/js/scripts.js:327-328 | `indexOf` gives the first position holding the element |
| DragReorder.OrderArray | static/js/scripts.js:334-337 | one entry per card, in card order, with that card's id |
| DragReorder.OrderArrayPositions | static/js/scripts.js:334-337 | the orders sent are 1, 2, ..., n in list order |
| DragReorder.Slot | static/js/scripts.js:327-333 | where the dragged card goes once it is taken out: just after the target when it was above the target, just before the target otherwise |
| DragReorder.Moved | static/js/scripts.js:325-333 | the cards after a drop: the dragged card taken out and put back at its slot |
| DragReorder.MovedIsPermutation | static/js/scripts.js:325-333 | the drop keeps the same cards, each once, and the other cards keep their relative order |
| DragReorder.MovedPlacement | static/js/scripts.js:329-333 | dragged forward, the card lands right after the target; dragged backward, right before it |
| DragReorder.MovedExamples | static/js/scripts.js:329-333 | the first of three cards dropped on the last gives 2 3 1; the last dropped on the first gives 3 1 2 |
| DragReorder.OrderArrayStored | static/js/scripts.js:334-337 | once the server stores the order array, each card's task has that card's position plus one as its order |
| DragReorder.TaskList.constructor | static/js/scripts.js:326 | the list starts with the given distinct cards |
| DragReorder.TaskList.Drop | static/js/scripts.js:319-337 | a drop on another listed card moves the dragged card by the drop rule and returns the new order array; any other drop changes nothing and sends nothing |
| ListOrder.StoredOrders | app.py:227-233 | storing the order array keeps every row and owner and gives card k's task order k + 1 |
| ListOrder.CardOrder | app.py:136-138 | a listing sorted by order that holds each card's task once, with its card position plus one as order, lists exactly the cards in card order |
| ListOrder.ReorderedListComesBack | static/js/scripts.js:334-337 | after a drag over the unfiltered list is stored, the default listing returns the tasks in exactly the card order |
| Timers.Current | static/js/scripts.js:107 | the stored timer, or a stopped one seeded from the card's displayed time |
| Timers.AfterStart | static/js/scripts.js:109-118 | a stopped timer starts from the seconds it holds; a running one is left alone; other timers and the saves are unchanged |
| Timers.AfterTick | static/js/scripts.js:111-115 | a tick adds exactly one second to a running timer and saves nothing |
| Timers.AfterPause | static/js/scripts.js:119-124 | pause stops the timer with its seconds unchanged and saves exactly those seconds |
| Timers.AfterReset | static/js/scripts.js:125-135 | reset from any state stops the timer at 0 and saves 0 |
| Timers.AfterComplete | static/js/scripts.js:274-281 | completion stops a running timer and saves its seconds when the Pause button is still shown; without it the timer is stopped and nothing is saved; a stopped or absent timer is untouched |
| Timers.StartIdempotent | static/js/scripts.js:110 | starting twice is starting once, so there is never a second ticker |
| Timers.StartTicksPause | static/js/scripts.js:109-124 | start, n ticks and pause save the starting seconds plus n and leave the timer stopped there |
| Timers.Ticks | static/js/scripts.js:111-115 | n ticks leave the timer running with n more seconds and save nothing |
| Timers.TimerRegistry.constructor | static/js/scripts.js:23 | no timers and no saves |
| Timers.TimerRegistry.Start | static/js/scripts.js:109-118 | the registry moves as `AfterStart` says |
| Timers.TimerRegistry.Tick | static/js/scripts.js:111-115 | the registry moves as `AfterTick` says |
| Timers.TimerRegistry.Pause | static/js/scripts.js:119-124 | the registry moves as `AfterPause` says |
| Timers.TimerRegistry.Reset | static/js/scripts.js:125-135 | the registry moves as `AfterReset` says |
| Timers.TimerRegistry.Complete | static/js/scripts.js:274-281 | the registry moves as `AfterComplete` says |
| TimerObjects.Fresh | static/js/scripts.js:23 | no stored timers and no live intervals |
| TimerObjects.Seeded | static/js/scripts.js:107 | a task without a stored object gets a new one seeded from the card's time; nothing else changes |
| TimerObjects.StartAsWritten | static/js/scripts.js:109-118 | the Start button as written keeps the page well formed |
| TimerObjects.Start | static/js/scripts.js:109-118 | the intended Start button keeps the page well formed |
| TimerObjects.Tick | static/js/scripts.js:111-115 | an interval callback keeps the page well formed |
| TimerObjects.Pause | static/js/scripts.js:119-124 | the Pause button keeps the page well formed |
| TimerObjects.Reset | static/js/scripts.js:125-135 | the Reset button keeps the page well formed |
| TimerObjects.Complete | static/js/scripts.js:274-281 | the completion stop clears the stored object's interval, and saves its seconds only when the Pause button is still shown; the page stays well formed |
| TimerObjects.PauseBeforeFirstTick | static/js/scripts.js:107-124 | as written, a pause before the first tick saves the time but leaves the interval running, and a second start adds a second interval for the same task |
| TimerObjects.ResetBeforeFirstTick | static/js/scripts.js:107-135 | as written, a reset before the first tick shows 0, but the next tick shows the old time plus one |
| TimerObjects.PauseBeforeFirstTickFixed | static/js/scripts.js:107-124 | with the intended start, the same pause saves 0 and stops the only interval, and the second start leaves exactly one ticker for the task |
| TimerObjects.ResetBeforeFirstTickFixed | static/js/scripts.js:107-135 | with the intended start, the same reset shows 0 and leaves no interval that could tick the old time back |
| TimerObjects.OneTicker | static/js/scripts.js:110 | in a coherent page a task has at most one live interval |
| TimerObjects.FreshCoherent | static/js/scripts.js:23 | the fresh page is coherent |
| TimerObjects.StartCoherent | static/js/scripts.js:109-118 | the intended start keeps every live interval tied to its task's stored timer |
| TimerObjects.TickCoherent | static/js/scripts.js:111-115 | a tick keeps the page coherent |
| TimerObjects.PauseCoherent | static/js/scripts.js:119-124 | a pause keeps the page coherent |
| TimerObjects.ResetCoherent | static/js/scripts.js:125-135 | a reset keeps the page coherent |
| TimerObjects.CompleteCoherent | static/js/scripts.js:274-281 | the completion stop keeps the page coherent |
| TimerObjects.StartRefines | static/js/scripts.js:109-118 | on a coherent page the intended start does what `Timers.AfterStart` says |
| TimerObjects.TickRefines | static/js/scripts.js:111-115 | on a coherent page a tick does what `Timers.AfterTick` says |
| TimerObjects.PauseRefines | static/js/scripts.js:119-124 | on a coherent page a pause does what `Timers.AfterPause` says |
| TimerObjects.ResetRefines | static/js/scripts.js:125-135 | on a coherent page a reset does what `Timers.AfterReset` says |
| TimerObjects.CompleteRefines | static/js/scripts.js:274-281 | on a coherent page the completion stop does what `Timers.AfterComplete` says |
| CardLines.Card | static/js/scripts.js:174-194 | the card's seventeen element children in order, each with its tag and text; the Due Date line is the seventh, the Status line the eighth |
| CardLines.StatusText | static/js/scripts.js:69 | the text written for a status: `Status: ` and the status |
| CardLines.SelectPNthChild | static/js/scripts.js:68 | `p:nth-child(n)` on a card: the n-th child when it is a `p`, otherwise nothing |
| CardLines.SetText | static/js/scripts.js:68-69 | setting the selected element's text, or nothing when no element matches |
| CardLines.StatusLandsOnDueDate | static/js/scripts.js:68-69 | as written, the status text replaces the Due Date line, the Status line keeps the drawn status, and no other line changes |
| CardLines.StatusLandsOnDueDateExample | static/js/scripts.js:68-69 | a Pending task saved below 100: the Due Date line reads "Status: In Progress" while the Status line reads "Status: Pending" |
| CardLines.StatusLineFixed | static/js/scripts.js:174-183 | selecting the eighth child turns the card into exactly the card of the task with its new status |
| TaskCache.FindIndex | static/js/scripts.js:73 | `find` gives the first cached task with the id, or none when no task has it |
| TaskCache.PageStatus | static/js/scripts.js:74 | the page's status after a progress save: Completed at 100, In Progress otherwise |
| TaskCache.ProgressStatusAgreement | static/js/scripts.js:74 | the page's status after a save equals the server's exactly when the progress is 100 or the task was Completed or In Progress |
| TaskCache.Cache.constructor | static/js/scripts.js:154 | the cache starts empty with no notes dialog bound |
| TaskCache.Cache.Load | static/js/scripts.js:159 | the cache becomes the fetched list |
| TaskCache.Cache.SaveProgress | static/js/scripts.js:58-79 | on OK with the card shown, the handler writes the progress and the page status `Status: …` on the card (where that text lands is `CardLines.StatusLandsOnDueDate`), the button is disabled exactly at 100, and only the first cached task with the id takes progress and status; otherwise the cache is unchanged |
| TaskCache.Cache.OpenNotes | static/js/scripts.js:82-85 | the dialog is bound to the task and shows its notes, or the empty string when it has none |
| TaskCache.Cache.SaveNotes | static/js/scripts.js:86-102 | on OK with the card shown, the preview shows the new notes and only the dialog's first cached task takes them; otherwise the cache is unchanged |
| TaskCache.CachedProgressMatchesServer | static/js/scripts.js:73-74 | after a progress save the patched cache entry agrees with the server's row in every field but status and the overdue flag |

## Findings

| source | as written | input that shows it | evidently intended | confidence | as-written member | corrected member |
|---|---|---|---|---|---|---|
| static/js/scripts.js:109-118 | Start puts the started `timerState` into `timers` only in the first tick callback, one second later | On task 7 (card time 0): Start, then Pause before a second passes, then Start. The pause acts on a new object and saves 0, but interval 1 keeps running. The second start adds interval 2 for the same task. | Start stores the object it starts, so Pause, Reset and completion find the running timer | not executed | TimerObjects.PauseBeforeFirstTick | TimerObjects.PauseBeforeFirstTickFixed |
| static/js/scripts.js:68-69 | The progress save writes the status text into `p:nth-child(7)`, which is the card's Due Date line; mark-complete does the same at line 269 | A Pending task with its progress moved to 50: the Due Date line reads "Status: In Progress" and the Status line still reads "Status: Pending" | The text goes into the Status line, the eighth child | not executed | CardLines.StatusLandsOnDueDate | CardLines.StatusLineFixed |
| static/js/scripts.js:125-135 | Reset before the first tick resets a new object, and the old interval stores the old object back on its next tick | On task 7 (card time 5): Start, then Reset within the first second. The card shows 0, and the next tick shows 6. | Reset stops the running interval and the time stays at 0 | not executed | TimerObjects.ResetBeforeFirstTick | TimerObjects.ResetBeforeFirstTickFixed |

The intended behaviour is proved in two layers:

- `TimerObjects.Start` stores the object. With it, every handler keeps the
  page `Coherent` (`StartCoherent` … `CompleteCoherent`), and `OneTicker`
  shows that a task has at most one live interval.
- Every handler then does what module `Timers` says (`StartRefines` …
  `CompleteRefines`). `Timers.TimerRegistry` is the class built on that
  intended behaviour.

## Left out

- DOM rendering, the HTTP transport and real timers are left out. Responses
  enter as the `ok` parameter, the presence of a task's card as `cardShown`,
  and the one-second interval as an explicit tick.
- The Start/Pause button labels are not modelled, except for the one place
  a missing Pause button changes the state: every redraw of the list draws
  a Start button, so after a redraw while a timer runs, mark-complete stops
  the timer and then throws before `saveTime`. The completion stop takes
  that as `pauseShown`; whether the button is shown is not derived from the
  redraws.
- The slider's immediate display of the value is not modelled.
- The notifications, the animations and the delayed refetch after
  mark-complete are not modelled.
- The theme toggle and the form styling checks are not modelled.
- The order of overlapping responses is not modelled. Each operation is
  modelled once its response has arrived.
- Authentication, registration, the reminder mail, and editing and deleting
  tasks are not modelled.
- The CSV export is not modelled, apart from its `format_time`.
- The template rendering of `/tasks` is not modelled. Its query is the same
  as the one `ServerRules.QueryRows` models.
- Dates are day numbers. Formatting a date as `%Y-%m-%d` is not modelled.
- `Text.Lower` maps only the ASCII letters. Full Unicode case mapping, and
  UTF-16 code units versus code points in `substring` and `length`, are not
  modelled.
- ServerRules.QueryRows: rows with equal sort keys come out in some order,
  which the model picks. The database defines no order for them, so the
  contract does not fix one.
- The priority sort uses binary string order. Other database collations are
  not modelled.
- Request bodies that are not JSON objects, and a missing `id` or `order`
  key in a reorder entry, are not modelled. These are rejected or fail with
  a server error.
- CardLines: task text (title, description, category, tags, notes) is
  taken to hold no markup. The list interpolates it into the card's HTML
  unescaped, so markup in it can add `p` children or nest them, and then
  `p:nth-child(7)` picks another line than the model says; this is not
  modelled. The same holds for the rendered `CardView.NotesPreview`, whose
  20-character cut can split a tag. After a notes save the preview is set as
  plain text, so markup shows literally until the next redraw.
- ServerRules.SetOrder: the entry's `order` is taken as an integer. The
  handler stores any JSON value there unchecked (a string, a fraction), and
  the model does not cover non-integer orders.
- TaskTable.Table.UpdateTime: the supplied `time_spent` is taken as an
  integer. The handler stores any JSON value there unchecked, and the model
  does not cover non-integer values.
- TaskTable.Table.UpdateNotes: the supplied notes are a string or null. Other
  JSON values, which the handler would store unchecked, are not modelled.
- Form validation is WTForms' work. `TaskTable.Table.AddTask` receives an
  already valid form, and the database supplies the fresh key as `newId`.
- TaskTable.Dashboard: it takes the user's tasks as a sequence, which is the
  result of the `filter_by(user_id=...)` query.
- The search feedback "Found n task(s)" is the length of `CardView.Filter`'s
  result. The text itself is not modelled.
- A successful mark-complete does not update the page's cache, so no model
  operation does.
- ListOrder.ReorderedListComesBack: it covers a drag over the unfiltered
  list, which shows every task of the user. After a drag over a filtered or
  searched list, the order array holds only the shown cards, and the lemma
  says nothing about that case.
