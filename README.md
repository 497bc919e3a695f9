# Personal goal tracker: scheduler, recommender and goal-list updates

This project models the logic of the `ProgressTracker` page of a client-side
goal tracker. Users create goals with a date span. Each goal has an ordered list
of tasks, and each task has a duration weight. When a goal is created, its span
is split among its tasks in proportion to their weights. The page also shows
"today's task" across all goals and updates the goal list immutably (toggle,
delete, add, reorder).

Modules:

- `Domain` (`domain.dfy`): the `Task`, `Goal` and `UserData` records, the draft
  goal and the task form. Dates are whole day numbers.
- `Text` (`text.dfy`): JavaScript's `trim`. Its result is empty exactly when the
  string is blank.
- `Seqs` (`seqs.dfy`): `filter`, and `splice` on a copy (`RemoveAt`, `InsertAt`,
  `Moved`).
- `Scheduler` (`scheduler.dfy`): the left-to-right cursor pass of `createGoal`.
  It is a method with a loop (`ScheduleTasks`), proved equal to a recursive
  specification (`Schedule`). Lemmas about that specification prove:
  - the ranges are contiguous from the goal start;
  - each task's span is the exact ceiling share;
  - the last task over-runs the goal end by less than the number of tasks.
- `Recommender` (`recommender.dfy`): the first-match scan for today's task. It
  is a method with a loop and an early return (`CurrentRecommendation`), proved
  equal to `Recommend`. Lemmas characterise `Recommend` completely: it is the
  first goal with a current task, paired with that goal's first eligible task,
  and there is none exactly when no goal has one.
- `Goals` (`goals.dfy`): the `map`/`filter` rebuilds of the goal list and the
  draft, and the drag reorder. Each rebuild has a partner lemma:
  - toggling twice gives back the list;
  - with distinct ids, a delete removes exactly one element and keeps the order;
  - deleting a freshly added task gives back the list;
  - removing the draft task just added gives back the draft;
  - moving a goal back undoes the move.
- `Tracker` (`tracker.dfy`): the page state (`userData`, the `newGoal` draft,
  the `newTask` fields) as a class. Each event handler is a method that applies
  the functions above, guarded as the page guards it.

The weight expression `Math.ceil((duration / totalDuration) * totalDays)` is
modelled as an exact ceiling division `CeilDiv(duration * totalDays,
totalDuration)` over integers. Nothing clamps the schedule to the goal's end
date, and nothing checks that the end is on or after the start. So `totalDays`
may be negative and the last task may end after the goal. The model keeps both
behaviours.

Behaviours of the page that the model keeps:

- Deleting a task or goal removes every entry with that id. With distinct ids
  (as `randomUUID` gives) that is a single entry; see `DeleteGoalRemovesOne`
  and `DeleteTaskRemovesOne`.
- Goal creation does not require end ≥ start. Durations typed into the number
  field may be negative (`parseInt(...) || 1` only replaces 0 and NaN). Task
  ranges are ordered when start ≤ end and every duration is at least 1
  (`ScheduleRangesOrdered`). Otherwise a task may end before it starts:
  durations 1, 2, 3 over a goal ending 9 days before its start get spans −1,
  −3 and −4 (`ScheduleBackwardsExample`).
- A toggle, delete or add for an id that does not exist leaves the goal list
  unchanged and raises no error (an add still resets the task fields); see
  `DeleteGoalUnknown` and `DeleteTaskUnknown`.

## Model

| member | source | states |
|---|---|---|
| Text.Trim | app/page.tsx:210-211 | trim's result is empty iff every character is JavaScript whitespace; it is the infix left once a whitespace-only prefix and a whitespace-only suffix are dropped, and it neither starts nor ends with whitespace |
| Scheduler.CeilDiv | app/page.tsx:264 | the result is the ceiling of a/b: for b > 0, (q-1)·b < a ≤ q·b, and mirrored for b < 0 |
| Scheduler.TotalDuration | app/page.tsx:259 | with durations of at least 1, the summed duration is at least the number of tasks (so it is non-zero when there are tasks) |
| Scheduler.Schedule | app/page.tsx:261-273 | the scheduling pass yields exactly one dated task per draft task |
| Scheduler.ScheduleAt | app/page.tsx:261-273 | task i gets id ids[i], keeps the draft's title, duration and completed flag, and runs from the cursor plus the spans of tasks 0..i-1 to the cursor plus the spans of tasks 0..i |
| Scheduler.ScheduleIsContiguous | app/page.tsx:261-266 | every task is dated; the first starts at the goal start; each later task starts where the previous one ended; task i lasts ceil(duration_i · totalDays / totalDuration) days |
| Scheduler.ScheduleKeepsTasks | app/page.tsx:262-273 | scheduling keeps the task count and order and changes no title, duration or completion; it only adds ids and dates |
| Scheduler.SpanSumBracket | app/page.tsx:258-265 | the summed spans, times the total weight, lie between the exact share (total weight · totalDays) and that plus one weight unit short of a day per task |
| Scheduler.ScheduleOverruns | app/page.tsx:258-266 | with a non-zero total weight, the last task ends at or after start + totalDays and at most (number of tasks − 1) days later, since nothing clamps it |
| Scheduler.ScheduleRangesOrdered | app/page.tsx:258-266 | with start ≤ end and every duration ≥ 1, every scheduled task ends on or after its start day |
| Scheduler.ScheduleExample | app/page.tsx:258-273 | durations 1, 2, 3 over a 9-day span are dated 0–2, 2–5 and 5–10: the last task ends one day past the goal end |
| Scheduler.ScheduleBackwardsExample | app/page.tsx:253-266 | with the end 9 days before the start (nothing rejects it), durations 1, 2, 3 are dated 0 to −1, −1 to −4 and −4 to −8: every task ends before it starts |
| Scheduler.ScheduleTasks | app/page.tsx:255-274 | the cursor loop produces exactly the dated tasks of `Schedule` for totalDays = end − start and the summed durations |
| Recommender.FindCurrentTask | app/page.tsx:354-357 | a found task is in the list, not completed, dated, and its range contains today; none is found iff no task is eligible |
| Recommender.FindCurrentTaskIsFirst | app/page.tsx:354-357 | the task found is the first eligible one in list order |
| Recommender.Recommend | app/page.tsx:352-365 | a recommendation pairs a listed goal whose inclusive range contains today with one of its tasks that is eligible today |
| Recommender.RecommendNoneIff | app/page.tsx:352-365 | there is no recommendation iff no goal both contains today and has an eligible task |
| Recommender.RecommendIsFirst | app/page.tsx:352-363 | the recommendation is the first goal with a current task (earlier goals that contain today but have no eligible task are skipped), paired with its first eligible task |
| Recommender.CurrentRecommendation | app/page.tsx:346-366 | without a user there is no recommendation; otherwise the early-return loop returns exactly `Recommend` of the user's goals |
| Goals.ToggleTask | app/page.tsx:296-310 | only the completed flag of the task with the id, inside the goal with the id, flips; every other goal, task and field is unchanged and lengths are kept |
| Goals.ToggleTaskTwice | app/page.tsx:299-307 | toggling the same task twice restores the original goal list |
| Goals.CompletedCount | app/page.tsx:368-371 | the completed count is at most the task count; it equals it iff all tasks are completed and is 0 iff none is |
| Goals.ToggleTasksCount | app/page.tsx:303 | with distinct task ids, toggling a task moves the goal's completed count by exactly one, down if the task was completed and up otherwise |
| Goals.DeleteGoal | app/page.tsx:312-318 | the remaining goals are exactly the goals whose id differs from the deleted id, and the list does not grow |
| Goals.DeleteGoalRemovesOne | app/page.tsx:316 | with distinct ids, deleting goal k's id removes exactly goal k and keeps the others in order |
| Goals.DeleteGoalUnknown | app/page.tsx:316 | deleting an id no goal carries leaves the list unchanged |
| Goals.DeleteTask | app/page.tsx:320-334 | goals other than the matching one are unchanged, the matching goal changes only in its tasks, and no task list grows |
| Goals.DeleteTaskMembers | app/page.tsx:327 | the matching goal keeps exactly its tasks whose id differs from the deleted id |
| Goals.DeleteTaskUnknown | app/page.tsx:320-334 | deleting a task id that no goal holds leaves the goal list unchanged |
| Goals.DeleteTaskRemovesOne | app/page.tsx:323-331 | with distinct task ids, deleting task k of a goal removes exactly that task and keeps its siblings in order |
| Goals.AddTaskToGoal | app/page.tsx:227-244 | a blank title changes nothing; otherwise the matching goal gains exactly one task at its end, undated and not completed, with the form's title and duration, and every other goal is unchanged |
| Goals.AddThenDeleteTask | app/page.tsx:230-240 | deleting the task just added under a fresh id restores the goal list |
| Goals.AddDraftTask | app/page.tsx:217-225 | a blank title leaves the draft's tasks unchanged; otherwise exactly one not-completed task with the form's title and duration is appended |
| Goals.RemoveDraftTask | app/page.tsx:246-251 | an in-range index removes exactly that draft task and keeps the others in order; any other index changes nothing |
| Goals.RemoveAddedDraftTask | app/page.tsx:217-251 | removing the draft task at the old length after adding one gives back the original draft tasks |
| Seqs.Moved | app/page.tsx:339-341 | the moved list is a permutation of the original; the moved element lands at the destination; the other elements keep their relative order |
| Seqs.MovedBack | app/page.tsx:339-341 | moving the element back from the destination to the source restores the list |
| Goals.Reorder | app/page.tsx:336-344 | without a destination the list is unchanged; otherwise the two splices on a copy produce exactly `Moved(goals, source, destination)` |
| Tracker.ProgressTracker.constructor | app/page.tsx:160-194 | the page starts with the stored user data (if any), an empty draft and the default task fields |
| Tracker.ProgressTracker.SubmitName | app/page.tsx:209-215 | a non-blank name starts a user with the trimmed name and no goals; a blank one changes nothing |
| Tracker.ProgressTracker.AddTaskToNewGoal | app/page.tsx:217-225 | the draft's tasks become `AddDraftTask` of the fields, which reset only when the title was not blank |
| Tracker.ProgressTracker.RemoveTaskFromNewGoal | app/page.tsx:246-251 | the draft's tasks become `RemoveDraftTask` at the index; the other draft fields are kept |
| Tracker.ProgressTracker.AddTaskToExistingGoal | app/page.tsx:227-244 | without a user or with a blank title nothing changes, the fields included; otherwise the goals become `AddTaskToGoal` and the fields reset |
| Tracker.ProgressTracker.CreateGoal | app/page.tsx:253-294 | unless the title is non-blank, both dates are set and there is a user, nothing changes; otherwise one goal with the scheduled tasks is appended after the existing goals and the draft is cleared |
| Tracker.ProgressTracker.ToggleTask | app/page.tsx:296-310 | with a user, the goals become `ToggleTask` of them; without one nothing changes |
| Tracker.ProgressTracker.DeleteGoal | app/page.tsx:312-318 | with a user, the goals become `DeleteGoal` of them; without one nothing changes |
| Tracker.ProgressTracker.DeleteTask | app/page.tsx:320-334 | with a user, the goals become `DeleteTask` of them; without one nothing changes |
| Tracker.ProgressTracker.OnDragEnd | app/page.tsx:336-344 | without a destination or a user nothing changes; otherwise the goals become `Moved` from source to destination |

## Left out

- Reading and writing `localStorage`, JSON (de)serialisation and rebuilding `Date` objects on load (app/page.tsx:175-207) are browser I/O. The constructor takes the stored data as a parameter, and saving is the assignment of the new user data.
- Refreshing `selectedGoal` after a save (app/page.tsx:200-206), the dialog flags, and the input `onChange` handlers (including `parseInt(...) || 1` for the duration) are UI state. The task fields hold whatever the inputs produced.
- `formatDate` (app/page.tsx:142-158) depends on the wall clock and on locale formatting.
- The percentage returned by `getGoalProgress` is floating point. Only the completed count and the task count are modelled.
- Dates are whole day numbers. Time zones and DST are not modelled, and neither is the gap between a `YYYY-MM-DD` date parsed as UTC midnight and "today" set to local midnight. Nor is a non-empty but unparsable date string (Invalid Date).
- Scheduler.ScheduleTasks: the model divides exactly. Floating-point rounding of `(duration / total) * totalDays` can land just above a whole number, and `Math.ceil` would then add a day. This is not modelled.
- Scheduler.ScheduleTasks: requires a non-zero duration sum when there are tasks. In the source a zero sum (reachable only with negative durations) divides by zero and stores Invalid Date, which the model does not represent.
- Tracker.ProgressTracker.CreateGoal: has the same non-zero duration-sum requirement as ScheduleTasks. It also takes one fresh task id per draft task from the caller.
- Goals.Reorder: requires the source and destination indices to lie in the list, as the drag library reports them. JavaScript `splice`'s clamping and negative indices are not modelled for other values.
- `crypto.randomUUID()` ids and the `new Date()` creation time are parameters. Distinct ids are a hypothesis of the lemmas that need them.
- Goals.AddTaskToGoal: takes one `freshId` and gives it to every goal whose id matches, whereas the source calls `randomUUID()` once per matching goal inside the `map` callback (app/page.tsx:232-236). The two agree whenever goal ids are distinct.
- The JSX, dialogs, drag-and-drop wiring, SVG icons and `InteractiveButton` (app/page.tsx:37-139 and 375-774) are presentation. So is app/layout.tsx, which holds only metadata, fonts and the HTML shell.
