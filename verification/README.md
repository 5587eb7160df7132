# Airbnb cleaning-agent scheduler: a verified model of its two routines

The airbnb-agent service reads a property's booking calendar and finds the
free windows between reservations (`CalendarAgent.findAvailableSlots`). It
then packs maintenance tasks (cleaning, repairs) into those windows in
priority order, inside working hours (`PlannerAgent.schedule`). This
project models both routines in Dafny and proves what they promise.

- `calendar.dfy`, module `Calendar`: the availability sweep.
  - The recursive function `Sweep` states what the sweep emits.
  - The method `FindAvailableSlots` is the source's `for` loop, with its
    moving cursor, early `continue` and `break`, and the tail gap. It is
    proved equal to `Sweep`.
  - Lemmas prove that every window is longer than 30 minutes and lies in
    `[now, horizon]`.
  - For well-formed bookings (each starts before it ends), the windows come
    out in order and do not overlap.
  - For well-formed bookings sorted by start, no window overlaps a booking.
  - For any bookings, every stretch of more than 30 minutes in
    `[now, horizon]` that no booking touches lies inside some window.
  - Further lemmas cover the skip, merge and horizon rules.
- `priority.dfy`, module `TaskOrder`: the priority sort.
  - `ByPriority` is the result of a stable sort by priority: the high tasks,
    then the medium ones, then the low ones, each group in input order.
  - `SortByPriority` is an in-place insertion sort on an array, proved to
    produce exactly `ByPriority`. `ByPriority` is proved to be sorted, a
    permutation of its input, and stable.
- `planner.dfy`, module `Planner`: the packer.
  - Specification functions state what the loops compute:
    - `Search` is the day-by-day search inside one window. It is proved
      to find a start before which the window holds no valid start, and
      to fail only when the window holds no valid start at all;
    - `ScanLanes` tries the windows in order;
    - `AssignTask` places one task;
    - `Assign` places the tasks one after another.
  - The methods mirror the source's nested loops over an array of windows,
    each window with its own cursor (`currentPointer`):
    - `TryLane` is the `while` loop inside one window;
    - `PlaceTask` is the `for` loop over the windows;
    - `Schedule` is the `for` loop over the tasks.
  - The lemmas prove these properties of every placement:
    - it has exactly its task's duration;
    - it starts at a clock hour in [08, 18) and ends by 18:00 that day;
    - it lies inside its window, after that window's earlier placements;
    - placements follow the priority order;
    - every task is either placed once or reported once as not scheduled;
    - a task longer than the ten-hour work day is never placed.
- `pipeline.dfy`, module `Pipeline`: one polling round.
  - The sweep's windows are handed to the scheduler, as `src/daemon.ts`
    does.
  - Over well-formed bookings sorted by start, no two placements overlap,
    no placement overlaps a booking, and all lie within `[now, horizon]`.
- `seqs.dfy`, module `Seqs`: one sequence fact used by the proofs.

Time model:
- Instants are integers counting minutes. `HOUR` is 60 and `DAY` is 1440.
- Every day has the same length: midnight is a multiple of `DAY`.
- The clock hour of `t` is `(t % DAY) / HOUR`.
- `setHours(h, 0, 0, 0)` becomes `AtHour`. `setDate(+1)` followed by
  `setHours(8, 0, 0, 0)` becomes `NextDayAt`.

How the model renders the source's outputs:
- `schedule` (src/planner.ts:107) returns only the placed tasks. Unplaced
  tasks are reported only through `console.warn` (src/planner.ts:95, 103).
  Here the warnings are returned as a list of `Warning` values, and
  `Dropped(warnings)` lists the unplaced tasks.
- The work day is fixed at 08:00 to 18:00 (src/planner.ts:41-42). It is not
  a parameter.
- A task longer than the work day draws one `SplitNeeded` warning for each
  window where the search actually tries a day, not one in total.
- A valid start for a task in a window (`ValidStart`) is a moment at or
  after the window's cursor and before the window's end. The task must end
  by the window's end and by 18:00 of its own date, and must start at 08:00
  or later.
- One placement is not a valid start: the loop guard (src/planner.ts:61) is
  tested before the snap to 08:00 (lines 63-65), so a zero-minute task can
  be placed exactly at the end of a window that closes at 08:00 (line 82).
  `ZeroMinuteAtWindowEnd` shows it.

## Model

| member | source | states |
|---|---|---|
| Calendar.FindAvailableSlots | src/calendar.ts:55-111 | The loop emits exactly `Sweep(bookings, now, horizon)`. Every window is longer than 30 minutes and lies in `[now, horizon]`. Over well-formed bookings the windows are in order and disjoint; over well-formed bookings sorted by start they avoid every booking. Every booking-free stretch of more than 30 minutes within `[now, horizon]` lies inside some window. With no bookings the result is the single window `[now, horizon]` when that is longer than 30 minutes, else nothing. |
| Calendar.SweepSound | src/calendar.ts:61-107 | Collects the sweep's guarantees (bounds, order, avoidance, no free time missed, empty-input result) for any bookings, `now` and horizon. |
| Calendar.SweepCovers | src/calendar.ts:65-107 | For any bookings, sorted or not, a stretch at or after the cursor that no booking touches, longer than 30 minutes and ending by the horizon, lies inside one emitted window. |
| Calendar.SweepBounds | src/calendar.ts:72-81 | Every emitted window is strictly longer than 30 minutes, so exactly 30 is rejected. It starts at or after the cursor and ends at or before the horizon (the gap end is capped at the horizon). |
| Calendar.SweepChronological | src/calendar.ts:84-91 | Over bookings with start < end, the cursor only moves forward past each emitted window, so the windows are in time order and pairwise disjoint. |
| Calendar.SweepAvoidsBookings | src/calendar.ts:65-92 | Over well-formed bookings sorted by start (the order `fetchBookings` returns at line 52), no emitted window overlaps any booking. |
| Calendar.SweepPastHorizon | src/calendar.ts:95-99 | Once the cursor is at or past the horizon the sweep emits nothing more, not even a tail window. |
| Calendar.SweepIgnoresPast | src/calendar.ts:67 | A booking that ends at or before the cursor changes nothing, wherever it appears after the cursor has passed it. |
| Calendar.SweepMergesOverlap | src/calendar.ts:86-92 | Two bookings where the second starts no later than the first ends are swept exactly like one booking spanning both: no window opens between them. |
| Calendar.MergeExample | src/calendar.ts:65-107 | Bookings 09:00-11:00 and 10:00-12:00 seen from 08:00 leave exactly the windows 08:00-09:00 and 12:00 to the horizon. |
| TaskOrder.SortByPriority | src/planner.ts:45-46 | The in-place sort leaves the array equal to `ByPriority` of its old contents. |
| TaskOrder.InsertBack | src/planner.ts:46 | One insertion step moves the element at `i` left past exactly the earlier elements of strictly worse rank. The rest of the prefix keeps its order, and the suffix is unchanged. |
| TaskOrder.ByPriorityRankSorted | src/planner.ts:45-46 | The priority order is sorted by rank (high 0, medium 1, low 2). |
| TaskOrder.ByPriorityPermutes | src/planner.ts:46 | The priority order is a permutation of the tasks. |
| TaskOrder.ByPriorityStable | src/planner.ts:46 | Tasks of equal priority keep their input order (the sort is stable). |
| TaskOrder.ByPriorityInsert | src/planner.ts:46 | Appending a task to the input inserts it into the priority order right after every task of equal or better rank. |
| Planner.Search | src/planner.ts:61-98 | A found start is at or after the cursor and ends by the window's end; it starts at an hour in [08, 18) and ends by 18:00 that day. A task is found only if it fits a work day; `TooLong` only for a task longer than the work day. |
| Planner.SearchFirstFit | src/planner.ts:58-98 | The search is first fit. No moment from the cursor up to a found start is a valid start. When the search places nothing (no room, or too long), the window holds no valid start at all. |
| Planner.NoStartBeforeWork | src/planner.ts:63-65 | Moments from the cursor up to 08:00 of its date are not valid starts, so moving the candidate to 08:00 skips no valid start. |
| Planner.NoStartRestOfDay | src/planner.ts:67-72 | When a candidate is at or past 18:00, or the task does not fit from it (lines 82-91), no moment from it up to 08:00 of the next day is a valid start, so the jump to the next day skips none. |
| Planner.OverlongHasNoStart | src/planner.ts:93-97 | A task longer than the ten-hour work day has no valid start in any window. |
| Planner.ZeroMinuteAtWindowEnd | src/planner.ts:61-82 | In a window from 07:00 to 08:00, a zero-minute task is placed at 08:00, the window's end, although no moment of the window is a valid start. |
| Planner.NextDayClock | src/planner.ts:69-70 | Rolling over to hour `h` of the next day lands at hour `h` of the day after. |
| Planner.OverlongSearch | src/planner.ts:93-97 | For a task longer than ten hours the search gives up (`TooLong`) after its first day. It reports no room only when no work-day candidate lies before the window's end. |
| Planner.RolloverExample | src/planner.ts:67-72 | From 17:30 in a window ending 09:30 the next day, a one-hour task goes at 08:00 the next day. |
| Planner.TryLane | src/planner.ts:59-98 | The per-window `while` loop returns exactly `Search` from the window's cursor: a start within the window and within work hours, no room, or too long. |
| Planner.ScanLanes | src/planner.ts:57-100 | The windows are tried in order. The first whose search places the task is reported with its start, and no earlier window's search placed it. Every warning it adds is `SplitNeeded` for this task, at most one per window, and only a task longer than the work day draws any. |
| Planner.ScanLanesFirstFit | src/planner.ts:57-100 | The window scan is first fit. Every window before the chosen one holds no valid start, and no valid start of the chosen window comes before the chosen start. When no window is chosen, no window holds a valid start. |
| Planner.PlaceTask | src/planner.ts:57-100 | The window loop returns what `ScanLanes` finds. Only the chosen window's cursor changes, and it moves to the task's end (line 84). |
| Planner.ScheduleOne | src/planner.ts:54-104 | One round of the task loop takes the run's state to `AssignTask` of it: a placement is recorded, or a `NotScheduled` warning is. |
| Planner.Schedule | src/planner.ts:36-108 | The whole run returns the placements and warnings of `ScheduleSpec`. Every placement lies in some window with its exact duration, inside work hours. Placements are in priority order. Placed plus reported-unplaced tasks are exactly the input tasks. |
| Planner.LoadQueue | src/planner.ts:46 | The task array is a fresh copy holding the tasks in priority order. |
| Planner.OpenLanes | src/planner.ts:49-52 | Each window is copied with its cursor set to the window's start. |
| Planner.InitialPlanOk | src/planner.ts:49-52 | The initial state, with every cursor at its window's start and nothing placed, satisfies the run invariant. |
| Planner.AssignTaskOk | src/planner.ts:82-84 | Placing one task keeps the run invariant: exact durations, work hours, containment in the home window, and placements in one window in time order behind its cursor. |
| Planner.AssignOk | src/planner.ts:54-105 | Placing any sequence of tasks keeps the run invariant. |
| Planner.AssignTaskPartition | src/planner.ts:83-104 | Each task ends up either placed once or reported once as not scheduled. |
| Planner.AssignPartition | src/planner.ts:54-105 | Over a run, placed and reported-unplaced tasks together are exactly the tasks processed. |
| Planner.AssignInOrder | src/planner.ts:54-105 | Tasks are placed in the order they are processed, so a rank-sorted queue gives rank-sorted placements. |
| Planner.OverlongNeverPlaced | src/planner.ts:93-104 | A task longer than the work day is never placed. No cursor moves, and its last warning is `NotScheduled`. |
| Planner.ScheduleSpecSound | src/planner.ts:36-108 | The run invariant holds at the end. Every placement lies within some window, placements follow the priority order, and placed plus unplaced tasks are the input. |
| Pipeline.PlacementsDisjoint | src/planner.ts:57-84 | Over windows in time order, no two placements overlap: within a window they follow its cursor, and across windows they follow the windows' order. |
| Pipeline.PlacementsInherit | src/planner.ts:82 | Placements lie where their windows lie, so they inherit the windows' bounds and their avoidance of bookings. |
| Pipeline.RoundSound | src/daemon.ts:47-48 | For a polling round, the placements lie within `[now, horizon]`. Over well-formed bookings they are pairwise disjoint; over well-formed bookings sorted by start they overlap no booking. |
| Pipeline.PlanRound | src/daemon.ts:47-48 | The sweep followed by the scheduler returns placements within `[now, horizon]`, disjoint from one another and from the bookings (under the same conditions), and accounts for every task. |

## Left out

- `fetchBookings` (src/calendar.ts:23-53) fetches and parses iCalendar data through a foreign library. The booking list is an input here. Its sorting at line 52 is not performed: being sorted by start is an assumption of the avoidance lemmas.
- `loadTasks` (src/planner.ts:25-34) reads a JSON file. The task list is a parameter of `Schedule`.
- `new Date()` (src/calendar.ts:60) reads the clock. `now` is a parameter.
- Time zones and daylight saving, which `getHours`, `setHours` and `setDate` follow, are not modelled. Every day has 1440 minutes and starts at a multiple of 1440.
- Instants and durations are whole minutes, not milliseconds or fractional hours. `Number(duration.toFixed(2))` (src/calendar.ts:80, 105) is not modelled: a window's length is `Minutes()`.
- Task durations are natural numbers; a negative `durationHours` is not modelled.
- The text of the `console.warn` messages is not modelled. Each warning is a `Warning` value naming the task.
- `src/liaison.ts` (messaging through docker and websockets), the polling loops, timers and processed-task file of `src/daemon.ts`, and the CLI drivers `src/index.ts` and `src/test-direct.ts` are not part of this model. Only the two calls at src/daemon.ts:47-48 are modelled, by `PlanRound`.
