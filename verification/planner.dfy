/** The greedy packer of `PlannerAgent.schedule`.

    Tasks are taken in priority order. For each one the free windows are
    tried from the first; every window keeps its own cursor, starting at the
    window's start. Inside a window the search goes day by day: a candidate
    before 08:00 snaps to 08:00, one at or after 18:00 rolls to 08:00 of the
    next day, and a candidate is taken when the task ends by both the
    window's end and 18:00 of that day. The window's cursor then moves to the
    task's end. A task that fits nowhere is reported in a warning.

    The functions `Search`, `ScanLanes`, `AssignTask` and `Assign` state what
    the loops compute; the methods `TryLane` and `Schedule` are the loops.
 */
module Planner {
  import opened Calendar
  import opened TaskOrder

  const WORK_START_HOUR: int := 8
  const WORK_END_HOUR: int := 18

  /** Minutes in one work day (ten hours). */
  const WORK_DAY: int := (WORK_END_HOUR - WORK_START_HOUR) * HOUR

  /** A task bound to the interval `[start, end)`. */
  datatype ScheduledTask = ScheduledTask(task: Task, start: int, end: int)

  // The clock on a uniform day: midnight is a multiple of DAY.

  /** Midnight of the day containing `t`. */
  function DayStart(t: int): int { t - t % DAY }

  /** `getHours()`: the clock hour of `t`. */
  function HourOf(t: int): int { (t % DAY) / HOUR }

  /** `setHours(h, 0, 0, 0)`: hour `h` sharp on the day of `t`. */
  function AtHour(t: int, h: int): int { DayStart(t) + h * HOUR }

  /** `setDate(getDate() + 1)` then `setHours(h, 0, 0, 0)`. */
  function NextDayAt(t: int, h: int): int { DayStart(t) + DAY + h * HOUR }

  /** The clock at `m` minutes past midnight of day `q`. */
  lemma ClockOfDay(q: int, m: int)
    requires 0 <= m < DAY
    ensures DayStart(q * DAY + m) == q * DAY
    ensures HourOf(q * DAY + m) == m / HOUR
  {
    assert (q * DAY + m) % DAY == m;
  }

  /** A task from `start` to `end` lies in the work day: it starts at a clock
      hour in [08, 18) and ends by 18:00 of that same day. */
  predicate InWorkHours(start: int, end: int) {
    WORK_START_HOUR <= HourOf(start) < WORK_END_HOUR && start <= end && end <= AtHour(start, WORK_END_HOUR)
  }

  /** What the day-wise search within one window concludes: a start, no
      room before the window closes, or a task longer than a work day. */
  datatype Attempt = Placed(start: int) | NoRoom | TooLong

  /** The day-wise search for a task of `d` minutes from candidate `c` in a
      window ending at `slotEnd`. */
  function Search(c: int, slotEnd: int, d: nat): (r: Attempt)
    ensures r.Placed? ==> c <= r.start && r.start + d <= slotEnd && InWorkHours(r.start, r.start + d)
    ensures r.Placed? ==> d <= WORK_DAY
    ensures r.TooLong? ==> d > WORK_DAY
    decreases slotEnd - c
  {
    if c >= slotEnd then NoRoom
    else
      var c1 := if HourOf(c) < WORK_START_HOUR then AtHour(c, WORK_START_HOUR) else c;
      ClockOfDay(c / DAY, WORK_START_HOUR * HOUR);
      if HourOf(c1) >= WORK_END_HOUR then Search(NextDayAt(c1, WORK_START_HOUR), slotEnd, d)
      else if c1 + d <= slotEnd && c1 + d <= AtHour(c1, WORK_END_HOUR) then Placed(c1)
      else if d > WORK_DAY then TooLong
      else Search(NextDayAt(c1, WORK_START_HOUR), slotEnd, d)
  }

  /** Rolling over to hour `h` of the next day lands on the day after. */
  lemma NextDayClock(t: int, h: int)
    requires 0 <= h < 24
    ensures DayStart(NextDayAt(t, h)) == DayStart(t) + DAY
    ensures HourOf(NextDayAt(t, h)) == h
  {
    var q := t / DAY;
    assert DayStart(t) == q * DAY;
    ClockOfDay(q + 1, h * HOUR);
  }

  /** From a candidate before 18:00, an over-long task is tried on that
      day and given up. */
  lemma OverlongSameDay(c: int, slotEnd: int, d: nat)
    requires d > WORK_DAY && c < slotEnd && HourOf(c) < WORK_END_HOUR
    ensures Search(c, slotEnd, d) == TooLong
  {
    ClockOfDay(c / DAY, WORK_START_HOUR * HOUR);
    var c1 := if HourOf(c) < WORK_START_HOUR then AtHour(c, WORK_START_HOUR) else c;
    assert DayStart(c1) == DayStart(c) && c1 - DayStart(c1) >= WORK_START_HOUR * HOUR by {
      if HourOf(c) < WORK_START_HOUR {
        assert c1 == DayStart(c) + WORK_START_HOUR * HOUR;
      }
    }
  }

  /** An over-long task costs at most one attempt per window: the search
      gives up with `TooLong` as soon as it has tried one day, and finds no
      room only when no work-day candidate lies before the window's end. */
  lemma OverlongSearch(c: int, slotEnd: int, d: nat)
    requires d > WORK_DAY
    ensures Search(c, slotEnd, d)
         == if c < slotEnd && (HourOf(c) < WORK_END_HOUR || NextDayAt(c, WORK_START_HOUR) < slotEnd)
            then TooLong else NoRoom
  {
    if c < slotEnd {
      if HourOf(c) < WORK_END_HOUR {
        OverlongSameDay(c, slotEnd, d);
      } else {
        var n := NextDayAt(c, WORK_START_HOUR);
        NextDayClock(c, WORK_START_HOUR);
        assert Search(c, slotEnd, d) == Search(n, slotEnd, d);
        if n < slotEnd {
          OverlongSameDay(n, slotEnd, d);
        }
      }
    }
  }

  /** The window of the rollover example, 17:30 to 09:30 of the next day,
      takes a one-hour task at 08:00 of the next day. */
  lemma RolloverExample()
    ensures Search(17 * HOUR + 30, DAY + 9 * HOUR + 30, HOUR) == Placed(DAY + 8 * HOUR)
  {
    ClockOfDay(0, 17 * HOUR + 30);
    ClockOfDay(1, 8 * HOUR);
    assert DayStart(DAY) == DAY;
  }

  /** `s` is a moment of the window, at or after the cursor `c` and before
      the window's end `slotEnd`, where a task of `d` minutes can start: it
      ends by the window's end and within the work day of its own date. */
  predicate ValidStart(s: int, c: int, slotEnd: int, d: nat) {
    c <= s < slotEnd && s + d <= slotEnd && InWorkHours(s, s + d)
  }

  /** No moment of a work day can start a task longer than the work day. */
  lemma OverlongHasNoStart(s: int, c: int, slotEnd: int, d: nat)
    requires d > WORK_DAY
    ensures !ValidStart(s, c, slotEnd, d)
  {
    ClockOfDay(s / DAY, s % DAY);
  }

  /** Moments before 08:00 on the cursor's date are no valid start. */
  lemma NoStartBeforeWork(c: int, slotEnd: int, d: nat, s: int)
    requires c <= s < AtHour(c, WORK_START_HOUR)
    ensures !ValidStart(s, c, slotEnd, d)
  {
    var q := c / DAY;
    ClockOfDay(q, c - q * DAY);
    ClockOfDay(q, s - q * DAY);
  }

  /** When the candidate `c1` cannot take the task, no moment from it up to
      08:00 of the next day is a valid start. */
  lemma NoStartRestOfDay(c1: int, c: int, slotEnd: int, d: nat, s: int)
    requires HourOf(c1) >= WORK_END_HOUR || !(c1 + d <= slotEnd && c1 + d <= AtHour(c1, WORK_END_HOUR))
    requires c1 <= s < NextDayAt(c1, WORK_START_HOUR)
    ensures !ValidStart(s, c, slotEnd, d)
  {
    var q := c1 / DAY;
    var day := q * DAY;
    ClockOfDay(q, c1 - day);
    assert NextDayAt(c1, WORK_START_HOUR) == day + DAY + WORK_START_HOUR * HOUR;
    if s < day + DAY {
      ClockOfDay(q, s - day);
      assert (s - day) / HOUR >= (c1 - day) / HOUR;
      assert AtHour(s, WORK_END_HOUR) == AtHour(c1, WORK_END_HOUR);
    } else {
      ClockOfDay(q + 1, s - day - DAY);
      assert HourOf(s) < WORK_START_HOUR;
    }
  }

  /** The search is first fit: a start it finds is preceded by no valid
      start, and when it finds none (no room, or a task longer than the
      work day) the window from the cursor holds no valid start at all. */
  lemma {:induction false} SearchFirstFit(c: int, slotEnd: int, d: nat)
    ensures Search(c, slotEnd, d).Placed? ==>
      forall s :: c <= s < Search(c, slotEnd, d).start ==> !ValidStart(s, c, slotEnd, d)
    ensures !Search(c, slotEnd, d).Placed? ==> forall s :: !ValidStart(s, c, slotEnd, d)
    decreases slotEnd - c
  {
    if c < slotEnd {
      var c1 := if HourOf(c) < WORK_START_HOUR then AtHour(c, WORK_START_HOUR) else c;
      var n := NextDayAt(c1, WORK_START_HOUR);
      forall s | c <= s < c1
        ensures !ValidStart(s, c, slotEnd, d)
      {
        NoStartBeforeWork(c, slotEnd, d, s);
      }
      if HourOf(c1) >= WORK_END_HOUR || !(c1 + d <= slotEnd && c1 + d <= AtHour(c1, WORK_END_HOUR)) {
        forall s | c1 <= s < n
          ensures !ValidStart(s, c, slotEnd, d)
        {
          NoStartRestOfDay(c1, c, slotEnd, d, s);
        }
        if HourOf(c1) < WORK_END_HOUR && d > WORK_DAY {
          forall s
            ensures !ValidStart(s, c, slotEnd, d)
          {
            OverlongHasNoStart(s, c, slotEnd, d);
          }
        } else {
          assert c < n by {
            var q := c / DAY;
            ClockOfDay(q, c - q * DAY);
          }
          assert Search(c, slotEnd, d) == Search(n, slotEnd, d);
          SearchFirstFit(n, slotEnd, d);
          forall s | n <= s
            ensures ValidStart(s, c, slotEnd, d) == ValidStart(s, n, slotEnd, d)
          {
          }
        }
      }
    }
  }

  /** The loop guard is tested before the snap to 08:00, so a zero-minute
      task can be placed exactly at the end of a window that closes at
      08:00, although no moment before that end is a valid start. */
  lemma ZeroMinuteAtWindowEnd()
    ensures Search(7 * HOUR, 8 * HOUR, 0) == Placed(8 * HOUR)
    ensures forall s :: !ValidStart(s, 7 * HOUR, 8 * HOUR, 0)
  {
    ClockOfDay(0, 7 * HOUR);
    forall s | 7 * HOUR <= s < 8 * HOUR
      ensures !ValidStart(s, 7 * HOUR, 8 * HOUR, 0)
    {
      ClockOfDay(0, s);
    }
  }

  /** The search loop of one window (`while (candidateStart < slot.end)`). */
  method TryLane(pointer: int, slotEnd: int, d: nat) returns (outcome: Attempt)
    ensures outcome == Search(pointer, slotEnd, d)
    ensures outcome.Placed? ==> pointer <= outcome.start && outcome.start + d <= slotEnd
    ensures outcome.Placed? ==> InWorkHours(outcome.start, outcome.start + d)
  {
    var candidate := pointer;
    while candidate < slotEnd
      invariant Search(candidate, slotEnd, d) == Search(pointer, slotEnd, d)
      invariant pointer <= candidate
      decreases slotEnd - candidate
    {
      ClockOfDay(candidate / DAY, WORK_START_HOUR * HOUR);
      if HourOf(candidate) < WORK_START_HOUR {
        candidate := AtHour(candidate, WORK_START_HOUR);
      }
      if HourOf(candidate) >= WORK_END_HOUR {
        candidate := NextDayAt(candidate, WORK_START_HOUR);
        continue;
      }
      var candidateEnd := candidate + d;
      var endOfWorkDay := AtHour(candidate, WORK_END_HOUR);
      if candidateEnd <= slotEnd && candidateEnd <= endOfWorkDay {
        return Placed(candidate);
      } else {
        candidate := NextDayAt(candidate, WORK_START_HOUR);
      }
      if d > WORK_DAY {
        return TooLong;
      }
    }
    return NoRoom;
  }

  /** A window together with its own cursor (`currentPointer`). */
  datatype Lane = Lane(slot: TimeSlot, pointer: int)

  /** The two advisories of the source: a task longer than a work day, and a
      task that found no room. */
  datatype Warning = SplitNeeded(task: Task) | NotScheduled(task: Task)

  /** The first window that takes the task, and where; or none. */
  datatype Fit = FitAt(lane: nat, start: int) | NoFit

  datatype Scan = Scan(fit: Fit, warnings: seq<Warning>)

  function Try(lane: Lane, t: Task): Attempt {
    Search(lane.pointer, lane.slot.end, t.durationMinutes)
  }

  /** Trying the windows from index `j` on, in order, for task `t`. */
  function ScanLanes(lanes: seq<Lane>, t: Task, j: nat): (r: Scan)
    requires j <= |lanes|
    ensures r.fit.FitAt? ==> j <= r.fit.lane < |lanes| && Try(lanes[r.fit.lane], t) == Placed(r.fit.start)
    ensures forall k :: j <= k < (if r.fit.FitAt? then r.fit.lane else |lanes|) ==> !Try(lanes[k], t).Placed?
    ensures r.fit.FitAt? ==> t.durationMinutes <= WORK_DAY
    ensures forall w :: w in r.warnings ==> w == SplitNeeded(t)
    ensures r.warnings != [] ==> t.durationMinutes > WORK_DAY
    ensures |r.warnings| <= |lanes| - j
    decreases |lanes| - j
  {
    if j == |lanes| then Scan(NoFit, [])
    else
      match Try(lanes[j], t)
      case Placed(s) => Scan(FitAt(j, s), [])
      case NoRoom => ScanLanes(lanes, t, j + 1)
      case TooLong =>
        var rest := ScanLanes(lanes, t, j + 1);
        Scan(rest.fit, [SplitNeeded(t)] + rest.warnings)
  }

  /** The window `lane` holds no valid start for a task of `d` minutes. */
  ghost predicate Blocked(lane: Lane, d: nat) {
    forall s :: !ValidStart(s, lane.pointer, lane.slot.end, d)
  }

  /** The window scan is first fit: every window before the chosen one
      holds no valid start, and no valid start of the chosen window comes
      before the chosen start; when no window is chosen, none holds a valid
      start. */
  lemma ScanLanesFirstFit(lanes: seq<Lane>, t: Task, j: nat)
    requires j <= |lanes|
    ensures var r := ScanLanes(lanes, t, j);
      forall k :: j <= k < (if r.fit.FitAt? then r.fit.lane else |lanes|) ==> Blocked(lanes[k], t.durationMinutes)
    ensures var r := ScanLanes(lanes, t, j);
      r.fit.FitAt? ==> var lane := lanes[r.fit.lane];
        forall s :: lane.pointer <= s < r.fit.start ==> !ValidStart(s, lane.pointer, lane.slot.end, t.durationMinutes)
  {
    var r := ScanLanes(lanes, t, j);
    var d := t.durationMinutes;
    forall k | j <= k < (if r.fit.FitAt? then r.fit.lane else |lanes|)
      ensures Blocked(lanes[k], d)
    {
      SearchFirstFit(lanes[k].pointer, lanes[k].slot.end, d);
    }
    if r.fit.FitAt? {
      var lane := lanes[r.fit.lane];
      SearchFirstFit(lane.pointer, lane.slot.end, d);
    }
  }

  /** The state of a scheduling run: the windows with their cursors, the
      placements so far, the warnings so far, and (for the proofs) the
      window each placement went into. */
  datatype Plan = Plan(lanes: seq<Lane>, scheduled: seq<ScheduledTask>, warnings: seq<Warning>, homes: seq<nat>)

  /** Placing one task: into the first window that takes it, moving that
      window's cursor to the task's end; or reporting that it found none. */
  function AssignTask(p: Plan, t: Task): Plan {
    var scan := ScanLanes(p.lanes, t, 0);
    match scan.fit
    case FitAt(j, s) =>
      var e := s + t.durationMinutes;
      Plan(p.lanes[j := p.lanes[j].(pointer := e)], p.scheduled + [ScheduledTask(t, s, e)],
           p.warnings + scan.warnings, p.homes + [j])
    case NoFit =>
      Plan(p.lanes, p.scheduled, p.warnings + scan.warnings + [NotScheduled(t)], p.homes)
  }

  /** Placing the tasks `ts` one after the other. */
  function Assign(p: Plan, ts: seq<Task>): Plan
    decreases |ts|
  {
    if ts == [] then p else Assign(AssignTask(p, ts[0]), ts[1..])
  }

  /** Every window with its cursor at its start, nothing placed yet. */
  function InitialPlan(slots: seq<TimeSlot>): Plan {
    Plan(seq(|slots|, j requires 0 <= j < |slots| => Lane(slots[j], slots[j].start)), [], [], [])
  }

  /** The outcome of a whole run. */
  function ScheduleSpec(slots: seq<TimeSlot>, tasks: seq<Task>): Plan {
    Assign(InitialPlan(slots), ByPriority(tasks))
  }

  /** A placement as the source promises it: the task's exact duration, in
      work hours, inside the window. */
  predicate PlacedWithin(st: ScheduledTask, slot: TimeSlot) {
    st.end - st.start == st.task.durationMinutes
    && InWorkHours(st.start, st.end)
    && slot.start <= st.start && st.end <= slot.end
  }

  /** The invariant of a run over the windows `slots`. */
  predicate PlanOk(slots: seq<TimeSlot>, p: Plan) {
    |p.lanes| == |slots| && |p.homes| == |p.scheduled|
    && (forall j :: 0 <= j < |slots| ==> p.lanes[j].slot == slots[j] && slots[j].start <= p.lanes[j].pointer)
    && (forall i :: 0 <= i < |p.scheduled| ==>
          p.homes[i] < |slots| && PlacedWithin(p.scheduled[i], slots[p.homes[i]])
          && p.scheduled[i].end <= p.lanes[p.homes[i]].pointer)
    && (forall i, k :: 0 <= i < k < |p.scheduled| && p.homes[i] == p.homes[k] ==>
          p.scheduled[i].end <= p.scheduled[k].start)
  }

  lemma InitialPlanOk(slots: seq<TimeSlot>)
    ensures PlanOk(slots, InitialPlan(slots))
  {
  }

  /** Placing one task keeps the invariant. */
  lemma AssignTaskOk(slots: seq<TimeSlot>, p: Plan, t: Task)
    requires PlanOk(slots, p)
    ensures PlanOk(slots, AssignTask(p, t))
  {
    var scan := ScanLanes(p.lanes, t, 0);
    if scan.fit.FitAt? {
      var j, s := scan.fit.lane, scan.fit.start;
      var q := AssignTask(p, t);
      var n := |p.scheduled|;
      assert q.scheduled[n] == ScheduledTask(t, s, s + t.durationMinutes);
      assert PlacedWithin(q.scheduled[n], slots[j]);
      forall i, k | 0 <= i < k < |q.scheduled| && q.homes[i] == q.homes[k]
        ensures q.scheduled[i].end <= q.scheduled[k].start
      {
        if k == n {
          assert q.scheduled[i].end <= p.lanes[j].pointer;
        }
      }
    }
  }

  /** Placing any sequence of tasks keeps the invariant. */
  lemma {:induction false} AssignOk(slots: seq<TimeSlot>, p: Plan, ts: seq<Task>)
    requires PlanOk(slots, p)
    ensures PlanOk(slots, Assign(p, ts))
    decreases |ts|
  {
    if ts != [] {
      AssignTaskOk(slots, p, ts[0]);
      AssignOk(slots, AssignTask(p, ts[0]), ts[1..]);
    }
  }

  /** The tasks of a list of placements, in order. */
  function TasksOf(sts: seq<ScheduledTask>): seq<Task> {
    seq(|sts|, i requires 0 <= i < |sts| => sts[i].task)
  }

  /** The tasks reported as not scheduled, in order. */
  function Dropped(ws: seq<Warning>): seq<Task>
    decreases |ws|
  {
    if ws == [] then []
    else Dropped(ws[..|ws| - 1]) + (if ws[|ws| - 1].NotScheduled? then [ws[|ws| - 1].task] else [])
  }

  lemma {:induction false} DroppedAppend(a: seq<Warning>, b: seq<Warning>)
    ensures Dropped(a + b) == Dropped(a) + Dropped(b)
    decreases |b|
  {
    if b == [] {
      assert a + b == a;
    } else {
      var n := |b| - 1;
      assert (a + b)[..|a + b| - 1] == a + b[..n];
      DroppedAppend(a, b[..n]);
    }
  }

  lemma {:induction false} DroppedNone(ws: seq<Warning>)
    requires forall w :: w in ws ==> w.SplitNeeded?
    ensures Dropped(ws) == []
    decreases |ws|
  {
    if ws != [] {
      assert ws[|ws| - 1] in ws;
      DroppedNone(ws[..|ws| - 1]);
    }
  }

  /** Each task is either placed once or reported once as not scheduled. */
  lemma AssignTaskPartition(p: Plan, t: Task)
    ensures var q := AssignTask(p, t);
      multiset(TasksOf(q.scheduled)) + multiset(Dropped(q.warnings))
        == multiset(TasksOf(p.scheduled)) + multiset(Dropped(p.warnings)) + multiset{t}
  {
    var scan := ScanLanes(p.lanes, t, 0);
    var q := AssignTask(p, t);
    assert Dropped(p.warnings + scan.warnings) == Dropped(p.warnings) by {
      DroppedNone(scan.warnings);
      DroppedAppend(p.warnings, scan.warnings);
    }
    if scan.fit.FitAt? {
      assert Dropped(q.warnings) == Dropped(p.warnings);
      assert TasksOf(q.scheduled) == TasksOf(p.scheduled) + [t];
    } else {
      assert Dropped(q.warnings) == Dropped(p.warnings) + [t] by {
        DroppedAppend(p.warnings + scan.warnings, [NotScheduled(t)]);
        assert Dropped([NotScheduled(t)]) == [t];
      }
      assert TasksOf(q.scheduled) == TasksOf(p.scheduled);
    }
  }

  /** Over a run, placed and dropped tasks together are exactly the input. */
  lemma {:induction false} AssignPartition(p: Plan, ts: seq<Task>)
    ensures var q := Assign(p, ts);
      multiset(TasksOf(q.scheduled)) + multiset(Dropped(q.warnings))
        == multiset(TasksOf(p.scheduled)) + multiset(Dropped(p.warnings)) + multiset(ts)
    decreases |ts|
  {
    if ts != [] {
      AssignTaskPartition(p, ts[0]);
      AssignPartition(AssignTask(p, ts[0]), ts[1..]);
      assert ts == [ts[0]] + ts[1..];
    }
  }

  /** Tasks are placed in the order they are processed: if that order is by
      rank, so are the placements. */
  lemma {:induction false} AssignInOrder(p: Plan, ts: seq<Task>)
    requires RankSorted(TasksOf(p.scheduled) + ts)
    ensures RankSorted(TasksOf(Assign(p, ts).scheduled))
    decreases |ts|
  {
    if ts == [] {
      assert TasksOf(p.scheduled) + ts == TasksOf(p.scheduled);
    } else {
      var q := AssignTask(p, ts[0]);
      var before := TasksOf(p.scheduled) + ts;
      var after := TasksOf(q.scheduled) + ts[1..];
      if ScanLanes(p.lanes, ts[0], 0).fit.FitAt? {
        assert after == before;
      } else {
        forall a, b | 0 <= a < b < |after|
          ensures Rank(after[a].priority) <= Rank(after[b].priority)
        {
          var n := |p.scheduled|;
          var a', b' := if a < n then a else a + 1, if b < n then b else b + 1;
          assert after[a] == before[a'] && after[b] == before[b'];
        }
      }
      AssignInOrder(q, ts[1..]);
    }
  }

  /** A task longer than a work day is never placed: the run only adds
      `SplitNeeded` warnings and a final `NotScheduled` for it. */
  lemma OverlongNeverPlaced(p: Plan, t: Task)
    requires t.durationMinutes > WORK_DAY
    ensures var q := AssignTask(p, t);
      q.lanes == p.lanes && q.scheduled == p.scheduled && q.homes == p.homes
      && |q.warnings| > |p.warnings| && q.warnings[|q.warnings| - 1] == NotScheduled(t)
  {
    var scan := ScanLanes(p.lanes, t, 0);
  }

  /** What a whole run promises: every placement has its task's duration,
      lies in work hours inside its window after that window's earlier
      placements; placements follow the priority order; and every task is
      either placed or reported as not scheduled, exactly once. */
  lemma ScheduleSpecSound(slots: seq<TimeSlot>, tasks: seq<Task>)
    ensures PlanOk(slots, ScheduleSpec(slots, tasks))
    ensures var sched := ScheduleSpec(slots, tasks).scheduled;
      forall i :: 0 <= i < |sched| ==> exists j :: 0 <= j < |slots| && PlacedWithin(sched[i], slots[j])
    ensures RankSorted(TasksOf(ScheduleSpec(slots, tasks).scheduled))
    ensures var r := ScheduleSpec(slots, tasks);
      multiset(TasksOf(r.scheduled)) + multiset(Dropped(r.warnings)) == multiset(tasks)
  {
    var init := InitialPlan(slots);
    var r := ScheduleSpec(slots, tasks);
    InitialPlanOk(slots);
    AssignOk(slots, init, ByPriority(tasks));
    forall i | 0 <= i < |r.scheduled|
      ensures exists j :: 0 <= j < |slots| && PlacedWithin(r.scheduled[i], slots[j])
    {
      var j := r.homes[i];
      assert PlacedWithin(r.scheduled[i], slots[j]);
    }
    assert TasksOf(init.scheduled) + ByPriority(tasks) == ByPriority(tasks);
    ByPriorityRankSorted(tasks);
    AssignInOrder(init, ByPriority(tasks));
    AssignPartition(init, ByPriority(tasks));
    ByPriorityPermutes(tasks);
  }

  /** The window loop for one task (`for (const slot of availableSlots)`):
      the windows are tried in order; the first that takes the task has its
      cursor moved to the task's end. */
  method PlaceTask(lanes: array<Lane>, task: Task) returns (fit: Fit, warned: seq<Warning>)
    modifies lanes
    ensures Scan(fit, warned) == ScanLanes(old(lanes[..]), task, 0)
    ensures lanes[..] == match fit
      case FitAt(j, s) => old(lanes[..])[j := old(lanes[j]).(pointer := s + task.durationMinutes)]
      case NoFit => old(lanes[..])
  {
    ghost var before := lanes[..];
    warned := [];
    var j := 0;
    while j < lanes.Length
      invariant 0 <= j <= lanes.Length
      invariant lanes[..] == before
      invariant ScanLanes(before, task, 0).fit == ScanLanes(before, task, j).fit
      invariant ScanLanes(before, task, 0).warnings == warned + ScanLanes(before, task, j).warnings
    {
      var lane := lanes[j];
      var outcome := TryLane(lane.pointer, lane.slot.end, task.durationMinutes);
      if outcome.Placed? {
        lanes[j] := lane.(pointer := outcome.start + task.durationMinutes);
        return FitAt(j, outcome.start), warned;
      }
      if outcome.TooLong? {
        warned := warned + [SplitNeeded(task)];
      }
      j := j + 1;
    }
    return NoFit, warned;
  }

  /** One round of the task loop: the window loop for `task`, then recording
      the placement or the `NotScheduled` warning. */
  method ScheduleOne(lanes: array<Lane>, task: Task, scheduled: seq<ScheduledTask>, warnings: seq<Warning>, ghost homes: seq<nat>)
    returns (scheduled': seq<ScheduledTask>, warnings': seq<Warning>, ghost homes': seq<nat>)
    modifies lanes
    ensures Plan(lanes[..], scheduled', warnings', homes') == AssignTask(Plan(old(lanes[..]), scheduled, warnings, homes), task)
  {
    ghost var p := Plan(lanes[..], scheduled, warnings, homes);
    var fit, warned := PlaceTask(lanes, task);
    warnings' := warnings + warned;
    match fit {
      case FitAt(j, start) =>
        scheduled' := scheduled + [ScheduledTask(task, start, start + task.durationMinutes)];
        homes' := homes + [j];
      case NoFit =>
        scheduled' := scheduled;
        homes' := homes;
        warnings' := warnings' + [NotScheduled(task)];
    }
    assert ScanLanes(p.lanes, task, 0) == Scan(fit, warned);
  }

  lemma AssignFirst(p: Plan, ts: seq<Task>)
    requires ts != []
    ensures Assign(p, ts) == Assign(AssignTask(p, ts[0]), ts[1..])
  {
  }

  /** The task list copied into an array and sorted by priority. */
  method LoadQueue(tasks: seq<Task>) returns (queue: array<Task>)
    ensures fresh(queue)
    ensures queue[..] == ByPriority(tasks)
  {
    queue := new Task[|tasks|](i requires 0 <= i < |tasks| => tasks[i]);
    assert queue[..] == tasks;
    SortByPriority(queue);
  }

  /** One lane per free window, its cursor at the window's start. */
  method OpenLanes(slots: seq<TimeSlot>) returns (lanes: array<Lane>)
    ensures fresh(lanes)
    ensures lanes[..] == InitialPlan(slots).lanes
  {
    lanes := new Lane[|slots|](j requires 0 <= j < |slots| => Lane(slots[j], slots[j].start));
    assert lanes[..] == InitialPlan(slots).lanes;
  }

  /** `schedule(slots)`, with the task list given instead of read from a
      file and the warnings returned instead of printed. */
  method Schedule(slots: seq<TimeSlot>, tasks: seq<Task>) returns (scheduled: seq<ScheduledTask>, warnings: seq<Warning>)
    ensures scheduled == ScheduleSpec(slots, tasks).scheduled
    ensures warnings == ScheduleSpec(slots, tasks).warnings
    ensures forall i :: 0 <= i < |scheduled| ==>
      exists j :: 0 <= j < |slots| && PlacedWithin(scheduled[i], slots[j])
    ensures RankSorted(TasksOf(scheduled))
    ensures multiset(TasksOf(scheduled)) + multiset(Dropped(warnings)) == multiset(tasks)
  {
    var queue := LoadQueue(tasks);
    var lanes := OpenLanes(slots);
    scheduled, warnings := [], [];
    ghost var homes: seq<nat> := [];
    ghost var spec := ScheduleSpec(slots, tasks);
    var i := 0;
    while i < queue.Length
      invariant 0 <= i <= queue.Length
      invariant queue[..] == ByPriority(tasks)
      invariant Assign(Plan(lanes[..], scheduled, warnings, homes), queue[i..]) == spec
    {
      ghost var p := Plan(lanes[..], scheduled, warnings, homes);
      AssignFirst(p, queue[i..]);
      assert queue[i..][1..] == queue[i + 1..];
      scheduled, warnings, homes := ScheduleOne(lanes, queue[i], scheduled, warnings, homes);
      i := i + 1;
    }
    assert queue[i..] == [];
    ScheduleSpecSound(slots, tasks);
  }
}
