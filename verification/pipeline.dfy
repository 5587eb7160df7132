/** The two routines run back to back, as the daemon and the CLI do: the
    free windows found by the sweep are handed to the scheduler. Over
    well-formed bookings sorted by start, the placements never collide with
    each other or with a booking, and stay between `now` and the horizon. */
module Pipeline {
  import opened Calendar
  import opened TaskOrder
  import opened Planner

  /** No two placements share a minute. */
  predicate Disjoint(sched: seq<ScheduledTask>) {
    forall i, k :: 0 <= i < k < |sched| ==>
      sched[i].end <= sched[k].start || sched[k].end <= sched[i].start
  }

  /** No placement shares a minute with a booking. */
  predicate ClearOf(sched: seq<ScheduledTask>, bs: seq<Booking>) {
    forall i, j :: 0 <= i < |sched| && 0 <= j < |bs| ==>
      sched[i].end <= bs[j].start || bs[j].end <= sched[i].start
  }

  /** Every placement lies within `[lo, hi]`. */
  predicate Between(sched: seq<ScheduledTask>, lo: int, hi: int) {
    forall i :: 0 <= i < |sched| ==> lo <= sched[i].start && sched[i].end <= hi
  }

  /** Placements in one window follow each other; placements in two
      windows inherit the windows' order. */
  lemma PlacementsDisjoint(slots: seq<TimeSlot>, p: Plan)
    requires PlanOk(slots, p) && Chronological(slots)
    ensures Disjoint(p.scheduled)
  {
    var sched := p.scheduled;
    forall i, k | 0 <= i < k < |sched|
      ensures sched[i].end <= sched[k].start || sched[k].end <= sched[i].start
    {
      var hi, hk := p.homes[i], p.homes[k];
      assert PlacedWithin(sched[i], slots[hi]) && PlacedWithin(sched[k], slots[hk]);
      if hi < hk {
        assert slots[hi].end <= slots[hk].start;
      } else if hk < hi {
        assert slots[hk].end <= slots[hi].start;
      }
    }
  }

  /** A placement inside a window that avoids every booking avoids them
      too, and lies where the window lies. */
  lemma PlacementsInherit(slots: seq<TimeSlot>, p: Plan, bs: seq<Booking>, lo: int, hi: int)
    requires PlanOk(slots, p) && Bounded(slots, lo, hi)
    ensures Between(p.scheduled, lo, hi)
    ensures AvoidsAll(slots, bs) ==> ClearOf(p.scheduled, bs)
  {
    var sched := p.scheduled;
    forall i | 0 <= i < |sched|
      ensures lo <= sched[i].start && sched[i].end <= hi
    {
      assert PlacedWithin(sched[i], slots[p.homes[i]]);
    }
    if AvoidsAll(slots, bs) {
      forall i, j | 0 <= i < |sched| && 0 <= j < |bs|
        ensures sched[i].end <= bs[j].start || bs[j].end <= sched[i].start
      {
        var h := p.homes[i];
        assert PlacedWithin(sched[i], slots[h]);
        assert slots[h].end <= bs[j].start || bs[j].end <= slots[h].start;
      }
    }
  }

  /** The end-to-end promise of one polling round. */
  lemma RoundSound(bookings: seq<Booking>, now: int, daysAhead: int, tasks: seq<Task>)
    ensures var slots := Sweep(bookings, now, Horizon(now, daysAhead));
      Between(ScheduleSpec(slots, tasks).scheduled, now, Horizon(now, daysAhead))
    ensures var slots := Sweep(bookings, now, Horizon(now, daysAhead));
      WellFormed(bookings) ==> Disjoint(ScheduleSpec(slots, tasks).scheduled)
    ensures var slots := Sweep(bookings, now, Horizon(now, daysAhead));
      WellFormed(bookings) && SortedByStart(bookings) ==> ClearOf(ScheduleSpec(slots, tasks).scheduled, bookings)
  {
    var horizon := Horizon(now, daysAhead);
    var slots := Sweep(bookings, now, horizon);
    var r := ScheduleSpec(slots, tasks);
    ScheduleSpecSound(slots, tasks);
    SweepSound(bookings, now, horizon);
    PlacementsInherit(slots, r, bookings, now, horizon);
    if WellFormed(bookings) {
      PlacementsDisjoint(slots, r);
    }
  }

  /** One polling round: the free windows of the next `daysAhead` days,
      then the schedule over them. */
  method PlanRound(bookings: seq<Booking>, now: int, daysAhead: int, tasks: seq<Task>)
    returns (scheduled: seq<ScheduledTask>, warnings: seq<Warning>)
    ensures Between(scheduled, now, Horizon(now, daysAhead))
    ensures WellFormed(bookings) ==> Disjoint(scheduled)
    ensures WellFormed(bookings) && SortedByStart(bookings) ==> ClearOf(scheduled, bookings)
    ensures multiset(TasksOf(scheduled)) + multiset(Dropped(warnings)) == multiset(tasks)
  {
    var slots := FindAvailableSlots(bookings, now, daysAhead);
    scheduled, warnings := Schedule(slots, tasks);
    RoundSound(bookings, now, daysAhead, tasks);
  }
}
