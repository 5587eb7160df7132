/** The availability sweep of `CalendarAgent.findAvailableSlots`.

    Instants are whole minutes on a uniform timeline (no time zones, no
    daylight saving). A booking list, a reference instant `now` and a
    lookahead in days go in; the free windows between `now` and the horizon
    that are longer than half an hour come out, in chronological order.
 */
module Calendar {
  import opened Seqs

  /** Minutes per hour and per day. */
  const HOUR: int := 60
  const DAY: int := 24 * HOUR

  /** Gaps must be strictly longer than half an hour to be reported. */
  const MIN_GAP: int := 30

  /** A reserved span of the property's calendar; `summary` is informational. */
  datatype Booking = Booking(start: int, end: int, summary: string)

  /** A free window. The source's `durationHours` field is `Minutes()` here. */
  datatype TimeSlot = TimeSlot(start: int, end: int) {
    function Minutes(): int { end - start }
  }

  predicate WellFormed(bs: seq<Booking>) {
    forall i :: 0 <= i < |bs| ==> bs[i].start < bs[i].end
  }

  /** The order `fetchBookings` returns: ascending by start. */
  predicate SortedByStart(bs: seq<Booking>) {
    forall i, j :: 0 <= i < j < |bs| ==> bs[i].start <= bs[j].start
  }

  /** Every window is longer than the minimum and lies within `[lo, hi]`. */
  predicate Bounded(slots: seq<TimeSlot>, lo: int, hi: int) {
    forall k :: 0 <= k < |slots| ==> slots[k].Minutes() > MIN_GAP && lo <= slots[k].start && slots[k].end <= hi
  }

  /** Each window ends no later than the next one starts. */
  predicate Chronological(slots: seq<TimeSlot>) {
    forall i, j :: 0 <= i < j < |slots| ==> slots[i].end <= slots[j].start
  }

  /** No window shares a minute with any booking. */
  predicate AvoidsAll(slots: seq<TimeSlot>, bs: seq<Booking>) {
    forall i, j :: 0 <= i < |slots| && 0 <= j < |bs| ==>
      slots[i].end <= bs[j].start || bs[j].end <= slots[i].start
  }

  /** No booking shares a minute with the stretch `[a, e)`. */
  predicate FreeBetween(bs: seq<Booking>, a: int, e: int) {
    forall j :: 0 <= j < |bs| ==> bs[j].end <= a || e <= bs[j].start
  }

  /** Some window contains the stretch `[a, e)`. */
  predicate Covered(slots: seq<TimeSlot>, a: int, e: int) {
    exists k :: 0 <= k < |slots| && slots[k].start <= a && e <= slots[k].end
  }

  /** Every free stretch within `[lo, hi]` longer than the minimum lies in
      some window: no free time worth reporting is missed. */
  predicate ReportsFree(slots: seq<TimeSlot>, bs: seq<Booking>, lo: int, hi: int) {
    forall a, e :: lo <= a && a + MIN_GAP < e <= hi && FreeBetween(bs, a, e) ==> Covered(slots, a, e)
  }

  function Min(a: int, b: int): int { if a <= b then a else b }

  function Max(a: int, b: int): int { if a >= b then a else b }

  function Horizon(now: int, daysAhead: int): int { now + daysAhead * DAY }

  /** The window `[from, to)`, if it clears the half-hour minimum. */
  function Gap(from: int, to: int): seq<TimeSlot> {
    if to - from > MIN_GAP then [TimeSlot(from, to)] else []
  }

  /** The window after the last booking considered. */
  function FinalGap(cursor: int, horizon: int): seq<TimeSlot> {
    if cursor < horizon then Gap(cursor, horizon) else []
  }

  /** What a booking that ends after the cursor emits: the gap up to its
      start, capped at the horizon, when it starts after the cursor. */
  function GapBefore(b: Booking, cursor: int, horizon: int): seq<TimeSlot> {
    if b.start > cursor then Gap(cursor, Min(b.start, horizon)) else []
  }

  /** The windows the sweep emits when it reaches the bookings `bs` with its
      cursor at `cursor`. A booking ending at or before the cursor is
      skipped; any other emits `GapBefore` and moves the cursor to its end,
      whether a gap opened before it or it overlaps the cursor. Once the cursor reaches the horizon nothing more is
      emitted. */
  function Sweep(bs: seq<Booking>, cursor: int, horizon: int): seq<TimeSlot>
    decreases |bs|
  {
    if bs == [] then FinalGap(cursor, horizon)
    else if bs[0].end <= cursor then Sweep(bs[1..], cursor, horizon)
    else
      GapBefore(bs[0], cursor, horizon) + (if bs[0].end >= horizon then [] else Sweep(bs[1..], bs[0].end, horizon))
  }

  /** The sweep itself: one cursor walks the bookings from `now`. */
  method FindAvailableSlots(bookings: seq<Booking>, now: int, daysAhead: int)
    returns (slots: seq<TimeSlot>)
    ensures slots == Sweep(bookings, now, Horizon(now, daysAhead))
    ensures Bounded(slots, now, Horizon(now, daysAhead))
    ensures WellFormed(bookings) ==> Chronological(slots)
    ensures WellFormed(bookings) && SortedByStart(bookings) ==> AvoidsAll(slots, bookings)
    ensures ReportsFree(slots, bookings, now, Horizon(now, daysAhead))
    ensures bookings == [] ==>
      slots == if Horizon(now, daysAhead) - now > MIN_GAP then [TimeSlot(now, Horizon(now, daysAhead))] else []
  {
    var horizon := Horizon(now, daysAhead);
    var cursor := now;
    slots := [];
    var i := 0;
    while i < |bookings|
      invariant 0 <= i <= |bookings|
      invariant slots + Sweep(bookings[i..], cursor, horizon) == Sweep(bookings, now, horizon)
    {
      var booking := bookings[i];
      ghost var before, rest, from := slots, bookings[i + 1..], cursor;
      assert bookings[i..] == [booking] + rest;
      SweepFirst(booking, rest, cursor, horizon);
      if booking.end <= cursor {
        i := i + 1;
        continue;
      }
      if booking.start > cursor {
        var gapEnd := if booking.start > horizon then horizon else booking.start;
        if gapEnd - cursor > MIN_GAP {
          slots := slots + [TimeSlot(cursor, gapEnd)];
        }
        cursor := booking.end;
      } else {
        if booking.end > cursor {
          cursor := booking.end;
        }
      }
      assert slots == before + GapBefore(booking, from, horizon) && cursor == booking.end;
      i := i + 1;
      if cursor >= horizon {
        break;
      }
      AppendAssoc(before, GapBefore(booking, from, horizon), Sweep(rest, cursor, horizon));
    }
    assert i == |bookings| ==> bookings[i..] == [];
    if cursor < horizon {
      if horizon - cursor > MIN_GAP {
        slots := slots + [TimeSlot(cursor, horizon)];
      }
    }
    SweepSound(bookings, now, horizon);
  }

  /** What the sweep promises about the windows it emits. */
  lemma SweepSound(bs: seq<Booking>, now: int, horizon: int)
    ensures Bounded(Sweep(bs, now, horizon), now, horizon)
    ensures WellFormed(bs) ==> Chronological(Sweep(bs, now, horizon))
    ensures WellFormed(bs) && SortedByStart(bs) ==> AvoidsAll(Sweep(bs, now, horizon), bs)
    ensures ReportsFree(Sweep(bs, now, horizon), bs, now, horizon)
    ensures bs == [] ==> Sweep(bs, now, horizon) == if horizon - now > MIN_GAP then [TimeSlot(now, horizon)] else []
  {
    SweepBounds(bs, now, horizon);
    forall a, e | now <= a && a + MIN_GAP < e <= horizon && FreeBetween(bs, a, e)
      ensures Covered(Sweep(bs, now, horizon), a, e)
    {
      SweepCovers(bs, now, horizon, a, e);
    }
    if WellFormed(bs) {
      SweepChronological(bs, now, horizon);
      if SortedByStart(bs) {
        SweepAvoidsBookings(bs, now, horizon);
      }
    }
  }

  /** Every window clears the minimum and lies in `[cursor, horizon]`. */
  lemma {:induction false} SweepBounds(bs: seq<Booking>, cursor: int, horizon: int)
    ensures Bounded(Sweep(bs, cursor, horizon), cursor, horizon)
    decreases |bs|
  {
    if bs != [] {
      var b := bs[0];
      if b.end <= cursor {
        SweepBounds(bs[1..], cursor, horizon);
      } else if b.start > cursor {
        if b.end < horizon { SweepBounds(bs[1..], b.end, horizon); }
      } else if b.end < horizon {
        SweepBounds(bs[1..], b.end, horizon);
      }
    }
  }

  /** Windows come out in time order and never overlap one another. */
  lemma {:induction false} SweepChronological(bs: seq<Booking>, cursor: int, horizon: int)
    requires WellFormed(bs)
    ensures Chronological(Sweep(bs, cursor, horizon))
    decreases |bs|
  {
    if bs != [] {
      var b := bs[0];
      assert WellFormed(bs[1..]);
      if b.end <= cursor {
        SweepChronological(bs[1..], cursor, horizon);
      } else if b.end < horizon {
        SweepChronological(bs[1..], b.end, horizon);
        SweepBounds(bs[1..], b.end, horizon);
      }
    }
  }

  /** With the bookings well formed and sorted by start, no window overlaps
      any booking the sweep walks. */
  lemma {:induction false} SweepAvoidsBookings(bs: seq<Booking>, cursor: int, horizon: int)
    requires WellFormed(bs) && SortedByStart(bs)
    ensures AvoidsAll(Sweep(bs, cursor, horizon), bs)
    decreases |bs|
  {
    if bs != [] {
      var b, rest := bs[0], bs[1..];
      assert bs == [b] + rest;
      assert WellFormed(rest) && SortedByStart(rest);
      SweepFirst(b, rest, cursor, horizon);
      var r := Sweep(bs, cursor, horizon);
      if b.end <= cursor {
        SweepAvoidsBookings(rest, cursor, horizon);
        SweepBounds(rest, cursor, horizon);
        AvoidsBefore(r, b, rest);
      } else {
        var next := b.end;
        var tail := if next >= horizon then [] else Sweep(rest, next, horizon);
        var gap := GapBefore(b, cursor, horizon);
        assert r == gap + tail;
        if next < horizon {
          SweepAvoidsBookings(rest, next, horizon);
          SweepBounds(rest, next, horizon);
        }
        AvoidsBefore(tail, b, rest);
        assert AvoidsAll(gap, bs);
        AvoidsConcat(gap, tail, bs);
      }
    }
  }

  /** Any stretch after the cursor that no booking touches, longer than
      the minimum and ending by the horizon, lies inside an emitted window.
      The bookings need not be sorted: the cursor only passes a booking's
      end, and a free stretch lies wholly before or after each booking. */
  lemma {:induction false} SweepCovers(bs: seq<Booking>, cursor: int, horizon: int, a: int, e: int)
    requires cursor <= a && a + MIN_GAP < e <= horizon
    requires FreeBetween(bs, a, e)
    ensures Covered(Sweep(bs, cursor, horizon), a, e)
    decreases |bs|
  {
    var r := Sweep(bs, cursor, horizon);
    if bs == [] {
      assert r[0] == TimeSlot(cursor, horizon);
    } else {
      var b, rest := bs[0], bs[1..];
      assert bs == [b] + rest;
      assert FreeBetween(rest, a, e) by {
        forall j | 0 <= j < |rest|
          ensures rest[j].end <= a || e <= rest[j].start
        {
          assert rest[j] == bs[j + 1];
        }
      }
      SweepFirst(b, rest, cursor, horizon);
      if b.end <= cursor {
        SweepCovers(rest, cursor, horizon, a, e);
      } else if b.end <= a {
        SweepCovers(rest, b.end, horizon, a, e);
        var gap, tail := GapBefore(b, cursor, horizon), Sweep(rest, b.end, horizon);
        assert r == gap + tail;
        var k :| 0 <= k < |tail| && tail[k].start <= a && e <= tail[k].end;
        assert r[|gap| + k] == tail[k];
      } else {
        assert e <= b.start;
        assert r[0] == TimeSlot(cursor, Min(b.start, horizon));
      }
    }
  }

  /** Slots that avoid `rest` and start after `b` ends avoid `[b] + rest`. */
  lemma AvoidsBefore(r: seq<TimeSlot>, b: Booking, rest: seq<Booking>)
    requires AvoidsAll(r, rest)
    requires forall i :: 0 <= i < |r| ==> b.end <= r[i].start
    ensures AvoidsAll(r, [b] + rest)
  {
    forall i, j | 0 <= i < |r| && 0 <= j < |rest| + 1
      ensures r[i].end <= ([b] + rest)[j].start || ([b] + rest)[j].end <= r[i].start
    {
      if j > 0 { assert ([b] + rest)[j] == rest[j - 1]; }
    }
  }

  lemma AvoidsConcat(a: seq<TimeSlot>, c: seq<TimeSlot>, bs: seq<Booking>)
    requires AvoidsAll(a, bs) && AvoidsAll(c, bs)
    ensures AvoidsAll(a + c, bs)
  {
    forall i, j | 0 <= i < |a + c| && 0 <= j < |bs|
      ensures (a + c)[i].end <= bs[j].start || bs[j].end <= (a + c)[i].start
    {
      if i >= |a| { assert (a + c)[i] == c[i - |a|]; }
    }
  }

  /** Once the cursor is at or past the horizon, nothing more is emitted. */
  lemma {:induction false} SweepPastHorizon(bs: seq<Booking>, cursor: int, horizon: int)
    requires cursor >= horizon
    ensures Sweep(bs, cursor, horizon) == []
    decreases |bs|
  {
    if bs != [] && bs[0].end <= cursor {
      SweepPastHorizon(bs[1..], cursor, horizon);
    }
  }

  /** A booking that ends at or before the cursor changes nothing, wherever
      it sits in the list: the cursor never moves back, so the sweep skips it
      whenever it reaches it. */
  lemma {:induction false} SweepIgnoresPast(xs: seq<Booking>, b: Booking, ys: seq<Booking>, cursor: int, horizon: int)
    requires b.end <= cursor
    ensures Sweep(xs + [b] + ys, cursor, horizon) == Sweep(xs + ys, cursor, horizon)
    decreases |xs|
  {
    if xs == [] {
      assert xs + [b] + ys == [b] + ys;
      assert ([b] + ys)[1..] == ys;
      assert xs + ys == ys;
    } else {
      var x := xs[0];
      assert (xs + [b] + ys)[0] == x && (xs + [b] + ys)[1..] == xs[1..] + [b] + ys;
      assert (xs + ys)[0] == x && (xs + ys)[1..] == xs[1..] + ys;
      if x.end <= cursor {
        SweepIgnoresPast(xs[1..], b, ys, cursor, horizon);
      } else if x.end < horizon {
        SweepIgnoresPast(xs[1..], b, ys, x.end, horizon);
      }
    }
  }

  /** Two bookings where the second starts no later than the first ends are
      swept exactly as the single booking covering both: no window opens
      between them. */
  lemma {:induction false} SweepMergesOverlap(b1: Booking, b2: Booking, rest: seq<Booking>, cursor: int, horizon: int)
    requires b1.start <= b1.end && b2.start <= b1.end
    ensures Sweep([b1, b2] + rest, cursor, horizon)
         == Sweep([Booking(b1.start, Max(b1.end, b2.end), b1.summary)] + rest, cursor, horizon)
  {
    var merged := Booking(b1.start, Max(b1.end, b2.end), b1.summary);
    var left := Sweep([b1, b2] + rest, cursor, horizon);
    var right := Sweep([merged] + rest, cursor, horizon);
    assert [b1, b2] + rest == [b1] + ([b2] + rest);
    SweepFirst(b1, [b2] + rest, cursor, horizon);
    SweepFirst(merged, rest, cursor, horizon);
    if b1.end <= cursor {
      SweepFirst(b2, rest, cursor, horizon);
      assert left == Sweep([b2] + rest, cursor, horizon);
    } else if b1.end >= horizon {
      assert left == GapBefore(b1, cursor, horizon) == right;
    } else if b2.end <= b1.end {
      SweepFirst(b2, rest, b1.end, horizon);
      assert left == GapBefore(b1, cursor, horizon) + Sweep(rest, b1.end, horizon);
    } else {
      SweepFirst(b2, rest, b1.end, horizon);
      assert GapBefore(b2, b1.end, horizon) == [];
      var tail := if b2.end >= horizon then [] else Sweep(rest, b2.end, horizon);
      assert Sweep([b2] + rest, b1.end, horizon) == [] + tail == tail;
      assert left == GapBefore(b1, cursor, horizon) + tail;
    }
  }

  /** One step of the sweep over a list given as its first booking and the
      rest. */
  lemma SweepFirst(b: Booking, rest: seq<Booking>, cursor: int, horizon: int)
    ensures Sweep([b] + rest, cursor, horizon)
         == if b.end <= cursor then Sweep(rest, cursor, horizon)
            else GapBefore(b, cursor, horizon)
                 + if b.end >= horizon then [] else Sweep(rest, b.end, horizon)
  {
    assert ([b] + rest)[0] == b && ([b] + rest)[1..] == rest;
  }

  /** The merge example: bookings 09:00-11:00 and 10:00-12:00 seen from
      08:00 leave the windows 08:00-09:00 and 12:00 to the horizon. */
  lemma MergeExample()
    ensures Sweep([Booking(9 * HOUR, 11 * HOUR, "a"), Booking(10 * HOUR, 12 * HOUR, "b")], 8 * HOUR, Horizon(8 * HOUR, 30))
         == [TimeSlot(8 * HOUR, 9 * HOUR), TimeSlot(12 * HOUR, Horizon(8 * HOUR, 30))]
  {
    var h := Horizon(8 * HOUR, 30);
    var bs := [Booking(9 * HOUR, 11 * HOUR, "a"), Booking(10 * HOUR, 12 * HOUR, "b")];
    assert bs[1..][1..] == [];
    assert Sweep(bs[1..], 11 * HOUR, h) == Sweep([], 12 * HOUR, h) == [TimeSlot(12 * HOUR, h)];
    assert Sweep(bs, 8 * HOUR, h) == [TimeSlot(8 * HOUR, 9 * HOUR)] + Sweep(bs[1..], 11 * HOUR, h);
  }
}
