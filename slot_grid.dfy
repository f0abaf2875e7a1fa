/**
  The viewing-slot generator of app/scripts/generate_slots.py: round the
  current time up to a slot boundary, list the slot starts of the next
  DAYS_AHEAD days (Sundays excluded, 08:00 to 19:30 every 30 minutes), pair
  every property with every start, and give each row its end time and a
  booked/free status drawn from a mask.

  Time is local wall-clock time counted in whole minutes since 1970-01-01
  00:00 of the machine's time zone. The rounded start carries a fixed UTC
  offset (it comes from astimezone()), so adding minutes or days is plain
  addition, a date is the day number `minutes / MINUTES_PER_DAY` and a time
  of day is `minutes % MINUTES_PER_DAY` (Euclidean, so also right before
  1970).
 */
module SlotGrid {

  const DAYS_AHEAD: nat := 28
  const OPEN_TIME: nat := 8 * 60        // 08:00, in minutes after midnight
  const CLOSE_TIME: nat := 20 * 60      // 20:00
  const SLOT_MINUTES: nat := 30
  const MINUTES_PER_DAY: nat := 24 * 60
  /** Python's date.weekday() numbers Monday 0 to Sunday 6. */
  const SUNDAY: int := 6
  /** Starts from OPEN_TIME, stepping SLOT_MINUTES, that lie before CLOSE_TIME. */
  const SLOTS_PER_DAY: nat := (CLOSE_TIME - OPEN_TIME) / SLOT_MINUTES

  /** A wall-clock instant: whole minutes since the epoch, plus the seconds and microseconds fields. */
  datatype DateTime = DateTime(minutes: int, second: nat, microsecond: nat)

  /** The `minute` attribute: minutes past the hour. */
  function Minute(t: DateTime): int {
    t.minutes % 60
  }

  /** The `date()` of an instant, as a day number (day 0 is 1970-01-01). */
  function Date(t: DateTime): int {
    t.minutes / MINUTES_PER_DAY
  }

  /** The `time()` of an instant given in minutes, as minutes after midnight. */
  function TimeOfDay(m: int): int {
    m % MINUTES_PER_DAY
  }

  /** Python's weekday() of a day number: 1970-01-01 was a Thursday (3). */
  function Weekday(day: int): int {
    (day + 3) % 7
  }

  // ---------------------------------------------------------------------
  // Rounding the current time up to the next slot boundary (lines 67-68)
  // ---------------------------------------------------------------------

  /** `to_next`: the minutes to add so that the minute lands on a multiple of SLOT_MINUTES. */
  function ToNext(now: DateTime): (r: int)
    ensures 0 <= r < SLOT_MINUTES
    ensures (Minute(now) + r) % SLOT_MINUTES == 0
  {
    (SLOT_MINUTES - Minute(now) % SLOT_MINUTES) % SLOT_MINUTES
  }

  /** `start_dt`: the least slot boundary at or after the current whole minute, with seconds and microseconds cleared. */
  function RoundUp(now: DateTime): (start: DateTime)
    ensures start.second == 0 && start.microsecond == 0
    ensures start.minutes % SLOT_MINUTES == 0
    ensures now.minutes <= start.minutes < now.minutes + SLOT_MINUTES
  {
    DateTime(now.minutes + ToNext(now), 0, 0)
  }

  // ---------------------------------------------------------------------
  // The slot starts (lines 70-78)
  // ---------------------------------------------------------------------

  /** The starts emitted for one day: none on a Sunday, otherwise OPEN_TIME, OPEN_TIME + 30, ... */
  function DayStarts(day: int): seq<int> {
    if Weekday(day) == SUNDAY then []
    else seq(SLOTS_PER_DAY, i => day * MINUTES_PER_DAY + OPEN_TIME + i * SLOT_MINUTES)
  }

  /** `all_slots` after the first `days` iterations of the day loop. */
  function Grid(firstDay: int, days: nat): seq<int> {
    if days == 0 then [] else Grid(firstDay, days - 1) + DayStarts(firstDay + days - 1)
  }

  /** Number of days among `days` consecutive ones from `firstDay` that are not Sundays. */
  function WorkingDays(firstDay: int, days: nat): nat {
    if days == 0 then 0
    else WorkingDays(firstDay, days - 1) + (if Weekday(firstDay + days - 1) == SUNDAY then 0 else 1)
  }

  /** A start is a grid point: its time of day is a slot boundary in [OPEN_TIME, CLOSE_TIME) of a non-Sunday. */
  predicate IsSlotStartOn(day: int, m: int) {
    && m / MINUTES_PER_DAY == day
    && Weekday(day) != SUNDAY
    && OPEN_TIME <= TimeOfDay(m) < CLOSE_TIME
    && m % SLOT_MINUTES == 0
  }

  predicate StrictlyIncreasing(s: seq<int>) {
    forall i, j :: 0 <= i < j < |s| ==> s[i] < s[j]
  }

  lemma TimeOfDayOf(day: int, x: int)
    requires 0 <= x < MINUTES_PER_DAY
    ensures (day * MINUTES_PER_DAY + x) / MINUTES_PER_DAY == day
    ensures TimeOfDay(day * MINUTES_PER_DAY + x) == x
  {
  }

  /** The loop of lines 70-78: one pass per day, an inner pass per half hour. */
  method SlotStarts(startDt: DateTime) returns (allSlots: seq<int>)
    ensures allSlots == Grid(Date(startDt), DAYS_AHEAD)
  {
    allSlots := [];
    for d := 0 to DAYS_AHEAD
      invariant allSlots == Grid(Date(startDt), d)
    {
      var day := Date(DateTime(startDt.minutes + d * MINUTES_PER_DAY, startDt.second, startDt.microsecond));
      TimeOfDayOf(Date(startDt) + d, TimeOfDay(startDt.minutes));
      assert day == Date(startDt) + d;
      if Weekday(day) == SUNDAY {
        continue;
      }
      var t := day * MINUTES_PER_DAY + OPEN_TIME;
      ghost var k := 0;
      TimeOfDayOf(day, OPEN_TIME);
      while TimeOfDay(t) < CLOSE_TIME
        invariant 0 <= k <= SLOTS_PER_DAY
        invariant t == day * MINUTES_PER_DAY + OPEN_TIME + k * SLOT_MINUTES
        invariant TimeOfDay(t) == OPEN_TIME + k * SLOT_MINUTES
        invariant allSlots == Grid(Date(startDt), d) + DayStarts(day)[..k]
        decreases SLOTS_PER_DAY - k
      {
        assert DayStarts(day)[..k + 1] == DayStarts(day)[..k] + [t];
        allSlots := allSlots + [t];
        t := t + SLOT_MINUTES;
        k := k + 1;
        TimeOfDayOf(day, OPEN_TIME + k * SLOT_MINUTES);
      }
      assert DayStarts(day)[..k] == DayStarts(day);
    }
  }

  // ---------------------------------------------------------------------
  // What the starts are
  // ---------------------------------------------------------------------

  /** A Sunday contributes nothing; any other day exactly SLOTS_PER_DAY (24) starts, 08:00 first and 19:30 last. */
  lemma DayStartsShape(day: int)
    ensures Weekday(day) == SUNDAY ==> DayStarts(day) == []
    ensures Weekday(day) != SUNDAY ==>
              && |DayStarts(day)| == SLOTS_PER_DAY == 24
              && DayStarts(day)[0] == day * MINUTES_PER_DAY + 8 * 60
              && DayStarts(day)[SLOTS_PER_DAY - 1] == day * MINUTES_PER_DAY + 19 * 60 + 30
    ensures forall i :: 0 <= i < |DayStarts(day)| ==> IsSlotStartOn(day, DayStarts(day)[i])
  {
    forall i | 0 <= i < |DayStarts(day)|
      ensures IsSlotStartOn(day, DayStarts(day)[i])
    {
      TimeOfDayOf(day, OPEN_TIME + i * SLOT_MINUTES);
    }
  }

  /** Every grid point of a day is one of the day's starts. */
  lemma DayStartsComplete(day: int, m: int)
    requires IsSlotStartOn(day, m)
    ensures m in DayStarts(day)
  {
    var tod := TimeOfDay(m);
    assert m == day * MINUTES_PER_DAY + tod;
    var i := (tod - OPEN_TIME) / SLOT_MINUTES;
    assert tod % SLOT_MINUTES == 0;
    assert tod == OPEN_TIME + i * SLOT_MINUTES;
    assert DayStarts(day)[i] == m;
  }

  /** A start belongs to a day's list exactly when it is a grid point of that day. */
  lemma DayStartsMembership(day: int, m: int)
    ensures m in DayStarts(day) <==> IsSlotStartOn(day, m)
  {
    DayStartsShape(day);
    if IsSlotStartOn(day, m) {
      DayStartsComplete(day, m);
    }
  }

  /** Running the day loop for a + b days is running it for a days, then for b days from day firstDay + a. */
  lemma {:induction false} GridAppend(firstDay: int, a: nat, b: nat)
    ensures Grid(firstDay, a + b) == Grid(firstDay, a) + Grid(firstDay + a, b)
  {
    if b > 0 {
      GridAppend(firstDay, a, b - 1);
    }
  }

  /** Each visited day that is not a Sunday adds SLOTS_PER_DAY starts. */
  lemma {:induction false} GridLength(firstDay: int, days: nat)
    ensures |Grid(firstDay, days)| == SLOTS_PER_DAY * WorkingDays(firstDay, days)
  {
    if days > 0 {
      GridLength(firstDay, days - 1);
      DayStartsShape(firstDay + days - 1);
    }
  }

  lemma {:induction false} WorkingDaysAppend(firstDay: int, a: nat, b: nat)
    ensures WorkingDays(firstDay, a + b) == WorkingDays(firstDay, a) + WorkingDays(firstDay + a, b)
  {
    if b > 0 {
      WorkingDaysAppend(firstDay, a, b - 1);
    }
  }

  /** Seven consecutive days hold exactly one Sunday. */
  lemma OneSundayPerWeek(firstDay: int)
    ensures WorkingDays(firstDay, 7) == 6
  {
    var w := Weekday(firstDay);
    assert Weekday(firstDay + 1) == (w + 1) % 7;
    assert Weekday(firstDay + 2) == (w + 2) % 7;
    assert Weekday(firstDay + 3) == (w + 3) % 7;
    assert Weekday(firstDay + 4) == (w + 4) % 7;
    assert Weekday(firstDay + 5) == (w + 5) % 7;
    assert Weekday(firstDay + 6) == (w + 6) % 7;
    assert WorkingDays(firstDay, 1) == (if Weekday(firstDay) == SUNDAY then 0 else 1);
    assert WorkingDays(firstDay, 2) == WorkingDays(firstDay, 1) + (if Weekday(firstDay + 1) == SUNDAY then 0 else 1);
    assert WorkingDays(firstDay, 3) == WorkingDays(firstDay, 2) + (if Weekday(firstDay + 2) == SUNDAY then 0 else 1);
    assert WorkingDays(firstDay, 4) == WorkingDays(firstDay, 3) + (if Weekday(firstDay + 3) == SUNDAY then 0 else 1);
    assert WorkingDays(firstDay, 5) == WorkingDays(firstDay, 4) + (if Weekday(firstDay + 4) == SUNDAY then 0 else 1);
    assert WorkingDays(firstDay, 6) == WorkingDays(firstDay, 5) + (if Weekday(firstDay + 5) == SUNDAY then 0 else 1);
    assert WorkingDays(firstDay, 7) == WorkingDays(firstDay, 6) + (if Weekday(firstDay + 6) == SUNDAY then 0 else 1);
  }

  /** Whatever the start date, the 28-day horizon has 24 working days and so 576 starts. */
  lemma HorizonSize(firstDay: int)
    ensures WorkingDays(firstDay, DAYS_AHEAD) == 24
    ensures |Grid(firstDay, DAYS_AHEAD)| == 576
  {
    OneSundayPerWeek(firstDay);
    OneSundayPerWeek(firstDay + 7);
    OneSundayPerWeek(firstDay + 14);
    OneSundayPerWeek(firstDay + 21);
    WorkingDaysAppend(firstDay, 7, 7);
    WorkingDaysAppend(firstDay, 14, 7);
    WorkingDaysAppend(firstDay, 21, 7);
    GridLength(firstDay, DAYS_AHEAD);
  }

  /** The starts are exactly the grid points of the visited days: nothing missing, nothing extra. */
  lemma {:induction false} GridMembership(firstDay: int, days: nat, m: int)
    ensures m in Grid(firstDay, days) <==>
              firstDay <= m / MINUTES_PER_DAY < firstDay + days && IsSlotStartOn(m / MINUTES_PER_DAY, m)
  {
    if days > 0 {
      GridMembership(firstDay, days - 1, m);
      DayStartsMembership(firstDay + days - 1, m);
    }
  }

  /** Every start lies inside the visited days. */
  lemma {:induction false} GridBounds(firstDay: int, days: nat)
    ensures forall i :: 0 <= i < |Grid(firstDay, days)| ==>
              firstDay * MINUTES_PER_DAY <= Grid(firstDay, days)[i] < (firstDay + days) * MINUTES_PER_DAY
  {
    if days > 0 {
      GridBounds(firstDay, days - 1);
      var prev, last := Grid(firstDay, days - 1), DayStarts(firstDay + days - 1);
      DayStartsShape(firstDay + days - 1);
      forall i | 0 <= i < |prev + last|
        ensures firstDay * MINUTES_PER_DAY <= (prev + last)[i] < (firstDay + days) * MINUTES_PER_DAY
      {
        if i >= |prev| {
          TimeOfDayOf(firstDay + days - 1, OPEN_TIME + (i - |prev|) * SLOT_MINUTES);
        }
      }
    }
  }

  /** all_slots is strictly increasing, so no start occurs twice. */
  lemma {:induction false} GridIncreasing(firstDay: int, days: nat)
    ensures StrictlyIncreasing(Grid(firstDay, days))
  {
    if days > 0 {
      GridIncreasing(firstDay, days - 1);
      GridBounds(firstDay, days - 1);
      var prev, last := Grid(firstDay, days - 1), DayStarts(firstDay + days - 1);
      DayStartsShape(firstDay + days - 1);
      forall i, j | 0 <= i < j < |prev + last|
        ensures (prev + last)[i] < (prev + last)[j]
      {
        if j >= |prev| {
          assert (prev + last)[j] == last[j - |prev|];
          if i < |prev| {
            assert (prev + last)[i] == prev[i];
          }
        }
      }
    }
  }

  /** The loop starts with the first day's starts. */
  lemma {:induction false} GridHead(firstDay: int, days: nat)
    requires days > 0
    ensures Grid(firstDay, days) == DayStarts(firstDay) + Grid(firstDay + 1, days - 1)
  {
    GridAppend(firstDay, 1, days - 1);
    assert Grid(firstDay, 1) == Grid(firstDay, 0) + DayStarts(firstDay);
  }

  /** Only the date of the rounded start is used: on a working first day whose start falls after
      08:00, the first slot emitted lies before the start (and before the clock time). */
  lemma PastSlotsOnFirstDay(now: DateTime)
    requires Weekday(Date(RoundUp(now))) != SUNDAY
    requires TimeOfDay(RoundUp(now).minutes) > OPEN_TIME
    ensures var grid := Grid(Date(RoundUp(now)), DAYS_AHEAD);
            |grid| > 0 && grid[0] == Date(RoundUp(now)) * MINUTES_PER_DAY + OPEN_TIME && grid[0] < now.minutes
  {
    var start := RoundUp(now).minutes;
    var day := Date(RoundUp(now));
    GridHead(day, DAYS_AHEAD);
    assert DayStarts(day)[0] == day * MINUTES_PER_DAY + OPEN_TIME;
    DayAndTime(start);
  }

  /** An instant on a slot boundary is its day's midnight plus a time of day on a slot boundary. */
  lemma DayAndTime(m: int)
    requires m % SLOT_MINUTES == 0
    ensures m == (m / MINUTES_PER_DAY) * MINUTES_PER_DAY + TimeOfDay(m)
    ensures TimeOfDay(m) % SLOT_MINUTES == 0
  {
    var tod := TimeOfDay(m);
    assert m == (m / MINUTES_PER_DAY) * MINUTES_PER_DAY + tod;
    assert tod == m - (m / MINUTES_PER_DAY) * 48 * SLOT_MINUTES;
  }

  // ---------------------------------------------------------------------
  // Property ids, the property x slot product and the row columns (lines 23, 80-89)
  // ---------------------------------------------------------------------

  /** One row of property_slots; its primary key is (propertyId, slotStart). */
  datatype SlotRow = SlotRow(propertyId: string, slotStart: int, slotEnd: int, status: string)

  function Key(row: SlotRow): (string, int) {
    (row.propertyId, row.slotStart)
  }

  function Keys(rows: seq<SlotRow>): seq<(string, int)> {
    seq(|rows|, k requires 0 <= k < |rows| => Key(rows[k]))
  }

  predicate Distinct<T(==)>(s: seq<T>) {
    forall i, j :: 0 <= i < j < |s| ==> s[i] != s[j]
  }

  /** The position of the first occurrence of `x` in `s`. */
  function FirstIndex(s: seq<string>, x: string): (k: nat)
    requires x in s
    ensures k < |s| && s[k] == x && x !in s[..k]
  {
    if s[0] == x then 0
    else
      var k := FirstIndex(s[1..], x);
      assert s[..k + 1] == [s[0]] + s[1..][..k];
      k + 1
  }

  /** Appending an element leaves the first occurrences of the earlier ones where they were. */
  lemma {:induction false} FirstIndexAppend(s: seq<string>, y: string)
    ensures forall x :: x in s ==> FirstIndex(s + [y], x) == FirstIndex(s, x)
    ensures y !in s ==> FirstIndex(s + [y], y) == |s|
  {
    if s != [] {
      FirstIndexAppend(s[1..], y);
      assert (s + [y])[1..] == s[1..] + [y];
    }
  }

  /**
    `drop_duplicates(subset="id")`: keeps the first occurrence of every id.
    The ids kept are the listed ones, each once, in the order of their first
    occurrence.
   */
  function DropDuplicates(ids: seq<string>): (r: seq<string>)
    ensures forall x :: x in r <==> x in ids
    ensures Distinct(r)
    ensures |r| <= |ids|
    ensures forall i, j :: 0 <= i < j < |r| ==> FirstIndex(ids, r[i]) < FirstIndex(ids, r[j])
  {
    if ids == [] then []
    else
      var init, last := ids[..|ids| - 1], ids[|ids| - 1];
      assert ids == init + [last];
      var kept := DropDuplicates(init);
      FirstIndexAppend(init, last);
      if last in kept then kept else kept + [last]
  }

  /** The rows that `from_product` builds for one property: that property with every start, in order. */
  function Block(id: string, slots: seq<int>): seq<(string, int)> {
    seq(|slots|, j requires 0 <= j < |slots| => (id, slots[j]))
  }

  /** `MultiIndex.from_product([ids, slots])`: property-major, every property with every start. */
  function Product(ids: seq<string>, slots: seq<int>): seq<(string, int)> {
    if ids == [] then [] else Product(ids[..|ids| - 1], slots) + Block(ids[|ids| - 1], slots)
  }

  /** `np.where(mask, "booked", "free")` for one entry. */
  function StatusOf(booked: bool): (status: string)
    ensures status == "booked" || status == "free"
    ensures status == "booked" <==> booked
  {
    if booked then "booked" else "free"
  }

  lemma MulMonotone(a: nat, b: nat, m: nat)
    requires a <= b
    ensures a * m <= b * m
  {
  }

  /** Exactly one row per (property, start) pair. */
  lemma {:induction false} ProductLength(ids: seq<string>, slots: seq<int>)
    ensures |Product(ids, slots)| == |ids| * |slots|
  {
    if ids != [] {
      ProductLength(ids[..|ids| - 1], slots);
      assert |ids| * |slots| == (|ids| - 1) * |slots| + |slots|;
    }
  }

  /** Row i * |slots| + j pairs the i-th property with the j-th start. */
  lemma {:induction false} ProductAt(ids: seq<string>, slots: seq<int>, i: nat, j: nat)
    requires i < |ids| && j < |slots|
    ensures |Product(ids, slots)| == |ids| * |slots|
    ensures i * |slots| + j < |ids| * |slots|
    ensures Product(ids, slots)[i * |slots| + j] == (ids[i], slots[j])
  {
    ProductLength(ids, slots);
    var n, m := |ids|, |slots|;
    var init := ids[..n - 1];
    ProductLength(init, slots);
    assert n * m == (n - 1) * m + m;
    if i < n - 1 {
      MulMonotone(i, n - 2, m);
      assert (n - 1) * m == (n - 2) * m + m;
      ProductAt(init, slots, i, j);
    } else {
      assert i * m == (n - 1) * m;
    }
  }

  lemma BlockMembership(id: string, slots: seq<int>, p: (string, int))
    ensures p in Block(id, slots) <==> p.0 == id && p.1 in slots
  {
    if p.0 == id && p.1 in slots {
      var j :| 0 <= j < |slots| && slots[j] == p.1;
      assert Block(id, slots)[j] == p;
    }
  }

  /** The product holds a pair exactly when its property and its start are both listed. */
  lemma {:induction false} ProductMembership(ids: seq<string>, slots: seq<int>, p: (string, int))
    ensures p in Product(ids, slots) <==> p.0 in ids && p.1 in slots
  {
    if ids != [] {
      var init, last := ids[..|ids| - 1], ids[|ids| - 1];
      assert ids == init + [last];
      ProductMembership(init, slots, p);
      BlockMembership(last, slots, p);
    }
  }

  /** Distinct properties and distinct starts give distinct keys, as the primary key requires. */
  lemma {:induction false} ProductDistinct(ids: seq<string>, slots: seq<int>)
    requires Distinct(ids) && Distinct(slots)
    ensures Distinct(Product(ids, slots))
  {
    if ids != [] {
      var init, last := ids[..|ids| - 1], ids[|ids| - 1];
      assert ids == init + [last];
      ProductDistinct(init, slots);
      var prev, block := Product(init, slots), Block(last, slots);
      forall a, b | 0 <= a < b < |prev + block|
        ensures (prev + block)[a] != (prev + block)[b]
      {
        if a < |prev| && b >= |prev| {
          assert prev[a] in prev;
          ProductMembership(init, slots, prev[a]);
          assert (prev + block)[b] == block[b - |prev|];
        } else if a >= |prev| {
          assert (prev + block)[a] == block[a - |prev|];
          assert (prev + block)[b] == block[b - |prev|];
        }
      }
    }
  }

  /** Lines 80-89: the product frame, then the slot_end column, then the status column. */
  method BuildRows(ids: seq<string>, allSlots: seq<int>, mask: seq<bool>) returns (rows: seq<SlotRow>)
    requires |mask| == |ids| * |allSlots|
    ensures |rows| == |ids| * |allSlots|
    ensures Keys(rows) == Product(ids, allSlots)
    ensures forall k :: 0 <= k < |rows| ==> rows[k].slotEnd - rows[k].slotStart == SLOT_MINUTES
    ensures forall k :: 0 <= k < |rows| ==>
              (rows[k].status == "booked" || rows[k].status == "free") && (rows[k].status == "booked" <==> mask[k])
  {
    var frame := Product(ids, allSlots);
    ProductLength(ids, allSlots);
    var slotEnd := seq(|frame|, k requires 0 <= k < |frame| => frame[k].1 + SLOT_MINUTES);
    var status := seq(|mask|, k requires 0 <= k < |mask| => StatusOf(mask[k]));
    rows := seq(|frame|, k requires 0 <= k < |frame| => SlotRow(frame[k].0, frame[k].1, slotEnd[k], status[k]));
  }

  /**
    The whole generation: rounding, the slot starts, the property x start
    product and the slot_end and status columns. The wall clock, the random
    sample of property ids and the random booked mask are inputs; the mask has
    one entry per row, as `rng.random(len(slots_df))` draws.
   */
  method GenerateSlots(now: DateTime, sampledIds: seq<string>, mask: seq<bool>) returns (rows: seq<SlotRow>)
    requires |mask| == |DropDuplicates(sampledIds)| * |Grid(Date(RoundUp(now)), DAYS_AHEAD)|
    ensures var ids, grid := DropDuplicates(sampledIds), Grid(Date(RoundUp(now)), DAYS_AHEAD);
            && |grid| == 576
            && |rows| == |ids| * |grid|
            && Keys(rows) == Product(ids, grid)
            && (forall p :: p in Keys(rows) <==> p.0 in sampledIds && p.1 in grid)
            && Distinct(Keys(rows))
    ensures forall k :: 0 <= k < |rows| ==> rows[k].slotEnd - rows[k].slotStart == SLOT_MINUTES
    ensures forall k :: 0 <= k < |rows| ==>
              (rows[k].status == "booked" || rows[k].status == "free") && (rows[k].status == "booked" <==> mask[k])
  {
    var startDt := RoundUp(now);
    var allSlots := SlotStarts(startDt);
    var ids := DropDuplicates(sampledIds);
    rows := BuildRows(ids, allSlots, mask);
    HorizonSize(Date(startDt));
    GridIncreasing(Date(startDt), DAYS_AHEAD);
    forall p
      ensures p in Keys(rows) <==> p.0 in sampledIds && p.1 in allSlots
    {
      ProductMembership(ids, allSlots, p);
    }
    ProductDistinct(ids, allSlots);
  }
}
