/** Who is free when: rows of half-hour slots, exceptions that override the base rows, slots
    nobody may use, and each participant's first run of free time. */
module Availability {
  import opened Common
  import opened Intervals
  import Calendar = DateSearch

  const HALF_HOUR := 1800.0

  datatype State = CanDo | CantDo | Maybe

  /** One row: a participant's word about a slot, which begins at each of `occurrences`. */
  datatype Row = Row(profile: string, state: State, isException: bool, occurrences: seq<real>)

  /** A window: hours until it starts, its length in hours, and whether it may go on. */
  datatype Window = Window(name: string, startsIn: real, duration: real, lowerBound: bool)

  /** The scan: from `now`, starting by `cutoff`, up to `horizon`, and the schedule's own range. */
  datatype Scan = Scan(now: real, cutoff: real, horizon: real, first: Option<real>, last: Option<real>)
  {
    function Start(): real {
      if first.Some? then Max(now, first.value) else now
    }

    function End(): real {
      if last.Some? && last.value < horizon then last.value else horizon
    }

    predicate Inside(t: real) {
      Start() <= t < End()
    }
  }

  datatype Schedule = Schedule(
    recurring: bool,
    disallowed: seq<seq<real>>,
    blocked: set<string>,
    profiles: map<string, string>,
    selections: seq<Row>)

  // Meaning -----------------------------------------------------------------------------

  predicate InSlot(occurrence: real, t: real) {
    occurrence <= t < occurrence + HALF_HOUR
  }

  predicate SlotCovers(occurrences: seq<real>, t: real) {
    exists i :: 0 <= i < |occurrences| && InSlot(occurrences[i], t)
  }

  predicate AnySlot(rows: seq<seq<real>>, t: real) {
    exists i :: 0 <= i < |rows| && SlotCovers(rows[i], t)
  }

  /** Whether a row is an exception; a one-off schedule has none. */
  predicate IsException(recurring: bool, row: Row) {
    recurring && row.isException
  }

  predicate Speaks(recurring: bool, row: Row, profile: string, exception: bool, yes: bool, t: real) {
    row.profile == profile && IsException(recurring, row) == exception && (row.state == CanDo) == yes
    && SlotCovers(row.occurrences, t)
  }

  /** Some row of the participant, of the given kind, says yes or says no about `t`. */
  predicate Said(recurring: bool, rows: seq<Row>, profile: string, exception: bool, yes: bool, t: real) {
    exists i :: 0 <= i < |rows| && Speaks(recurring, rows[i], profile, exception, yes, t)
  }

  /** The rule: nobody is free in a disallowed slot; otherwise exceptions decide if there are
      any, and base rows if not; and one negative outweighs any number of can-dos. */
  predicate Free(s: Schedule, scan: Scan, profile: string, t: real) {
    var says := (exception, yes) => Said(s.recurring, s.selections, profile, exception, yes, t);
    && scan.Inside(t)
    && !AnySlot(s.disallowed, t)
    && (if says(true, true) || says(true, false) then says(true, true) && !says(true, false)
        else says(false, true) && !says(false, false))
  }

  /** `[left, right)` is the first maximal run of free time. */
  ghost predicate FirstRun(s: Schedule, scan: Scan, profile: string, left: real, right: real) {
    && left < right
    && (forall t :: t < left ==> !Free(s, scan, profile, t))
    && (forall t :: left <= t < right ==> Free(s, scan, profile, t))
    && !Free(s, scan, profile, right)
  }

  ghost predicate Listed(s: Schedule, scan: Scan, profile: string) {
    && profile in s.profiles && profile !in s.blocked
    && exists t :: t <= scan.cutoff && Free(s, scan, profile, t)
  }

  /** A window reports the participant's first run, and says "at least" exactly if they are free
      right up to the horizon. */
  ghost predicate Reports(s: Schedule, scan: Scan, profile: string, w: Window) {
    profile in s.profiles && w.name == s.profiles[profile] &&
    var left := scan.now + w.startsIn * 3600.0;
    && FirstRun(s, scan, profile, left, left + w.duration * 3600.0)
    && (w.lowerBound <==> forall t :: left <= t < scan.horizon ==> Free(s, scan, profile, t))
  }

  // Slots -------------------------------------------------------------------------------

  /** The occurrences of a slot, clipped to the scan. */
  method SlotIntervals(occurrences: seq<real>, scan: Scan) returns (merged: seq<Interval>)
    ensures forall t :: Covers(merged, t) <==> scan.Inside(t) && SlotCovers(occurrences, t)
  {
    var intervals: seq<Interval> := [];
    for k := 0 to |occurrences|
      invariant forall t :: Covers(intervals, t) <==> scan.Inside(t) && SlotCovers(occurrences[..k], t)
    {
      var left := Max(scan.Start(), occurrences[k]);
      var right := if occurrences[k] + HALF_HOUR < scan.End() then occurrences[k] + HALF_HOUR else scan.End();
      ghost var before := intervals;
      if left < right {
        intervals := intervals + [Interval(left, right)];
      }
      ClipStep(before, intervals, occurrences, k, scan, left, right);
    }
    assert occurrences[..|occurrences|] == occurrences;
    merged := Merge(intervals);
  }

  lemma ClipStep(before: seq<Interval>, after: seq<Interval>, occurrences: seq<real>, k: nat, scan: Scan,
                 left: real, right: real)
    requires k < |occurrences|
    requires forall t :: Covers(before, t) <==> scan.Inside(t) && SlotCovers(occurrences[..k], t)
    requires forall t :: In(Interval(left, right), t) <==> scan.Inside(t) && InSlot(occurrences[k], t)
    requires after == if left < right then before + [Interval(left, right)] else before
    ensures forall t :: Covers(after, t) <==> scan.Inside(t) && SlotCovers(occurrences[..k + 1], t)
  {
    hide Covers, InSlot, Scan.Inside;
    forall t ensures Covers(after, t) <==> scan.Inside(t) && SlotCovers(occurrences[..k + 1], t) {
      CoversAppend(before, Interval(left, right), t);
      SlotsAppend(occurrences, k, t);
    }
  }

  lemma SlotsAppend(occurrences: seq<real>, k: nat, t: real)
    requires k < |occurrences|
    ensures SlotCovers(occurrences[..k + 1], t) <==> SlotCovers(occurrences[..k], t) || InSlot(occurrences[k], t)
  {
    hide InSlot;
    var more, less := occurrences[..k + 1], occurrences[..k];
    if SlotCovers(more, t) {
      var i :| 0 <= i < |more| && InSlot(more[i], t);
      assert i < k ==> less[i] == more[i];
    }
    if SlotCovers(less, t) {
      var i :| 0 <= i < |less| && InSlot(less[i], t);
      assert less[i] == more[i];
    }
    if InSlot(occurrences[k], t) {
      assert InSlot(more[k], t);
    }
  }

  // Weekly slots --------------------------------------------------------------------------

  const DAY := 86400.0

  /** A weekly half-hour slot, at one offset from UTC: its weekday, with Sunday as 0, and its start
      in minutes. */
  datatype Weekly = Weekly(weekday: int, minutes: int, offset: real)
  {
    predicate Valid() {
      0 <= weekday < 7 && 0 <= minutes < 1440
    }

    /** The local date of an instant, counted from 1 January 1970. */
    function DateOf(t: real): int {
      ((t + offset) / DAY).Floor
    }

    /** When the slot begins on a date. */
    function StartOn(date: int): real {
      date as real * DAY + minutes as real * 60.0 - offset
    }
  }

  /** The weekday of a date: 1 January 1970 was a Thursday. */
  function WeekdayOf(date: int): int {
    (date + 4) % 7
  }

  /** The slot covers an instant on some date of its weekday, of all the dates there are. */
  ghost predicate WeeklyCovers(w: Weekly, t: real) {
    exists date: int :: WeekdayOf(date) == w.weekday && InSlot(w.StartOn(date), t)
  }

  lemma FirstOfWeekday(from: int, weekday: int)
    requires 0 <= weekday < 7
    ensures
      var first := from + (weekday - WeekdayOf(from)) % 7;
      && WeekdayOf(first) == weekday && from <= first
      && forall date :: date >= from && WeekdayOf(date) == weekday ==> date >= first && (date - first) % 7 == 0
  {
    var ahead := (weekday - WeekdayOf(from)) % 7;
    Ahead(from, weekday);
    forall date | date >= from && WeekdayOf(date) == weekday
      ensures date >= from + ahead && (date - (from + ahead)) % 7 == 0
    {
      AWeekApart(date, from + ahead);
    }
  }

  lemma Ahead(from: int, weekday: int)
    requires 0 <= weekday < 7
    ensures WeekdayOf(from + (weekday - WeekdayOf(from)) % 7) == weekday
  {
    assert 0 <= WeekdayOf(from) < 7;
  }

  lemma AWeekApart(a: int, b: int)
    requires WeekdayOf(a) == WeekdayOf(b)
    ensures (a - b) % 7 == 0
  {
  }

  /** A slot that covers an instant of the scan begins on a date from the day before the scan's
      first to its last. */
  lemma DatesOfScan(w: Weekly, scan: Scan, date: int, t: real)
    requires w.Valid() && scan.Inside(t) && InSlot(w.StartOn(date), t)
    ensures w.DateOf(scan.Start()) - 1 <= date <= w.DateOf(scan.End())
  {
    var from, to := (scan.Start() + w.offset) / DAY, (scan.End() + w.offset) / DAY;
    assert date as real * DAY <= scan.End() + w.offset;
    assert date as real <= to;
    assert scan.Start() + w.offset < (date as real + 2.0) * DAY;
    assert from < date as real + 2.0;
  }

  /** The dates from the first of the weekday on, a week apart. They are enough: the result covers
      what the slot covers on all the dates there are, within the scan. */
  method WeeklyIntervals(w: Weekly, scan: Scan) returns (merged: seq<Interval>)
    requires w.Valid()
    ensures forall t :: Covers(merged, t) <==> scan.Inside(t) && WeeklyCovers(w, t)
  {
    hide Covers, WeekdayOf, InSlot, Scan.Inside, Weekly.DateOf, Weekly.StartOn;
    var from, last := w.DateOf(scan.Start()) - 1, w.DateOf(scan.End());
    var first := from + (w.weekday - WeekdayOf(from)) % 7;
    FirstOfWeekday(from, w.weekday);
    var occurrences: seq<real> := [];
    var date := first;
    while date <= last
      invariant date == first + 7 * |occurrences|
      invariant forall k :: 0 <= k < |occurrences| ==> occurrences[k] == w.StartOn(first + 7 * k)
    {
      occurrences := occurrences + [w.StartOn(date)];
      date := date + 7;
    }
    forall t | scan.Inside(t) ensures SlotCovers(occurrences, t) <==> WeeklyCovers(w, t) {
      WeeklyEnough(w, scan, first, last, occurrences, t);
    }
    merged := SlotIntervals(occurrences, scan);
  }

  lemma WeeklyEnough(w: Weekly, scan: Scan, first: int, last: int, occurrences: seq<real>, t: real)
    requires w.Valid() && scan.Inside(t) && last == w.DateOf(scan.End()) && WeekdayOf(first) == w.weekday
    requires forall date :: date >= w.DateOf(scan.Start()) - 1 && WeekdayOf(date) == w.weekday ==>
      date >= first && (date - first) % 7 == 0
    requires first + 7 * |occurrences| > last
    requires forall k :: 0 <= k < |occurrences| ==> occurrences[k] == w.StartOn(first + 7 * k)
    ensures SlotCovers(occurrences, t) <==> WeeklyCovers(w, t)
  {
    hide InSlot, Scan.Inside, Weekly.DateOf, Weekly.StartOn;
    if SlotCovers(occurrences, t) {
      var k :| 0 <= k < |occurrences| && InSlot(occurrences[k], t);
      assert WeekdayOf(first + 7 * k) == w.weekday;
    }
    if WeeklyCovers(w, t) {
      var date: int :| WeekdayOf(date) == w.weekday && InSlot(w.StartOn(date), t);
      DatesOfScan(w, scan, date, t);
      var k := (date - first) / 7;
      assert date == first + 7 * k;
      assert InSlot(occurrences[k], t);
    }
  }

  // Disallowed slots ------------------------------------------------------------------------

  method DisallowedIntervals(rows: seq<seq<real>>, scan: Scan) returns (intervals: seq<Interval>)
    ensures forall t :: Covers(intervals, t) <==> scan.Inside(t) && AnySlot(rows, t)
  {
    assert forall t :: !Covers([], t);
    hide Covers, SlotCovers, Scan.Inside;
    intervals := [];
    for k := 0 to |rows|
      invariant forall t :: Covers(intervals, t) <==> scan.Inside(t) && AnySlot(rows[..k], t)
    {
      var more := SlotIntervals(rows[k], scan);
      forall t ensures Covers(intervals + more, t) <==> scan.Inside(t) && AnySlot(rows[..k + 1], t) {
        CoversConcat(intervals, more, t);
        RowsAppend(rows, k, t);
      }
      intervals := intervals + more;
    }
    assert rows[..|rows|] == rows;
  }

  lemma RowsAppend(rows: seq<seq<real>>, k: nat, t: real)
    requires k < |rows|
    ensures AnySlot(rows[..k + 1], t) <==> AnySlot(rows[..k], t) || SlotCovers(rows[k], t)
  {
    hide SlotCovers;
    var more, less := rows[..k + 1], rows[..k];
    if AnySlot(more, t) {
      var i :| 0 <= i < |more| && SlotCovers(more[i], t);
      assert i < k ==> less[i] == more[i];
    }
    if AnySlot(less, t) {
      var i :| 0 <= i < |less| && SlotCovers(less[i], t);
      assert less[i] == more[i];
    }
    if SlotCovers(rows[k], t) {
      assert SlotCovers(more[k], t);
    }
  }

  // Buckets -----------------------------------------------------------------------------

  /** A participant's intervals: base can-do, base negative, exception can-do, exception
      negative. */
  type Buckets = b: seq<seq<Interval>> | |b| == 4 witness [[], [], [], []]

  function BucketOf(exception: bool, yes: bool): nat {
    (if exception then 2 else 0) + if yes then 0 else 1
  }

  /** The buckets of a participant hold what the rows say. */
  ghost predicate Sorted4(b: Buckets, recurring: bool, rows: seq<Row>, profile: string, scan: Scan) {
    forall exception, yes, t ::
      Covers(b[BucketOf(exception, yes)], t) <==> scan.Inside(t) && Said(recurring, rows, profile, exception, yes, t)
  }

  lemma SaidAppend(recurring: bool, rows: seq<Row>, k: nat, profile: string, exception: bool, yes: bool, t: real)
    requires k < |rows|
    ensures Said(recurring, rows[..k + 1], profile, exception, yes, t) <==>
      Said(recurring, rows[..k], profile, exception, yes, t) || Speaks(recurring, rows[k], profile, exception, yes, t)
  {
    hide Speaks;
    var more, less := rows[..k + 1], rows[..k];
    if Said(recurring, more, profile, exception, yes, t) {
      var i :| 0 <= i < |more| && Speaks(recurring, more[i], profile, exception, yes, t);
      assert i < k ==> less[i] == more[i];
    }
    if Said(recurring, less, profile, exception, yes, t) {
      var i :| 0 <= i < |less| && Speaks(recurring, less[i], profile, exception, yes, t);
      assert less[i] == more[i];
    }
    if Speaks(recurring, rows[k], profile, exception, yes, t) {
      assert Speaks(recurring, more[k], profile, exception, yes, t);
    }
  }

  /** A row goes to one bucket of its own participant. */
  lemma FileRow(b: Buckets, recurring: bool, rows: seq<Row>, k: nat, scan: Scan, intervals: seq<Interval>)
    requires k < |rows| && Sorted4(b, recurring, rows[..k], rows[k].profile, scan)
    requires forall t :: Covers(intervals, t) <==> scan.Inside(t) && SlotCovers(rows[k].occurrences, t)
    ensures
      var at := BucketOf(IsException(recurring, rows[k]), rows[k].state == CanDo);
      Sorted4(b[at := b[at] + intervals], recurring, rows[..k + 1], rows[k].profile, scan)
  {
    hide Covers, SlotCovers, Scan.Inside, Said;
    var row := rows[k];
    var at := BucketOf(IsException(recurring, row), row.state == CanDo);
    forall exception, yes, t
      ensures Covers(b[at := b[at] + intervals][BucketOf(exception, yes)], t) <==>
        scan.Inside(t) && Said(recurring, rows[..k + 1], row.profile, exception, yes, t) {
      SaidAppend(recurring, rows, k, row.profile, exception, yes, t);
      CoversConcat(b[at], intervals, t);
    }
  }

  /** And changes nothing for the others. */
  lemma SkipRow(b: Buckets, recurring: bool, rows: seq<Row>, k: nat, scan: Scan, profile: string)
    requires k < |rows| && rows[k].profile != profile && Sorted4(b, recurring, rows[..k], profile, scan)
    ensures Sorted4(b, recurring, rows[..k + 1], profile, scan)
  {
    hide Covers, SlotCovers, Scan.Inside, Said;
    forall exception, yes, t
      ensures Covers(b[BucketOf(exception, yes)], t) <==>
        scan.Inside(t) && Said(recurring, rows[..k + 1], profile, exception, yes, t) {
      SaidAppend(recurring, rows, k, profile, exception, yes, t);
    }
  }

  lemma NoRows(recurring: bool, rows: seq<Row>, profile: string, scan: Scan)
    requires forall i :: 0 <= i < |rows| ==> rows[i].profile != profile
    ensures Sorted4([[], [], [], []], recurring, rows, profile, scan)
  {
  }

  method FillBuckets(s: Schedule, scan: Scan) returns (order: seq<string>, buckets: map<string, Buckets>)
    ensures forall i, j :: 0 <= i < j < |order| ==> order[i] != order[j]
    ensures forall p :: p in order <==> p in buckets
    ensures forall p :: p in buckets ==> Sorted4(buckets[p], s.recurring, s.selections, p, scan)
    ensures forall i :: 0 <= i < |s.selections| ==> s.selections[i].profile in buckets
  {
    hide Sorted4, Scan.Inside, SlotCovers, Covers;
    var rows := s.selections;
    order, buckets := [], map[];
    for k := 0 to |rows|
      invariant forall i, j :: 0 <= i < j < |order| ==> order[i] != order[j]
      invariant forall p :: p in order <==> p in buckets
      invariant forall p :: p in buckets ==> Sorted4(buckets[p], s.recurring, rows[..k], p, scan)
      invariant forall i :: 0 <= i < k ==> rows[i].profile in buckets
    {
      var row := rows[k];
      var intervals := SlotIntervals(row.occurrences, scan);
      if row.profile !in buckets {
        NoRows(s.recurring, rows[..k], row.profile, scan);
        order, buckets := order + [row.profile], buckets[row.profile := [[], [], [], []]];
      }
      var mine := buckets[row.profile];
      var at := BucketOf(IsException(s.recurring, row), row.state == CanDo);
      FileRow(mine, s.recurring, rows, k, scan, intervals);
      forall p | p in buckets && p != row.profile ensures Sorted4(buckets[p], s.recurring, rows[..k + 1], p, scan) {
        SkipRow(buckets[p], s.recurring, rows, k, scan, p);
      }
      buckets := buckets[row.profile := mine[at := mine[at] + intervals]];
    }
    assert rows[..|rows|] == rows;
  }

  // Free time ---------------------------------------------------------------------------

  /** The free time of a participant, as a canonical list of intervals. */
  method FreeTime(b: Buckets, disallowed: seq<Interval>, ghost s: Schedule, ghost scan: Scan, ghost profile: string)
    returns (available: seq<Interval>)
    requires Sorted4(b, s.recurring, s.selections, profile, scan)
    requires forall t :: Covers(disallowed, t) <==> scan.Inside(t) && AnySlot(s.disallowed, t)
    ensures Canonical(available)
    ensures forall t :: Covers(available, t) <==> Free(s, scan, profile, t)
  {
    hide Covers, Canonical, Scan.Inside, Said, AnySlot;
    var base := Subtract(b[0], b[1] + b[2] + b[3]);
    var exceptions := Subtract(b[2], b[3]);
    available := Subtract(base + exceptions, disallowed);
    forall t ensures Covers(available, t) <==> Free(s, scan, profile, t) {
      CoversConcat(b[1] + b[2], b[3], t);
      CoversConcat(b[1], b[2], t);
      CoversConcat(base, exceptions, t);
      assert BucketOf(false, true) == 0 && BucketOf(false, false) == 1;
      assert BucketOf(true, true) == 2 && BucketOf(true, false) == 3;
    }
  }

  // Windows -----------------------------------------------------------------------------

  lemma FirstInterval(available: seq<Interval>, s: Schedule, scan: Scan, profile: string)
    requires Canonical(available)
    requires forall t :: Covers(available, t) <==> Free(s, scan, profile, t)
    ensures available != [] ==> FirstRun(s, scan, profile, available[0].start, available[0].end)
    ensures (exists t :: t <= scan.cutoff && Free(s, scan, profile, t)) <==>
      available != [] && available[0].start <= scan.cutoff
  {
    assert available == [] ==> forall t :: !Covers(available, t);
    hide Covers, Free;
    if available != [] {
      Edges(available);
      assert Free(s, scan, profile, available[0].start);
    }
  }

  lemma ReachesHorizon(s: Schedule, scan: Scan, profile: string, left: real, right: real)
    requires FirstRun(s, scan, profile, left, right)
    ensures right == scan.horizon <==> forall t :: left <= t < scan.horizon ==> Free(s, scan, profile, t)
  {
    hide Said, AnySlot;
    forall t | t >= scan.horizon ensures !Free(s, scan, profile, t) {
      assert !scan.Inside(t);
    }
    hide Free;
    assert Free(s, scan, profile, left);
    assert right > scan.horizon ==> left <= scan.horizon < right && Free(s, scan, profile, scan.horizon);
    assert right <= scan.horizon && left < scan.horizon;
    if right < scan.horizon {
      assert !Free(s, scan, profile, right);
    }
  }

  /** A window is of a profile; the profile is dropped in the answer. */
  datatype Entry = Entry(profile: string, window: Window)

  ghost predicate Accurate(s: Schedule, scan: Scan, entries: seq<Entry>) {
    && (forall i, j :: 0 <= i < j < |entries| ==> entries[i].profile != entries[j].profile)
    && (forall i :: 0 <= i < |entries| ==>
          Listed(s, scan, entries[i].profile) && Reports(s, scan, entries[i].profile, entries[i].window))
  }

  function MakeWindow(name: string, scan: Scan, iv: Interval): Window {
    Window(name, (iv.start - scan.now) / 3600.0, (iv.end - iv.start) / 3600.0, iv.end == scan.horizon)
  }

  lemma WindowReports(s: Schedule, scan: Scan, profile: string, iv: Interval)
    requires profile in s.profiles && FirstRun(s, scan, profile, iv.start, iv.end)
    ensures Reports(s, scan, profile, MakeWindow(s.profiles[profile], scan, iv))
  {
    ReachesHorizon(s, scan, profile, iv.start, iv.end);
    hide FirstRun, Free;
    var w := MakeWindow(s.profiles[profile], scan, iv);
    assert scan.now + w.startsIn * 3600.0 == iv.start;
    assert iv.start + w.duration * 3600.0 == iv.end;
  }

  lemma FreeHasRow(s: Schedule, scan: Scan, profile: string)
    requires exists t :: t <= scan.cutoff && Free(s, scan, profile, t)
    ensures exists i :: 0 <= i < |s.selections| && s.selections[i].profile == profile
  {
    var t :| t <= scan.cutoff && Free(s, scan, profile, t);
    if Said(s.recurring, s.selections, profile, true, true, t) {
      var i :| 0 <= i < |s.selections| && Speaks(s.recurring, s.selections[i], profile, true, true, t);
    } else {
      var i :| 0 <= i < |s.selections| && Speaks(s.recurring, s.selections[i], profile, false, true, t);
    }
  }

  method CollectWindows(s: Schedule, scan: Scan) returns (entries: seq<Entry>)
    ensures Accurate(s, scan, entries)
    ensures forall p :: Listed(s, scan, p) ==> exists i :: 0 <= i < |entries| && entries[i].profile == p
  {
    hide Sorted4, Covers, Canonical, Free, FirstRun, Reports, Scan.Inside, AnySlot;
    var disallowed := DisallowedIntervals(s.disallowed, scan);
    var order, buckets := FillBuckets(s, scan);
    entries := [];
    for k := 0 to |order|
      invariant Accurate(s, scan, entries)
      invariant forall i :: 0 <= i < |entries| ==> entries[i].profile in order[..k]
      invariant forall j :: 0 <= j < k && Listed(s, scan, order[j]) ==>
        exists i :: 0 <= i < |entries| && entries[i].profile == order[j]
    {
      var profile := order[k];
      ghost var before := entries;
      if profile in s.profiles && profile !in s.blocked {
        var available := FreeTime(buckets[profile], disallowed, s, scan, profile);
        FirstInterval(available, s, scan, profile);
        if available != [] && available[0].start <= scan.cutoff {
          WindowReports(s, scan, profile, available[0]);
          entries := entries + [Entry(profile, MakeWindow(s.profiles[profile], scan, available[0]))];
          assert entries[|before|].profile == profile;
        }
      }
      forall j | 0 <= j < k + 1 && Listed(s, scan, order[j])
        ensures exists i :: 0 <= i < |entries| && entries[i].profile == order[j]
      {
        if j < k {
          var i :| 0 <= i < |before| && before[i].profile == order[j];
          assert entries[i].profile == order[j];
        }
      }
    }
    forall p | Listed(s, scan, p) ensures exists i :: 0 <= i < |entries| && entries[i].profile == p {
      FreeHasRow(s, scan, p);
      var j :| 0 <= j < |order| && order[j] == p;
    }
  }

  // Order -------------------------------------------------------------------------------

  predicate TextLe(a: string, b: string) {
    a == [] || (b != [] && (a[0] < b[0] || (a[0] == b[0] && TextLe(a[1..], b[1..]))))
  }

  lemma {:induction false} TextTotal(a: string, b: string)
    ensures TextLe(a, b) || TextLe(b, a)
  {
    if a != [] && b != [] {
      TextTotal(a[1..], b[1..]);
    }
  }

  lemma {:induction false} TextTransitive(a: string, b: string, c: string)
    requires TextLe(a, b) && TextLe(b, c)
    ensures TextLe(a, c)
  {
    if a != [] && a[0] == b[0] == c[0] {
      TextTransitive(a[1..], b[1..], c[1..]);
    }
  }

  predicate Precedes(a: Entry, b: Entry) {
    a.window.startsIn < b.window.startsIn
    || (a.window.startsIn == b.window.startsIn && TextLe(Lower(a.window.name), Lower(b.window.name)))
  }

  lemma PrecedesIs(a: Entry, b: Entry)
    requires Precedes(a, b)
    ensures
      || a.window.startsIn < b.window.startsIn
      || (a.window.startsIn == b.window.startsIn && TextLe(Lower(a.window.name), Lower(b.window.name)))
  {
    hide TextLe, Lower;
  }

  predicate InOrder(entries: seq<Entry>) {
    forall i, j :: 0 <= i < j < |entries| ==> Precedes(entries[i], entries[j])
  }

  function Insert(e: Entry, entries: seq<Entry>): (r: seq<Entry>)
    ensures multiset(r) == multiset(entries) + multiset{e}
  {
    if entries == [] || Precedes(e, entries[0]) then [e] + entries
    else
      assert entries == [entries[0]] + entries[1..];
      [entries[0]] + Insert(e, entries[1..])
  }

  function SortEntries(entries: seq<Entry>): (r: seq<Entry>)
    ensures multiset(r) == multiset(entries)
  {
    if entries == [] then []
    else
      assert entries == [entries[0]] + entries[1..];
      Insert(entries[0], SortEntries(entries[1..]))
  }

  lemma PrecedesTransitive(a: Entry, b: Entry, c: Entry)
    requires Precedes(a, b) && Precedes(b, c)
    ensures Precedes(a, c)
  {
    hide TextLe, Lower;
    if a.window.startsIn == c.window.startsIn {
      TextTransitive(Lower(a.window.name), Lower(b.window.name), Lower(c.window.name));
    }
  }

  lemma PrecedesTotal(a: Entry, b: Entry)
    ensures Precedes(a, b) || Precedes(b, a)
  {
    hide TextLe, Lower;
    TextTotal(Lower(a.window.name), Lower(b.window.name));
  }

  lemma {:induction false} InsertOrdered(e: Entry, entries: seq<Entry>)
    requires InOrder(entries)
    ensures InOrder(Insert(e, entries))
  {
    hide TextLe, Lower;
    if entries != [] {
      if Precedes(e, entries[0]) {
        forall j | 0 < j < |entries| ensures Precedes(e, entries[j]) {
          PrecedesTransitive(e, entries[0], entries[j]);
        }
        hide Precedes;
      } else {
        InsertOrdered(e, entries[1..]);
        var rest := Insert(e, entries[1..]);
        forall j | 0 <= j < |rest| ensures Precedes(entries[0], rest[j]) {
          assert rest[j] in multiset(rest);
          if rest[j] == e {
            PrecedesTotal(e, entries[0]);
          } else {
            assert rest[j] in entries[1..];
          }
        }
        hide Precedes;
      }
    }
  }

  lemma {:induction false} SortOrdered(entries: seq<Entry>)
    ensures InOrder(SortEntries(entries))
  {
    if entries != [] {
      SortOrdered(entries[1..]);
      InsertOrdered(entries[0], SortEntries(entries[1..]));
    }
  }

  predicate Distinct(entries: seq<Entry>) {
    forall i, j :: 0 <= i < j < |entries| ==> entries[i].profile != entries[j].profile
  }

  lemma {:induction false} InsertDistinct(e: Entry, entries: seq<Entry>)
    requires Distinct(entries) && forall i :: 0 <= i < |entries| ==> entries[i].profile != e.profile
    ensures Distinct(Insert(e, entries))
  {
    hide Precedes;
    if entries != [] && !Precedes(e, entries[0]) {
      InsertDistinct(e, entries[1..]);
      var rest := Insert(e, entries[1..]);
      forall j | 0 <= j < |rest| ensures entries[0].profile != rest[j].profile {
        assert rest[j] in multiset(rest);
        assert rest[j] == e || rest[j] in entries[1..];
      }
    }
  }

  lemma {:induction false} SortDistinct(entries: seq<Entry>)
    requires Distinct(entries)
    ensures Distinct(SortEntries(entries))
  {
    if entries != [] {
      SortDistinct(entries[1..]);
      var rest := SortEntries(entries[1..]);
      forall i | 0 <= i < |rest| ensures rest[i].profile != entries[0].profile {
        assert rest[i] in multiset(rest);
        var j :| 0 <= j < |entries[1..]| && entries[1..][j] == rest[i];
        assert entries[j + 1] == rest[i];
      }
      InsertDistinct(entries[0], rest);
    }
  }

  lemma SameEntries(entries: seq<Entry>, e: Entry)
    ensures e in SortEntries(entries) <==> e in entries
  {
    assert e in SortEntries(entries) <==> e in multiset(SortEntries(entries));
    assert e in entries <==> e in multiset(entries);
  }

  lemma SortKeeps(s: Schedule, scan: Scan, entries: seq<Entry>)
    requires Accurate(s, scan, entries)
    requires forall p :: Listed(s, scan, p) ==> exists i :: 0 <= i < |entries| && entries[i].profile == p
    ensures Accurate(s, scan, SortEntries(entries))
    ensures forall p :: Listed(s, scan, p) ==>
      exists i :: 0 <= i < |SortEntries(entries)| && SortEntries(entries)[i].profile == p
  {
    hide SortEntries, Listed, Reports;
    var sorted := SortEntries(entries);
    SortDistinct(entries);
    forall i | 0 <= i < |sorted|
      ensures Listed(s, scan, sorted[i].profile) && Reports(s, scan, sorted[i].profile, sorted[i].window) {
      SameEntries(entries, sorted[i]);
    }
    forall p | Listed(s, scan, p) ensures exists i :: 0 <= i < |sorted| && sorted[i].profile == p {
      var j :| 0 <= j < |entries| && entries[j].profile == p;
      SameEntries(entries, entries[j]);
    }
  }

  /** Exactly the listed participants get a window, one each; it is their first run of free time;
      and the windows come by start and then by name. `who` says whose window each one is. */
  method FindAvailability(s: Schedule, scan: Scan) returns (windows: seq<Window>, who: seq<string>)
    ensures |who| == |windows|
    ensures forall i, j :: 0 <= i < j < |who| ==> who[i] != who[j]
    ensures forall p :: p in who <==> Listed(s, scan, p)
    ensures forall i :: 0 <= i < |who| ==> Reports(s, scan, who[i], windows[i])
    ensures forall i, j :: 0 <= i < j < |windows| ==>
      || windows[i].startsIn < windows[j].startsIn
      || (windows[i].startsIn == windows[j].startsIn && TextLe(Lower(windows[i].name), Lower(windows[j].name)))
  {
    hide Free, Precedes, SortEntries, Reports, Listed;
    if scan.Start() >= scan.End() || scan.Start() > scan.cutoff {
      windows, who := [], [];
      forall p ensures !Listed(s, scan, p) {
        NoneFree(s, scan, p);
      }
      return;
    }
    var entries := CollectWindows(s, scan);
    var sorted := SortEntries(entries);
    SortOrdered(entries);
    SortKeeps(s, scan, entries);
    windows := seq(|sorted|, i requires 0 <= i < |sorted| => sorted[i].window);
    who := seq(|sorted|, i requires 0 <= i < |sorted| => sorted[i].profile);
    forall i, j | 0 <= i < j < |windows|
      ensures
        || windows[i].startsIn < windows[j].startsIn
        || (windows[i].startsIn == windows[j].startsIn && TextLe(Lower(windows[i].name), Lower(windows[j].name)))
    {
      PrecedesIs(sorted[i], sorted[j]);
    }
    forall p | Listed(s, scan, p) ensures p in who {
      var i :| 0 <= i < |sorted| && sorted[i].profile == p;
      assert who[i] == p;
    }
  }

  lemma NoneFree(s: Schedule, scan: Scan, profile: string)
    requires scan.Start() >= scan.End() || scan.Start() > scan.cutoff
    ensures !Listed(s, scan, profile)
  {
    hide Said, AnySlot;
  }

  // Said without the functions of the computation ------------------------------------------------

  /** One of the half hours that begin at these times. */
  ghost predicate Half(occurrences: seq<real>, t: real) {
    exists k :: 0 <= k < |occurrences| && 0.0 <= t - occurrences[k] < 1800.0
  }

  /** A participant's row about `t`. A one-off schedule has no exceptions. */
  ghost predicate About(s: Schedule, row: Row, profile: string, exception: bool, t: real) {
    row.profile == profile && Half(row.occurrences, t) && exception == (s.recurring && row.isException)
  }

  ghost predicate Spoken(s: Schedule, profile: string, exception: bool, t: real) {
    exists i :: 0 <= i < |s.selections| && About(s, s.selections[i], profile, exception, t)
  }

  ghost predicate AllCanDo(s: Schedule, profile: string, exception: bool, t: real) {
    forall i :: 0 <= i < |s.selections| && About(s, s.selections[i], profile, exception, t) ==>
      s.selections[i].state == CanDo
  }

  /** Free time: at or after now and the schedule's first instant, before the horizon and its last, in no
      disallowed half hour, and of the rows about it, only the exceptions if there are any, there is one
      and all of them say can do. */
  lemma FreeExactly(s: Schedule, scan: Scan, profile: string, t: real)
    ensures Free(s, scan, profile, t) <==>
      && scan.now <= t < scan.horizon
      && (scan.first.Some? ==> scan.first.value <= t) && (scan.last.Some? ==> t < scan.last.value)
      && (forall i :: 0 <= i < |s.disallowed| ==> !Half(s.disallowed[i], t))
      && (if Spoken(s, profile, true, t) then AllCanDo(s, profile, true, t)
          else Spoken(s, profile, false, t) && AllCanDo(s, profile, false, t))
  {
    forall occurrences ensures SlotCovers(occurrences, t) <==> Half(occurrences, t) {
    }
    forall exception, yes
      ensures Said(s.recurring, s.selections, profile, exception, yes, t) <==>
        exists i :: 0 <= i < |s.selections| && About(s, s.selections[i], profile, exception, t)
                    && (s.selections[i].state == CanDo) == yes
    {
    }
  }

  /** A weekly slot begins at its minutes of the local day that its date is. */
  lemma WeeklyStart(w: Weekly, date: int)
    requires w.Valid()
    ensures
      var local := w.StartOn(date) + w.offset;
      local - date as real * 86400.0 == w.minutes as real * 60.0 && w.DateOf(w.StartOn(date)) == date
  {
    var minutes := w.minutes as real * 60.0;
    assert 0.0 <= minutes / DAY < 1.0;
    assert (w.StartOn(date) + w.offset) / DAY == date as real + minutes / DAY;
  }

  /** The two calendars agree on the weekday of every date, and 1 January 1970 was a Thursday. */
  lemma WeekdaysAgree(d: Calendar.Date)
    requires 1 <= d.month <= 12
    ensures
      var days := Calendar.Ordinal(d) - Calendar.Ordinal(Calendar.Date(1970, 1, 1));
      WeekdayOf(days) == (Calendar.Weekday(d) + 1) % 7
    ensures WeekdayOf(0) == 4 && Calendar.Weekday(Calendar.Date(1970, 1, 1)) == 3
  {
    hide Calendar.Ordinal, Calendar.Weekday;
    Calendar.WeekdayExactly(d);
    SevenApart(Calendar.Weekday(d), Calendar.Ordinal(d) - Calendar.Ordinal(Calendar.Date(1970, 1, 1)));
  }

  lemma SevenApart(w: int, days: int)
    requires 0 <= w < 7 && (w - 3 - days) % 7 == 0
    ensures (days + 4) % 7 == (w + 1) % 7
  {
  }

  /** The texts are equal before place `k`, and the first is smaller there. */
  ghost predicate SmallerAt(a: string, b: string, k: nat) {
    k < |a| && k < |b| && a[k] < b[k] && forall i :: 0 <= i < k ==> a[i] == b[i]
  }

  /** Names are ordered as texts are: by the first letter that differs, a beginning before the whole. */
  lemma {:induction false} TextLeExactly(a: string, b: string)
    ensures TextLe(a, b) <==> a <= b || exists k :: SmallerAt(a, b, k)
  {
    if a != [] && b != [] {
      TextLeExactly(a[1..], b[1..]);
      assert a == [a[0]] + a[1..] && b == [b[0]] + b[1..];
      SmallerLater(a, b);
      hide SmallerAt;
    }
  }

  lemma SmallerLater(a: string, b: string)
    requires a != [] && b != []
    ensures (exists k :: SmallerAt(a, b, k)) <==>
      a[0] < b[0] || (a[0] == b[0] && exists k :: SmallerAt(a[1..], b[1..], k))
    ensures a <= b <==> a[0] == b[0] && a[1..] <= b[1..]
  {
    assert a == [a[0]] + a[1..] && b == [b[0]] + b[1..];
    if a[0] < b[0] {
      assert SmallerAt(a, b, 0);
    }
    if a[0] == b[0] {
      if k: nat :| SmallerAt(a[1..], b[1..], k) {
        assert SmallerAt(a, b, k + 1);
      }
      if k: nat :| SmallerAt(a, b, k) {
        assert SmallerAt(a[1..], b[1..], k - 1);
      }
    }
  }
}
