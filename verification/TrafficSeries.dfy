/** Traffic totals by hour, day or month.

    Times are nanoseconds since the start of year 1, UTC; months and years count from that start,
    in the Gregorian calendar carried on in both directions. */
module TrafficSeries {
  import opened Prelude
  import ShareTables

  const DAY := 24 * HOUR

  datatype Event = Event(at: int, bytesIn: int, bytesOut: int)
  datatype Point = Point(bucket: int, bytesIn: int, bytesOut: int, totalBytes: int)
  datatype Range = Hours | Days | Months

  // ---------------------------------------------------------------- the calendar

  /** Year 1 is number 0. */
  predicate Leap(year: int) {
    (year + 1) % 4 == 0 && ((year + 1) % 100 != 0 || (year + 1) % 400 == 0)
  }

  function MonthLength(month: int): (r: int)
    ensures 28 <= r <= 31
  {
    if month % 12 == 1 then (if Leap(month / 12) then 29 else 28)
    else if month % 12 in {3, 5, 8, 10} then 30
    else 31
  }

  /** The number of the first day of a month; a month past the end of its year runs into the next. */
  function MonthStart(month: int): int
    decreases if month < 0 then -month else month
  {
    if month == 0 then 0
    else if month > 0 then MonthStart(month - 1) + MonthLength(month - 1)
    else MonthStart(month + 1) - MonthLength(month)
  }

  lemma MonthsAreContiguous(month: int)
    ensures MonthStart(month + 1) == MonthStart(month) + MonthLength(month)
  {
  }

  /** The days before a year, and before a month within its year. */
  function DaysBeforeYear(year: int): int { 365 * year + year / 4 - year / 100 + year / 400 }

  function DaysBeforeMonth(month: int, leap: bool): int
    requires 0 <= month < 12
  {
    [0, 31, 59, 90, 120, 151, 181, 212, 243, 273, 304, 334][month] + if leap && month >= 2 then 1 else 0
  }

  lemma NextMultiple(year: int)
    ensures (year + 1) / 4 == year / 4 + if (year + 1) % 4 == 0 then 1 else 0
    ensures (year + 1) / 100 == year / 100 + if (year + 1) % 100 == 0 then 1 else 0
    ensures (year + 1) / 400 == year / 400 + if (year + 1) % 400 == 0 then 1 else 0
  {
  }

  lemma Multiples(k: int)
    ensures (400 * k) % 100 == 0
    ensures (100 * k) % 4 == 0
  {
  }

  lemma LeapMultiples(n: int)
    ensures n % 400 == 0 ==> n % 100 == 0
    ensures n % 100 == 0 ==> n % 4 == 0
  {
    Multiples(n / 400);
    Multiples(n / 100);
  }

  lemma YearLength(year: int)
    ensures DaysBeforeYear(year + 1) == DaysBeforeYear(year) + if Leap(year) then 366 else 365
  {
    NextMultiple(year);
    LeapMultiples(year + 1);
  }

  function ClosedForm(month: int): int {
    DaysBeforeYear(month / 12) + DaysBeforeMonth(month % 12, Leap(month / 12))
  }

  lemma ClosedFormStep(month: int)
    ensures ClosedForm(month + 1) == ClosedForm(month) + MonthLength(month)
  {
    var year, m := month / 12, month % 12;
    if m == 11 {
      assert (month + 1) / 12 == year + 1 && (month + 1) % 12 == 0;
      YearLength(year);
    } else {
      assert (month + 1) / 12 == year && (month + 1) % 12 == m + 1;
    }
  }

  /** Counting months one by one agrees with the day arithmetic of the Gregorian calendar, across
      year ends and leap years. */
  lemma {:induction false} CalendarAgrees(month: int)
    ensures MonthStart(month) == ClosedForm(month)
    decreases if month < 0 then -month else month
  {
    if month > 0 {
      CalendarAgrees(month - 1);
      ClosedFormStep(month - 1);
    } else if month < 0 {
      CalendarAgrees(month + 1);
      ClosedFormStep(month);
    }
  }

  lemma {:induction false} MonthStartBounds(month: int)
    ensures month >= 0 ==> 28 * month <= MonthStart(month) <= 31 * month
    ensures month <= 0 ==> 31 * month <= MonthStart(month) <= 28 * month
    decreases if month < 0 then -month else month
  {
    if month > 0 {
      MonthStartBounds(month - 1);
      MonthsAreContiguous(month - 1);
    } else if month < 0 {
      MonthStartBounds(month + 1);
      MonthsAreContiguous(month);
    }
  }

  /** The month a day lies in, looked for from a month that starts no later. */
  function MonthFrom(day: int, month: int): (m: int)
    requires MonthStart(month) <= day
    ensures MonthStart(m) <= day < MonthStart(m + 1)
    decreases day - MonthStart(month)
  {
    MonthsAreContiguous(month);
    if day < MonthStart(month + 1) then month else MonthFrom(day, month + 1)
  }

  function MonthOf(day: int): (m: int)
    ensures MonthStart(m) <= day < MonthStart(m + 1)
  {
    var first := if day >= 0 then day / 31 else day / 28;
    MonthStartBounds(first);
    MonthFrom(day, first)
  }

  // ---------------------------------------------------------------- ranges and buckets

  function RangeOf(name: string): Range {
    if name == "day" then Days else if name == "month" then Months else Hours
  }

  function Count(r: Range): nat {
    match r
    case Hours => 24
    case Days => 30
    case Months => 12
  }

  function Truncate(t: int, step: int): int
    requires step > 0
  {
    t - t % step
  }

  function AddMonths(t: int, n: int): int { MonthStart(MonthOf(t / DAY) + n) * DAY }

  function RangeStart(now: int, r: Range): int {
    match r
    case Hours => Truncate(now, HOUR) - 23 * HOUR
    case Days => Truncate(now, DAY) - 29 * DAY
    case Months => AddMonths(AddMonths(now, 0), -11)
  }

  function Bucket(now: int, r: Range, i: int): int {
    match r
    case Hours => RangeStart(now, r) + i * HOUR
    case Days => RangeStart(now, r) + i * DAY
    case Months => AddMonths(RangeStart(now, r), i)
  }

  function TrafficBucket(t: int, r: Range): int {
    match r
    case Hours => Truncate(t, HOUR)
    case Days => Truncate(t, DAY)
    case Months => AddMonths(t, 0)
  }

  /** Within one range the buckets are numbered: the one of t is StartOf(NumberOf(t)). */
  function StartOf(r: Range, number: int): int {
    match r
    case Hours => number * HOUR
    case Days => number * DAY
    case Months => MonthStart(number) * DAY
  }

  function NumberOf(r: Range, t: int): int {
    match r
    case Hours => t / HOUR
    case Days => t / DAY
    case Months => MonthOf(t / DAY)
  }

  lemma {:induction false} MonthsIncrease(a: int, b: int)
    requires a < b
    ensures MonthStart(a) < MonthStart(b)
    decreases b - a
  {
    MonthsAreContiguous(b - 1);
    if a < b - 1 {
      MonthsIncrease(a, b - 1);
    }
  }

  lemma StartsIncrease(r: Range, a: int, b: int)
    requires a < b
    ensures StartOf(r, a) < StartOf(r, b)
  {
    if r.Months? {
      MonthsIncrease(a, b);
    }
  }

  lemma DayIsWithin(day: int, from: int, to: int, t: int)
    requires from <= day < to && day == t / DAY
    ensures from * DAY <= t < to * DAY
  {
    assert day * DAY <= t < (day + 1) * DAY;
  }

  lemma NumberFits(r: Range, t: int)
    ensures StartOf(r, NumberOf(r, t)) <= t < StartOf(r, NumberOf(r, t) + 1)
  {
    if r.Months? {
      var m := MonthOf(t / DAY);
      DayIsWithin(t / DAY, MonthStart(m), MonthStart(m + 1), t);
    }
  }

  lemma StartsOrdered(r: Range, a: int, b: int)
    requires a <= b
    ensures StartOf(r, a) <= StartOf(r, b)
  {
    if a < b { StartsIncrease(r, a, b); }
  }

  lemma NumberIsUnique(r: Range, t: int, number: int)
    ensures StartOf(r, number) <= t < StartOf(r, number + 1) <==> number == NumberOf(r, t)
  {
    NumberFits(r, t);
    if number < NumberOf(r, t) {
      StartsOrdered(r, number + 1, NumberOf(r, t));
    }
    if NumberOf(r, t) < number {
      StartsOrdered(r, NumberOf(r, t) + 1, number);
    }
  }

  lemma WholeDays(day: int)
    ensures day * DAY / DAY == day
  {
  }

  lemma FirstDayIsInItsMonth(month: int)
    ensures MonthOf(MonthStart(month) * DAY / DAY) == month
  {
    WholeDays(MonthStart(month));
    var m := MonthOf(MonthStart(month));
    if m + 1 < month {
      MonthsIncrease(m + 1, month);
    }
    if month < m {
      MonthsIncrease(month, m);
    }
  }

  lemma BucketNumber(now: int, r: Range, i: int)
    ensures Bucket(now, r, i) == StartOf(r, NumberOf(r, now) - Count(r) + 1 + i)
  {
    if r.Months? {
      FirstDayIsInItsMonth(MonthOf(now / DAY));
      FirstDayIsInItsMonth(MonthOf(now / DAY) - 11);
    }
  }

  /** The buckets are contiguous and strictly increasing, and a time belongs to the bucket of its
      own start exactly if it lies between that bucket and the next. */
  lemma BucketIsAnInterval(now: int, r: Range, i: int, t: int)
    ensures Bucket(now, r, i) < Bucket(now, r, i + 1)
    ensures TrafficBucket(t, r) == Bucket(now, r, i) <==> Bucket(now, r, i) <= t < Bucket(now, r, i + 1)
  {
    var number := NumberOf(r, now) - Count(r) + 1 + i;
    BucketNumber(now, r, i);
    BucketNumber(now, r, i + 1);
    StartsIncrease(r, number, number + 1);
    assert TrafficBucket(t, r) == StartOf(r, NumberOf(r, t));
    NumberIsUnique(r, t, number);
    if number < NumberOf(r, t) {
      StartsIncrease(r, number, NumberOf(r, t));
    } else if NumberOf(r, t) < number {
      StartsIncrease(r, NumberOf(r, t), number);
    }
  }

  lemma BucketsIncrease(now: int, r: Range, i: int, j: int)
    requires i < j
    ensures Bucket(now, r, i) < Bucket(now, r, j)
  {
    BucketNumber(now, r, i);
    BucketNumber(now, r, j);
    StartsIncrease(r, NumberOf(r, now) - Count(r) + 1 + i, NumberOf(r, now) - Count(r) + 1 + j);
  }

  /** The range starts with the first bucket, and now lies in the last one. */
  lemma NowIsInTheLastBucket(now: int, r: Range)
    ensures Bucket(now, r, 0) == RangeStart(now, r)
    ensures Bucket(now, r, Count(r) - 1) <= now < Bucket(now, r, Count(r))
  {
    BucketNumber(now, r, 0);
    BucketNumber(now, r, Count(r) - 1);
    BucketNumber(now, r, Count(r));
    NumberIsUnique(r, now, NumberOf(r, now));
    if r.Months? {
      FirstDayIsInItsMonth(MonthOf(now / DAY));
    }
  }

  lemma NumbersIncrease(r: Range, t: int, u: int)
    requires t <= u
    ensures NumberOf(r, t) <= NumberOf(r, u)
  {
    NumberIsUnique(r, t, NumberOf(r, t));
    NumberIsUnique(r, u, NumberOf(r, u));
    if NumberOf(r, u) + 1 < NumberOf(r, t) {
      StartsIncrease(r, NumberOf(r, u) + 1, NumberOf(r, t));
    }
  }

  lemma StartNumber(now: int, r: Range)
    ensures NumberOf(r, RangeStart(now, r)) == NumberOf(r, now) - Count(r) + 1
  {
    var first := NumberOf(r, now) - Count(r) + 1;
    NowIsInTheLastBucket(now, r);
    BucketNumber(now, r, 0);
    StartsIncrease(r, first, first + 1);
    NumberIsUnique(r, RangeStart(now, r), first);
  }

  /** Every time between the start of the range and now lies in exactly one bucket of the series. */
  lemma OneBucketEach(now: int, r: Range, t: int) returns (i: int)
    requires RangeStart(now, r) <= t <= now
    ensures 0 <= i < Count(r)
    ensures forall j :: 0 <= j < Count(r) ==> (TrafficBucket(t, r) == Bucket(now, r, j) <==> j == i)
  {
    StartNumber(now, r);
    NumbersIncrease(r, RangeStart(now, r), t);
    NumbersIncrease(r, t, now);
    i := NumberOf(r, t) - NumberOf(r, now) + Count(r) - 1;
    BucketNumber(now, r, i);
    assert TrafficBucket(t, r) == Bucket(now, r, i) by {
      assert TrafficBucket(t, r) == StartOf(r, NumberOf(r, t));
    }
    forall j | 0 <= j < Count(r) && j != i
      ensures Bucket(now, r, i) != Bucket(now, r, j)
    {
      BucketsIncrease(now, r, if i < j then i else j, if i < j then j else i);
    }
  }

  // ---------------------------------------------------------------- totals

  predicate Within(e: Event, from: int, to: int) { from <= e.at < to }

  /** The bytes of the events between two times, inwards and outwards. */
  function BytesIn(events: seq<Event>, from: int, to: int): int {
    if events == [] then 0 else
      var last := events[|events| - 1];
      BytesIn(events[..|events| - 1], from, to) + if Within(last, from, to) then last.bytesIn else 0
  }

  function BytesOut(events: seq<Event>, from: int, to: int): int {
    if events == [] then 0 else
      var last := events[|events| - 1];
      BytesOut(events[..|events| - 1], from, to) + if Within(last, from, to) then last.bytesOut else 0
  }

  lemma {:induction false} BytesSplit(events: seq<Event>, from: int, middle: int, to: int)
    requires from <= middle <= to
    ensures BytesIn(events, from, to) == BytesIn(events, from, middle) + BytesIn(events, middle, to)
    ensures BytesOut(events, from, to) == BytesOut(events, from, middle) + BytesOut(events, middle, to)
  {
    if events != [] {
      BytesSplit(events[..|events| - 1], from, middle, to);
    }
  }

  /** What the query returns: the events no older than the rounded start. */
  function Since(table: seq<Event>, start: int): seq<Event> {
    if table == [] then [] else
      var last := table[|table| - 1];
      Since(table[..|table| - 1], start) + if last.at >= ShareTables.DatabaseTime(start) then [last] else []
  }

  lemma {:induction false} SinceKeepsBytes(table: seq<Event>, start: int, from: int, to: int)
    requires start <= from
    ensures BytesIn(Since(table, start), from, to) == BytesIn(table, from, to)
    ensures BytesOut(Since(table, start), from, to) == BytesOut(table, from, to)
  {
    if table != [] {
      SinceKeepsBytes(table[..|table| - 1], start, from, to);
      var front, last := Since(table[..|table| - 1], start), table[|table| - 1];
      assert (front + [last])[..|front + [last]| - 1] == front;
      assert front + [] == front;
    }
  }

  function SeriesIn(points: seq<Point>): int {
    if points == [] then 0 else SeriesIn(points[..|points| - 1]) + points[|points| - 1].bytesIn
  }

  function SeriesOut(points: seq<Point>): int {
    if points == [] then 0 else SeriesOut(points[..|points| - 1]) + points[|points| - 1].bytesOut
  }

  function SeriesTotal(points: seq<Point>): int {
    if points == [] then 0 else SeriesTotal(points[..|points| - 1]) + points[|points| - 1].totalBytes
  }

  /** Point i carries bucket i and the bytes of the events from that bucket to the next. */
  predicate PointIs(p: Point, table: seq<Event>, now: int, r: Range, i: int) {
    && p.bucket == Bucket(now, r, i)
    && p.bytesIn == BytesIn(table, p.bucket, Bucket(now, r, i + 1))
    && p.bytesOut == BytesOut(table, p.bucket, Bucket(now, r, i + 1))
    && p.totalBytes == p.bytesIn + p.bytesOut
  }

  /** Nothing is lost or counted twice: the series adds up to the events it spans. */
  lemma {:induction false} SeriesAddsUp(points: seq<Point>, table: seq<Event>, now: int, r: Range)
    requires forall i :: 0 <= i < |points| ==> PointIs(points[i], table, now, r, i)
    ensures SeriesIn(points) == BytesIn(table, RangeStart(now, r), Bucket(now, r, |points|))
    ensures SeriesOut(points) == BytesOut(table, RangeStart(now, r), Bucket(now, r, |points|))
    ensures SeriesTotal(points) == SeriesIn(points) + SeriesOut(points)
  {
    NowIsInTheLastBucket(now, r);
    if points == [] {
      EmptySpan(table, RangeStart(now, r));
    } else {
      var n := |points| - 1;
      SeriesAddsUp(points[..n], table, now, r);
      if n > 0 {
        BucketsIncrease(now, r, 0, n);
      }
      BucketsIncrease(now, r, n, n + 1);
      BytesSplit(table, RangeStart(now, r), Bucket(now, r, n), Bucket(now, r, n + 1));
      assert PointIs(points[n], table, now, r, n);
    }
  }

  lemma {:induction false} EmptySpan(events: seq<Event>, t: int)
    ensures BytesIn(events, t, t) == 0 && BytesOut(events, t, t) == 0
  {
    if events != [] {
      EmptySpan(events[..|events| - 1], t);
    }
  }

  lemma {:induction false} NothingLater(events: seq<Event>, from: int, now: int, to: int)
    requires now < to && forall e :: e in events ==> e.at <= now
    ensures BytesIn(events, from, to) == BytesIn(events, from, now + 1)
    ensures BytesOut(events, from, to) == BytesOut(events, from, now + 1)
  {
    if events != [] {
      NothingLater(events[..|events| - 1], from, now, to);
    }
  }

  // ---------------------------------------------------------------- the series

  method FillPoints(start: int, now: int, r: Range) returns (points: seq<Point>, indexByBucket: map<int, nat>)
    requires start == RangeStart(now, r)
    ensures |points| == Count(r)
    ensures forall i :: 0 <= i < |points| ==> points[i] == Point(Bucket(now, r, i), 0, 0, 0)
    ensures forall i :: 0 <= i < |points| ==> Get(indexByBucket, Bucket(now, r, i)) == Some(i)
    ensures forall b :: b in indexByBucket ==> indexByBucket[b] < |points| && Bucket(now, r, indexByBucket[b]) == b
  {
    points, indexByBucket := [], map[];
    for i := 0 to Count(r)
      invariant |points| == i
      invariant forall j :: 0 <= j < i ==> points[j] == Point(Bucket(now, r, j), 0, 0, 0)
      invariant forall j :: 0 <= j < i ==> Get(indexByBucket, Bucket(now, r, j)) == Some(j)
      invariant forall b :: b in indexByBucket ==> indexByBucket[b] < i && Bucket(now, r, indexByBucket[b]) == b
    {
      var bucket := match r
        case Hours => start + i * HOUR
        case Days => start + i * DAY
        case Months => AddMonths(start, i);
      points := points + [Point(bucket, 0, 0, 0)];
      forall j | 0 <= j < i
        ensures Bucket(now, r, j) != bucket
      {
        BucketsIncrease(now, r, j, i);
      }
      indexByBucket := indexByBucket[bucket := i];
    }
  }

  /** Adds one event to the point whose bucket it falls into, if the series has that bucket. */
  method AddEvent(
    before: seq<Point>, indexByBucket: map<int, nat>, events: seq<Event>, e: Event, now: int, r: Range)
    returns (points: seq<Point>)
    requires forall i :: 0 <= i < |before| ==> PointIs(before[i], events, now, r, i)
    requires forall i :: 0 <= i < |before| ==> Get(indexByBucket, Bucket(now, r, i)) == Some(i)
    requires forall b :: b in indexByBucket ==> indexByBucket[b] < |before| && Bucket(now, r, indexByBucket[b]) == b
    ensures |points| == |before|
    ensures forall i :: 0 <= i < |points| ==> PointIs(points[i], events + [e], now, r, i)
  {
    points := before;
    var bucket := TrafficBucket(e.at, r);
    if bucket in indexByBucket {
      var index := indexByBucket[bucket];
      var p := points[index];
      var bytesIn, bytesOut := p.bytesIn + e.bytesIn, p.bytesOut + e.bytesOut;
      points := points[index := Point(p.bucket, bytesIn, bytesOut, bytesIn + bytesOut)];
    }
    assert (events + [e])[..|events|] == events;
    forall i | 0 <= i < |points|
      ensures PointIs(points[i], events + [e], now, r, i)
    {
      BucketIsAnInterval(now, r, i, e.at);
      assert PointIs(before[i], events, now, r, i);
      assert Get(indexByBucket, Bucket(now, r, i)) == Some(i);
      BytesSnoc(events, e, Bucket(now, r, i), Bucket(now, r, i + 1));
    }
  }

  lemma BytesSnoc(events: seq<Event>, e: Event, from: int, to: int)
    ensures BytesIn(events + [e], from, to) == BytesIn(events, from, to) + if Within(e, from, to) then e.bytesIn else 0
    ensures BytesOut(events + [e], from, to)
         == BytesOut(events, from, to) + if Within(e, from, to) then e.bytesOut else 0
  {
    assert (events + [e])[..|events|] == events;
  }

  /** The points of a range up to `now`: each one has the bytes of exactly the events between its
      bucket and the next, and if no event is later than now they add up to all since the start. */
  method MakeSeries(table: seq<Event>, now: int, rangeName: string) returns (points: seq<Point>)
    ensures |points| == Count(RangeOf(rangeName))
    ensures forall i :: 0 <= i < |points| ==> PointIs(points[i], table, now, RangeOf(rangeName), i)
    ensures (forall e :: e in table ==> e.at <= now) ==>
              && SeriesIn(points) == BytesIn(table, RangeStart(now, RangeOf(rangeName)), now + 1)
              && SeriesOut(points) == BytesOut(table, RangeStart(now, RangeOf(rangeName)), now + 1)
  {
    var r := RangeOf(rangeName);
    var start := RangeStart(now, r);
    var events := Since(table, start);
    var indexByBucket;
    points, indexByBucket := FillPoints(start, now, r);
    for k := 0 to |events|
      invariant |points| == Count(r)
      invariant forall i :: 0 <= i < |points| ==> PointIs(points[i], events[..k], now, r, i)
    {
      points := AddEvent(points, indexByBucket, events[..k], events[k], now, r);
      assert events[..k + 1] == events[..k] + [events[k]];
    }
    assert events[..|events|] == events;
    forall i | 0 <= i < |points|
      ensures PointIs(points[i], table, now, r, i)
    {
      BackToTable(points[i], table, now, r, i);
    }
    if forall e :: e in table ==> e.at <= now {
      SeriesReachesNow(points, table, now, r);
    }
  }

  lemma BackToTable(p: Point, table: seq<Event>, now: int, r: Range, i: nat)
    requires PointIs(p, Since(table, RangeStart(now, r)), now, r, i)
    ensures PointIs(p, table, now, r, i)
  {
    NowIsInTheLastBucket(now, r);
    if i > 0 {
      BucketsIncrease(now, r, 0, i);
    }
    SinceKeepsBytes(table, RangeStart(now, r), Bucket(now, r, i), Bucket(now, r, i + 1));
  }

  /** With no event later than now the series carries all the bytes since the start of the range. */
  lemma SeriesReachesNow(points: seq<Point>, table: seq<Event>, now: int, r: Range)
    requires |points| == Count(r) && forall i :: 0 <= i < |points| ==> PointIs(points[i], table, now, r, i)
    requires forall e :: e in table ==> e.at <= now
    ensures SeriesIn(points) == BytesIn(table, RangeStart(now, r), now + 1)
    ensures SeriesOut(points) == BytesOut(table, RangeStart(now, r), now + 1)
  {
    SeriesAddsUp(points, table, now, r);
    NowIsInTheLastBucket(now, r);
    NothingLater(table, RangeStart(now, r), now, Bucket(now, r, Count(r)));
  }
}
