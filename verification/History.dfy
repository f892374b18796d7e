/** The monitor's sample history: a minute of points, rates over a sliding second, and the means that
    the graphs show. Rates are reals. Models struct History of amdgpu_mtop/history.h. */
module History {
  import opened Words

  const WINDOW: nat := 60_000_000_000 // ns
  const SECOND: nat := 1_000_000_000
  const MAX_GAP: nat := 2_000_000_000
  const MAX_POINTS: nat := 1200
  const DIRECTIONS: nat := 5

  datatype Counters = Counters(generation: nat, time: nat, submitted: nat, completedBytes: nat, directions: seq<nat>)

  /** The rates of one point, with the interval they were measured over. */
  datatype Rates = Rates(submissions: real, transfer: real, copies: seq<real>, from: nat, to: nat)
  datatype Point = Point(time: nat, rates: Option<Rates>, value: Option<real>)

  // ---- Counters --------------------------------------------------------------------------------

  predicate Whole(c: Counters) { |c.directions| == DIRECTIONS }

  /** b was read after a, with no reset in between and no more than two seconds apart. */
  predicate Continues(a: Counters, b: Counters)
    requires Whole(a) && Whole(b)
  {
    && b.generation == a.generation && a.time <= b.time && a.submitted <= b.submitted && a.completedBytes <= b.completedBytes
    && b.time - a.time <= MAX_GAP && forall i :: 0 <= i < DIRECTIONS ==> a.directions[i] <= b.directions[i]
  }

  /** No counter of b is below a's, so no difference underflows. */
  predicate AtLeast(a: Counters, b: Counters) {
    && Whole(a) && Whole(b) && a.time <= b.time && a.submitted <= b.submitted && a.completedBytes <= b.completedBytes
    && forall i :: 0 <= i < DIRECTIONS ==> a.directions[i] <= b.directions[i]
  }

  /** The average between two readings. */
  function RatesBetween(a: Counters, b: Counters): Rates
    requires AtLeast(a, b) && a.time < b.time
  {
    var seconds := (b.time - a.time) as real / 1000000000.0;
    Rates((b.submitted - a.submitted) as real / seconds, (b.completedBytes - a.completedBytes) as real / seconds / 1048576.0,
          seq(DIRECTIONS, i requires 0 <= i < DIRECTIONS => (b.directions[i] - a.directions[i]) as real / seconds / 1048576.0), a.time, b.time)
  }

  /** The readings kept for the average: in order, never more than two seconds apart, and the last one as
      recent as anything seen. */
  predicate RateWindow(w: seq<Counters>, previous: Option<Counters>) {
    && (previous.None? <==> w == [])
    && (forall i :: 0 <= i < |w| ==> Whole(w[i]))
    && (forall i, j :: 0 <= i < j < |w| ==> w[i].time < w[j].time && AtLeast(w[i], w[j]))
    && (forall i :: 0 < i < |w| ==> w[i].time - w[i - 1].time <= MAX_GAP)
    && (w != [] ==> w[|w| - 1].time == previous.value.time && AtLeast(w[|w| - 1], previous.value))
  }

  /** One step of dropping readings that are no longer needed for a full second. */
  predicate Drops(w: seq<Counters>, now: nat) {
    |w| > 2 && w[1].time <= now && now - w[1].time >= SECOND
  }

  function Trim(w: seq<Counters>, now: nat): (r: seq<Counters>)
    ensures |r| <= |w| && r == w[|w| - |r|..] && !Drops(r, now) && (|w| >= 2 ==> |r| >= 2)
    decreases |w|
  {
    if Drops(w, now) then Trim(w[1..], now) else w
  }

  lemma WindowExtends(w: seq<Counters>, previous: Counters, c: Counters)
    requires RateWindow(w, Some(previous)) && Whole(c) && Whole(previous) && Continues(previous, c) && previous.time < c.time
    ensures RateWindow(w + [c], Some(c))
  {
    var n := w + [c];
    forall i, j | 0 <= i < j < |n|
      ensures n[i].time < n[j].time && AtLeast(n[i], n[j])
    {
      if j == |w| {
        assert i < |w| - 1 ==> AtLeast(w[i], w[|w| - 1]);
        assert AtLeast(w[|w| - 1], previous);
      }
    }
  }

  lemma SuffixIsWindow(w: seq<Counters>, previous: Option<Counters>, k: nat)
    requires RateWindow(w, previous) && k < |w|
    ensures RateWindow(w[k..], previous)
  {
    forall i | 0 < i < |w[k..]|
      ensures w[k..][i].time - w[k..][i - 1].time <= MAX_GAP
    {
      assert w[k..][i] == w[k + i] && w[k..][i - 1] == w[k + i - 1];
    }
  }

  /** The average that is taken spans less than three seconds: the reading after its base is younger than
      one second, and the base at most two seconds older. */
  lemma SpanBelowThree(w: seq<Counters>, c: Counters)
    requires RateWindow(w, Some(c)) && |w| >= 2 && w[|w| - 1] == c && !Drops(w, c.time)
    ensures c.time - w[0].time < 3 * SECOND && AtLeast(w[0], c) && w[0].time < c.time
  {
    assert w[1].time - w[0].time <= MAX_GAP;
    assert w[0].time < w[1].time && AtLeast(w[0], w[|w| - 1]);
  }

  // ---- Points ----------------------------------------------------------------------------------

  predicate Increasing(p: seq<Point>) {
    forall i, j :: 0 <= i < j < |p| ==> p[i].time < p[j].time
  }

  /** The points a graph may show: in order, at most a minute and 1200 of them. */
  predicate Kept(p: seq<Point>) {
    && Increasing(p) && |p| <= MAX_POINTS
    && (p != [] ==> p[|p| - 1].time - p[0].time <= WINDOW)
  }

  /** Rates that were measured span at least one second and less than three. */
  predicate Measured(r: Rates) {
    r.from + SECOND <= r.to < r.from + 3 * SECOND
  }

  predicate AllMeasured(p: seq<Point>) {
    forall i :: 0 <= i < |p| && p[i].rates.Some? ==> Measured(p[i].rates.value)
  }

  // ---- Buckets ---------------------------------------------------------------------------------

  /** A point the graph shows: in the window, with a value that is not negative. */
  predicate Shown(p: Point, now: nat) {
    p.time <= now && now - p.time < WINDOW && p.value.Some? && p.value.value >= 0.0
  }

  const WORD: nat := U64_MAX + 1

  /** The column of a shown point: age times width in 64 bits, over the window, counted from the right. */
  function Column(p: Point, now: nat, width: nat): (c: nat)
    requires Shown(p, now) && width > 0
    ensures c < width
  {
    var ageBucket := (now - p.time) * width % WORD / WINDOW;
    width - 1 - (if width - 1 < ageBucket then width - 1 else ageBucket)
  }

  /** The values that fall into a column, in order. */
  function Samples(points: seq<Point>, now: nat, width: nat, column: nat): seq<real>
    requires width > 0
    decreases |points|
  {
    if points == [] then []
    else
      var before := Samples(points[..|points| - 1], now, width, column);
      var p := points[|points| - 1];
      if Shown(p, now) && Column(p, now, width) == column then before + [p.value.value] else before
  }

  function Sum(s: seq<real>): real
    decreases |s|
  {
    if s == [] then 0.0 else Sum(s[..|s| - 1]) + s[|s| - 1]
  }

  /** The mean of what falls into a column, or nothing. */
  function Mean(s: seq<real>): Option<real> {
    if s == [] then None else Some(Sum(s) / |s| as real)
  }

  function ShownCount(points: seq<Point>, now: nat): nat
    decreases |points|
  {
    if points == [] then 0 else ShownCount(points[..|points| - 1], now) + if Shown(points[|points| - 1], now) then 1 else 0
  }

  function SamplesBelow(points: seq<Point>, now: nat, width: nat, columns: nat): nat
    requires width > 0
  {
    if columns == 0 then 0 else SamplesBelow(points, now, width, columns - 1) + |Samples(points, now, width, columns - 1)|
  }

  lemma {:induction false} NoSamples(now: nat, width: nat, columns: nat)
    requires width > 0
    ensures SamplesBelow([], now, width, columns) == 0
    decreases columns
  {
    if columns > 0 {
      NoSamples(now, width, columns - 1);
    }
  }

  lemma {:induction false} OneMore(points: seq<Point>, now: nat, width: nat, columns: nat)
    requires width > 0 && points != []
    ensures var p := points[|points| - 1];
            SamplesBelow(points, now, width, columns) == SamplesBelow(points[..|points| - 1], now, width, columns)
              + if Shown(p, now) && Column(p, now, width) < columns then 1 else 0
    decreases columns
  {
    hide Column;
    if columns > 0 {
      OneMore(points, now, width, columns - 1);
    }
  }

  /** Every shown point lands in exactly one column: the columns together hold all of them. */
  lemma {:induction false} EverySampleOnce(points: seq<Point>, now: nat, width: nat)
    requires width > 0
    ensures SamplesBelow(points, now, width, width) == ShownCount(points, now)
    decreases |points|
  {
    if points == [] {
      NoSamples(now, width, width);
    } else {
      EverySampleOnce(points[..|points| - 1], now, width);
      OneMore(points, now, width, width);
    }
  }

  lemma AgeFits(age: nat, width: nat)
    requires age < WINDOW && width > 0 && WINDOW * width <= WORD
    ensures 0 <= age * width < WORD && age * width % WORD == age * width
  {
    NonNegative(WINDOW - age - 1, width);
    NonNegative(age, width);
    assert (WINDOW - age - 1) * width == WINDOW * width - age * width - width;
  }

  lemma DivMonotone(a: nat, b: nat)
    requires a <= b
    ensures a / WINDOW <= b / WINDOW
  {
  }

  /** As long as the product fits 64 bits, the columns are in the order of time: a younger point is never
      left of an older one, and the newest moment is the last column. */
  lemma ColumnsAreInOrder(p: Point, q: Point, now: nat, width: nat)
    requires Shown(p, now) && Shown(q, now) && p.time <= q.time && width > 0 && WINDOW * width <= WORD
    ensures Column(p, now, width) <= Column(q, now, width)
    ensures q.time == now ==> Column(q, now, width) == width - 1
  {
    AgeFits(now - p.time, width);
    AgeFits(now - q.time, width);
    NonNegative(q.time - p.time, width);
    assert (q.time - p.time) * width == (now - p.time) * width - (now - q.time) * width;
    DivMonotone((now - q.time) * width, (now - p.time) * width);
  }

  // ---- What a sample changes ---------------------------------------------------------------------

  /** A point replaces one of the same time; a clock that went back starts over. */
  function Appended(p: seq<Point>, point: Point): (r: seq<Point>)
    ensures r != [] && r[|r| - 1] == point
  {
    if p != [] && point.time < p[|p| - 1].time then [point]
    else if p != [] && point.time == p[|p| - 1].time then p[..|p| - 1] + [point]
    else p + [point]
  }

  /** p is what is left of all, with nothing dropped that is neither too old nor one too many. */
  predicate Latest(all: seq<Point>, p: seq<Point>) {
    && p != [] && |p| <= |all| && p == all[|all| - |p|..]
    && (|p| < |all| ==> |p| >= MAX_POINTS || p[|p| - 1].time - all[|all| - |p| - 1].time > WINDOW)
  }

  /** A front that is too old, or one too many, may go. */
  lemma DropFront(all: seq<Point>, p: seq<Point>)
    requires Latest(all, p) && |p| > 1 && Increasing(p) && AllMeasured(p)
    requires |p| > MAX_POINTS || p[|p| - 1].time - p[0].time > WINDOW
    ensures Latest(all, p[1..]) && Increasing(p[1..]) && AllMeasured(p[1..]) && p[1..][|p| - 2] == p[|p| - 1] && p[0].time < p[1..][0].time
  {
    assert p[1..] == all[|all| - |p| + 1..];
    assert p[0] == all[|all| - |p|];
  }

  /** A reading that does not continue the last one starts the history over. */
  predicate Restarts(previous: Option<Counters>, counters: Option<Counters>)
    requires (previous.Some? ==> Whole(previous.value)) && (counters.Some? ==> Whole(counters.value))
  {
    previous.Some? && counters.Some? && !Continues(previous.value, counters.value)
  }

  /** A column while samples are still coming in: their sum and their number. */
  predicate Gathered(sum: Option<real>, count: nat, s: seq<real>) {
    count == |s| && sum == if s == [] then None else Some(Sum(s))
  }

  lemma GatherMore(sum: Option<real>, count: nat, s: seq<real>, value: real)
    requires Gathered(sum, count, s)
    ensures Gathered(Some((if sum.Some? then sum.value else 0.0) + value), count + 1, s + [value])
  {
    assert (s + [value])[..|s|] == s;
  }

  function ShownValue(p: Point, now: nat): (v: real)
    requires Shown(p, now)
    ensures v >= 0.0 && p.value == Some(v)
  {
    p.value.value
  }

  lemma AverageIsMeasured(a: Counters, b: Counters)
    requires AtLeast(a, b) && a.time < b.time && SECOND <= b.time - a.time < 3 * SECOND
    ensures Measured(RatesBetween(a, b))
  {
  }

  lemma LatestKeepsLast(all: seq<Point>, p: seq<Point>)
    requires Latest(all, p)
    ensures all != [] && p != [] && p[|p| - 1] == all[|all| - 1]
  {
  }

  lemma LatestAtFirst(p: seq<Point>)
    requires p != []
    ensures Latest(p, p)
  {
  }

  lemma OneReading(c: Counters)
    requires Whole(c)
    ensures RateWindow([c], Some(c))
  {
  }

  lemma NoPoints()
    ensures Kept([]) && AllMeasured([])
  {
  }

  lemma WindowNotEmpty(w: seq<Counters>, previous: Counters)
    requires RateWindow(w, Some(previous))
    ensures w != []
  {
  }

  /** A second reading at the same time is not a sample, but it is the latest. */
  lemma SameReading(w: seq<Counters>, previous: Counters, c: Counters)
    requires RateWindow(w, Some(previous)) && Whole(c) && Whole(previous) && Continues(previous, c) && c.time <= previous.time
    ensures RateWindow(w, Some(c))
  {
  }

  lemma TrimStep(w: seq<Counters>, c: Counters)
    requires |w| >= 2 && RateWindow(w, Some(c)) && w[|w| - 1] == c
    ensures Drops(w, c.time) <==> |w| > 2 && c.time - w[1].time >= SECOND
    ensures Drops(w, c.time) ==> Trim(w, c.time) == Trim(w[1..], c.time) && RateWindow(w[1..], Some(c))
    ensures !Drops(w, c.time) ==> Trim(w, c.time) == w
  {
    assert |w| > 2 ==> w[1].time < w[|w| - 1].time;
    if Drops(w, c.time) {
      SuffixIsWindow(w, Some(c), 1);
    }
  }

  lemma EmptyWindow()
    ensures RateWindow([], None)
  {
  }

  class History {
    var points: seq<Point>
    var previous: Option<Counters>
    var rateWindow: seq<Counters>

    ghost predicate Valid()
      reads this
    {
      && Kept(points) && AllMeasured(points)
      && (previous.Some? ==> Whole(previous.value)) && RateWindow(rateWindow, previous)
    }

    constructor ()
      ensures Valid() && points == [] && previous == None
    {
      points, previous, rateWindow := [], None, [];
    }

    method TrimWindow(w: seq<Counters>, c: Counters) returns (r: seq<Counters>)
      requires |w| >= 2 && RateWindow(w, Some(c)) && w[|w| - 1] == c
      ensures r == Trim(w, c.time) && |r| >= 2 && RateWindow(r, Some(c)) && r[|r| - 1] == c && !Drops(r, c.time)
    {
      hide RateWindow, Trim, Drops;
      r := w;
      while |r| > 2 && c.time - r[1].time >= SECOND
        invariant 2 <= |r| <= |w| && RateWindow(r, Some(c)) && r[|r| - 1] == c
        invariant Trim(w, c.time) == Trim(r, c.time)
        decreases |r|
      {
        TrimStep(r, c);
        r := r[1..];
      }
      TrimStep(r, c);
    }

    /** A later reading joins the window, and the average is taken over what is then left of it. */
    method Average(c: Counters) returns (rates: Option<Rates>)
      requires previous.Some? && Whole(previous.value) && Whole(c) && Continues(previous.value, c) && previous.value.time < c.time
      requires RateWindow(rateWindow, previous)
      modifies this`rateWindow
      ensures RateWindow(rateWindow, Some(c)) && rateWindow == Trim(old(rateWindow) + [c], c.time) && rateWindow != [] && AtLeast(rateWindow[0], c)
      ensures rates.Some? <==> c.time - rateWindow[0].time >= SECOND
      ensures rates.Some? ==> Measured(rates.value) && rateWindow[0].time < c.time && rates.value == RatesBetween(rateWindow[0], c)
    {
      hide RateWindow, Continues, Trim, AtLeast, Drops, RatesBetween;
      WindowExtends(rateWindow, previous.value, c);
      WindowNotEmpty(rateWindow, previous.value);
      rateWindow := TrimWindow(rateWindow + [c], c);
      SpanBelowThree(rateWindow, c);
      var base := rateWindow[0];
      if c.time - base.time >= SECOND {
        AverageIsMeasured(base, c);
        rates := Some(RatesBetween(base, c));
      } else {
        rates := None;
      }
    }

    /** The rates for a new reading; a reset or a gap starts over and shows none. */
    method Rate(c: Counters) returns (rates: Option<Rates>)
      requires Valid() && Whole(c)
      modifies this`points, this`rateWindow
      ensures Kept(points) && AllMeasured(points) && RateWindow(rateWindow, Some(c))
      ensures rates.Some? ==> Measured(rates.value)
      ensures var fresh_ := old(previous).None? || !Continues(old(previous).value, c);
              && (fresh_ ==> rates.None? && rateWindow == [c])
              && points == (if old(previous).Some? && fresh_ then [] else old(points))
              && (!fresh_ && c.time == old(previous).value.time ==>
                    rates == if old(points) == [] then None else old(points)[|old(points)| - 1].rates)
              && (!fresh_ && c.time > old(previous).value.time ==>
                    && rateWindow == Trim(old(rateWindow) + [c], c.time) && AtLeast(rateWindow[0], c)
                    && (rates.Some? <==> c.time - rateWindow[0].time >= SECOND)
                    && (rates.Some? ==> rateWindow[0].time < c.time && rates.value == RatesBetween(rateWindow[0], c)))
    {
      hide RateWindow, Continues, Trim, AtLeast, RatesBetween, Measured, Kept;
      rates := None;
      OneReading(c);
      var reset := previous.Some? && !Continues(previous.value, c);
      if reset || previous.None? {
        rateWindow := [];
        if reset {
          points := [];
          NoPoints();
        }
      }
      if previous.None? || reset {
        rateWindow := [c];
      } else if c.time > previous.value.time {
        rates := Average(c);
      } else {
        SameReading(rateWindow, previous.value, c);
        if points != [] {
          rates := points[|points| - 1].rates;
        }
      }
    }

    method Append(point: Point)
      requires Increasing(points) && AllMeasured(points) && (point.rates.Some? ==> Measured(point.rates.value))
      modifies this`points
      ensures Increasing(points) && AllMeasured(points) && points == Appended(old(points), point)
    {
      hide Measured;
      if points != [] && point.time < points[|points| - 1].time {
        points := [];
      }
      if points != [] && point.time == points[|points| - 1].time {
        points := points[..|points| - 1] + [point];
      } else {
        points := points + [point];
      }
    }

    /** The two loops at the end of add: nothing older than a minute, and no more than 1200 points. */
    method DropOld(now: nat)
      requires points != [] && Increasing(points) && AllMeasured(points) && points[|points| - 1].time == now
      modifies this`points
      ensures Kept(points) && AllMeasured(points) && Latest(old(points), points)
    {
      hide Latest, Increasing, AllMeasured, Measured;
      LatestAtFirst(points);
      while points != [] && now > points[0].time && now - points[0].time > WINDOW
        invariant Latest(old(points), points) && Increasing(points) && AllMeasured(points)
        invariant points != [] && points[|points| - 1].time == now
        decreases |points|
      {
        DropFront(old(points), points);
        points := points[1..];
      }
      while |points| > MAX_POINTS
        invariant Latest(old(points), points) && Increasing(points) && AllMeasured(points)
        invariant points != [] && points[|points| - 1].time == now && now - points[0].time <= WINDOW
        decreases |points|
      {
        DropFront(old(points), points);
        points := points[1..];
      }
    }

    /** History::add. */
    method Add(now: nat, counters: Option<Counters>, value: Option<real>)
      requires Valid() && (counters.Some? ==> Whole(counters.value))
      modifies this
      ensures Valid() && previous == counters
      ensures points != [] && points[|points| - 1].time == now && points[|points| - 1].value == value
      ensures counters.None? ==> points[|points| - 1].rates == None
      ensures Latest(Appended(if Restarts(old(previous), counters) then [] else old(points), points[|points| - 1]), points)
    {
      hide RateWindow, RatesBetween, Continues, Trim, AtLeast, Latest, Increasing, AllMeasured, Measured;
      var rates := None;
      if counters.Some? {
        rates := Rate(counters.value);
        previous := counters;
      } else {
        previous := None;
        rateWindow := [];
        EmptyWindow();
      }
      Append(Point(now, rates, value));
      ghost var all := points;
      DropOld(now);
      LatestKeepsLast(all, points);
    }

    /** History::buckets: one value a column, the mean of the shown points that fall there. */
    method Buckets(width: nat, now: nat) returns (result: seq<Option<real>>)
      ensures |result| == width
      ensures forall c :: 0 <= c < width ==> result[c] == Mean(Samples(points, now, width, c))
    {
      hide Column, Shown;
      result := seq(width, _ => None);
      if width == 0 {
        return;
      }
      var counts: seq<nat> := seq(width, _ => 0);
      for i := 0 to |points|
        invariant |result| == |counts| == width
        invariant forall c :: 0 <= c < width ==> Gathered(result[c], counts[c], Samples(points[..i], now, width, c))
      {
        var point := points[i];
        assert points[..i + 1][..i] == points[..i];
        if Shown(point, now) {
          var value := ShownValue(point, now);
          var column := Column(point, now, width);
          GatherMore(result[column], counts[column], Samples(points[..i], now, width, column), value);
          result := result[column := Some((if result[column].Some? then result[column].value else 0.0) + value)];
          counts := counts[column := counts[column] + 1];
        }
      }
      assert points[..|points|] == points;
      for i := 0 to width
        invariant |result| == |counts| == width
        invariant forall c :: 0 <= c < i ==> result[c] == Mean(Samples(points, now, width, c))
        invariant forall c :: i <= c < width ==> Gathered(result[c], counts[c], Samples(points, now, width, c))
      {
        if counts[i] != 0 {
          result := result[i := Some(result[i].value / counts[i] as real)];
        }
      }
    }
  }

  /** One sample: the time it was taken, the counters if there were any, and the value shown. */
  datatype Sample = Sample(now: nat, counters: Option<Counters>, value: Option<real>)

  /** Any sequence of samples, with clocks and counters going wherever they like. */
  method Run(samples: seq<Sample>) returns (h: History)
    requires forall k :: 0 <= k < |samples| && samples[k].counters.Some? ==> Whole(samples[k].counters.value)
    ensures h.Valid()
    ensures forall i, j :: 0 <= i < j < |h.points| ==> h.points[i].time < h.points[j].time && h.points[j].time - h.points[i].time <= WINDOW
    ensures |h.points| <= MAX_POINTS
    ensures forall i :: 0 <= i < |h.points| && h.points[i].rates.Some? ==> Measured(h.points[i].rates.value)
    ensures samples != [] ==> h.points != [] && h.points[|h.points| - 1].time == samples[|samples| - 1].now
  {
    hide RateWindow, Latest, Restarts;
    h := new History();
    for k := 0 to |samples|
      invariant fresh(h) && h.Valid()
      invariant k > 0 ==> h.points != [] && h.points[|h.points| - 1].time == samples[k - 1].now
    {
      h.Add(samples[k].now, samples[k].counters, samples[k].value);
    }
  }
}
