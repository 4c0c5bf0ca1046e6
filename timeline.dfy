/**
 * The arithmetic behind the river drawing: the year domain taken from the
 * dynasties, the linear year -> arc-length scale, the dash pattern that
 * paints one dynasty's stretch of the river, the anchor of a dynasty's
 * label, the selection of the events that get a marker, and the guard that
 * moves a marker off-screen.
 *
 * The latest snapshot (src/js/visualization.js) guards a degenerate year
 * domain and maps onto 0.9999 of the path length; the two earlier
 * snapshots (src/js/script.js, src/js/visualization_v3.0.js) use the bare
 * [minYear, maxYear] domain and the whole length. Both are a `YearScale`,
 * built by `LatestScale` and `EarlierScale` respectively.
 */
module Timeline {
  import opened Reals

  /** A dynasty record: a name, a span of years (negative = BCE) and a stroke colour. */
  datatype Dynasty = Dynasty(name: string, start: int, end: int, color: string)

  /** An event record; `kind` is the free-text `type` field of the data. */
  datatype Event = Event(name: string, year: int, kind: string)

  /** `d3.min(dynasties, d => d.start)` on a non-empty list. */
  function MinStart(ds: seq<Dynasty>): (m: int)
    requires |ds| > 0
    ensures forall d :: d in ds ==> m <= d.start
    ensures exists d :: d in ds && d.start == m
  {
    if |ds| == 1 then ds[0].start
    else
      var rest := MinStart(ds[1..]);
      assert forall d :: d in ds ==> d == ds[0] || d in ds[1..];
      if ds[0].start < rest then ds[0].start else rest
  }

  /** `d3.max(dynasties, d => d.end)` on a non-empty list. */
  function MaxEnd(ds: seq<Dynasty>): (m: int)
    requires |ds| > 0
    ensures forall d :: d in ds ==> d.end <= m
    ensures exists d :: d in ds && d.end == m
  {
    if |ds| == 1 then ds[0].end
    else
      var rest := MaxEnd(ds[1..]);
      assert forall d :: d in ds ==> d == ds[0] || d in ds[1..];
      if ds[0].end > rest then ds[0].end else rest
  }

  /**
   * `d3.scaleLinear().domain([lo, hi]).range([0, rangeEnd])`, restricted to
   * the linear formula; it is defined whenever the domain is not a single point.
   */
  datatype YearScale = YearScale(lo: int, hi: int, rangeEnd: real)
  {
    predicate Wf()
    {
      lo != hi
    }

    /**
     * The arc length at which year `y` is drawn: the length is to the range
     * end as the years since `lo` are to the span of the domain.
     */
    function At(y: int): (t: real)
      requires Wf()
      ensures t * (hi - lo) as real == (y - lo) as real * rangeEnd
    {
      (y - lo) as real / (hi - lo) as real * rangeEnd
    }

    /** A year inside the inclusive domain. */
    predicate InDomain(y: int)
    {
      lo <= y <= hi
    }
  }

  /**
   * The guarded scale of the latest snapshot: domain [minYear, validMaxYear],
   * where validMaxYear is maxYear when that exceeds minYear and minYear + 1
   * otherwise; range [0, 0.9999 * pathLength].
   */
  function LatestScale(ds: seq<Dynasty>, pathLength: real): (sc: YearScale)
    requires |ds| > 0
    ensures sc.Wf() && sc.lo < sc.hi
    ensures sc.lo == MinStart(ds)
    ensures MaxEnd(ds) > MinStart(ds) ==> sc.hi == MaxEnd(ds)
    ensures MaxEnd(ds) <= MinStart(ds) ==> sc.hi == MinStart(ds) + 1
    ensures sc.rangeEnd == 0.9999 * pathLength
    ensures forall d :: d in ds ==> sc.lo <= d.start && d.end <= sc.hi
  {
    var minYear, maxYear := MinStart(ds), MaxEnd(ds);
    var validMaxYear := if maxYear > minYear then maxYear else minYear + 1;
    YearScale(minYear, validMaxYear, pathLength * 0.9999)
  }

  /**
   * The unguarded scale of the earlier snapshots: domain [minYear, maxYear],
   * range [0, pathLength]. Without the guard a single-point domain would
   * divide by zero, so the caller must supply two different years.
   */
  function EarlierScale(ds: seq<Dynasty>, pathLength: real): (sc: YearScale)
    requires |ds| > 0 && MinStart(ds) != MaxEnd(ds)
    ensures sc.Wf()
    ensures sc.lo == MinStart(ds) && sc.hi == MaxEnd(ds)
    ensures sc.rangeEnd == pathLength
    ensures forall d :: d in ds ==> sc.lo <= d.start && d.end <= sc.hi
  {
    YearScale(MinStart(ds), MaxEnd(ds), pathLength)
  }

  // ----- properties of the linear map -----

  /** The domain ends map to the range ends. */
  lemma ScaleEndpoints(sc: YearScale)
    requires sc.Wf()
    ensures sc.At(sc.lo) == 0.0
    ensures sc.At(sc.hi) == sc.rangeEnd
  {
    var span := (sc.hi - sc.lo) as real;
    assert span / span == 1.0;
  }

  /** Over an increasing domain and a non-negative range the map never decreases. */
  lemma ScaleMonotone(sc: YearScale, y1: int, y2: int)
    requires sc.lo < sc.hi && 0.0 <= sc.rangeEnd
    requires y1 <= y2
    ensures sc.At(y1) <= sc.At(y2)
  {
    var span := (sc.hi - sc.lo) as real;
    var f1, f2 := (y1 - sc.lo) as real / span, (y2 - sc.lo) as real / span;
    assert f1 <= f2;
    MulMonotone(f1, f2, sc.rangeEnd);
  }

  /** Every year of the domain lands in [0, rangeEnd]. */
  lemma ScaleWithinRange(sc: YearScale, y: int)
    requires sc.lo < sc.hi && 0.0 <= sc.rangeEnd
    requires sc.InDomain(y)
    ensures 0.0 <= sc.At(y) <= sc.rangeEnd
  {
    ScaleEndpoints(sc);
    ScaleMonotone(sc, sc.lo, y);
    ScaleMonotone(sc, y, sc.hi);
  }

  /** Outside the domain the map leaves [0, rangeEnd] (for a positive range). */
  lemma ScaleOutsideRange(sc: YearScale, y: int)
    requires sc.lo < sc.hi && 0.0 < sc.rangeEnd
    requires !sc.InDomain(y)
    ensures sc.At(y) < 0.0 || sc.rangeEnd < sc.At(y)
  {
    var span := (sc.hi - sc.lo) as real;
    var f := (y - sc.lo) as real / span;
    if y < sc.lo {
      assert f < 0.0;
      MulStrict(f, 0.0, sc.rangeEnd);
    } else {
      assert (y - sc.lo) as real > span;
      assert f > 1.0;
      MulStrict(1.0, f, sc.rangeEnd);
    }
  }

  lemma MulMonotone(a: real, b: real, r: real)
    requires a <= b && 0.0 <= r
    ensures a * r <= b * r
  {
  }

  lemma MulStrict(a: real, b: real, r: real)
    requires a < b && 0.0 < r
    ensures a * r < b * r
  {
  }

  /** The latest scale sends the domain onto [0, 0.9999 * L], inside the path. */
  lemma LatestScaleInPath(ds: seq<Dynasty>, pathLength: real, y: int)
    requires |ds| > 0 && 0.0 <= pathLength
    requires LatestScale(ds, pathLength).InDomain(y)
    ensures LatestScale(ds, pathLength).At(MinStart(ds)) == 0.0
    ensures LatestScale(ds, pathLength).At(LatestScale(ds, pathLength).hi) == 0.9999 * pathLength
    ensures 0.0 <= LatestScale(ds, pathLength).At(y) <= pathLength
  {
    var sc := LatestScale(ds, pathLength);
    ScaleEndpoints(sc);
    ScaleWithinRange(sc, y);
  }

  /** The earlier scale sends minYear to 0 and maxYear to exactly the path length. */
  lemma EarlierScaleEndpoints(ds: seq<Dynasty>, pathLength: real, y: int)
    requires |ds| > 0 && MinStart(ds) < MaxEnd(ds) && 0.0 <= pathLength
    requires MinStart(ds) <= y <= MaxEnd(ds)
    ensures EarlierScale(ds, pathLength).At(MinStart(ds)) == 0.0
    ensures EarlierScale(ds, pathLength).At(MaxEnd(ds)) == pathLength
    ensures 0.0 <= EarlierScale(ds, pathLength).At(y) <= pathLength
  {
    var sc := EarlierScale(ds, pathLength);
    ScaleEndpoints(sc);
    ScaleWithinRange(sc, y);
  }

  // ----- dynasty segments -----

  /**
   * The stroke pattern of one dynasty segment: a dash as long as the
   * dynasty's stretch of the path (never negative), a gap filling the rest
   * of the path, and an offset that slides the dash to the dynasty's start.
   */
  datatype Stroke = Stroke(dash: real, gap: real, offset: real)

  function DashPattern(sc: YearScale, pathLength: real, d: Dynasty): (st: Stroke)
    requires sc.Wf()
    ensures st.dash >= 0.0
    ensures st.dash + st.gap == pathLength
    ensures st.offset == -sc.At(d.start)
    ensures sc.At(d.start) <= sc.At(d.end) ==> st.dash == sc.At(d.end) - sc.At(d.start)
    ensures sc.At(d.end) < sc.At(d.start) ==> st.dash == 0.0
  {
    var segmentLength := Max(0.0, sc.At(d.end) - sc.At(d.start));
    Stroke(segmentLength, pathLength - segmentLength, -sc.At(d.start))
  }

  /**
   * For a dynasty that starts at or after the domain's low end and ends at
   * or before its high end, the dash starts at or after the path's
   * beginning, and on the path when the start year lies in the domain; the
   * dash never reaches past the path's end, so the gap is never negative;
   * when the dynasty is well ordered the visible dash ends exactly at At(end).
   */
  lemma StrokeWithinPath(sc: YearScale, pathLength: real, d: Dynasty)
    requires sc.lo < sc.hi && 0.0 <= sc.rangeEnd <= pathLength
    requires sc.lo <= d.start && d.end <= sc.hi
    ensures var st := DashPattern(sc, pathLength, d);
      && st.gap >= 0.0
      && 0.0 <= -st.offset
      && (d.start <= sc.hi ==> -st.offset <= pathLength)
      && (d.start <= d.end ==> -st.offset + st.dash == sc.At(d.end) <= pathLength)
  {
    var s, e := sc.At(d.start), sc.At(d.end);
    ScaleEndpoints(sc);
    ScaleMonotone(sc, sc.lo, d.start);
    ScaleMonotone(sc, d.end, sc.hi);
    if d.start <= sc.hi {
      ScaleMonotone(sc, d.start, sc.hi);
    }
    assert 0.0 <= s && e <= sc.rangeEnd;
    if d.start <= d.end {
      ScaleMonotone(sc, d.start, d.end);
    }
    SpanFacts(s, e, pathLength);
  }

  /** The linear part of the argument above, over plain reals. */
  lemma SpanFacts(s: real, e: real, pathLength: real)
    requires 0.0 <= s && e <= pathLength && 0.0 <= pathLength
    ensures Max(0.0, e - s) <= pathLength
  {
  }

  /** Every dynasty's stroke of the latest snapshot stays on the path. */
  lemma LatestStrokeWithinPath(ds: seq<Dynasty>, pathLength: real, d: Dynasty)
    requires |ds| > 0 && 0.0 <= pathLength && d in ds
    ensures var st := DashPattern(LatestScale(ds, pathLength), pathLength, d);
      && st.gap >= 0.0
      && st.offset == -LatestScale(ds, pathLength).At(d.start)
      && 0.0 <= -st.offset
      && (d.start <= d.end ==> -st.offset + st.dash <= pathLength)
  {
    StrokeWithinPath(LatestScale(ds, pathLength), pathLength, d);
  }

  /** Every dynasty's stroke of the earlier snapshots stays on the path. */
  lemma EarlierStrokeWithinPath(ds: seq<Dynasty>, pathLength: real, d: Dynasty)
    requires |ds| > 0 && MinStart(ds) < MaxEnd(ds) && 0.0 <= pathLength && d in ds
    ensures var st := DashPattern(EarlierScale(ds, pathLength), pathLength, d);
      && st.gap >= 0.0
      && st.offset == -EarlierScale(ds, pathLength).At(d.start)
      && 0.0 <= -st.offset
      && (d.start <= d.end ==> -st.offset + st.dash <= pathLength)
  {
    StrokeWithinPath(EarlierScale(ds, pathLength), pathLength, d);
  }

  // ----- dynasty labels (latest snapshot only) -----

  /**
   * The arc length at which a dynasty's name is drawn: the middle of its
   * stretch, clamped onto the path (to its beginning when the middle lies
   * before it, to its end when the middle lies beyond it).
   */
  function LabelAnchor(sc: YearScale, pathLength: real, d: Dynasty): (m: real)
    requires sc.Wf()
    ensures 0.0 <= pathLength ==> 0.0 <= m <= pathLength
    ensures 0.0 <= (sc.At(d.start) + sc.At(d.end)) / 2.0 <= pathLength ==>
              m == (sc.At(d.start) + sc.At(d.end)) / 2.0
    ensures (sc.At(d.start) + sc.At(d.end)) / 2.0 < 0.0 ==> m == 0.0
    ensures 0.0 <= pathLength < (sc.At(d.start) + sc.At(d.end)) / 2.0 ==> m == pathLength
  {
    var startLength := sc.At(d.start);
    var endLength := sc.At(d.end);
    var midLength := startLength + (endLength - startLength) / 2.0;
    Max(0.0, Min(pathLength, midLength))
  }

  /** For a well-ordered dynasty the clamp never bites: the label sits midway along the dynasty's segment. */
  lemma LatestLabelOnSegment(ds: seq<Dynasty>, pathLength: real, d: Dynasty)
    requires |ds| > 0 && 0.0 <= pathLength && d in ds && d.start <= d.end
    ensures var sc := LatestScale(ds, pathLength);
      && LabelAnchor(sc, pathLength, d) == (sc.At(d.start) + sc.At(d.end)) / 2.0
      && sc.At(d.start) <= LabelAnchor(sc, pathLength, d) <= sc.At(d.end)
  {
    var sc := LatestScale(ds, pathLength);
    ScaleWithinRange(sc, d.start);
    ScaleWithinRange(sc, d.end);
    ScaleMonotone(sc, d.start, d.end);
  }

  // ----- events -----

  /** `events.filter(d => d.year >= lo && d.year <= hi)`. */
  function RenderedEvents(es: seq<Event>, sc: YearScale): (r: seq<Event>)
    ensures |r| <= |es|
    ensures forall e :: e in r ==> e in es && sc.InDomain(e.year)
  {
    if es == [] then []
    else if sc.InDomain(es[0].year) then [es[0]] + RenderedEvents(es[1..], sc)
    else RenderedEvents(es[1..], sc)
  }

  /**
   * The rendered events are exactly the in-domain ones, each as many times
   * as it occurs in the data, and no out-of-domain event at all.
   */
  lemma {:induction false} RenderedEventsCount(es: seq<Event>, sc: YearScale, e: Event)
    ensures multiset(RenderedEvents(es, sc))[e] == if sc.InDomain(e.year) then multiset(es)[e] else 0
  {
    if es != [] {
      RenderedEventsCount(es[1..], sc, e);
      assert es == [es[0]] + es[1..];
    }
  }

  /** The filter keeps the order of the input: it distributes over concatenation. */
  lemma {:induction false} RenderedEventsAppend(a: seq<Event>, b: seq<Event>, sc: YearScale)
    ensures RenderedEvents(a + b, sc) == RenderedEvents(a, sc) + RenderedEvents(b, sc)
  {
    if a == [] {
      assert a + b == b;
    } else {
      assert (a + b)[0] == a[0];
      assert (a + b)[1..] == a[1..] + b;
      RenderedEventsAppend(a[1..], b, sc);
      if sc.InDomain(a[0].year) {
        calc {
          RenderedEvents(a + b, sc);
          [a[0]] + RenderedEvents(a[1..] + b, sc);
          [a[0]] + (RenderedEvents(a[1..], sc) + RenderedEvents(b, sc));
          ([a[0]] + RenderedEvents(a[1..], sc)) + RenderedEvents(b, sc);
        }
      }
    }
  }

  /** A marker's position: on the path at some arc length, or the off-screen fallback `translate(-100, -100)`. */
  datatype Placement = OnPath(length: real) | OffScreen

  function MarkerPlacement(sc: YearScale, pathLength: real, e: Event): (p: Placement)
    requires sc.Wf()
    ensures p.OnPath? <==> 0.0 <= sc.At(e.year) <= pathLength
    ensures p.OnPath? ==> p.length == sc.At(e.year)
  {
    var eventLength := sc.At(e.year);
    if eventLength < 0.0 || eventLength > pathLength then OffScreen else OnPath(eventLength)
  }

  /** Every rendered event is placed on the path when the range fits in it. */
  lemma RenderedEventsOnPath(es: seq<Event>, sc: YearScale, pathLength: real)
    requires sc.Wf() && 0.0 <= sc.rangeEnd <= pathLength
    ensures forall e :: e in RenderedEvents(es, sc) ==> MarkerPlacement(sc, pathLength, e).OnPath?
  {
    forall e | e in RenderedEvents(es, sc) ensures MarkerPlacement(sc, pathLength, e).OnPath? {
      ScaleWithinRange(sc, e.year);
    }
  }

  /**
   * In the latest snapshot the markers are exactly the in-domain events, and
   * the off-screen branch of the transform is never taken for any of them.
   */
  lemma LatestMarkersOnPath(ds: seq<Dynasty>, es: seq<Event>, pathLength: real)
    requires |ds| > 0 && 0.0 <= pathLength
    ensures var sc := LatestScale(ds, pathLength);
      forall e :: e in RenderedEvents(es, sc) ==>
        sc.lo <= e.year <= sc.hi && MarkerPlacement(sc, pathLength, e).OnPath?
  {
    RenderedEventsOnPath(es, LatestScale(ds, pathLength), pathLength);
  }

  /**
   * In the earlier snapshots, for a path of positive length, the off-screen
   * guard agrees with the year filter: an event is placed on the path exactly
   * when its year lies in [minYear, maxYear].
   */
  lemma EarlierGuardMatchesFilter(ds: seq<Dynasty>, pathLength: real, e: Event)
    requires |ds| > 0 && MinStart(ds) < MaxEnd(ds) && 0.0 < pathLength
    ensures (MarkerPlacement(EarlierScale(ds, pathLength), pathLength, e).OnPath?
             <==> MinStart(ds) <= e.year <= MaxEnd(ds))
  {
    var sc := EarlierScale(ds, pathLength);
    if sc.InDomain(e.year) {
      ScaleWithinRange(sc, e.year);
    } else {
      ScaleOutsideRange(sc, e.year);
    }
  }
}
