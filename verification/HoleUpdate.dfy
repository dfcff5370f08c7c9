/** The whole update of the holes of a series: finding them and recording them. */
module HoleUpdate {
  import opened Basics
  import opened Spans
  import opened HoleScan
  import opened HoleTable

  // ---------------------------------------------------------------- everything is in whole seconds

  predicate WholeSecond(t: int) {
    t % 1000 == 0
  }

  ghost predicate WholeTimes(times: seq<int>) {
    forall i :: 0 <= i < |times| ==> WholeSecond(times[i])
  }

  ghost predicate WholeSpans(ss: seq<Span>) {
    forall i :: 0 <= i < |ss| ==> WholeSecond(ss[i].start) && WholeSecond(ss[i].stop)
  }

  lemma WholeConcat(a: seq<Span>, b: seq<Span>)
    requires WholeSpans(a) && WholeSpans(b)
    ensures WholeSpans(a + b)
  {
  }

  lemma {:induction false} GapsWhole(times: seq<int>, i: nat, tf: int)
    requires i > 0 && WholeTimes(times) && WholeSecond(tf)
    ensures WholeSpans(Gaps(times, i, tf))
    decreases |times| - i
  {
    if i < |times| {
      GapsWhole(times, i + 1, tf);
      assert WholeSecond(times[i - 1] + tf);
    }
  }

  lemma GapsInWhole(times: seq<int>, startMS: int, endMS: int, maxEnd: int, tf: int)
    requires WholeTimes(times) && WholeSecond(startMS) && WholeSecond(endMS) && WholeSecond(maxEnd) && WholeSecond(tf)
    ensures WholeSpans(GapsIn(times, startMS, endMS, maxEnd, tf))
  {
    hide WholeSpans, Gaps;
    OneWhole(startMS, endMS);
    if times != [] {
      var head := if times[0] > startMS then [Span(startMS, times[0])] else [];
      var last := times[|times| - 1];
      OneWhole(startMS, times[0]);
      OneWhole(last + tf, Min(endMS, maxEnd));
      GapsWhole(times, 1, tf);
      WholeConcat(head, Gaps(times, 1, tf));
      WholeConcat(head + Gaps(times, 1, tf), TailGap(last, endMS, maxEnd, tf));
    }
  }

  lemma OneWhole(start: int, stop: int)
    requires WholeSecond(start) && WholeSecond(stop)
    ensures WholeSpans([]) && WholeSpans([Span(start, stop)])
  {
  }

  lemma {:induction false} PausesWhole(days: seq<int>, times: seq<Span>, i: nat, j: nat, lastStop: int)
    requires WholeTimes(days) && WholeSpans(times) && WholeSecond(lastStop)
    ensures WholeSpans(Pauses(days, times, i, j, lastStop))
    decreases |days| - i, |times| - j
  {
    if i < |days| {
      if j >= |times| {
        PausesWhole(days, times, i + 1, 0, lastStop);
      } else {
        PausesWhole(days, times, i, j + 1, days[i] + times[j].stop);
        var first := if lastStop > 0 then [Span(lastStop, days[i] + times[j].start)] else [];
        assert WholeSecond(days[i] + times[j].start);
        WholeConcat(first, Pauses(days, times, i, j + 1, days[i] + times[j].stop));
      }
    }
  }

  lemma {:induction false} DaysWhole(cur: int, stop: int)
    requires WholeSecond(cur)
    ensures WholeTimes(DaysFrom(cur, stop))
    decreases stop - cur
  {
    if cur < stop {
      DaysWhole(cur + DAY, stop);
    }
  }

  lemma RestOfWhole(days: seq<int>, times: seq<Span>, stop: int)
    requires days != [] && times != [] && WholeTimes(days) && WholeSpans(times) && WholeSecond(stop)
    ensures WholeSpans(RestOf(days, times, stop))
  {
    var lastStop := if times[0].start > 0 then days[0] else 0;
    var validStop := days[|days| - 1] + times[|times| - 1].stop;
    assert WholeSecond(validStop);
    PausesWhole(days, times, 0, 0, lastStop);
    hide WholeSpans, WholeTimes, Pauses;
    OneWhole(validStop, stop);
    WholeConcat(Pauses(days, times, 0, 0, lastStop), if validStop < stop then [Span(validStop, stop)] else []);
  }

  lemma RestWhole(v: Venue, start: int, stop: int)
    requires start < stop && WholeSecond(stop) && WholeSpans(TimesOf(v))
    ensures WholeSpans(RestFor(v, start, stop))
  {
    if !v.alwaysOpen {
      DayWhole(start);
      DaysWhole(AlignDown(start, DAY), stop);
      RestOfWhole(DaysFrom(AlignDown(start, DAY), stop), TimesOf(v), stop);
    }
  }

  lemma DayWhole(start: int)
    ensures WholeSecond(AlignDown(start, DAY))
  {
  }

  lemma {:induction false} SubtractWhole(holes: seq<Span>, i: nat, rest: seq<Span>, si: nat)
    requires WholeSpans(holes) && WholeSpans(rest)
    ensures WholeSpans(Subtract(holes, i, rest, si))
    decreases |holes| - i + |rest| - si, i < |holes| && si < |rest| && rest[si].stop > holes[i].start
  {
    if i < |holes| && si < |rest| {
      var h, s := holes[i], rest[si];
      if s.stop <= h.start {
        SubtractWhole(holes, i, rest, si + 1);
      } else if h.stop > s.stop {
        SubtractWhole(holes[i := Span(s.stop, h.stop)], i, rest, si);
      } else {
        SubtractWhole(holes, i + 1, rest, si);
      }
    }
  }

  lemma ExactWhole(times: seq<int>, startMS: int, endMS: int, maxEnd: int, tf: int, v: Venue)
    requires startMS < endMS && WholeTimes(times) && WholeSecond(tf) && WholeSpans(TimesOf(v))
    requires WholeSecond(startMS) && WholeSecond(endMS) && WholeSecond(maxEnd)
    ensures WholeSpans(ExactHoles(times, startMS, endMS, maxEnd, tf, v))
  {
    var gaps, rest := GapsIn(times, startMS, endMS, maxEnd, tf), RestFor(v, startMS, endMS);
    GapsInWhole(times, startMS, endMS, maxEnd, tf);
    RestWhole(v, startMS, endMS);
    SubtractWhole(gaps, 0, rest, 0);
  }

  lemma AlignWhole(nowMS: int, tf: int)
    requires tf > 0 && WholeSecond(tf)
    ensures WholeSecond(AlignDown(nowMS, tf) - tf)
  {
    var k, m := nowMS / tf, tf / 1000;
    assert AlignDown(nowMS, tf) == tf * k;
    assert tf * k == 1000 * (m * k) by {
      assert tf == 1000 * m;
      assert (1000 * m) * k == 1000 * (m * k);
    }
  }

  // ---------------------------------------------------------------- the update

  /** A hole of the window that is wide enough to be recorded. */
  ghost predicate Missing(exact: seq<Span>, tf: int, min1mHole: int, t: int)
    requires tf > 0
  {
    exists s :: s in exact && Wide(s, tf, min1mHole) && Within(t, s)
  }

  /** Only missing times are recorded, and but for minute bars, where small holes are dropped, all of them. */
  lemma MissingTimes(times: seq<int>, startMS: int, endMS: int, maxEnd: int, tf: int, v: Venue, t: int)
    requires tf > 0 && Increasing(times) && DAY <= startMS < endMS && DailySessions(TimesOf(v))
    requires forall i :: 0 <= i < |times| ==> startMS <= times[i] < endMS
    ensures var recorded := Missing(ExactHoles(times, startMS, endMS, maxEnd, tf, v), tf, v.min1mHole, t);
      && (recorded ==> MissingTime(times, startMS, endMS, maxEnd, tf, v, t))
      && (tf != MINUTE && MissingTime(times, startMS, endMS, maxEnd, tf, v, t) ==> recorded)
  {
    var exact := ExactHoles(times, startMS, endMS, maxEnd, tf, v);
    MissingExactly(times, startMS, endMS, maxEnd, tf, v, t);
    ExactOrdered(times, startMS, endMS, maxEnd, tf, v);
    if tf != MINUTE {
      CoversWide(exact, exact, tf, v.min1mHole, t);
    } else if Missing(exact, tf, v.min1mHole, t) {
      var s :| s in exact && Wide(s, tf, v.min1mHole) && Within(t, s);
      var k :| 0 <= k < |exact| && exact[k] == s;
    }
  }

  /** No bar is stored for `width` milliseconds from `start` on, as far as the scan looks. */
  ghost predicate AllUnstored(times: seq<int>, startMS: int, endMS: int, maxEnd: int, tf: int, start: int, width: int) {
    forall u :: start <= u < start + width ==> Unstored(times, startMS, endMS, maxEnd, tf, u)
  }

  lemma StopUncovered(ss: seq<Span>, k: nat)
    requires Apart(ss) && k < |ss|
    ensures !Covers(ss, ss[k].stop)
  {
  }

  /** Spans that do not touch cover a stretch only as a whole. */
  lemma OneSpan(ss: seq<Span>, start: int, stop: int) returns (k: nat)
    requires Apart(ss) && start < stop && forall u :: start <= u < stop ==> Covers(ss, u)
    ensures k < |ss| && ss[k].start <= start && stop <= ss[k].stop
  {
    assert Covers(ss, start);
    k :| 0 <= k < |ss| && Within(start, ss[k]);
    StopUncovered(ss, k);
  }

  /**
   * At a venue that is always open a missing minute is recorded, if and only if it lies in a stretch of one minute more
   * than the limit in which no bar is stored.
   */
  lemma MinuteExactly(times: seq<int>, startMS: int, endMS: int, maxEnd: int, v: Venue, t: int)
    requires v.alwaysOpen && v.min1mHole >= 0 && Increasing(times) && startMS < endMS
    requires forall i :: 0 <= i < |times| ==> startMS <= times[i] < endMS
    ensures var width := (v.min1mHole + 1) * MINUTE;
      Missing(ExactHoles(times, startMS, endMS, maxEnd, MINUTE, v), MINUTE, v.min1mHole, t) <==>
        exists a :: a <= t < a + width && AllUnstored(times, startMS, endMS, maxEnd, MINUTE, a, width)
  {
    var gaps, width := GapsIn(times, startMS, endMS, maxEnd, MINUTE), (v.min1mHole + 1) * MINUTE;
    if Missing(gaps, MINUTE, v.min1mHole, t) {
      var a := InWide(times, startMS, endMS, maxEnd, v.min1mHole, t);
    }
    if a :| a <= t < a + width && AllUnstored(times, startMS, endMS, maxEnd, MINUTE, a, width) {
      StretchIsMissing(times, startMS, endMS, maxEnd, v.min1mHole, a, t);
    }
  }

  /** A stretch of that length around a time of a wide hole. */
  lemma InWide(times: seq<int>, startMS: int, endMS: int, maxEnd: int, n: int, t: int) returns (a: int)
    requires Increasing(times) && startMS < endMS && n >= 0
    requires forall i :: 0 <= i < |times| ==> startMS <= times[i] < endMS
    requires Missing(GapsIn(times, startMS, endMS, maxEnd, MINUTE), MINUTE, n, t)
    ensures a <= t < a + (n + 1) * MINUTE
    ensures AllUnstored(times, startMS, endMS, maxEnd, MINUTE, a, (n + 1) * MINUTE)
  {
    var gaps := GapsIn(times, startMS, endMS, maxEnd, MINUTE);
    var s :| s in gaps && Wide(s, MINUTE, n) && Within(t, s);
    WideExactly(s, MINUTE, n);
    a := Min(t, s.stop - (n + 1) * MINUTE);
    forall u | a <= u < a + (n + 1) * MINUTE
      ensures Unstored(times, startMS, endMS, maxEnd, MINUTE, u)
    {
      assert Within(u, s) && Covers(gaps, u);
      GapsInExact(times, startMS, endMS, maxEnd, MINUTE, u);
    }
  }

  lemma StretchIsMissing(times: seq<int>, startMS: int, endMS: int, maxEnd: int, n: int, a: int, t: int)
    requires Increasing(times) && startMS < endMS && n >= 0 && a <= t < a + (n + 1) * MINUTE
    requires forall i :: 0 <= i < |times| ==> startMS <= times[i] < endMS
    requires AllUnstored(times, startMS, endMS, maxEnd, MINUTE, a, (n + 1) * MINUTE)
    ensures Missing(GapsIn(times, startMS, endMS, maxEnd, MINUTE), MINUTE, n, t)
  {
    var gaps := GapsIn(times, startMS, endMS, maxEnd, MINUTE);
    forall u | a <= u < a + (n + 1) * MINUTE ensures Covers(gaps, u) {
      assert Unstored(times, startMS, endMS, maxEnd, MINUTE, u);
      GapsInExact(times, startMS, endMS, maxEnd, MINUTE, u);
    }
    GapsInApart(times, startMS, endMS, maxEnd, MINUTE);
    var k := OneSpan(gaps, a, a + (n + 1) * MINUTE);
    WideExactly(gaps[k], MINUTE, n);
  }

  /**
   * Records what is missing up to the last full frame, which starts at `maxEnd`; without any gap nothing is touched.
   */
  method RecordMissing(table: KHoleTable, times: seq<int>, startMS: int, endMS: int, maxEnd: int, tf: int, v: Venue,
      isCont: bool)
    requires table.Valid() && tf > 0 && Increasing(times) && DAY <= startMS < endMS && DailySessions(TimesOf(v))
    requires forall i :: 0 <= i < |times| ==> startMS <= times[i] < endMS
    requires WholeTimes(times) && WholeSecond(tf) && WholeSpans(TimesOf(v))
    requires WholeSecond(startMS) && WholeSecond(endMS) && WholeSecond(maxEnd)
    modifies table
    ensures table.Valid()
    ensures var exact := ExactHoles(times, startMS, endMS, maxEnd, tf, v);
      forall t :: HeldByAny(table.rows, t) <==> HeldByAny(old(table.rows), t) || Missing(exact, tf, v.min1mHole, t)
    ensures var exact := ExactHoles(times, startMS, endMS, maxEnd, tf, v);
      forall noData, t :: HeldFlag(table.rows, noData, t) ==>
        HeldFlag(old(table.rows), noData, t) || (noData == isCont && Missing(exact, tf, v.min1mHole, t))
    ensures GapsIn(times, startMS, endMS, maxEnd, tf) == [] ==> table.rows == old(table.rows)
  {
    ghost var exact := ExactHoles(times, startMS, endMS, maxEnd, tf, v);
    var holes, gap := DetectHoles(times, startMS, endMS, maxEnd, tf, v);
    forall t
      ensures Missing(exact, tf, v.min1mHole, t) <==> Covers(holes, t)
    {
      CoversWide(holes, exact, tf, v.min1mHole, t);
    }
    if gap {
      ExactWhole(times, startMS, endMS, maxEnd, tf, v);
      KeptWhole(holes, exact);
      ghost var out := table.Record(startMS, endMS, holes, isCont);
    } else {
      assert exact == [] && Missing(exact, tf, v.min1mHole, 0) == false;
    }
  }

  /** Updates the records of a window: what is recorded afterwards is what was recorded before and the missing times. */
  method UpdateKHoles(table: KHoleTable, times: seq<int>, startMS: int, endMS: int, nowMS: int, tf: int, v: Venue,
      isCont: bool)
    requires table.Valid() && tf > 0 && Increasing(times) && DAY <= startMS < endMS && DailySessions(TimesOf(v))
    requires forall i :: 0 <= i < |times| ==> startMS <= times[i] < endMS
    requires WholeTimes(times) && WholeSecond(tf) && WholeSpans(TimesOf(v)) && WholeSecond(startMS)
      && WholeSecond(endMS)
    modifies table
    ensures table.Valid()
    ensures var exact := ExactHoles(times, startMS, endMS, AlignDown(nowMS, tf) - tf, tf, v);
      forall t :: HeldByAny(table.rows, t) <==> HeldByAny(old(table.rows), t) || Missing(exact, tf, v.min1mHole, t)
    ensures var exact := ExactHoles(times, startMS, endMS, AlignDown(nowMS, tf) - tf, tf, v);
      forall noData, t :: HeldFlag(table.rows, noData, t) ==>
        HeldFlag(old(table.rows), noData, t) || (noData == isCont && Missing(exact, tf, v.min1mHole, t))
    ensures var maxEnd := AlignDown(nowMS, tf) - tf;
      forall t :: HeldByAny(table.rows, t) ==>
        HeldByAny(old(table.rows), t) || MissingTime(times, startMS, endMS, maxEnd, tf, v, t)
    ensures var maxEnd := AlignDown(nowMS, tf) - tf;
      tf != MINUTE ==> forall t :: MissingTime(times, startMS, endMS, maxEnd, tf, v, t) ==> HeldByAny(table.rows, t)
    ensures var maxEnd := AlignDown(nowMS, tf) - tf;
      (forall t :: !Unstored(times, startMS, endMS, maxEnd, tf, t)) ==> table.rows == old(table.rows)
  {
    hide ExactHoles, GapsIn, Missing, MissingTime, HeldByAny, HeldFlag;
    AlignWhole(nowMS, tf);
    ghost var maxEnd := AlignDown(nowMS, tf) - tf;
    ghost var exact := ExactHoles(times, startMS, endMS, maxEnd, tf, v);
    forall t
      ensures Missing(exact, tf, v.min1mHole, t) ==> MissingTime(times, startMS, endMS, maxEnd, tf, v, t)
      ensures tf != MINUTE && MissingTime(times, startMS, endMS, maxEnd, tf, v, t) ==>
        Missing(exact, tf, v.min1mHole, t)
    {
      MissingTimes(times, startMS, endMS, maxEnd, tf, v, t);
    }
    GapsInNone(times, startMS, endMS, maxEnd, tf);
    RecordMissing(table, times, startMS, endMS, AlignDown(nowMS, tf) - tf, tf, v, isCont);
  }

  lemma KeptWhole(holes: seq<Span>, exact: seq<Span>)
    requires WholeSpans(exact) && forall s :: s in holes ==> s in exact
    ensures forall i :: 0 <= i < |holes| ==> holes[i].start % 1000 == 0 && holes[i].stop % 1000 == 0
  {
    forall i | 0 <= i < |holes|
      ensures holes[i].start % 1000 == 0 && holes[i].stop % 1000 == 0
    {
      assert holes[i] in holes;
      WholeMember(exact, holes[i]);
    }
  }

  lemma WholeMember(exact: seq<Span>, s: Span)
    requires WholeSpans(exact) && s in exact
    ensures s.start % 1000 == 0 && s.stop % 1000 == 0
  {
    var k :| 0 <= k < |exact| && exact[k] == s;
    assert WholeSecond(exact[k].start);
  }

  lemma CoversWide(holes: seq<Span>, exact: seq<Span>, tf: int, min1mHole: int, t: int)
    requires tf > 0 && WideOnes(holes, exact, tf, min1mHole)
    ensures Missing(exact, tf, min1mHole, t) <==> Covers(holes, t)
  {
    if Missing(exact, tf, min1mHole, t) {
      var s :| s in exact && Wide(s, tf, min1mHole) && Within(t, s);
      assert s in holes;
      var k :| 0 <= k < |holes| && holes[k] == s;
    }
    if Covers(holes, t) {
      var k :| 0 <= k < |holes| && Within(t, holes[k]);
      assert holes[k] in holes;
    }
  }
}
