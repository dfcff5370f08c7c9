/** Finding the missing bars of a stored series and removing the hours in which nothing trades. */
module HoleScan {
  import opened Basics
  import opened Spans

  const DAY: int := 86400000
  const MINUTE: int := 60000

  // ---------------------------------------------------------------- gaps between stored bars

  ghost predicate Increasing(times: seq<int>) {
    forall i, j :: 0 <= i < j < |times| ==> times[i] < times[j]
  }

  /** `t` lies inside the frame of a stored bar. */
  ghost predicate HasBar(times: seq<int>, tf: int, t: int) {
    exists i :: 0 <= i < |times| && times[i] <= t < times[i] + tf
  }

  /** The gaps between neighbours of the list, from the pair that ends at index `i`. */
  function Gaps(times: seq<int>, i: nat, tf: int): seq<Span>
    requires i > 0
    decreases |times| - i
  {
    if i >= |times| then []
    else if times[i] - times[i - 1] > tf then [Span(times[i - 1] + tf, times[i])] + Gaps(times, i + 1, tf)
    else Gaps(times, i + 1, tf)
  }

  /** Between two listed bars, a time is in a gap exactly when it is in no bar's frame. */
  lemma {:induction false} GapsExact(times: seq<int>, i: nat, tf: int, t: int)
    requires 0 < i < |times| && tf > 0 && Increasing(times) && times[i - 1] <= t < times[|times| - 1]
    ensures Covers(Gaps(times, i, tf), t) <==> !HasBar(times, tf, t)
    decreases |times| - i
  {
    var rest := Gaps(times, i + 1, tf);
    if times[i] - times[i - 1] > tf {
      CoversCons(Span(times[i - 1] + tf, times[i]), rest, t);
    }
    if t >= times[i] {
      GapsExact(times, i + 1, tf, t);
    } else {
      GapsBounds(times, i + 1, tf);
      HasBarBetween(times, i, tf, t);
    }
  }

  lemma HasBarBetween(times: seq<int>, i: nat, tf: int, t: int)
    requires 0 < i < |times| && tf > 0 && Increasing(times) && times[i - 1] <= t < times[i]
    ensures HasBar(times, tf, t) <==> t < times[i - 1] + tf
  {
    if HasBar(times, tf, t) {
      var k :| 0 <= k < |times| && times[k] <= t < times[k] + tf;
      assert k <= i - 1;
    }
    if t < times[i - 1] + tf {
      assert times[i - 1] <= t < times[i - 1] + tf;
    }
  }

  lemma {:induction false} GapsBounds(times: seq<int>, i: nat, tf: int)
    requires 0 < i <= |times| && tf > 0 && Increasing(times)
    ensures Ordered(Gaps(times, i, tf))
    ensures forall k :: 0 <= k < |Gaps(times, i, tf)| ==>
      var s := Gaps(times, i, tf)[k]; times[i - 1] + tf <= s.start < s.stop <= times[|times| - 1]
    decreases |times| - i
  {
    if i < |times| {
      GapsBounds(times, i + 1, tf);
      if times[i] - times[i - 1] > tf {
        OrderedConcat([Span(times[i - 1] + tf, times[i])], Gaps(times, i + 1, tf), times[i]);
      }
    }
  }

  /** The gap after the last bar, reported only when the series ends well before the present. */
  function TailGap(last: int, endMS: int, maxEnd: int, tf: int): seq<Span> {
    if maxEnd - last > tf * 5 && endMS - last > tf then [Span(last + tf, Min(endMS, maxEnd))] else []
  }

  function GapsIn(times: seq<int>, startMS: int, endMS: int, maxEnd: int, tf: int): seq<Span> {
    if times == [] then [Span(startMS, endMS)]
    else
      (if times[0] > startMS then [Span(startMS, times[0])] else [])
      + Gaps(times, 1, tf)
      + TailGap(times[|times| - 1], endMS, maxEnd, tf)
  }

  /** One turn of the scan. */
  lemma GapsStep(times: seq<int>, i: nat, tf: int, holes: seq<Span>)
    requires 0 < i < |times|
    ensures holes + Gaps(times, i, tf) ==
      (if times[i] - times[i - 1] > tf then holes + [Span(times[i - 1] + tf, times[i])] else holes)
        + Gaps(times, i + 1, tf)
  {
    ConcatAssoc(holes, [Span(times[i - 1] + tf, times[i])], Gaps(times, i + 1, tf));
  }

  /** The scan over all stored times of the range. */
  method FindGaps(times: seq<int>, startMS: int, endMS: int, maxEnd: int, tf: int) returns (holes: seq<Span>)
    ensures holes == GapsIn(times, startMS, endMS, maxEnd, tf)
  {
    holes := [];
    if |times| == 0 {
      holes := holes + [Span(startMS, endMS)];
      return;
    }
    if times[0] > startMS {
      holes := holes + [Span(startMS, times[0])];
    }
    var prevTime;
    holes, prevTime := ScanGaps(times, tf, holes);
    holes := WithTail(holes, prevTime, endMS, maxEnd, tf);
  }

  method WithTail(found: seq<Span>, last: int, endMS: int, maxEnd: int, tf: int) returns (holes: seq<Span>)
    ensures holes == found + TailGap(last, endMS, maxEnd, tf)
  {
    holes := found;
    if maxEnd - last > tf * 5 && endMS - last > tf {
      holes := holes + [Span(last + tf, Min(endMS, maxEnd))];
    }
    assert found + [] == found;
  }

  method ScanGaps(times: seq<int>, tf: int, head: seq<Span>) returns (holes: seq<Span>, prevTime: int)
    requires |times| > 0
    ensures holes == head + Gaps(times, 1, tf) && prevTime == times[|times| - 1]
  {
    holes := head;
    prevTime := times[0];
    ghost var all := head + Gaps(times, 1, tf);
    var i := 1;
    while i < |times|
      invariant 1 <= i <= |times|
      invariant prevTime == times[i - 1]
      invariant holes + Gaps(times, i, tf) == all
    {
      var time := times[i];
      var intv := time - prevTime;
      GapsStep(times, i, tf, holes);
      if intv > tf {
        holes := holes + [Span(prevTime + tf, time)];
      }
      prevTime := time;
      i := i + 1;
    }
    assert holes + [] == holes;
  }

  /**
   * How far a scan looks: to the end of the range if nothing is stored, else to the last bar, and behind it to the last
   * full frame, which starts at `maxEnd`, if that is more than five frames later.
   */
  predicate Scanned(times: seq<int>, endMS: int, maxEnd: int, tf: int, t: int) {
    t < endMS && (times == [] || t < times[|times| - 1] || (t < maxEnd && maxEnd - times[|times| - 1] > 5 * tf))
  }

  /** A time that the scan of a range reports: it looks there, and no bar spans it. */
  ghost predicate Unstored(times: seq<int>, startMS: int, endMS: int, maxEnd: int, tf: int, t: int) {
    startMS <= t && Scanned(times, endMS, maxEnd, tf, t) && !HasBar(times, tf, t)
  }

  lemma HasBarLast(times: seq<int>, tf: int, t: int)
    requires times != [] && tf > 0 && Increasing(times) && times[|times| - 1] <= t
    ensures HasBar(times, tf, t) <==> t < times[|times| - 1] + tf
  {
    if t < times[|times| - 1] + tf {
      assert times[|times| - 1] <= t < times[|times| - 1] + tf;
    }
  }

  lemma OneCovers(start: int, stop: int, t: int)
    ensures !Covers([], t)
    ensures Covers([Span(start, stop)], t) <==> start <= t < stop
  {
    CoversCons(Span(start, stop), [], t);
  }

  /** Before the first bar there is none. */
  lemma NoBar(times: seq<int>, tf: int, t: int)
    requires Increasing(times)
    ensures times == [] || t < times[0] ==> !HasBar(times, tf, t)
  {
  }

  /** The gaps between the bars lie between the first and the last one. */
  lemma NotBetween(times: seq<int>, tf: int, t: int)
    requires tf > 0 && Increasing(times) && times != []
    ensures t < times[0] || times[|times| - 1] <= t ==> !Covers(Gaps(times, 1, tf), t)
  {
    GapsBounds(times, 1, tf);
  }

  /** The scan reports exactly these times. */
  lemma GapsInExact(times: seq<int>, startMS: int, endMS: int, maxEnd: int, tf: int, t: int)
    requires tf > 0 && Increasing(times)
    requires forall i :: 0 <= i < |times| ==> startMS <= times[i] < endMS
    ensures Covers(GapsIn(times, startMS, endMS, maxEnd, tf), t) <==> Unstored(times, startMS, endMS, maxEnd, tf, t)
  {
    hide HasBar, Covers, Gaps, TailGap;
    OneCovers(startMS, endMS, t);
    if times == [] {
      NoBar(times, tf, t);
      return;
    }
    var first, last := times[0], times[|times| - 1];
    var head := if first > startMS then [Span(startMS, first)] else [];
    var mid := Gaps(times, 1, tf);
    CoversConcat(head + mid, TailGap(last, endMS, maxEnd, tf), t);
    CoversConcat(head, mid, t);
    OneCovers(startMS, first, t);
    NoBar(times, tf, t);
    NotBetween(times, tf, t);
    TailExact(last, endMS, maxEnd, tf, t);
    if first <= t < last {
      GapsExact(times, 1, tf, t);
    } else if last <= t {
      HasBarLast(times, tf, t);
    }
  }

  lemma TailExact(last: int, endMS: int, maxEnd: int, tf: int, t: int)
    requires tf > 0
    ensures Covers(TailGap(last, endMS, maxEnd, tf), t) <==>
      last + tf <= t < endMS && t < maxEnd && maxEnd - last > 5 * tf
  {
    CoversCons(Span(last + tf, Min(endMS, maxEnd)), [], t);
  }

  /** There is a gap if and only if there is such a time. */
  lemma GapsInNone(times: seq<int>, startMS: int, endMS: int, maxEnd: int, tf: int)
    requires tf > 0 && Increasing(times) && startMS < endMS
    requires forall i :: 0 <= i < |times| ==> startMS <= times[i] < endMS
    ensures GapsIn(times, startMS, endMS, maxEnd, tf) == [] <==>
      forall t :: !Unstored(times, startMS, endMS, maxEnd, tf, t)
  {
    var gaps := GapsIn(times, startMS, endMS, maxEnd, tf);
    if gaps == [] {
      forall t ensures !Unstored(times, startMS, endMS, maxEnd, tf, t) {
        GapsInExact(times, startMS, endMS, maxEnd, tf, t);
      }
    } else {
      GapsInApart(times, startMS, endMS, maxEnd, tf);
      assert Within(gaps[0].start, gaps[0]);
      GapsInExact(times, startMS, endMS, maxEnd, tf, gaps[0].start);
    }
  }

  /** Spans that are not empty and do not touch: each is a longest stretch of what they cover. */
  ghost predicate Apart(ss: seq<Span>) {
    && (forall i, j :: 0 <= i < j < |ss| ==> ss[i].stop < ss[j].start)
    && (forall i :: 0 <= i < |ss| ==> ss[i].start < ss[i].stop)
  }

  lemma ApartConcat(a: seq<Span>, b: seq<Span>, mid: int)
    requires Apart(a) && Apart(b)
    requires (forall i :: 0 <= i < |a| ==> a[i].stop <= mid) && forall i :: 0 <= i < |b| ==> mid < b[i].start
    ensures Apart(a + b)
  {
  }

  lemma OneApart(start: int, stop: int)
    ensures Apart([])
    ensures start < stop ==> Apart([Span(start, stop)])
  {
  }

  lemma {:induction false} GapsApart(times: seq<int>, i: nat, tf: int)
    requires 0 < i <= |times| && tf > 0 && Increasing(times)
    ensures Apart(Gaps(times, i, tf))
    decreases |times| - i
  {
    if i < |times| {
      GapsApart(times, i + 1, tf);
      GapsBounds(times, i + 1, tf);
      if times[i] - times[i - 1] > tf {
        ApartConcat([Span(times[i - 1] + tf, times[i])], Gaps(times, i + 1, tf), times[i]);
      }
    }
  }

  /** The gaps are the longest stretches of the reported times. */
  lemma GapsInApart(times: seq<int>, startMS: int, endMS: int, maxEnd: int, tf: int)
    requires tf > 0 && Increasing(times) && startMS < endMS
    requires forall i :: 0 <= i < |times| ==> startMS <= times[i] < endMS
    ensures Apart(GapsIn(times, startMS, endMS, maxEnd, tf))
  {
    hide Apart, Ordered, Gaps;
    if times == [] {
      OneApart(startMS, endMS);
    } else {
      var head := if times[0] > startMS then [Span(startMS, times[0])] else [];
      var last := times[|times| - 1];
      OneApart(startMS, times[0]);
      OneApart(last + tf, Min(endMS, maxEnd));
      GapsBounds(times, 1, tf);
      GapsApart(times, 1, tf);
      ApartConcat(head, Gaps(times, 1, tf), times[0]);
      ApartConcat(head + Gaps(times, 1, tf), TailGap(last, endMS, maxEnd, tf), last);
    }
  }

  lemma GapsInOrdered(times: seq<int>, startMS: int, endMS: int, maxEnd: int, tf: int)
    requires tf > 0 && Increasing(times)
    requires forall i :: 0 <= i < |times| ==> startMS <= times[i] < endMS
    ensures Ordered(GapsIn(times, startMS, endMS, maxEnd, tf))
  {
    if times != [] {
      GapsBounds(times, 1, tf);
      var head := if times[0] > startMS then [Span(startMS, times[0])] else [];
      OrderedConcat(head, Gaps(times, 1, tf), times[0]);
      OrderedConcat(head + Gaps(times, 1, tf), TailGap(times[|times| - 1], endMS, maxEnd, tf), times[|times| - 1]);
    }
  }

  // ---------------------------------------------------------------- set difference in place

  /**
   * The holes from index `i` with the rest periods from index `si` cut out. A hole that outlives a rest
   * period is looked at again with its start moved to the end of that period.
   */
  function Subtract(holes: seq<Span>, i: nat, rest: seq<Span>, si: nat): seq<Span>
    decreases |holes| - i + |rest| - si, i < |holes| && si < |rest| && rest[si].stop > holes[i].start
  {
    if i >= |holes| then []
    else if si >= |rest| then holes[i..]
    else
      var h, s := holes[i], rest[si];
      if s.stop <= h.start then Subtract(holes, i, rest, si + 1)
      else
        (if s.start > h.start then [Span(h.start, Min(h.stop, s.start))] else [])
        + if h.stop > s.stop then Subtract(holes[i := Span(s.stop, h.stop)], i, rest, si)
          else Subtract(holes, i + 1, rest, si)
  }

  /** One turn of the loop, on a hole that starts before the current rest period stops. */
  lemma SubtractStep(holes: seq<Span>, i: nat, rest: seq<Span>, si: nat, kept: seq<Span>)
    requires i < |holes| && si < |rest| && rest[si].stop > holes[i].start
    ensures var h, s := holes[i], rest[si];
      var later := if h.stop > s.stop then Subtract(holes[i := Span(s.stop, h.stop)], i, rest, si)
                   else Subtract(holes, i + 1, rest, si);
      kept + Subtract(holes, i, rest, si) ==
        (if s.start > h.start then kept + [Span(h.start, Min(h.stop, s.start))] else kept) + later
  {
    var h, s := holes[i], rest[si];
    var later := if h.stop > s.stop then Subtract(holes[i := Span(s.stop, h.stop)], i, rest, si)
                 else Subtract(holes, i + 1, rest, si);
    ConcatAssoc(kept, [Span(h.start, Min(h.stop, s.start))], later);
    assert [] + later == later;
  }

  /** Goes on to the first rest period that stops after the hole has started. */
  method SkipRest(ghost cells: seq<Span>, ghost hi: nat, rest: seq<Span>, start: nat, h: Span) returns (si: nat)
    requires hi < |cells| && cells[hi] == h && start <= |rest|
    ensures start <= si <= |rest| && (si < |rest| ==> rest[si].stop > h.start)
    ensures Subtract(cells, hi, rest, si) == Subtract(cells, hi, rest, start)
  {
    si := start;
    while si < |rest| && rest[si].stop <= h.start
      invariant start <= si <= |rest|
      invariant Subtract(cells, hi, rest, si) == Subtract(cells, hi, rest, start)
    {
      si := si + 1;
    }
  }

  method SubtractInPlace(holes: array<Span>, rest: seq<Span>) returns (kept: seq<Span>)
    modifies holes
    ensures kept == Subtract(old(holes[..]), 0, rest, 0)
  {
    hide Subtract;
    kept := [];
    ghost var all := Subtract(holes[..], 0, rest, 0);
    var si, hi := 0, -1;
    while hi + 1 < holes.Length
      invariant -1 <= hi < holes.Length
      invariant 0 <= si <= |rest|
      invariant kept + Subtract(holes[..], hi + 1, rest, si) == all
      decreases holes.Length - hi, if hi + 1 < holes.Length then holes[hi + 1].stop - holes[hi + 1].start else 0
    {
      hi := hi + 1;
      var h := holes[hi];
      ghost var cells := holes[..];
      si := SkipRest(cells, hi, rest, si, h);
      if si >= |rest| {
        SubtractEnds(cells, hi, rest, si);
        kept := kept + holes[hi..];
        return;
      }
      var s := rest[si];
      SubtractStep(cells, hi, rest, si, kept);
      if s.start > h.start {
        kept := kept + [Span(h.start, Min(h.stop, s.start))];
      }
      if h.stop > s.stop {
        holes[hi] := Span(s.stop, h.stop);
        assert holes[..] == cells[hi := Span(s.stop, h.stop)];
        hi := hi - 1;
      }
    }
    SubtractEnds(holes[..], hi + 1, rest, si);
  }

  /** Without holes nothing is left, and without rest periods all of them. */
  lemma SubtractEnds(holes: seq<Span>, i: nat, rest: seq<Span>, si: nat)
    requires i <= |holes|
    ensures i == |holes| ==> Subtract(holes, i, rest, si) == []
    ensures si >= |rest| ==> Subtract(holes, i, rest, si) == holes[i..]
  {
  }

  lemma CoversFromNext(ss: seq<Span>, i: nat, t: int)
    requires i < |ss|
    ensures CoversFrom(ss, i, t) <==> Within(t, ss[i]) || CoversFrom(ss, i + 1, t)
  {
  }

  lemma CoversFromReplaced(ss: seq<Span>, i: nat, h: Span, t: int)
    requires i < |ss|
    ensures CoversFrom(ss[i := h], i, t) <==> Within(t, h) || CoversFrom(ss, i + 1, t)
  {
    if Within(t, h) {
      assert Within(t, ss[i := h][i]);
    }
    if CoversFrom(ss, i + 1, t) {
      var k :| i + 1 <= k < |ss| && Within(t, ss[k]);
      assert Within(t, ss[i := h][k]);
    }
  }

  lemma CoversSuffix(ss: seq<Span>, i: nat, t: int)
    requires i <= |ss|
    ensures Covers(ss[i..], t) <==> CoversFrom(ss, i, t)
  {
    if CoversFrom(ss, i, t) {
      var k :| i <= k < |ss| && Within(t, ss[k]);
      assert Within(t, ss[i..][k - i]);
    }
  }

  /** The loop computes exact set difference, point by point. */
  lemma {:induction false} SubtractExact(holes: seq<Span>, i: nat, rest: seq<Span>, si: nat, t: int)
    requires Ordered(holes) && ByStart(rest)
    ensures Covers(Subtract(holes, i, rest, si), t) <==> CoversFrom(holes, i, t) && !CoversFrom(rest, si, t)
    decreases |holes| - i + |rest| - si, i < |holes| && si < |rest| && rest[si].stop > holes[i].start
  {
    if i >= |holes| {
    } else if si >= |rest| {
      CoversSuffix(holes, i, t);
    } else {
      CoversFromNext(holes, i, t);
      CoversFromNext(rest, si, t);
      var h, s := holes[i], rest[si];
      if s.stop <= h.start {
        SubtractExact(holes, i, rest, si + 1, t);
        return;
      }
      var left := if s.start > h.start then [Span(h.start, Min(h.stop, s.start))] else [];
      var cut := Span(s.stop, h.stop);
      if h.stop > s.stop {
        SubtractExact(holes[i := cut], i, rest, si, t);
        CoversFromReplaced(holes, i, cut, t);
        CoversConcat(left, Subtract(holes[i := cut], i, rest, si), t);
      } else {
        SubtractExact(holes, i + 1, rest, si, t);
        CoversConcat(left, Subtract(holes, i + 1, rest, si), t);
      }
      assert Covers(left, t) <==> left != [] && Within(t, left[0]);
    }
  }

  lemma OneOrdered(start: int, stop: int)
    ensures Ordered([]) && Ordered([Span(start, stop)])
  {
  }

  /** The holes from one on are in order, and behind it. */
  lemma HolesInOrder(holes: seq<Span>, i: nat)
    requires Ordered(holes)
    ensures i < |holes| ==> Ordered(holes[i..])
    ensures forall k :: i < k < |holes| ==> holes[i].start <= holes[k].start && holes[i].stop <= holes[k].start
  {
  }

  lemma RestStays(holes: seq<Span>, i: nat, start: int)
    requires Ordered(holes) && i < |holes| && holes[i].start <= start < holes[i].stop
    ensures Ordered(holes[i := Span(start, holes[i].stop)])
  {
  }

  /** The pieces stay in order and none of them starts before the holes they come from. */
  lemma {:induction false} SubtractOrdered(holes: seq<Span>, i: nat, rest: seq<Span>, si: nat)
    requires Ordered(holes) && ByStart(rest)
    ensures Ordered(Subtract(holes, i, rest, si))
    ensures i < |holes| ==>
      forall k :: 0 <= k < |Subtract(holes, i, rest, si)| ==> holes[i].start <= Subtract(holes, i, rest, si)[k].start
    decreases |holes| - i + |rest| - si, i < |holes| && si < |rest| && rest[si].stop > holes[i].start
  {
    hide Ordered;
    HolesInOrder(holes, i);
    if i >= |holes| {
      OneOrdered(0, 0);
    } else if si < |rest| {
      var h, s := holes[i], rest[si];
      var left := if s.start > h.start then [Span(h.start, Min(h.stop, s.start))] else [];
      OneOrdered(h.start, Min(h.stop, s.start));
      if s.stop <= h.start {
        SubtractOrdered(holes, i, rest, si + 1);
      } else if h.stop > s.stop {
        RestStays(holes, i, s.stop);
        SubtractOrdered(holes[i := Span(s.stop, h.stop)], i, rest, si);
        OrderedConcat(left, Subtract(holes[i := Span(s.stop, h.stop)], i, rest, si), s.stop);
      } else {
        SubtractOrdered(holes, i + 1, rest, si);
        if i + 1 == |holes| {
          assert left + [] == left;
        } else {
          OrderedConcat(left, Subtract(holes, i + 1, rest, si), Max(h.start, h.stop));
        }
      }
    }
  }

  // ---------------------------------------------------------------- trading sessions

  /** Daily sessions in order, with the last one over before the first one of the next day. */
  ghost predicate DailySessions(times: seq<Span>) {
    && times != []
    && Ordered(times)
    && (forall j :: 0 <= j < |times| ==> 0 <= times[j].start <= times[j].stop)
    && times[0].start < DAY
    && times[|times| - 1].stop <= DAY + times[0].start
  }

  ghost predicate DayStarts(days: seq<int>) {
    && days != []
    && (forall i :: 0 <= i < |days| ==> days[i] > 0)
    && (forall i, j :: 0 <= i < j < |days| ==> days[i] + DAY <= days[j])
  }

  predicate InSession(day: int, s: Span, t: int) {
    day + s.start <= t < day + s.stop
  }

  /** `t` is in a session of the day. */
  ghost predicate OpenOn(day: int, times: seq<Span>, t: int) {
    exists j :: 0 <= j < |times| && InSession(day, times[j], t)
  }

  /** `t` is in a session of a listed day, from session `j` of day `i` on. */
  ghost predicate OpenFrom(days: seq<int>, times: seq<Span>, i: nat, j: nat, t: int) {
    exists a, b :: i <= a < |days| && 0 <= b < |times| && (a > i || b >= j) && InSession(days[a], times[b], t)
  }

  /** The pauses before session `j` of day `i` and all later ones; a last stop of zero means there was none. */
  function Pauses(days: seq<int>, times: seq<Span>, i: nat, j: nat, lastStop: int): seq<Span>
    decreases |days| - i, |times| - j
  {
    if i >= |days| then []
    else if j >= |times| then Pauses(days, times, i + 1, 0, lastStop)
    else
      (if lastStop > 0 then [Span(lastStop, days[i] + times[j].start)] else [])
      + Pauses(days, times, i, j + 1, days[i] + times[j].stop)
  }

  function RestOf(days: seq<int>, times: seq<Span>, stop: int): seq<Span>
    requires days != [] && times != []
  {
    var validStop := days[|days| - 1] + times[|times| - 1].stop;
    Pauses(days, times, 0, 0, if times[0].start > 0 then days[0] else 0)
    + if validStop < stop then [Span(validStop, stop)] else []
  }

  /** One turn of the inner loop. */
  lemma PausesStep(days: seq<int>, times: seq<Span>, i: nat, j: nat, lastStop: int, res: seq<Span>)
    requires i < |days| && j < |times|
    ensures var later := Pauses(days, times, i, j + 1, days[i] + times[j].stop);
      res + Pauses(days, times, i, j, lastStop) ==
        (if lastStop > 0 then res + [Span(lastStop, days[i] + times[j].start)] else res) + later
  {
    var later := Pauses(days, times, i, j + 1, days[i] + times[j].stop);
    ConcatAssoc(res, [Span(lastStop, days[i] + times[j].start)], later);
    assert [] + later == later;
  }

  /** The pauses before the sessions of one day. */
  method PausesOfDay(days: seq<int>, times: seq<Span>, i: nat, before: int, found: seq<Span>)
      returns (res: seq<Span>, lastStop: int)
    requires i < |days|
    ensures res + Pauses(days, times, i + 1, 0, lastStop) == found + Pauses(days, times, i, 0, before)
  {
    ghost var all := found + Pauses(days, times, i, 0, before);
    res, lastStop := found, before;
    var j := 0;
    while j < |times|
      invariant 0 <= j <= |times|
      invariant res + Pauses(days, times, i, j, lastStop) == all
    {
      PausesStep(days, times, i, j, lastStop, res);
      if lastStop > 0 {
        res := res + [Span(lastStop, days[i] + times[j].start)];
      }
      lastStop := days[i] + times[j].stop;
      j := j + 1;
    }
  }

  /** All non-trading periods of the listed days. */
  method RestPeriods(days: seq<int>, times: seq<Span>, stop: int) returns (res: seq<Span>)
    requires days != [] && times != []
    ensures res == RestOf(days, times, stop)
  {
    res := [];
    var lastStop := 0;
    if times[0].start > 0 {
      lastStop := days[0];
    }
    ghost var all := Pauses(days, times, 0, 0, lastStop);
    var i := 0;
    while i < |days|
      invariant 0 <= i <= |days|
      invariant res + Pauses(days, times, i, 0, lastStop) == all
    {
      res, lastStop := PausesOfDay(days, times, i, lastStop, res);
      i := i + 1;
    }
    assert res == all;
    var validStop := days[|days| - 1] + times[|times| - 1].stop;
    if validStop < stop {
      res := res + [Span(validStop, stop)];
    }
  }

  /** Sessions of the listed days come one after another. */
  lemma SessionsFollow(days: seq<int>, times: seq<Span>, i: nat, j: nat, a: nat, b: nat)
    requires DayStarts(days) && DailySessions(times)
    requires i <= a < |days| && j < |times| && b < |times| && (a > i || b > j)
    ensures days[i] + times[j].start <= days[i] + times[j].stop <= days[a] + times[b].start <= days[a] + times[b].stop
  {
    if a > i {
      assert times[j].stop <= times[|times| - 1].stop;
      assert times[0].start <= times[b].start;
    }
  }

  /** The session that comes next starts no earlier than `lastStop`. */
  ghost predicate NextAfter(days: seq<int>, times: seq<Span>, i: nat, j: nat, lastStop: int)
    requires times != []
  {
    && j <= |times|
    && (i < |days| && j < |times| ==> lastStop <= days[i] + times[j].start)
    && (i + 1 < |days| && j == |times| ==> lastStop <= days[i + 1] + times[0].start)
  }

  lemma NextAfterSession(days: seq<int>, times: seq<Span>, i: nat, j: nat)
    requires DayStarts(days) && DailySessions(times) && i < |days| && j < |times|
    ensures NextAfter(days, times, i, j + 1, days[i] + times[j].stop)
    ensures days[i] + times[j].start <= days[i] + times[j].stop <= days[|days| - 1] + times[|times| - 1].stop
    ensures 0 < days[i] + times[j].stop
  {
    if j + 1 < |times| {
      SessionsFollow(days, times, i, j, i, j + 1);
    } else if i + 1 < |days| {
      SessionsFollow(days, times, i, j, i + 1, 0);
    }
    if i < |days| - 1 || j < |times| - 1 {
      SessionsFollow(days, times, i, j, |days| - 1, |times| - 1);
    }
  }

  /** Starts never decrease, no span is inverted, and all lie between two times. */
  ghost predicate Rising(ss: seq<Span>, lo: int, hi: int) {
    ByStart(ss) && forall k :: 0 <= k < |ss| ==> lo <= ss[k].start && ss[k].stop <= hi
  }

  lemma RisingCons(lo: int, s: Span, ss: seq<Span>, hi: int)
    requires lo <= s.start <= s.stop <= hi && Rising(ss, s.stop, hi)
    ensures Rising([s] + ss, lo, hi)
  {
  }

  lemma NoneRising(lo: int, hi: int)
    ensures Rising([], lo, hi)
  {
  }

  lemma {:induction false} PausesRising(days: seq<int>, times: seq<Span>, i: nat, j: nat, lastStop: int)
    requires DayStarts(days) && DailySessions(times) && NextAfter(days, times, i, j, lastStop)
    ensures Rising(Pauses(days, times, i, j, lastStop), lastStop, days[|days| - 1] + times[|times| - 1].stop)
    decreases |days| - i, |times| - j
  {
    hide Rising;
    if i >= |days| {
      NoneRising(lastStop, days[|days| - 1] + times[|times| - 1].stop);
    } else if j == |times| {
      PausesRising(days, times, i + 1, 0, lastStop);
    } else {
      NextAfterSession(days, times, i, j);
      PausesRising(days, times, i, j + 1, days[i] + times[j].stop);
      PausesRisingHere(days, times, i, j, lastStop, days[|days| - 1] + times[|times| - 1].stop);
    }
  }

  lemma PausesRisingHere(days: seq<int>, times: seq<Span>, i: nat, j: nat, lastStop: int, hi: int)
    requires i < |days| && j < |times| && lastStop <= days[i] + times[j].start <= days[i] + times[j].stop <= hi
    requires Rising(Pauses(days, times, i, j + 1, days[i] + times[j].stop), days[i] + times[j].stop, hi)
    ensures Rising(Pauses(days, times, i, j, lastStop), lastStop, hi)
  {
    var later := Pauses(days, times, i, j + 1, days[i] + times[j].stop);
    if lastStop > 0 {
      assert Rising(later, days[i] + times[j].start, hi);
      RisingCons(lastStop, Span(lastStop, days[i] + times[j].start), later, hi);
    } else {
      assert [] + later == later;
    }
  }

  /** From the last stop on, a time is in a pause exactly when it is in no session and a session is still to end. */
  lemma {:induction false} PausesExact(days: seq<int>, times: seq<Span>, i: nat, j: nat, lastStop: int, t: int)
    requires DayStarts(days) && DailySessions(times) && i < |days| && NextAfter(days, times, i, j, lastStop)
    requires j == |times| ==> lastStop == days[i] + times[j - 1].stop
    requires if lastStop > 0 then lastStop <= t else j < |times| && days[i] + times[j].start <= t
    ensures Covers(Pauses(days, times, i, j, lastStop), t) <==>
      t < days[|days| - 1] + times[|times| - 1].stop && !OpenFrom(days, times, i, j, t)
    decreases |days| - i, |times| - j
  {
    hide OpenFrom, Covers, Pauses;
    if j < |times| {
      NextAfterSession(days, times, i, j);
      PausesExactHere(days, times, i, j, lastStop, t);
      if t >= days[i] + times[j].stop {
        PausesExact(days, times, i, j + 1, days[i] + times[j].stop, t);
      } else {
        NothingBefore(days, times, i, j, days[i] + times[j].stop, t);
      }
    } else {
      DayOver(days, times, i, lastStop, t);
      if i + 1 < |days| {
        PausesExact(days, times, i + 1, 0, lastStop, t);
      }
    }
  }

  /** Behind the last session of a day come those of the next one, if there is one. */
  lemma DayOver(days: seq<int>, times: seq<Span>, i: nat, lastStop: int, t: int)
    requires i < |days|
    ensures Pauses(days, times, i, |times|, lastStop) == Pauses(days, times, i + 1, 0, lastStop)
    ensures OpenFrom(days, times, i, |times|, t) <==> OpenFrom(days, times, i + 1, 0, t)
    ensures i + 1 == |days| ==>
      !Covers(Pauses(days, times, i, |times|, lastStop), t) && !OpenFrom(days, times, i, |times|, t)
  {
  }

  /** The first pause and the first session on their own. */
  lemma PausesExactHere(days: seq<int>, times: seq<Span>, i: nat, j: nat, lastStop: int, t: int)
    requires i < |days| && j < |times|
    requires if lastStop > 0 then lastStop <= t else days[i] + times[j].start <= t
    ensures Covers(Pauses(days, times, i, j, lastStop), t) <==>
      t < days[i] + times[j].start || Covers(Pauses(days, times, i, j + 1, days[i] + times[j].stop), t)
    ensures OpenFrom(days, times, i, j, t) <==> InSession(days[i], times[j], t) || OpenFrom(days, times, i, j + 1, t)
  {
    var head := if lastStop > 0 then [Span(lastStop, days[i] + times[j].start)] else [];
    CoversConcat(head, Pauses(days, times, i, j + 1, days[i] + times[j].stop), t);
    assert Covers(head, t) <==> head != [] && Within(t, head[0]);
  }

  lemma NotOpenYet(days: seq<int>, times: seq<Span>, i: nat, j: nat, t: int)
    requires DayStarts(days) && DailySessions(times) && i < |days| && j < |times|
    requires t < days[i] + times[j].stop
    ensures !OpenFrom(days, times, i, j + 1, t)
  {
    forall a, b | i <= a < |days| && 0 <= b < |times| && (a > i || b >= j + 1)
      ensures !InSession(days[a], times[b], t)
    {
      SessionsFollow(days, times, i, j, a, b);
    }
  }

  lemma RisingFrom(ss: seq<Span>, lo: int, hi: int, t: int)
    requires Rising(ss, lo, hi) && t < lo
    ensures !Covers(ss, t)
  {
  }

  lemma NotCoveredYet(days: seq<int>, times: seq<Span>, i: nat, j: nat, stop: int, hi: int, t: int)
    requires Rising(Pauses(days, times, i, j + 1, stop), stop, hi) && t < stop
    ensures !Covers(Pauses(days, times, i, j + 1, stop), t)
  {
    RisingFrom(Pauses(days, times, i, j + 1, stop), stop, hi, t);
  }

  /** Before a session ends, no later session is open and no later pause has begun. */
  lemma NothingBefore(days: seq<int>, times: seq<Span>, i: nat, j: nat, stop: int, t: int)
    requires DayStarts(days) && DailySessions(times) && i < |days| && j < |times|
    requires stop == days[i] + times[j].stop && t < stop
    ensures !OpenFrom(days, times, i, j + 1, t)
    ensures !Covers(Pauses(days, times, i, j + 1, stop), t)
  {
    NotOpenYet(days, times, i, j, t);
    NextAfterSession(days, times, i, j);
    PausesRising(days, times, i, j + 1, stop);
    NotCoveredYet(days, times, i, j, stop, days[|days| - 1] + times[|times| - 1].stop, t);
  }

  /** From the first listed day on, a time before `stop` is at rest exactly when no listed session holds it. */
  lemma RestExact(days: seq<int>, times: seq<Span>, stop: int, t: int)
    requires DayStarts(days) && DailySessions(times) && days[0] <= t < stop
    ensures Covers(RestOf(days, times, stop), t) <==> !OpenFrom(days, times, 0, 0, t)
  {
    var lastStop := if times[0].start > 0 then days[0] else 0;
    var validStop := days[|days| - 1] + times[|times| - 1].stop;
    var tail := if validStop < stop then [Span(validStop, stop)] else [];
    PausesExact(days, times, 0, 0, lastStop, t);
    CoversConcat(Pauses(days, times, 0, 0, lastStop), tail, t);
    assert Covers(tail, t) <==> tail != [] && Within(t, tail[0]);
    forall a, b | 0 <= a < |days| && 0 <= b < |times| && InSession(days[a], times[b], t)
      ensures t < validStop
    {
      NextAfterSession(days, times, a, b);
    }
  }

  lemma RestByStart(days: seq<int>, times: seq<Span>, stop: int)
    requires DayStarts(days) && DailySessions(times)
    ensures ByStart(RestOf(days, times, stop))
  {
    var lastStop := if times[0].start > 0 then days[0] else 0;
    PausesRising(days, times, 0, 0, lastStop);
  }

  /** Every day that starts before `stop`, from `cur` on. */
  function DaysFrom(cur: int, stop: int): seq<int>
    decreases stop - cur
  {
    if cur < stop then [cur] + DaysFrom(cur + DAY, stop) else []
  }

  method ListDays(start: int, stop: int) returns (days: seq<int>)
    ensures days == DaysFrom(AlignDown(start, DAY), stop)
  {
    days := [];
    var curTime := AlignDown(start, DAY);
    while curTime < stop
      invariant days + DaysFrom(curTime, stop) == DaysFrom(AlignDown(start, DAY), stop)
      decreases stop - curTime
    {
      var curEnd := curTime + DAY;
      days := days + [curTime];
      curTime := curEnd;
    }
  }

  lemma {:induction false} DaysFromAll(cur: int, stop: int)
    requires cur % DAY == 0 && cur > 0 && cur < stop
    ensures DayStarts(DaysFrom(cur, stop)) && DaysFrom(cur, stop)[0] == cur
    ensures forall d :: d in DaysFrom(cur, stop) <==> d % DAY == 0 && cur <= d < stop
    decreases stop - cur
  {
    var tail := DaysFrom(cur + DAY, stop);
    if cur + DAY < stop {
      DaysFromAll(cur + DAY, stop);
      forall d ensures d in DaysFrom(cur, stop) <==> d % DAY == 0 && cur <= d < stop {
        assert d in DaysFrom(cur, stop) <==> d == cur || d in tail;
      }
    } else {
      assert tail == [];
      assert DaysFrom(cur, stop) == [cur];
    }
  }

  /** `t` is in a trading session of some calendar day. */
  ghost predicate Trading(times: seq<Span>, t: int) {
    exists d :: d % DAY == 0 && OpenOn(d, times, t)
  }

  lemma OpenOnRange(d: int, times: seq<Span>, t: int)
    requires DailySessions(times) && OpenOn(d, times, t)
    ensures d + times[0].start <= t < d + times[|times| - 1].stop
  {
  }

  lemma OpenFromAny(days: seq<int>, times: seq<Span>, t: int)
    ensures OpenFrom(days, times, 0, 0, t) <==> exists d :: d in days && OpenOn(d, times, t)
  {
    if OpenFrom(days, times, 0, 0, t) {
      var a, b :| 0 <= a < |days| && 0 <= b < |times| && (a > 0 || b >= 0) && InSession(days[a], times[b], t);
      assert days[a] in days && OpenOn(days[a], times, t);
    }
    if d :| d in days && OpenOn(d, times, t) {
      var a :| 0 <= a < |days| && days[a] == d;
      var b :| 0 <= b < |times| && InSession(d, times[b], t);
      assert InSession(days[a], times[b], t);
    }
  }

  /**
   * The rest periods of the range agree with the sessions of the whole calendar everywhere except in the
   * part of the first listed day that an overnight session of the day before reaches into: that day is
   * not listed, so its session is taken for rest.
   */
  lemma RestIsNonTrading(start: int, stop: int, times: seq<Span>, t: int)
    requires DailySessions(times) && DAY <= start <= t < stop
    ensures var first := AlignDown(start, DAY);
      && DaysFrom(first, stop) != []
      && (Covers(RestOf(DaysFrom(first, stop), times, stop), t) <==>
            !Trading(times, t) || OpenOn(first - DAY, times, t))
  {
    var first := AlignDown(start, DAY);
    var days := DaysFrom(first, stop);
    DaysFromAll(first, stop);
    RestExact(days, times, stop, t);
    OpenFromAny(days, times, t);
    assert (first - DAY) % DAY == 0 by { ShiftMultiple(first, -1, DAY); }
    forall d | d % DAY == 0 && OpenOn(d, times, t)
      ensures d in days || d == first - DAY
    {
      OpenOnRange(d, times, t);
      if d < first && d != first - DAY {
        TwoDaysEarlier(d, first);
      }
    }
    if OpenOn(first - DAY, times, t) {
      OpenOnRange(first - DAY, times, t);
      forall d | d in days
        ensures !OpenOn(d, times, t)
      {
        if OpenOn(d, times, t) {
          OpenOnRange(d, times, t);
        }
      }
    }
  }

  lemma TwoDaysEarlier(d: int, first: int)
    requires d % DAY == 0 && first % DAY == 0 && d < first && d != first - DAY
    ensures d <= first - 2 * DAY
  {
    if d > first - 2 * DAY {
      ShiftMultiple(first, -1, DAY);
      SameMultiple(d, first - DAY, DAY);
    }
  }

  /** Sessions that end by midnight: the rest periods are exactly the non-trading times. */
  lemma RestIsNonTradingByDay(start: int, stop: int, times: seq<Span>, t: int)
    requires DailySessions(times) && DAY <= start <= t < stop && times[|times| - 1].stop <= DAY
    ensures var days := DaysFrom(AlignDown(start, DAY), stop);
      days != [] && (Covers(RestOf(days, times, stop), t) <==> !Trading(times, t))
  {
    RestIsNonTrading(start, stop, times, t);
    var eve := AlignDown(start, DAY) - DAY;
    if OpenOn(eve, times, t) {
      OpenOnRange(eve, times, t);
    }
  }

  /** A session from 21:00 to 26:00: 01:00 of the first listed day trades, and is reported as rest. */
  lemma OvernightHeadIsMissed()
    ensures var times := [Span(21 * 3600000, 26 * 3600000)];
      var start, stop := 10 * DAY, 11 * DAY;
      var t := start + 3600000;
      && DailySessions(times) && Trading(times, t)
      && DaysFrom(AlignDown(start, DAY), stop) != []
      && Covers(RestOf(DaysFrom(AlignDown(start, DAY), stop), times, stop), t)
  {
    var times := [Span(21 * 3600000, 26 * 3600000)];
    var start, stop := 10 * DAY, 11 * DAY;
    var t := start + 3600000;
    assert AlignDown(start, DAY) == start;
    assert InSession(start - DAY, times[0], t);
    assert (start - DAY) % DAY == 0;
    assert OpenOn(start - DAY, times, t);
    RestIsNonTrading(start, stop, times, t);
  }

  // ---------------------------------------------------------------- the whole scan

  /** What the scan needs to know of the exchange and the market. */
  datatype Venue = Venue(alwaysOpen: bool, tradeTimes: seq<Span>, min1mHole: int)

  /** The session list in use: markets without one trade around the clock. */
  function TimesOf(v: Venue): seq<Span> {
    if |v.tradeTimes| == 0 then [Span(0, DAY)] else v.tradeTimes
  }

  /** The pauses of the range, none for a venue that is always open. */
  function RestFor(v: Venue, start: int, stop: int): seq<Span>
    requires start < stop
  {
    if v.alwaysOpen then [] else RestOf(DaysFrom(AlignDown(start, DAY), stop), TimesOf(v), stop)
  }

  /** Non-trading periods of the range, without the trading calendar. */
  method SessionHoles(v: Venue, start: int, stop: int) returns (res: seq<Span>)
    requires DAY <= start < stop && DailySessions(TimesOf(v))
    ensures res == RestFor(v, start, stop)
  {
    if v.alwaysOpen {
      return [];
    }
    var days := ListDays(start, stop);
    var times := v.tradeTimes;
    if |times| == 0 {
      times := [Span(0, DAY)];
    }
    res := RestPeriods(days, times, stop);
  }

  /** `t` is open for trading as far as the scan can tell. */
  ghost predicate Tradable(v: Venue, startMS: int, t: int)
  {
    v.alwaysOpen
    || (Trading(TimesOf(v), t) && !OpenOn(AlignDown(startMS, DAY) - DAY, TimesOf(v), t))
  }

  /**
   * A market without listed sessions trades at every time; one with sessions trades in them, except that the scan takes
   * a session that began on the day before the range for a pause.
   */
  lemma TradableExactly(v: Venue, startMS: int, t: int)
    requires startMS <= t
    ensures v.alwaysOpen || v.tradeTimes == [] ==> Tradable(v, startMS, t)
    ensures !v.alwaysOpen && v.tradeTimes != [] ==>
      var listed := exists d, j :: d % DAY == 0 && 0 <= j < |v.tradeTimes| && InSession(d, v.tradeTimes[j], t);
      var before := AlignDown(startMS, DAY) - DAY;
      Tradable(v, startMS, t) <==>
        listed && forall j :: 0 <= j < |v.tradeTimes| ==> !InSession(before, v.tradeTimes[j], t)
  {
    if v.tradeTimes == [] {
      var day := AlignDown(t, DAY);
      assert InSession(day, TimesOf(v)[0], t);
      assert OpenOn(day, TimesOf(v), t);
    } else if d, j :| d % DAY == 0 && 0 <= j < |v.tradeTimes| && InSession(d, v.tradeTimes[j], t) {
      assert OpenOn(d, TimesOf(v), t);
    }
  }

  /** Wide enough to be worth recording. */
  predicate Wide(s: Span, tf: int, min1mHole: int)
    requires tf > 0
  {
    tf == MINUTE ==> (s.stop - s.start) / tf > min1mHole
  }

  /** A hole of a minute series is kept if the bar after as many missing ones as the limit is missing, too. */
  lemma WideExactly(s: Span, tf: int, min1mHole: int)
    requires tf > 0
    ensures Wide(s, tf, min1mHole) <==> tf != MINUTE || s.start + (min1mHole + 1) * MINUTE <= s.stop
  {
  }

  /** The wide ones of the holes, in order, and for other than minute bars all of them. */
  ghost predicate WideOnes(kept: seq<Span>, holes: seq<Span>, tf: int, min1mHole: int)
    requires tf > 0
  {
    && Ordered(kept)
    && (forall s :: s in kept <==> s in holes && Wide(s, tf, min1mHole))
    && (tf != MINUTE ==> kept == holes)
  }

  /** Drops the holes of a minute series that are not wider than the limit of the exchange. */
  method DropSmall(holes: seq<Span>, tf: int, min1mHole: int) returns (kept: seq<Span>)
    requires tf > 0 && Ordered(holes)
    ensures WideOnes(kept, holes, tf, min1mHole)
  {
    if tf != MINUTE {
      return holes;
    }
    kept := [];
    var i := 0;
    while i < |holes|
      invariant 0 <= i <= |holes|
      invariant forall s :: s in kept <==> s in holes[..i] && Wide(s, tf, min1mHole)
      invariant Ordered(kept)
    {
      var h := holes[i];
      var num := (h.stop - h.start) / tf;
      assert forall s :: s in holes[..i + 1] <==> s in holes[..i] || s == h;
      if num > min1mHole {
        forall k | 0 <= k < |kept| ensures kept[k].start <= h.start && kept[k].stop <= h.start {
          assert kept[k] in kept;
        }
        kept := kept + [h];
      }
      i := i + 1;
    }
    assert holes[..i] == holes;
  }

  /** The gaps without the pauses. */
  function ExactHoles(times: seq<int>, startMS: int, endMS: int, maxEnd: int, tf: int, v: Venue): seq<Span>
    requires startMS < endMS
  {
    var gaps, rest := GapsIn(times, startMS, endMS, maxEnd, tf), RestFor(v, startMS, endMS);
    if gaps != [] && rest != [] then Subtract(gaps, 0, rest, 0) else gaps
  }

  /** The gaps between the stored bars, without the pauses; `gap` tells whether there was any gap. */
  method TradingHoles(times: seq<int>, startMS: int, endMS: int, maxEnd: int, tf: int, v: Venue)
      returns (holes: seq<Span>, gap: bool)
    requires tf > 0 && DAY <= startMS < endMS && DailySessions(TimesOf(v))
    ensures holes == ExactHoles(times, startMS, endMS, maxEnd, tf, v)
    ensures gap <==> GapsIn(times, startMS, endMS, maxEnd, tf) != []
  {
    holes := FindGaps(times, startMS, endMS, maxEnd, tf);
    gap := |holes| > 0;
    if gap {
      var susp := SessionHoles(v, startMS, endMS);
      if |susp| > 0 {
        var cells := new Span[|holes|](i requires 0 <= i < |holes| => holes[i]);
        assert cells[..] == holes;
        holes := SubtractInPlace(cells, susp);
      }
    }
  }

  /**
   * The holes that one update of a series records: for minute bars only the wide ones. The last full frame starts at
   * `maxEnd`.
   */
  method DetectHoles(times: seq<int>, startMS: int, endMS: int, maxEnd: int, tf: int, v: Venue)
      returns (holes: seq<Span>, gap: bool)
    requires tf > 0 && Increasing(times) && DAY <= startMS < endMS && DailySessions(TimesOf(v))
    requires forall i :: 0 <= i < |times| ==> startMS <= times[i] < endMS
    ensures WideOnes(holes, ExactHoles(times, startMS, endMS, maxEnd, tf, v), tf, v.min1mHole)
    ensures gap <==> GapsIn(times, startMS, endMS, maxEnd, tf) != []
  {
    holes, gap := TradingHoles(times, startMS, endMS, maxEnd, tf, v);
    ExactOrdered(times, startMS, endMS, maxEnd, tf, v);
    holes := DropSmall(holes, tf, v.min1mHole);
  }

  lemma ExactOrdered(times: seq<int>, startMS: int, endMS: int, maxEnd: int, tf: int, v: Venue)
    requires tf > 0 && Increasing(times) && DAY <= startMS < endMS && DailySessions(TimesOf(v))
    requires forall i :: 0 <= i < |times| ==> startMS <= times[i] < endMS
    ensures Ordered(ExactHoles(times, startMS, endMS, maxEnd, tf, v)) && ByStart(RestFor(v, startMS, endMS))
  {
    GapsInOrdered(times, startMS, endMS, maxEnd, tf);
    RestForByStart(v, startMS, endMS);
    SubtractOrdered(GapsIn(times, startMS, endMS, maxEnd, tf), 0, RestFor(v, startMS, endMS), 0);
  }

  lemma RestForByStart(v: Venue, start: int, stop: int)
    requires DAY <= start < stop && DailySessions(TimesOf(v))
    ensures ByStart(RestFor(v, start, stop))
  {
    if !v.alwaysOpen {
      DaysFromAll(AlignDown(start, DAY), stop);
      RestByStart(DaysFrom(AlignDown(start, DAY), stop), TimesOf(v), stop);
    }
  }

  lemma RestForExact(v: Venue, start: int, stop: int, t: int)
    requires DAY <= start < stop && DailySessions(TimesOf(v)) && start <= t < stop
    ensures Covers(RestFor(v, start, stop), t) <==> !Tradable(v, start, t)
  {
    if !v.alwaysOpen {
      RestIsNonTrading(start, stop, TimesOf(v), t);
    }
  }

  /** A tradable time that the scan reports. */
  ghost predicate MissingTime(times: seq<int>, startMS: int, endMS: int, maxEnd: int, tf: int, v: Venue, t: int) {
    Unstored(times, startMS, endMS, maxEnd, tf, t) && Tradable(v, startMS, t)
  }

  /** The holes without the pauses are exactly these times. */
  lemma MissingExactly(times: seq<int>, startMS: int, endMS: int, maxEnd: int, tf: int, v: Venue, t: int)
    requires tf > 0 && Increasing(times) && DAY <= startMS < endMS && DailySessions(TimesOf(v))
    requires forall i :: 0 <= i < |times| ==> startMS <= times[i] < endMS
    ensures Covers(ExactHoles(times, startMS, endMS, maxEnd, tf, v), t) <==>
      MissingTime(times, startMS, endMS, maxEnd, tf, v, t)
  {
    ExactOrdered(times, startMS, endMS, maxEnd, tf, v);
    GapsInOrdered(times, startMS, endMS, maxEnd, tf);
    GapsInExact(times, startMS, endMS, maxEnd, tf, t);
    if startMS <= t < endMS {
      RestForExact(v, startMS, endMS, t);
    }
    RemainderExact(GapsIn(times, startMS, endMS, maxEnd, tf), RestFor(v, startMS, endMS), t);
  }

  /** What is left of the gaps, whether or not there is any rest period to remove. */
  lemma RemainderExact(gaps: seq<Span>, rest: seq<Span>, t: int)
    requires Ordered(gaps) && ByStart(rest)
    ensures Covers(if gaps != [] && rest != [] then Subtract(gaps, 0, rest, 0) else gaps, t)
       <==> Covers(gaps, t) && !Covers(rest, t)
  {
    if gaps != [] && rest != [] {
      SubtractExact(gaps, 0, rest, 0, t);
    }
  }
}
