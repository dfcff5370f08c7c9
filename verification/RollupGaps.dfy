/** What a coarser table holds when the insertions leave gaps. */
module RollupGaps {
  import opened Basics
  import opened Bars
  import opened Rollup
  import opened RollupRuns

  /** `big` holds exactly the groups of `src` for the buckets of [lo, top), and nothing else. */
  ghost predicate SyncedFrom(src: Table, big: Table, tf: int, lo: int, top: int, mode: InfoBy)
    requires tf > 0
  {
    forall b :: At(big, b) == if lo <= b < top && b % tf == 0 then Group(src, b, b + tf, mode) else None
  }

  /** The buckets that a coarser table has been refreshed for, once it has been. */
  datatype Reach = Reach(lo: int, top: int, begun: bool)

  const NOTHING := Reach(0, 0, false)

  /** An insertion of [s, e) extends the reach if it completes a bucket; the first one starts it one bucket earlier. */
  function Reached(r: Reach, tf: int, s: int, e: int): Reach
    requires tf > 0
  {
    if AlignDown(s, tf) < AlignDown(e, tf) then
      Reach(if r.begun then r.lo else AlignDown(s, tf) - tf, AlignDown(e, tf), true)
    else r
  }

  ghost predicate ValidReach(r: Reach, tf: int, end: int)
    requires tf > 0
  {
    r == NOTHING || (r.begun && 0 <= r.lo < r.top <= end && r.lo % tf == 0 && r.top % tf == 0)
  }

  /** The source has been filled up to `end`, and the coarser table is refreshed for its reach. */
  ghost predicate Reaching(st: Store, job: Job, end: int, r: Reach, mode: InfoBy) {
    var tf := MSecs(job.tf);
    && end >= FIRST && ValidReach(r, tf, end)
    && (forall k :: k in st.Bars(job.source) ==> FIRST <= k < end)
    && SyncedFrom(st.Bars(job.source), st.Bars(job.tf), tf, r.lo, r.top, mode)
    && (if r.begun then 0 < st.RangeOf(job.tf).start < st.RangeOf(job.tf).stop == r.top
        else st.RangeOf(job.tf) == Range(0, 0))
  }

  lemma RegroupFromAt(was: Table, src: Table, big: Table, tf: int, lo: int, top: int, from: int, hi: int, mode: InfoBy,
                      b: int)
    requires tf > 0 && top % tf == 0 && from % tf == 0 && hi % tf == 0 && lo <= from <= top <= hi
    requires forall t :: t < top ==> At(was, t) == At(src, t)
    requires At(big, b) == if lo <= b < top && b % tf == 0 then Group(was, b, b + tf, mode) else None
    ensures At(big + Grouped(src, from, hi, tf, mode), b)
         == if lo <= b < hi && b % tf == 0 then Group(src, b, b + tf, mode) else None
  {
    var rows := Grouped(src, from, hi, tf, mode);
    GroupedRows(src, from, hi, tf, mode, b);
    assert At(big + rows, b) == if b in rows then At(rows, b) else At(big, b);
    if b < top && b % tf == 0 {
      AlignedBelow(b, top, tf);
      GroupSame(was, src, b, b + tf, mode);
    }
  }

  lemma RegroupFrom(was: Table, src: Table, big: Table, tf: int, lo: int, top: int, from: int, hi: int, mode: InfoBy)
    requires tf > 0 && top % tf == 0 && from % tf == 0 && hi % tf == 0 && lo <= from <= top <= hi
    requires forall t :: t < top ==> At(was, t) == At(src, t)
    requires SyncedFrom(was, big, tf, lo, top, mode)
    ensures SyncedFrom(src, big + Grouped(src, from, hi, tf, mode), tf, lo, hi, mode)
  {
    forall b
      ensures At(big + Grouped(src, from, hi, tf, mode), b)
           == if lo <= b < hi && b % tf == 0 then Group(src, b, b + tf, mode) else None
    {
      RegroupFromAt(was, src, big, tf, lo, top, from, hi, mode, b);
    }
  }

  /** The first refresh of an empty table. */
  lemma GroupFirst(src: Table, big: Table, tf: int, from: int, hi: int, mode: InfoBy)
    requires tf > 0 && from % tf == 0 && hi % tf == 0 && forall b :: At(big, b) == None
    ensures SyncedFrom(src, big + Grouped(src, from, hi, tf, mode), tf, from, hi, mode)
  {
    var rows := Grouped(src, from, hi, tf, mode);
    forall b
      ensures At(big + rows, b) == if from <= b < hi && b % tf == 0 then Group(src, b, b + tf, mode) else None
    {
      GroupedRows(src, from, hi, tf, mode, b);
      assert At(big + rows, b) == if b in rows then At(rows, b) else At(big, b);
    }
  }

  lemma StaysFrom(was: Table, src: Table, big: Table, tf: int, lo: int, top: int, mode: InfoBy)
    requires tf > 0 && top % tf == 0
    requires forall t :: t < top ==> At(was, t) == At(src, t)
    requires SyncedFrom(was, big, tf, lo, top, mode)
    ensures SyncedFrom(src, big, tf, lo, top, mode)
  {
    forall b
      ensures At(big, b) == if lo <= b < top && b % tf == 0 then Group(src, b, b + tf, mode) else None
    {
      if b < top && b % tf == 0 {
        AlignedBelow(b, top, tf);
        GroupSame(was, src, b, b + tf, mode);
      }
    }
  }

  /** Every row starts after the epoch and ends by the top. */
  lemma RowsWithin(src: Table, big: Table, tf: int, lo: int, top: int, mode: InfoBy, b: int)
    requires 0 < tf <= FIRST && FIRST % tf == 0 && top % tf == 0 && LateKeys(src)
    requires SyncedFrom(src, big, tf, lo, top, mode) && b in big
    ensures 0 < b && b + tf <= top
  {
    assert At(big, b).Some?;
    AlignedBelow(b, top, tf);
    GroupNone(src, b, b + tf, mode);
  }

  lemma RangeReaches(st: Store, tf: TimeFrame, start: int, top: int)
    requires 0 < start < top && (forall b :: b in st.Bars(tf) ==> 0 < b && b + MSecs(tf) <= top)
    ensures var known := WithRange(st, tf, start, top).RangeOf(tf);
      0 < known.start < known.stop == top
  {
  }

  lemma Frames(tf: TimeFrame)
    ensures 0 < MSecs(tf) <= FIRST && FIRST % MSecs(tf) == 0
  {
  }

  lemma LateAlign(t: int, tf: int)
    requires 0 < tf <= FIRST && FIRST % tf == 0 && t >= FIRST
    ensures AlignDown(t, tf) >= FIRST
  {
    if AlignDown(t, tf) < FIRST {
      AlignedBelow(AlignDown(t, tf), FIRST, tf);
    }
  }

  lemma TopByStart(top: int, s: int, tf: int)
    requires tf > 0 && top % tf == 0 && top <= s
    ensures top <= AlignDown(s, tf)
  {
    if AlignDown(s, tf) < top {
      AlignedBelow(AlignDown(s, tf), top, tf);
    }
  }

  /** The range that is grouped by an insertion that completes a bucket. */
  lemma RangeGrouped(tf: int, known: Range, r: Reach, s: int, e: int, end: int)
    requires 0 < tf <= FIRST && FIRST % tf == 0 && FIRST <= end <= s && ValidReach(r, tf, end)
    requires AlignDown(s, tf) < AlignDown(e, tf)
    requires if r.begun then 0 < known.start < known.stop == r.top else known == Range(0, 0)
    ensures var r', from := Reached(r, tf, s, e), AlignDown(s, tf) - tf;
      && RefreshRange(tf, known, s, e) == Some(Range(if r.begun then Min(from, r.top) else from, r'.top))
      && ValidReach(r', tf, e) && r'.begun && AlignDown(s, tf) < r'.top
      && r'.lo == (if r.begun then r.lo else from)
      && from % tf == 0 && (r.begun ==> r.lo <= Min(from, r.top) && r.top <= r'.top)
  {
    LateAlign(s, tf);
    ShiftMultiple(AlignDown(s, tf), -1, tf);
    if r.begun {
      TopByStart(r.top, s, tf);
      AlignedBelow(r.lo, r.top, tf);
    }
  }

  lemma RowsReach(was: Table, src: Table, big: Table, tf: int, r: Reach, r': Reach, from: int, mode: InfoBy)
    requires tf > 0 && from % tf == 0 && r'.top % tf == 0 && SyncedFrom(was, big, tf, r.lo, r.top, mode)
    requires forall t :: t < r.top ==> At(was, t) == At(src, t)
    requires if r.begun then r.top % tf == 0 && r'.lo == r.lo <= from <= r.top <= r'.top
             else r == NOTHING && r'.lo == from
    ensures SyncedFrom(src, big + Grouped(src, from, r'.top, tf, mode), tf, r'.lo, r'.top, mode)
  {
    if r.begun {
      RegroupFrom(was, src, big, tf, r.lo, r.top, from, r'.top, mode);
    } else {
      GroupFirst(src, big, tf, from, r'.top, mode);
    }
  }

  /** A refresh writes the rows of the range, records it, and leaves the source alone. */
  lemma RefreshParts(st: Store, job: Job, s: int, e: int, mode: InfoBy, range: Range)
    requires RefreshRange(MSecs(job.tf), st.RangeOf(job.tf), s, e) == Some(range) && job.source != job.tf
    requires 0 < AlignDown(s, MSecs(job.tf)) < range.stop
    requires forall b :: b in WithRows(st, job, range, mode).Bars(job.tf) ==> 0 < b && b + MSecs(job.tf) <= range.stop
    ensures var st' := Refresh(st, job, s, e, mode);
      && st'.Bars(job.tf) == WithRows(st, job, range, mode).Bars(job.tf) && st'.Bars(job.source) == st.Bars(job.source)
      && 0 < st'.RangeOf(job.tf).start < st'.RangeOf(job.tf).stop == range.stop
  {
    RangeReaches(WithRows(st, job, range, mode), job.tf, AlignDown(s, MSecs(job.tf)), range.stop);
  }

  lemma RefreshReaches(was: Store, st: Store, job: Job, s: int, e: int, end: int, r: Reach, mode: InfoBy)
    requires Reaching(was, job, end, r, mode) && end <= s < e && job.source != job.tf
    requires AlignDown(s, MSecs(job.tf)) < AlignDown(e, MSecs(job.tf))
    requires st.Bars(job.tf) == was.Bars(job.tf) && st.RangeOf(job.tf) == was.RangeOf(job.tf)
    requires forall t :: t < s ==> At(was.Bars(job.source), t) == At(st.Bars(job.source), t)
    requires forall k :: k in st.Bars(job.source) ==> FIRST <= k < e
    ensures Reaching(Refresh(st, job, s, e, mode), job, e, Reached(r, MSecs(job.tf), s, e), mode)
  {
    var tf := MSecs(job.tf);
    hide RefreshRange, Reached, SyncedFrom, AlignDown, Refresh, WithRange;
    Frames(job.tf);
    LateAlign(s, tf);
    var r' := Reached(r, tf, s, e);
    RangeGrouped(tf, st.RangeOf(job.tf), r, s, e, end);
    var range := RefreshRange(tf, st.RangeOf(job.tf), s, e).value;
    RowsReach(was.Bars(job.source), st.Bars(job.source), st.Bars(job.tf), tf, r, r', range.start, mode);
    var st' := WithRows(st, job, range, mode);
    forall b | b in st'.Bars(job.tf) ensures 0 < b && b + tf <= r'.top {
      RowsWithin(st.Bars(job.source), st'.Bars(job.tf), tf, r'.lo, r'.top, mode, b);
    }
    RefreshParts(st, job, s, e, mode, range);
  }

  /** An insertion that completes no bucket leaves the table where it was. */
  lemma SkipReaches(was: Store, st: Store, job: Job, s: int, e: int, end: int, r: Reach, mode: InfoBy)
    requires Reaching(was, job, end, r, mode) && end <= s < e
    requires AlignDown(s, MSecs(job.tf)) >= AlignDown(e, MSecs(job.tf))
    requires st.Bars(job.tf) == was.Bars(job.tf) && st.RangeOf(job.tf) == was.RangeOf(job.tf)
    requires forall t :: t < s ==> At(was.Bars(job.source), t) == At(st.Bars(job.source), t)
    requires forall k :: k in st.Bars(job.source) ==> FIRST <= k < e
    ensures Reaching(st, job, e, Reached(r, MSecs(job.tf), s, e), mode)
  {
    StaysFrom(was.Bars(job.source), st.Bars(job.source), st.Bars(job.tf), MSecs(job.tf), r.lo, r.top, mode);
  }

  // ---------------------------------------------------------------- one insertion

  /** A batch of bars that are all later than the ones before. */
  ghost predicate Later(arr: seq<Kline>, end: int) {
    arr != [] && Rising(arr) && end <= arr[0].time
  }

  /** The table that is grouped from the bars of a time frame directly. */
  function Direct(tf: TimeFrame): Job
    requires LinksOf(tf) != []
  {
    LinksOf(tf)[0]
  }

  /** The source table after a later batch: nothing is replaced. */
  lemma {:induction false} SourceLater(t: Table, tf: TimeFrame, arr: seq<Kline>, end: int)
    requires Later(arr, end) && FIRST <= end && forall k :: k in t ==> FIRST <= k < end
    ensures var s, e := arr[0].time, EndOf(arr, tf);
      var src := Inserted(t, arr, s, e);
      && s < e && src == AddFirst(t, arr, |arr|)
      && (forall k :: k < s ==> At(t, k) == At(src, k))
      && (forall k :: k in src ==> FIRST <= k < e)
  {
    assert arr[0].time <= arr[|arr| - 1].time;
    AddFirstBefore(t, arr, |arr|, arr[0].time);
    assert !Clash(t, arr) by {
      forall i | 0 <= i < |arr| ensures arr[i].time !in t {
        assert arr[0].time <= arr[i].time;
      }
    }
  }

  lemma {:induction false} BaseLater(st: Store, tf: TimeFrame, arr: seq<Kline>, end: int)
    requires Later(arr, end) && FIRST <= end && forall k :: k in st.Bars(tf) ==> FIRST <= k < end
    ensures var st' := Base(st, tf, arr);
      && arr[0].time < EndOf(arr, tf)
      && st'.Bars(tf) == AddFirst(st.Bars(tf), arr, |arr|)
      && (forall k :: k < arr[0].time ==> At(st.Bars(tf), k) == At(st'.Bars(tf), k))
      && (forall k :: k in st'.Bars(tf) ==> FIRST <= k < EndOf(arr, tf))
      && (forall o :: o != tf ==> st'.Bars(o) == st.Bars(o) && st'.RangeOf(o) == st.RangeOf(o))
  {
    hide Inserted, AddFirst;
    SourceLater(st.Bars(tf), tf, arr, end);
  }

  /** Of the tables that are refreshed only the direct one matters here. */
  lemma DirectRefresh(st: Store, tf: TimeFrame, s: int, e: int, mode: InfoBy)
    requires LinksOf(tf) != []
    ensures var job, st' := Direct(tf), Refreshed(st, tf, s, e, mode);
      var one := if Completes(s, e, job.tf) then Refresh(st, job, s, e, mode) else st;
      && job.source == tf != job.tf
      && st'.Bars(job.tf) == one.Bars(job.tf) && st'.RangeOf(job.tf) == one.RangeOf(job.tf)
      && st'.Bars(tf) == one.Bars(tf) == st.Bars(tf)
  {
    hide Refresh;
    DirectIsDirect(tf);
    RefreshFrame(st, Direct(tf), s, e, mode, tf);
    if tf == M1 {
      var one := if Completes(s, e, M5) then Refresh(st, Job(M5, M1), s, e, mode) else st;
      RefreshFrame(one, Job(M15, M5), s, e, mode, M5);
      RefreshFrame(one, Job(M15, M5), s, e, mode, M1);
    }
  }

  lemma {:induction false} HasFirst(t: Table, arr: seq<Kline>, n: nat)
    requires 0 < n <= |arr|
    ensures arr[0].time in AddFirst(t, arr, n)
  {
    if n > 1 {
      HasFirst(t, arr, n - 1);
    }
  }

  lemma {:induction false} StoredStay(t: Table, src: Table, arr: seq<Kline>, end: int)
    requires Later(arr, end) && src == AddFirst(t, arr, |arr|) && (forall k :: k in t ==> FIRST <= k < end)
    requires forall k :: k < arr[0].time ==> At(t, k) == At(src, k)
    ensures arr[0].time in src && forall k :: k in t ==> k in src
  {
    HasFirst(t, arr, |arr|);
    forall k | k in t ensures k in src {
      assert At(t, k) == At(src, k);
    }
  }

  lemma {:induction false} InsertReaches(st: Store, tf: TimeFrame, arr: seq<Kline>, end: int, r: Reach, mode: InfoBy)
    requires LinksOf(tf) != [] && Reaching(st, Direct(tf), end, r, mode) && Later(arr, end)
    ensures Reaching(WithKlines(st, tf, arr, true, mode), Direct(tf), EndOf(arr, tf),
                     Reached(r, MSecs(Direct(tf).tf), arr[0].time, EndOf(arr, tf)), mode)
    ensures forall k :: k in st.Bars(tf) ==> k in WithKlines(st, tf, arr, true, mode).Bars(tf)
    ensures arr[0].time in WithKlines(st, tf, arr, true, mode).Bars(tf)
  {
    hide Refresh, Base, SyncedFrom, Reached, WithKlines, WithBig, Refreshed;
    var s, e, base, job := arr[0].time, EndOf(arr, tf), Base(st, tf, arr), Direct(tf);
    BaseLater(st, tf, arr, end);
    WithKlinesIsBase(st, tf, arr, mode);
    WithBigIsRefreshed(base, tf, s, e, mode);
    DirectRefresh(base, tf, s, e, mode);
    StoredStay(st.Bars(tf), base.Bars(tf), arr, end);
    if Completes(s, e, job.tf) {
      RefreshReaches(st, base, job, s, e, end, r, mode);
    } else {
      SkipReaches(st, base, job, s, e, end, r, mode);
    }
  }

  // ---------------------------------------------------------------- every run

  /** Batches in time order, with gaps of any size between them. */
  ghost predicate Forward(batches: seq<seq<Kline>>, tf: TimeFrame, end: int) {
    batches == [] || (Later(batches[0], end) && Forward(batches[1..], tf, EndOf(batches[0], tf)))
  }

  function ReachAfter(batches: seq<seq<Kline>>, tf: TimeFrame, big: int, r: Reach): Reach
    requires big > 0
    decreases |batches|
  {
    if batches == [] || batches[0] == [] then r
    else ReachAfter(batches[1..], tf, big, Reached(r, big, batches[0][0].time, EndOf(batches[0], tf)))
  }

  lemma {:induction false} RunReaches(st: Store, tf: TimeFrame, batches: seq<seq<Kline>>, end: int, r: Reach,
                                      mode: InfoBy)
    requires LinksOf(tf) != [] && Reaching(st, Direct(tf), end, r, mode) && Forward(batches, tf, end)
    ensures Reaching(Run(st, tf, batches, mode), Direct(tf), RunEnd(batches, tf, end),
                     ReachAfter(batches, tf, MSecs(Direct(tf).tf), r), mode)
    ensures forall k :: k in st.Bars(tf) ==> k in Run(st, tf, batches, mode).Bars(tf)
    ensures batches != [] ==> batches[0][0].time in Run(st, tf, batches, mode).Bars(tf)
    decreases |batches|
  {
    if batches != [] {
      InsertReaches(st, tf, batches[0], end, r, mode);
      RunReaches(WithKlines(st, tf, batches[0], true, mode), tf, batches[1..], EndOf(batches[0], tf),
                 Reached(r, MSecs(Direct(tf).tf), batches[0][0].time, EndOf(batches[0], tf)), mode);
    }
  }

  /**
   * From an empty store, after any run of insertions in time order, the coarser table holds exactly the groups of the
   * buckets from one before the first completing insertion up to the end of the last completing one.
   */
  lemma {:induction false} GappedRun(batches: seq<seq<Kline>>, tf: TimeFrame, start: int, mode: InfoBy, b: int)
    requires LinksOf(tf) != [] && start >= FIRST && Forward(batches, tf, start)
    ensures var st, big := Run(EMPTY, tf, batches, mode), MSecs(Direct(tf).tf);
      var r := ReachAfter(batches, tf, big, NOTHING);
      At(st.Bars(Direct(tf).tf), b) ==
        if r.lo <= b < r.top && b % big == 0 then Group(st.Bars(tf), b, b + big, mode) else None
    ensures batches != [] ==> batches[0][0].time in Run(EMPTY, tf, batches, mode).Bars(tf)
  {
    hide ReachAfter, Run, Forward;
    DirectIsDirect(tf);
    assert Reaching(EMPTY, Direct(tf), start, NOTHING, mode);
    RunReaches(EMPTY, tf, batches, start, NOTHING, mode);
  }

  /**
   * A bucket that has bars and has ended lacks its row, if and only if it is before the reach or behind it. One that
   * is behind it is caught up by the next insertion that completes a bucket; one before it is never grouped.
   */
  lemma {:induction false} LacksExactly(batches: seq<seq<Kline>>, tf: TimeFrame, start: int, mode: InfoBy, b: int)
    requires LinksOf(tf) != [] && start >= FIRST && Forward(batches, tf, start)
    requires b % MSecs(Direct(tf).tf) == 0 && b + MSecs(Direct(tf).tf) <= RunEnd(batches, tf, start)
    ensures var st, big := Run(EMPTY, tf, batches, mode), MSecs(Direct(tf).tf);
      var r := ReachAfter(batches, tf, big, NOTHING);
      At(st.Bars(Direct(tf).tf), b) != Group(st.Bars(tf), b, b + big, mode) <==>
        Group(st.Bars(tf), b, b + big, mode).Some? && (b < r.lo || r.top <= b)
  {
    hide ReachAfter, Run, Forward;
    GappedRun(batches, tf, start, mode, b);
  }

  /** Where the reach begins is settled by the first insertion that completes a bucket; its top never falls. */
  lemma {:induction false} ReachGrows(batches: seq<seq<Kline>>, tf: TimeFrame, big: int, end: int, r: Reach)
    requires big > 0 && Forward(batches, tf, end) && r.begun && r.top <= end && r.top % big == 0
    ensures var r' := ReachAfter(batches, tf, big, r);
      r'.begun && r'.lo == r.lo && r.top <= r'.top
    decreases |batches|
  {
    if batches != [] {
      var s, e := batches[0][0].time, EndOf(batches[0], tf);
      TopByStart(r.top, s, big);
      assert batches[0][0].time <= batches[0][|batches[0]| - 1].time;
      ReachGrows(batches[1..], tf, big, e, Reached(r, big, s, e));
    }
  }

  lemma Days()
    ensures AlignDown(FIRST, FIRST) == FIRST && AlignDown(FIRST + 3600000, FIRST) == FIRST
    ensures AlignDown(4 * FIRST, FIRST) == 4 * FIRST && AlignDown(5 * FIRST, FIRST) == 5 * FIRST
  {
  }

  /**
   * An hour of the second day, and then all of the fifth day in two bars: the second day has no row although it has a
   * bar, and no later insertion gives it one.
   */
  lemma {:induction false} DayIsLost(x: Bar, mode: InfoBy, more: seq<seq<Kline>>)
    requires Forward(more, H1, 5 * FIRST)
    ensures var batches := [[Kline(FIRST, x)], [Kline(4 * FIRST, x), Kline(5 * FIRST - 3600000, x)]] + more;
      var st := Run(EMPTY, H1, batches, mode);
      FIRST in st.Bars(H1) && FIRST !in st.Bars(D1)
  {
    var one, two := [Kline(FIRST, x)], [Kline(4 * FIRST, x), Kline(5 * FIRST - 3600000, x)];
    var batches := [one, two] + more;
    assert batches[1..] == [two] + more && ([two] + more)[1..] == more;
    assert Forward([two] + more, H1, FIRST + 3600000);
    Days();
    var r := Reach(3 * FIRST, 5 * FIRST, true);
    assert ReachAfter([two] + more, H1, FIRST, NOTHING) == ReachAfter(more, H1, FIRST, r);
    ReachGrows(more, H1, FIRST, 5 * FIRST, r);
    GappedRun(batches, H1, FIRST, mode, FIRST);
    assert At(Run(EMPTY, H1, batches, mode).Bars(D1), FIRST) == None;
  }

  lemma DirectIsDirect(tf: TimeFrame)
    requires LinksOf(tf) != []
    ensures Direct(tf).source == tf != Direct(tf).tf
  {
  }
}
