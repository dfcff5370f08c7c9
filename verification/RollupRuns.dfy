/** What the coarser tables hold over every run of contiguous insertions. */
module RollupRuns {
  import opened Basics
  import opened Bars
  import opened Rollup

  /** Timestamps are later than the first day of the epoch, so that zero can stand for "none". */
  const FIRST: int := 86400000

  /** `big` holds exactly the groups of `src` for the buckets below `top`, and nothing else. */
  ghost predicate Synced(src: Table, big: Table, tf: int, top: int, mode: InfoBy)
    requires tf > 0
  {
    forall b :: At(big, b) == if b < top && b % tf == 0 then Group(src, b, b + tf, mode) else None
  }

  /** The recorded stop of a refreshed table is the aligned end of its source. */
  predicate RangeAligned(known: Range, top: int) {
    known == Range(0, 0) || 0 < known.start < known.stop == top
  }

  /** A coarser table is up to date with its source, which has been filled up to `end`. */
  ghost predicate Linked(st: Store, job: Job, end: int, mode: InfoBy) {
    var tf := MSecs(job.tf);
    var top := AlignDown(end, tf);
    && Synced(st.Bars(job.source), st.Bars(job.tf), tf, top, mode)
    && RangeAligned(st.RangeOf(job.tf), top)
  }

  ghost predicate LateKeys(t: Table) {
    forall k :: k in t ==> k >= FIRST
  }

  /** The tables that depend on one time frame, finest first. */
  function LinksOf(tf: TimeFrame): seq<Job> {
    match tf
    case M1 => [Job(M5, M1), Job(M15, M5)]
    case M5 => [Job(M15, M5)]
    case M15 => []
    case H1 => [Job(D1, H1)]
    case D1 => []
  }

  /** The store has been filled in one time frame up to `end`, and every dependent table is up to date. */
  ghost predicate UpToDate(st: Store, tf: TimeFrame, end: int, mode: InfoBy) {
    && end >= FIRST
    && (forall k :: k in st.Bars(tf) ==> FIRST <= k < end)
    && (forall i :: 0 <= i < |LinksOf(tf)| ==> Linked(st, LinksOf(tf)[i], end, mode))
  }

  // ---------------------------------------------------------------- one refresh

  lemma AlignedBelow(b: int, top: int, tf: int)
    requires tf > 0 && b % tf == 0 && top % tf == 0
    ensures b < top <==> b + tf <= top
  {
    if b < top < b + tf {
      SameMultiple(b, top, tf);
    }
  }

  /** The rows of the grouping query over an aligned range are the full groups of its buckets. */
  lemma GroupedRows(src: Table, lo: int, hi: int, tf: int, mode: InfoBy, b: int)
    requires tf > 0 && lo % tf == 0 && hi % tf == 0
    ensures At(Grouped(src, lo, hi, tf, mode), b)
         == if lo <= b < hi && b % tf == 0 then Group(src, b, b + tf, mode) else None
  {
    if b % tf == 0 {
      AlignedBelow(b, lo, tf);
      AlignedBelow(b, hi, tf);
    }
  }

  lemma RegroupAt(was: Table, src: Table, big: Table, tf: int, top: int, lo: int, hi: int, mode: InfoBy, b: int)
    requires tf > 0 && top % tf == 0 && lo % tf == 0 && hi % tf == 0 && lo <= top <= hi
    requires forall t :: t < top ==> At(was, t) == At(src, t)
    requires At(big, b) == if b < top && b % tf == 0 then Group(was, b, b + tf, mode) else None
    ensures At(big + Grouped(src, lo, hi, tf, mode), b)
      == if b < hi && b % tf == 0 then Group(src, b, b + tf, mode) else None
  {
    var rows := Grouped(src, lo, hi, tf, mode);
    GroupedRows(src, lo, hi, tf, mode, b);
    assert At(big + rows, b) == if b in rows then At(rows, b) else At(big, b);
    if b < top && b % tf == 0 {
      AlignedBelow(b, top, tf);
      GroupSame(was, src, b, b + tf, mode);
    }
  }

  /**
   * Regrouping from an aligned start that is not beyond the old top brings the table to the new top,
   * because the source has changed at or after the old top only.
   */
  lemma RegroupSynced(was: Table, src: Table, big: Table, tf: int, top: int, lo: int, hi: int, mode: InfoBy)
    requires tf > 0 && top % tf == 0 && lo % tf == 0 && hi % tf == 0 && lo <= top <= hi
    requires forall t :: t < top ==> At(was, t) == At(src, t)
    requires Synced(was, big, tf, top, mode)
    ensures Synced(src, big + Grouped(src, lo, hi, tf, mode), tf, hi, mode)
  {
    forall b
      ensures At(big + Grouped(src, lo, hi, tf, mode), b)
        == if b < hi && b % tf == 0 then Group(src, b, b + tf, mode) else None
    {
      RegroupAt(was, src, big, tf, top, lo, hi, mode, b);
    }
  }

  lemma StaysSynced(was: Table, src: Table, big: Table, tf: int, top: int, mode: InfoBy)
    requires tf > 0 && top % tf == 0
    requires forall t :: t < top ==> At(was, t) == At(src, t)
    requires Synced(was, big, tf, top, mode)
    ensures Synced(src, big, tf, top, mode)
  {
    forall b
      ensures At(big, b) == if b < top && b % tf == 0 then Group(src, b, b + tf, mode) else None
    {
      if b < top && b % tf == 0 {
        AlignedBelow(b, top, tf);
        GroupSame(was, src, b, b + tf, mode);
      }
    }
  }

  /** Every row of a synced table starts after the epoch and ends by the top. */
  lemma SyncedKeys(src: Table, big: Table, tf: int, top: int, mode: InfoBy, b: int)
    requires 0 < tf <= FIRST && top % tf == 0 && LateKeys(src) && Synced(src, big, tf, top, mode) && b in big
    ensures 0 < b && b % tf == 0 && b + tf <= top
  {
    assert At(big, b).Some?;
    AlignedBelow(b, top, tf);
    GroupNone(src, b, b + tf, mode);
  }

  /** The recorded range after a refresh up to `top`. */
  lemma RangeAfter(st: Store, tf: TimeFrame, start: int, top: int)
    requires 0 < start < top && (forall b :: b in st.Bars(tf) ==> 0 < b && b + MSecs(tf) <= top)
    ensures RangeAligned(WithRange(st, tf, start, top).RangeOf(tf), top)
  {
  }

  /** One refresh after the source has grown from `s` to `e` and a bucket has been completed. */
  lemma RefreshLinked(was: Store, st: Store, job: Job, s: int, e: int, mode: InfoBy)
    requires s >= FIRST && LateKeys(st.Bars(job.source)) && Linked(was, job, s, mode)
    requires st.Bars(job.tf) == was.Bars(job.tf) && st.RangeOf(job.tf) == was.RangeOf(job.tf)
    requires forall t :: t < AlignDown(s, MSecs(job.tf)) ==> At(was.Bars(job.source), t) == At(st.Bars(job.source), t)
    requires job.source != job.tf && AlignDown(s, MSecs(job.tf)) < AlignDown(e, MSecs(job.tf))
    ensures Linked(Refresh(st, job, s, e, mode), job, e, mode)
  {
    var tf := MSecs(job.tf);
    var top, top' := AlignDown(s, tf), AlignDown(e, tf);
    var r := Range(top - tf, top');
    assert RefreshRange(tf, st.RangeOf(job.tf), s, e) == Some(r);
    ShiftMultiple(top, -1, tf);
    var src, big := st.Bars(job.source), was.Bars(job.tf);
    RegroupSynced(was.Bars(job.source), src, big, tf, top, r.start, r.stop, mode);
    var st' := WithRows(st, job, r, mode);
    assert st'.Bars(job.source) == src;
    assert Synced(src, st'.Bars(job.tf), tf, top', mode);
    forall b | b in st'.Bars(job.tf) ensures 0 < b && b + tf <= top' {
      SyncedKeys(src, st'.Bars(job.tf), tf, top', mode, b);
    }
    RangeAfter(st', job.tf, top, top');
  }

  // ---------------------------------------------------------------- which tables are refreshed

  predicate Completes(s: int, e: int, tf: TimeFrame) {
    AlignDown(s, MSecs(tf)) < AlignDown(e, MSecs(tf))
  }

  /** The bounds of a coarse frame are bounds of the finer one. */
  lemma AlignNested(t: int, fine: int, k: int)
    requires fine > 0 && k > 0
    ensures fine * k > 0 && AlignDown(t, fine * k) <= AlignDown(t, fine) && AlignDown(t, fine * k) % fine == 0
  {
    MulBounds(fine, k);
    var coarse := fine * k;
    var c, f := AlignDown(t, coarse), AlignDown(t, fine);
    assert c == fine * (k * (t / coarse)) by {
      assert c == coarse * (t / coarse);
      assert (fine * k) * (t / coarse) == fine * (k * (t / coarse));
    }
    MultipleMod(k * (t / coarse), fine);
    if c > f {
      AlignedBelow(f, c, fine);
    }
  }

  lemma CompletesNested(s: int, e: int)
    requires s <= e && Completes(s, e, M15)
    ensures Completes(s, e, M5)
  {
    AlignNested(e, 300000, 3);
    AlignedBelow(AlignDown(s, 900000), AlignDown(e, 900000), 900000);
  }

  lemma JobsOf(tf: TimeFrame, s: int, e: int)
    requires s <= e
    ensures var jobs := AggJobs(tf, s, e, 0, {tf});
      match tf
      case M1 => jobs == (if Completes(s, e, M5) then [Job(M5, M1)] else [])
        + (if Completes(s, e, M15) then [Job(M15, M5)] else [])
      case M5 => jobs == if Completes(s, e, M15) then [Job(M15, M5)] else []
      case M15 => jobs == []
      case H1 => jobs == if Completes(s, e, D1) then [Job(D1, H1)] else []
      case D1 => jobs == []
  {
    assert |AGG_LIST| == 5;
    forall aggTfs: set<TimeFrame> ensures AggJobs(tf, s, e, 5, aggTfs) == [] {}
    match tf
    case M1 =>
      if Completes(s, e, M15) {
        CompletesNested(s, e);
      }
      JobsM1(s, e);
    case M5 =>
      forall aggTfs | H1 !in aggTfs ensures AggJobs(M5, s, e, 3, aggTfs) == [] {
        assert AggJobs(M5, s, e, 4, aggTfs) == [];
      }
      assert AggJobs(M5, s, e, 1, {M5}) == AggJobs(M5, s, e, 2, {M5});
    case M15 =>
      assert AggJobs(M15, s, e, 3, {M15}) == AggJobs(M15, s, e, 4, {M15}) == [];
      assert AggJobs(M15, s, e, 1, {M15}) == AggJobs(M15, s, e, 2, {M15});
    case H1 =>
      assert AggJobs(H1, s, e, 3, {H1}) == AggJobs(H1, s, e, 4, {H1});
      assert AggJobs(H1, s, e, 1, {H1}) == AggJobs(H1, s, e, 2, {H1}) == AggJobs(H1, s, e, 3, {H1});
    case D1 =>
      assert AggJobs(D1, s, e, 3, {D1}) == AggJobs(D1, s, e, 4, {D1}) == [];
      assert AggJobs(D1, s, e, 1, {D1}) == AggJobs(D1, s, e, 2, {D1});
  }

  lemma JobsM1(s: int, e: int)
    requires s <= e && (Completes(s, e, M15) ==> Completes(s, e, M5))
    ensures AggJobs(M1, s, e, 0, {M1}) ==
      (if Completes(s, e, M5) then [Job(M5, M1)] else []) + (if Completes(s, e, M15) then [Job(M15, M5)] else [])
  {
    forall aggTfs: set<TimeFrame> | H1 !in aggTfs ensures AggJobs(M1, s, e, 3, aggTfs) == [] {
      assert AggJobs(M1, s, e, 4, aggTfs) == [];
    }
    assert AggJobs(M1, s, e, 2, {M1}) == [];
    assert AggJobs(M1, s, e, 2, {M1} + {M5}) == if Completes(s, e, M15) then [Job(M15, M5)] else [];
  }

  // ---------------------------------------------------------------- one insertion

  /** The batch continues a series that ends at `end`. */
  ghost predicate Continues(arr: seq<Kline>, end: int) {
    arr != [] && Rising(arr) && arr[0].time == end
  }

  function EndOf(arr: seq<Kline>, tf: TimeFrame): int
    requires arr != []
  {
    arr[|arr| - 1].time + MSecs(tf)
  }

  lemma {:induction false} AddFirstBefore(t: Table, arr: seq<Kline>, n: nat, end: int)
    requires n <= |arr| && Continues(arr, end)
    ensures forall k :: k < end ==> At(AddFirst(t, arr, n), k) == At(t, k)
    ensures forall k :: k in AddFirst(t, arr, n) ==> k in t || end <= k <= arr[|arr| - 1].time
    decreases n
  {
    if n > 0 {
      AddFirstBefore(t, arr, n - 1, end);
    }
  }

  /** The source table after a batch that continues it: nothing is replaced. */
  lemma AppendedSource(st: Store, tf: TimeFrame, arr: seq<Kline>, end: int, mode: InfoBy)
    requires UpToDate(st, tf, end, mode) && Continues(arr, end)
    ensures var src := Inserted(st.Bars(tf), arr, end, EndOf(arr, tf));
      && src == AddFirst(st.Bars(tf), arr, |arr|)
      && (forall k :: k < end ==> At(src, k) == At(st.Bars(tf), k))
      && (forall k :: k in src ==> FIRST <= k < EndOf(arr, tf))
  {
    assert !Clash(st.Bars(tf), arr);
    AddFirstBefore(st.Bars(tf), arr, |arr|, end);
  }

  /** A table that is not refreshed, because no bucket of it is completed, stays up to date. */
  lemma SkipLinked(was: Store, st: Store, job: Job, s: int, e: int, mode: InfoBy)
    requires s <= e && Linked(was, job, s, mode) && AlignDown(s, MSecs(job.tf)) == AlignDown(e, MSecs(job.tf))
    requires st.Bars(job.tf) == was.Bars(job.tf) && st.RangeOf(job.tf) == was.RangeOf(job.tf)
    requires forall t :: t < AlignDown(s, MSecs(job.tf)) ==> At(was.Bars(job.source), t) == At(st.Bars(job.source), t)
    ensures Linked(st, job, e, mode)
  {
    var tf := MSecs(job.tf);
    StaysSynced(was.Bars(job.source), st.Bars(job.source), st.Bars(job.tf), tf, AlignDown(s, tf), mode);
  }

  lemma AlignMonotone(s: int, e: int, tf: int)
    requires tf > 0 && s <= e
    ensures AlignDown(s, tf) <= AlignDown(e, tf)
  {
    var a, b := AlignDown(s, tf), AlignDown(e, tf);
    if b < a {
      AlignedBelow(b, a, tf);
    }
  }

  /** A refresh leaves the other tables and their recorded ranges alone. */
  lemma RefreshFrame(st: Store, job: Job, s: int, e: int, mode: InfoBy, other: TimeFrame)
    requires other != job.tf
    ensures Refresh(st, job, s, e, mode).Bars(other) == st.Bars(other)
    ensures Refresh(st, job, s, e, mode).RangeOf(other) == st.RangeOf(other)
  {
  }

  /** A table with one dependent table. */
  lemma OneLink(was: Store, st: Store, job: Job, s: int, e: int, mode: InfoBy)
    requires FIRST <= s <= e && LateKeys(st.Bars(job.source)) && Linked(was, job, s, mode) && job.source != job.tf
    requires st.Bars(job.tf) == was.Bars(job.tf) && st.RangeOf(job.tf) == was.RangeOf(job.tf)
    requires forall t :: t < AlignDown(s, MSecs(job.tf)) ==> At(was.Bars(job.source), t) == At(st.Bars(job.source), t)
    ensures Linked(if Completes(s, e, job.tf) then Refresh(st, job, s, e, mode) else st, job, e, mode)
  {
    AlignMonotone(s, e, MSecs(job.tf));
    if Completes(s, e, job.tf) {
      RefreshLinked(was, st, job, s, e, mode);
    } else {
      SkipLinked(was, st, job, s, e, mode);
    }
  }

  /** The first of two tables in a chain is refreshed; below the old top of the second one it is what it was. */
  lemma FirstLink(was: Store, st: Store, st5: Store, s: int, e: int, mode: InfoBy)
    requires FIRST <= s <= e && LateKeys(st.Bars(M1)) && Linked(was, Job(M5, M1), s, mode)
    requires forall tf :: tf != M1 ==> st.Bars(tf) == was.Bars(tf) && st.RangeOf(tf) == was.RangeOf(tf)
    requires forall t :: t < s ==> At(was.Bars(M1), t) == At(st.Bars(M1), t)
    requires st5 == if Completes(s, e, M5) then Refresh(st, Job(M5, M1), s, e, mode) else st
    ensures Linked(st5, Job(M5, M1), e, mode) && st5.Bars(M1) == st.Bars(M1) && LateKeys(st5.Bars(M5))
    ensures st5.Bars(M15) == was.Bars(M15) && st5.RangeOf(M15) == was.RangeOf(M15)
    ensures forall t :: t < AlignDown(s, 900000) ==> At(was.Bars(M5), t) == At(st5.Bars(M5), t)
  {
    OneLink(was, st, Job(M5, M1), s, e, mode);
    RefreshFrame(st, Job(M5, M1), s, e, mode, M1);
    RefreshFrame(st, Job(M5, M1), s, e, mode, M15);
    AlignNested(s, 300000, 3);
    AlignMonotone(s, e, 300000);
    forall t | t < AlignDown(s, 900000)
      ensures At(was.Bars(M5), t) == At(st5.Bars(M5), t)
    {
      SameBelow(was.Bars(M1), st.Bars(M1), was.Bars(M5), st5.Bars(M5), 300000, s, e, mode, t);
    }
    forall k | k in st5.Bars(M5)
      ensures k >= FIRST
    {
      LateBucket(st.Bars(M1), st5.Bars(M5), e, mode, k);
    }
  }

  /** Minute bars feed two tables in a chain: the 15 minute table is refreshed after the 5 minute one. */
  lemma TwoLinks(was: Store, st: Store, s: int, e: int, mode: InfoBy)
    requires FIRST <= s <= e && LateKeys(st.Bars(M1))
    requires Linked(was, Job(M5, M1), s, mode) && Linked(was, Job(M15, M5), s, mode)
    requires forall tf :: tf != M1 ==> st.Bars(tf) == was.Bars(tf) && st.RangeOf(tf) == was.RangeOf(tf)
    requires forall t :: t < s ==> At(was.Bars(M1), t) == At(st.Bars(M1), t)
    ensures var st5 := if Completes(s, e, M5) then Refresh(st, Job(M5, M1), s, e, mode) else st;
      var st15 := if Completes(s, e, M15) then Refresh(st5, Job(M15, M5), s, e, mode) else st5;
      Linked(st15, Job(M5, M1), e, mode) && Linked(st15, Job(M15, M5), e, mode) && st15.Bars(M1) == st.Bars(M1)
  {
    var st5 := if Completes(s, e, M5) then Refresh(st, Job(M5, M1), s, e, mode) else st;
    FirstLink(was, st, st5, s, e, mode);
    OneLink(was, st5, Job(M15, M5), s, e, mode);
    RefreshFrame(st5, Job(M15, M5), s, e, mode, M1);
    RefreshFrame(st5, Job(M15, M5), s, e, mode, M5);
  }

  /** Two tables synced with sources that agree up to `s` agree below the aligned `s`. */
  lemma SameBelow(wasSrc: Table, src: Table, wasBig: Table, big: Table, tf: int, s: int, e: int, mode: InfoBy, t: int)
    requires tf > 0 && s <= e && (forall k :: k < s ==> At(wasSrc, k) == At(src, k))
    requires Synced(wasSrc, wasBig, tf, AlignDown(s, tf), mode) && Synced(src, big, tf, AlignDown(e, tf), mode)
    requires t < AlignDown(s, tf)
    ensures At(wasBig, t) == At(big, t)
  {
    AlignMonotone(s, e, tf);
    if t % tf == 0 {
      AlignedBelow(t, AlignDown(s, tf), tf);
      GroupSame(wasSrc, src, t, t + tf, mode);
    }
  }

  /** A bucket of bars after the first day starts after the first day. */
  lemma LateBucket(src: Table, big: Table, e: int, mode: InfoBy, b: int)
    requires LateKeys(src) && Synced(src, big, 300000, AlignDown(e, 300000), mode) && b in big
    ensures b >= FIRST
  {
    assert At(big, b).Some?;
    GroupNone(src, b, b + 300000, mode);
    AlignedBelow(b, FIRST, 300000);
  }

  /** What a refresh of the tables that depend on `tf` amounts to. */
  function Refreshed(st: Store, tf: TimeFrame, s: int, e: int, mode: InfoBy): Store {
    match tf
    case M1 =>
      var st5 := if Completes(s, e, M5) then Refresh(st, Job(M5, M1), s, e, mode) else st;
      if Completes(s, e, M15) then Refresh(st5, Job(M15, M5), s, e, mode) else st5
    case M5 => if Completes(s, e, M15) then Refresh(st, Job(M15, M5), s, e, mode) else st
    case M15 => st
    case H1 => if Completes(s, e, D1) then Refresh(st, Job(D1, H1), s, e, mode) else st
    case D1 => st
  }

  lemma OneRefresh(st: Store, job: Job, s: int, e: int, mode: InfoBy)
    ensures RefreshAll(st, [job], 1, s, e, mode) == Refresh(st, job, s, e, mode)
  {
    assert RefreshAll(st, [job], 0, s, e, mode) == st;
  }

  lemma TwoRefreshes(st: Store, one: Job, two: Job, s: int, e: int, mode: InfoBy)
    ensures RefreshAll(st, [one, two], 2, s, e, mode) == Refresh(Refresh(st, one, s, e, mode), two, s, e, mode)
  {
    assert RefreshAll(st, [one, two], 0, s, e, mode) == st;
    assert RefreshAll(st, [one, two], 1, s, e, mode) == Refresh(st, one, s, e, mode);
  }

  lemma WithBigIsRefreshed(st: Store, tf: TimeFrame, s: int, e: int, mode: InfoBy)
    requires s <= e
    ensures WithBig(st, tf, s, e, mode) == Refreshed(st, tf, s, e, mode)
  {
    var jobs := AggJobs(tf, s, e, 0, {tf});
    JobsOf(tf, s, e);
    assert RefreshAll(st, [], 0, s, e, mode) == st;
    if tf == M1 && Completes(s, e, M15) {
      CompletesNested(s, e);
      assert jobs == [Job(M5, M1), Job(M15, M5)];
      TwoRefreshes(st, Job(M5, M1), Job(M15, M5), s, e, mode);
    } else if jobs != [] {
      assert jobs == [jobs[0]];
      OneRefresh(st, jobs[0], s, e, mode);
    }
  }

  lemma OneLinkKeepsSource(was: Store, st: Store, job: Job, s: int, e: int, mode: InfoBy)
    requires FIRST <= s <= e && LateKeys(st.Bars(job.source)) && Linked(was, job, s, mode) && job.source != job.tf
    requires st.Bars(job.tf) == was.Bars(job.tf) && st.RangeOf(job.tf) == was.RangeOf(job.tf)
    requires forall t :: t < s ==> At(was.Bars(job.source), t) == At(st.Bars(job.source), t)
    ensures var st' := if Completes(s, e, job.tf) then Refresh(st, job, s, e, mode) else st;
      Linked(st', job, e, mode) && st'.Bars(job.source) == st.Bars(job.source)
  {
    OneLink(was, st, job, s, e, mode);
    RefreshFrame(st, job, s, e, mode, job.source);
  }

  /** The store just after the rows and the range of the source table have been written. */
  function Base(st: Store, tf: TimeFrame, arr: seq<Kline>): Store
    requires arr != []
  {
    var startMS, endMS := arr[0].time, EndOf(arr, tf);
    WithRange(st.(bars := st.bars[tf := Inserted(st.Bars(tf), arr, startMS, endMS)]), tf, startMS, endMS)
  }

  lemma BaseFacts(st: Store, tf: TimeFrame, arr: seq<Kline>, end: int, mode: InfoBy)
    requires UpToDate(st, tf, end, mode) && Continues(arr, end)
    ensures var st' := Base(st, tf, arr);
      && st'.Bars(tf) == AddFirst(st.Bars(tf), arr, |arr|)
      && (forall k :: k < end ==> At(st'.Bars(tf), k) == At(st.Bars(tf), k))
      && (forall k :: k in st'.Bars(tf) ==> FIRST <= k < EndOf(arr, tf))
      && (forall o :: o != tf ==> st'.Bars(o) == st.Bars(o) && st'.RangeOf(o) == st.RangeOf(o))
  {
    AppendedSource(st, tf, arr, end, mode);
  }

  /** A batch that continues the series keeps every dependent table up to date with the new end. */
  lemma {:induction false} AppendKeepsUpToDate(st: Store, tf: TimeFrame, arr: seq<Kline>, end: int, mode: InfoBy)
    requires UpToDate(st, tf, end, mode) && Continues(arr, end)
    ensures var st' := WithKlines(st, tf, arr, true, mode);
      UpToDate(st', tf, EndOf(arr, tf), mode) && st'.Bars(tf) == AddFirst(st.Bars(tf), arr, |arr|)
  {
    var e := EndOf(arr, tf);
    var base := Base(st, tf, arr);
    BaseFacts(st, tf, arr, end, mode);
    EndAfterStart(arr, end, tf);
    WithKlinesIsBase(st, tf, arr, mode);
    WithBigIsRefreshed(base, tf, end, e, mode);
    RefreshedUpToDate(st, base, tf, end, e, mode);
  }

  lemma EndAfterStart(arr: seq<Kline>, end: int, tf: TimeFrame)
    requires Continues(arr, end)
    ensures end < EndOf(arr, tf)
  {
  }

  lemma WithKlinesIsBase(st: Store, tf: TimeFrame, arr: seq<Kline>, mode: InfoBy)
    requires arr != []
    ensures WithKlines(st, tf, arr, true, mode) == WithBig(Base(st, tf, arr), tf, arr[0].time, EndOf(arr, tf), mode)
  {
  }

  lemma RefreshedUpToDate(was: Store, st: Store, tf: TimeFrame, s: int, e: int, mode: InfoBy)
    requires UpToDate(was, tf, s, mode) && s <= e
    requires forall k :: k < s ==> At(st.Bars(tf), k) == At(was.Bars(tf), k)
    requires forall k :: k in st.Bars(tf) ==> FIRST <= k < e
    requires forall o :: o != tf ==> st.Bars(o) == was.Bars(o) && st.RangeOf(o) == was.RangeOf(o)
    ensures var st' := Refreshed(st, tf, s, e, mode);
      UpToDate(st', tf, e, mode) && st'.Bars(tf) == st.Bars(tf)
  {
    match tf
    case M1 =>
      assert Linked(was, LinksOf(M1)[0], s, mode) && Linked(was, LinksOf(M1)[1], s, mode);
      TwoLinks(was, st, s, e, mode);
    case M5 =>
      assert Linked(was, LinksOf(M5)[0], s, mode);
      OneLinkKeepsSource(was, st, Job(M15, M5), s, e, mode);
    case H1 =>
      assert Linked(was, LinksOf(H1)[0], s, mode);
      OneLinkKeepsSource(was, st, Job(D1, H1), s, e, mode);
    case M15 =>
    case D1 =>
  }

  /** Refreshing the coarser tables leaves the table itself alone. */
  lemma {:induction false} RefreshedKeeps(st: Store, tf: TimeFrame, s: int, e: int, mode: InfoBy)
    ensures Refreshed(st, tf, s, e, mode).Bars(tf) == st.Bars(tf)
  {
    hide Refresh;
    match tf
    case M1 =>
      RefreshFrame(st, Job(M5, M1), s, e, mode, M1);
      var st5 := if Completes(s, e, M5) then Refresh(st, Job(M5, M1), s, e, mode) else st;
      RefreshFrame(st5, Job(M15, M5), s, e, mode, M1);
    case M5 => RefreshFrame(st, Job(M15, M5), s, e, mode, M5);
    case H1 => RefreshFrame(st, Job(D1, H1), s, e, mode, H1);
    case M15 =>
    case D1 =>
  }

  /**
   * After any insertion every bar of the batch is stored, and the rest of the table outside its span is as it was.
   * Without aggregation no other table changes.
   */
  lemma {:induction false} InsertionStores(st: Store, tf: TimeFrame, arr: seq<Kline>, aggBig: bool, mode: InfoBy,
      k: int)
    requires arr != [] && Rising(arr)
    ensures var r, s, e := WithKlines(st, tf, arr, aggBig, mode).Bars(tf), arr[0].time, EndOf(arr, tf);
      && r == Inserted(st.Bars(tf), arr, s, e)
      && (forall i :: 0 <= i < |arr| ==> At(r, arr[i].time) == Some(arr[i].bar))
      && (!(s <= k < e) ==> At(r, k) == At(st.Bars(tf), k))
    ensures !aggBig ==> forall other :: other != tf ==>
      WithKlines(st, tf, arr, aggBig, mode).Bars(other) == st.Bars(other)
  {
    hide WithBig, Inserted, Refreshed;
    var s, e := arr[0].time, EndOf(arr, tf);
    assert arr[0].time <= arr[|arr| - 1].time;
    WithBigIsRefreshed(Base(st, tf, arr), tf, s, e, mode);
    RefreshedKeeps(Base(st, tf, arr), tf, s, e, mode);
    InsertedExactly(st.Bars(tf), arr, s, e, k);
  }

  // ---------------------------------------------------------------- every run

  /** Batches that follow one another without a gap, from `end` on. */
  ghost predicate Contiguous(batches: seq<seq<Kline>>, tf: TimeFrame, end: int) {
    batches == [] || (Continues(batches[0], end) && Contiguous(batches[1..], tf, EndOf(batches[0], tf)))
  }

  function RunEnd(batches: seq<seq<Kline>>, tf: TimeFrame, end: int): int {
    if batches == [] || batches[0] == [] then end else RunEnd(batches[1..], tf, EndOf(batches[0], tf))
  }

  function Run(st: Store, tf: TimeFrame, batches: seq<seq<Kline>>, mode: InfoBy): Store
    decreases |batches|
  {
    if batches == [] then st else Run(WithKlines(st, tf, batches[0], true, mode), tf, batches[1..], mode)
  }

  lemma {:induction false} RunKeepsUpToDate(st: Store, tf: TimeFrame, batches: seq<seq<Kline>>, end: int, mode: InfoBy)
    requires UpToDate(st, tf, end, mode) && Contiguous(batches, tf, end)
    ensures UpToDate(Run(st, tf, batches, mode), tf, RunEnd(batches, tf, end), mode)
    decreases |batches|
  {
    if batches != [] {
      AppendKeepsUpToDate(st, tf, batches[0], end, mode);
      RunKeepsUpToDate(WithKlines(st, tf, batches[0], true, mode), tf, batches[1..], EndOf(batches[0], tf), mode);
    }
  }

  lemma EmptyUpToDate(tf: TimeFrame, end: int, mode: InfoBy)
    requires end >= FIRST
    ensures UpToDate(EMPTY, tf, end, mode)
  {
    forall i | 0 <= i < |LinksOf(tf)|
      ensures Linked(EMPTY, LinksOf(tf)[i], end, mode)
    {
      EmptyLinked(LinksOf(tf)[i], end, mode);
    }
  }

  lemma EmptyLinked(job: Job, end: int, mode: InfoBy)
    ensures Linked(EMPTY, job, end, mode)
  {
    var src, big := EMPTY.Bars(job.source), EMPTY.Bars(job.tf);
    forall b: int
      ensures At(big, b) == None && Group(src, b, b + MSecs(job.tf), mode) == None
    {
      GroupNone(src, b, b + MSecs(job.tf), mode);
    }
  }

  lemma MinuteLinks(st: Store, end: int, mode: InfoBy)
    requires UpToDate(st, M1, end, mode)
    ensures Synced(st.Bars(M1), st.Bars(M5), 300000, AlignDown(end, 300000), mode)
    ensures Synced(st.Bars(M5), st.Bars(M15), 900000, AlignDown(end, 900000), mode)
  {
    assert Linked(st, LinksOf(M1)[0], end, mode) && Linked(st, LinksOf(M1)[1], end, mode);
  }

  /** A minute table that is up to date determines the coarser ones. */
  lemma MinutesDetermine(st: Store, end: int, mode: InfoBy, b: int)
    requires UpToDate(st, M1, end, mode)
    ensures b % 300000 == 0 && b + 300000 <= AlignDown(end, 300000) ==>
      At(st.Bars(M5), b) == Group(st.Bars(M1), b, b + 300000, mode)
    ensures b % 900000 == 0 && b + 900000 <= AlignDown(end, 900000) ==>
      At(st.Bars(M15), b) == Group(st.Bars(M5), b, b + 900000, mode) == Group(st.Bars(M1), b, b + 900000, mode)
  {
    MinuteLinks(st, end, mode);
    if b % 900000 == 0 && b + 900000 <= AlignDown(end, 900000) {
      AlignNested(end, 300000, 3);
      QuartersDetermine(st.Bars(M1), st.Bars(M5), AlignDown(end, 300000), b, mode);
    }
  }

  lemma QuartersDetermine(src: Table, mid: Table, top: int, b: int, mode: InfoBy)
    requires b % 900000 == 0 && b + 900000 <= top && Synced(src, mid, 300000, top, mode)
    ensures Group(mid, b, b + 900000, mode) == Group(src, b, b + 900000, mode)
  {
    SyncedAgrees(src, mid, top, b, b + 900000, mode);
    TwoStep(src, mid, 300000, b, b + 900000, mode);
  }

  lemma SyncedAgrees(src: Table, big: Table, top: int, lo: int, hi: int, mode: InfoBy)
    requires Synced(src, big, 300000, top, mode) && hi <= top
    ensures Agrees(src, big, 300000, lo, hi, mode)
  {
  }

  /**
   * From an empty store, after any run of contiguous insertions of minute bars, each 5 minute bucket
   * that ends by the aligned end of the minute table is the group of its minute bars, and each such
   * 15 minute bucket is the group of its 5 minute bars and of its minute bars alike.
   */
  lemma MinuteRun(batches: seq<seq<Kline>>, start: int, mode: InfoBy, b: int)
    requires start >= FIRST && Contiguous(batches, M1, start)
    ensures var st, end := Run(EMPTY, M1, batches, mode), RunEnd(batches, M1, start);
      && (b % 300000 == 0 && b + 300000 <= AlignDown(end, 300000) ==>
            At(st.Bars(M5), b) == Group(st.Bars(M1), b, b + 300000, mode))
      && (b % 900000 == 0 && b + 900000 <= AlignDown(end, 900000) ==>
            At(st.Bars(M15), b) == Group(st.Bars(M5), b, b + 900000, mode) == Group(st.Bars(M1), b, b + 900000, mode))
  {
    EmptyUpToDate(M1, start, mode);
    RunKeepsUpToDate(EMPTY, M1, batches, start, mode);
    MinutesDetermine(Run(EMPTY, M1, batches, mode), RunEnd(batches, M1, start), mode, b);
  }

  lemma HoursDetermine(st: Store, end: int, mode: InfoBy, b: int)
    requires UpToDate(st, H1, end, mode) && b % FIRST == 0
    ensures At(st.Bars(D1), b) ==
      if b + FIRST <= AlignDown(end, FIRST) then Group(st.Bars(H1), b, b + FIRST, mode) else None
  {
    assert Linked(st, LinksOf(H1)[0], end, mode);
    AlignedBelow(b, AlignDown(end, FIRST), FIRST);
  }

  /** The same for hour bars and days. */
  lemma HourRun(batches: seq<seq<Kline>>, start: int, mode: InfoBy, b: int)
    requires start >= FIRST && Contiguous(batches, H1, start) && b % FIRST == 0
    ensures var st, end := Run(EMPTY, H1, batches, mode), RunEnd(batches, H1, start);
      At(st.Bars(D1), b) == if b + FIRST <= AlignDown(end, FIRST) then Group(st.Bars(H1), b, b + FIRST, mode) else None
  {
    EmptyUpToDate(H1, start, mode);
    RunKeepsUpToDate(EMPTY, H1, batches, start, mode);
    HoursDetermine(Run(EMPTY, H1, batches, mode), RunEnd(batches, H1, start), mode, b);
  }
}
