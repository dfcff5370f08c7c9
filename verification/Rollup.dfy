/** The bar tables of one symbol and the coarser tables that every insertion refreshes. */
module Rollup {
  import opened Basics
  import opened Bars

  datatype TimeFrame = M1 | M5 | M15 | H1 | D1

  function MSecs(tf: TimeFrame): (ms: int)
    ensures ms > 0 && 86400000 % ms == 0
  {
    match tf
    case M1 => 60000
    case M5 => 300000
    case M15 => 900000
    case H1 => 3600000
    case D1 => 86400000
  }

  /** A stored time frame and the one it is aggregated from. */
  datatype Agg = Agg(tf: TimeFrame, source: Option<TimeFrame>)

  const AGG_LIST: seq<Agg> :=
    [Agg(M1, None), Agg(M5, Some(M1)), Agg(M15, Some(M5)), Agg(H1, None), Agg(D1, Some(H1))]

  /** A table to refresh from another one. */
  datatype Job = Job(tf: TimeFrame, source: TimeFrame)

  /** The recorded range of a table. */
  datatype Range = Range(start: int, stop: int)

  datatype Store = Store(bars: map<TimeFrame, Table>, ranges: map<TimeFrame, Range>) {
    function Bars(tf: TimeFrame): Table {
      if tf in bars then bars[tf] else map[]
    }

    function RangeOf(tf: TimeFrame): Range {
      if tf in ranges then ranges[tf] else Range(0, 0)
    }
  }

  const EMPTY: Store := Store(map[], map[])

  // ---------------------------------------------------------------- recorded ranges

  lemma Bounds(keys: set<int>) returns (lo: int, hi: int)
    requires keys != {}
    ensures lo in keys && hi in keys && forall k :: k in keys ==> lo <= k <= hi
    decreases |keys|
  {
    var x := Element(keys);
    lo, hi := x, x;
    var rest := keys - {x};
    assert forall k :: k in keys <==> k == x || k in rest;
    if rest != {} {
      lo, hi := Bounds(rest);
      lo, hi := Min(lo, x), Max(hi, x);
    }
  }

  function MinKey(t: Table): (m: int)
    requires t != map[]
    ensures m in t && forall k :: k in t ==> m <= k
  {
    assert exists m :: m in t && forall k :: k in t ==> m <= k by {
      assert t.Keys != {};
      var lo, hi := Bounds(t.Keys);
      assert lo in t;
    }
    var m :| m in t && forall k :: k in t ==> m <= k;
    m
  }

  function MaxKey(t: Table): (m: int)
    requires t != map[]
    ensures m in t && forall k :: k in t ==> k <= m
  {
    assert exists m :: m in t && forall k :: k in t ==> k <= m by {
      assert t.Keys != {};
      var lo, hi := Bounds(t.Keys);
      assert hi in t;
    }
    var m :| m in t && forall k :: k in t ==> k <= m;
    m
  }

  /** The range the stored bars span; zeros for an empty table. */
  function CalcRange(t: Table, tf: TimeFrame): Range {
    if t == map[] then Range(0, 0)
    else Range(MinKey(t), if MaxKey(t) > 0 then MaxKey(t) + MSecs(tf) else MaxKey(t))
  }

  function WithRange(st: Store, tf: TimeFrame, startMS: int, endMS: int): Store {
    var span := CalcRange(st.Bars(tf), tf);
    if span.start == 0 || span.stop == 0 then
      if startMS == 0 || endMS == 0 then st else st.(ranges := st.ranges[tf := Range(startMS, endMS)])
    else if startMS > 0 && endMS > 0 then
      st.(ranges := st.ranges[tf := Range(Min(span.start, startMS), Max(span.stop, endMS))])
    else
      st.(ranges := st.ranges[tf := span])
  }

  /**
   * The recorded range encloses every stored bar and the given range, and both of its ends are an end of one of these,
   * whatever was recorded before; an empty table records the given range, if there is one.
   */
  lemma RangeHolds(st: Store, tf: TimeFrame, startMS: int, endMS: int)
    requires forall k :: k in st.Bars(tf) ==> k > 0
    ensures var t, r, given := st.Bars(tf), WithRange(st, tf, startMS, endMS).RangeOf(tf), startMS > 0 && endMS > 0;
      && (t != map[] ==>
            && (forall k :: k in t ==> r.start <= k && k + MSecs(tf) <= r.stop)
            && (given ==> r.start <= startMS && endMS <= r.stop)
            && (r.start in t || (given && r.start == startMS))
            && (r.stop - MSecs(tf) in t || (given && r.stop == endMS)))
      && (t == map[] ==> r == if startMS != 0 && endMS != 0 then Range(startMS, endMS) else st.RangeOf(tf))
    ensures WithRange(st, tf, startMS, endMS).bars == st.bars
    ensures forall other :: other != tf ==> WithRange(st, tf, startMS, endMS).RangeOf(other) == st.RangeOf(other)
  {
  }

  // ---------------------------------------------------------------- refreshing a coarser table

  /** The grouping query over the bars of [lo, hi): one row for each bucket that has a bar there. */
  function Grouped(src: Table, lo: int, hi: int, tf: int, mode: InfoBy): Table
    requires tf > 0
  {
    map b | lo - tf < b < hi && b % tf == 0 && Group(src, Max(b, lo), Min(b + tf, hi), mode).Some?
      :: Group(src, Max(b, lo), Min(b + tf, hi), mode).value
  }

  /** A bucket has a row exactly when one of the bars of the range starts in it, made of the bars that do. */
  lemma GroupedExactly(src: Table, lo: int, hi: int, tf: int, mode: InfoBy, b: int)
    requires tf > 0
    ensures b in Grouped(src, lo, hi, tf, mode) <==>
      b % tf == 0 && exists t :: t in src && lo <= t < hi && b <= t < b + tf
    ensures At(Grouped(src, lo, hi, tf, mode), b) ==
      if b % tf == 0 then Group(src, Max(b, lo), Min(b + tf, hi), mode) else None
  {
    GroupNone(src, Max(b, lo), Min(b + tf, hi), mode);
  }

  /** The time range a refresh of a coarser table groups; None when there is nothing new to group. */
  function RefreshRange(tf: int, known: Range, orgStart: int, orgEnd: int): Option<Range>
    requires tf > 0
  {
    var startMS := AlignDown(orgStart, tf);
    var endMS := AlignDown(orgEnd, tf);
    if startMS == endMS && endMS < orgStart then None
    else if known.start > 0 && known.stop > known.start then
      Some(Range(Min(startMS - tf, known.stop), Max(endMS, known.start)))
    else Some(Range(startMS - tf, endMS))
  }

  /** The rows of the grouping query replace or join those of the coarser table. */
  function WithRows(st: Store, item: Job, r: Range, mode: InfoBy): Store {
    var rows := Grouped(st.Bars(item.source), r.start, r.stop, MSecs(item.tf), mode);
    st.(bars := st.bars[item.tf := st.Bars(item.tf) + rows])
  }

  function Refresh(st: Store, item: Job, orgStart: int, orgEnd: int, mode: InfoBy): Store {
    var tf := MSecs(item.tf);
    match RefreshRange(tf, st.RangeOf(item.tf), orgStart, orgEnd)
    case None => st
    case Some(r) =>
      WithRange(WithRows(st, item, r, mode), item.tf, AlignDown(orgStart, tf), r.stop)
  }

  /** Of two multiples below a time, the one that is less than a frame below it is not the smaller one. */
  lemma SameMultipleOrder(a: int, t: int, end: int, tf: int)
    requires tf > 0 && a % tf == 0 && t % tf == 0 && t <= end < a + tf
    ensures t <= a
  {
    if t > a {
      SameMultiple(t, a, tf);
    }
  }

  /** There is nothing to group exactly when no bucket ends within the times that changed. */
  lemma SkipsExactly(tf: int, known: Range, orgStart: int, orgEnd: int)
    requires tf > 0 && orgStart <= orgEnd
    ensures RefreshRange(tf, known, orgStart, orgEnd).None? <==> forall t :: orgStart <= t <= orgEnd ==> t % tf != 0
  {
    hide AlignDown;
    var s, e := AlignDown(orgStart, tf), AlignDown(orgEnd, tf);
    SameMultipleOrder(e, s, orgEnd, tf);
    if e < orgStart {
      SameMultipleOrder(s, e, orgStart, tf);
      forall t | orgStart <= t <= orgEnd
        ensures t % tf != 0
      {
        if t % tf == 0 {
          SameMultipleOrder(e, t, orgEnd, tf);
          assert false;
        }
      }
    } else {
      assert e % tf == 0 && orgStart <= e <= orgEnd;
    }
  }

  /** The recorded range of a table, if it has one. */
  predicate Recorded(known: Range) {
    0 < known.start < known.stop
  }

  /** The whole bucket lies in the changed times, with one bucket before, or between these and the recorded range. */
  predicate Regrouped(known: Range, s: int, e: int, tf: int, b: int) {
    || (s - tf <= b && b + tf <= e)
    || (Recorded(known) && ((known.stop <= b && b + tf <= e) || (s - tf <= b && b + tf <= known.start)))
  }

  /** The bucket lies before or behind everything that is grouped. */
  predicate Untouched(known: Range, s: int, e: int, tf: int, b: int) {
    || b + tf <= (if Recorded(known) then Min(s - tf, known.stop) else s - tf)
    || b >= (if Recorded(known) then Max(e, known.start) else e)
  }

  /**
   * A refresh groups the buckets of the changed times again, and all that lie between them and what was grouped before,
   * on both sides; a bucket without bars keeps its row, and so does every one that it does not reach.
   */
  lemma RefreshExactly(st: Store, item: Job, orgStart: int, orgEnd: int, mode: InfoBy, b: int)
    requires RefreshRange(MSecs(item.tf), st.RangeOf(item.tf), orgStart, orgEnd).Some?
    ensures var tf, known := MSecs(item.tf), st.RangeOf(item.tf);
      var s, e := AlignDown(orgStart, tf), AlignDown(orgEnd, tf);
      var was, now := st.Bars(item.tf), Refresh(st, item, orgStart, orgEnd, mode).Bars(item.tf);
      var group := Group(st.Bars(item.source), b, b + tf, mode);
      && (b % tf == 0 && Regrouped(known, s, e, tf, b) ==> At(now, b) == if group.Some? then group else At(was, b))
      && (b % tf != 0 || Untouched(known, s, e, tf, b) ==> At(now, b) == At(was, b))
    ensures forall other :: other != item.tf ==>
      Refresh(st, item, orgStart, orgEnd, mode).Bars(other) == st.Bars(other)
  {
    hide Grouped;
    var tf, known := MSecs(item.tf), st.RangeOf(item.tf);
    var r := RefreshRange(tf, known, orgStart, orgEnd).value;
    GroupedExactly(st.Bars(item.source), r.start, r.stop, tf, mode, b);
    RowsAt(st, item, r, mode, b);
    var e := AlignDown(orgEnd, tf);
    assert WithRange(WithRows(st, item, r, mode), item.tf, AlignDown(orgStart, tf), r.stop).bars
        == WithRows(st, item, r, mode).bars;
  }

  lemma RowsAt(st: Store, item: Job, r: Range, mode: InfoBy, b: int)
    ensures var rows := Grouped(st.Bars(item.source), r.start, r.stop, MSecs(item.tf), mode);
      At(WithRows(st, item, r, mode).Bars(item.tf), b) == if b in rows then Some(rows[b]) else At(st.Bars(item.tf), b)
    ensures forall other :: other != item.tf ==> WithRows(st, item, r, mode).Bars(other) == st.Bars(other)
  {
  }

  /** The tables to refresh, finest first, from index `i` of the list on. */
  function AggJobs(tf: TimeFrame, startMS: int, endMS: int, i: nat, aggTfs: set<TimeFrame>): seq<Job>
    decreases |AGG_LIST| - i
  {
    if i >= |AGG_LIST| then []
    else
      var item := AGG_LIST[i];
      if Chosen(tf, startMS, endMS, item, aggTfs)
      then [Job(item.tf, item.source.value)] + AggJobs(tf, startMS, endMS, i + 1, aggTfs + {item.tf})
      else AggJobs(tf, startMS, endMS, i + 1, aggTfs)
  }

  method ChooseJobs(tf: TimeFrame, startMS: int, endMS: int) returns (aggJobs: seq<Job>)
    ensures aggJobs == AggJobs(tf, startMS, endMS, 0, {tf})
  {
    var tfMSecs := MSecs(tf);
    var aggTfs := {tf};
    ghost var all := AggJobs(tf, startMS, endMS, 0, {tf});
    aggJobs := [];
    var i := 0;
    while i < |AGG_LIST|
      invariant 0 <= i <= |AGG_LIST|
      invariant aggJobs + AggJobs(tf, startMS, endMS, i, aggTfs) == all
    {
      var item := AGG_LIST[i];
      JobsStep(tf, startMS, endMS, i, aggTfs, aggJobs);
      i := i + 1;
      if MSecs(item.tf) <= tfMSecs {
        continue;
      }
      var startAlign := AlignDown(startMS, MSecs(item.tf));
      var endAlign := AlignDown(endMS, MSecs(item.tf));
      if item.source.Some? && item.source.value in aggTfs && startAlign < endAlign {
        aggTfs := aggTfs + {item.tf};
        aggJobs := aggJobs + [Job(item.tf, item.source.value)];
      }
    }
  }

  predicate Chosen(tf: TimeFrame, startMS: int, endMS: int, item: Agg, aggTfs: set<TimeFrame>) {
    && MSecs(item.tf) > MSecs(tf) && item.source.Some? && item.source.value in aggTfs
    && AlignDown(startMS, MSecs(item.tf)) < AlignDown(endMS, MSecs(item.tf))
  }

  lemma JobsStep(tf: TimeFrame, startMS: int, endMS: int, i: nat, aggTfs: set<TimeFrame>, jobs: seq<Job>)
    requires i < |AGG_LIST|
    ensures var item := AGG_LIST[i];
      jobs + AggJobs(tf, startMS, endMS, i, aggTfs) ==
        if Chosen(tf, startMS, endMS, item, aggTfs)
        then jobs + [Job(item.tf, item.source.value)] + AggJobs(tf, startMS, endMS, i + 1, aggTfs + {item.tf})
        else jobs + AggJobs(tf, startMS, endMS, i + 1, aggTfs)
  {
    var item := AGG_LIST[i];
    if Chosen(tf, startMS, endMS, item, aggTfs) {
      ConcatAssoc(jobs, [Job(item.tf, item.source.value)], AggJobs(tf, startMS, endMS, i + 1, aggTfs + {item.tf}));
    }
  }

  function RefreshAll(st: Store, jobs: seq<Job>, n: nat, startMS: int, endMS: int, mode: InfoBy): Store
    requires n <= |jobs|
  {
    if n == 0 then st else Refresh(RefreshAll(st, jobs, n - 1, startMS, endMS, mode), jobs[n - 1], startMS, endMS, mode)
  }

  function WithBig(st: Store, tf: TimeFrame, startMS: int, endMS: int, mode: InfoBy): Store {
    var jobs := AggJobs(tf, startMS, endMS, 0, {tf});
    RefreshAll(st, jobs, |jobs|, startMS, endMS, mode)
  }

  // ---------------------------------------------------------------- inserting bars

  function AddFirst(t: Table, arr: seq<Kline>, n: nat): Table
    requires n <= |arr|
  {
    if n == 0 then t else AddFirst(t, arr, n - 1)[arr[n - 1].time := arr[n - 1].bar]
  }

  predicate Clash(t: Table, arr: seq<Kline>) {
    exists i :: 0 <= i < |arr| && arr[i].time in t
  }

  /** The table after a bulk insert; when a time is stored already, the whole span of the batch is replaced. */
  function Inserted(t: Table, arr: seq<Kline>, startMS: int, endMS: int): Table {
    AddFirst(if Clash(t, arr) then map k | k in t && !(startMS <= k < endMS) :: t[k] else t, arr, |arr|)
  }

  ghost predicate Rising(arr: seq<Kline>) {
    forall i, j :: 0 <= i < j < |arr| ==> arr[i].time < arr[j].time
  }

  /** A batch is stored as far as its first `n` bars; the other times are as they were. */
  lemma {:induction false} AddFirstAt(t: Table, arr: seq<Kline>, n: nat, k: int)
    requires n <= |arr| && Rising(arr)
    ensures forall i :: 0 <= i < n ==> At(AddFirst(t, arr, n), arr[i].time) == Some(arr[i].bar)
    ensures (forall i :: 0 <= i < n ==> arr[i].time != k) ==> At(AddFirst(t, arr, n), k) == At(t, k)
  {
    if n > 0 {
      AddFirstAt(t, arr, n - 1, k);
    }
  }

  /**
   * Every bar of a batch is stored at its time, also in the place of an older one. Outside its span nothing changes,
   * and
   * inside an old row at another time stays, if and only if no time of the batch was stored.
   */
  lemma InsertedExactly(t: Table, arr: seq<Kline>, startMS: int, endMS: int, k: int)
    requires Rising(arr) && arr != [] && startMS == arr[0].time && arr[|arr| - 1].time < endMS
    ensures var r := Inserted(t, arr, startMS, endMS);
      && (forall i :: 0 <= i < |arr| ==> At(r, arr[i].time) == Some(arr[i].bar))
      && (!(startMS <= k < endMS) ==> At(r, k) == At(t, k))
      && (k in t && startMS <= k < endMS && (forall i :: 0 <= i < |arr| ==> arr[i].time != k) ==>
            (At(r, k) == At(t, k) <==> !Clash(t, arr)) && (k !in r <==> Clash(t, arr)))
      && (k !in t && (forall i :: 0 <= i < |arr| ==> arr[i].time != k) ==> k !in r)
  {
    var base := if Clash(t, arr) then map j | j in t && !(startMS <= j < endMS) :: t[j] else t;
    AddFirstAt(base, arr, |arr|, k);
    assert forall i :: 0 <= i < |arr| ==> startMS <= arr[i].time < endMS;
    assert At(base, k) == if Clash(t, arr) && startMS <= k < endMS then None else At(t, k);
    assert k in Inserted(t, arr, startMS, endMS) <==> At(Inserted(t, arr, startMS, endMS), k).Some?;
  }

  function WithKlines(st: Store, tf: TimeFrame, arr: seq<Kline>, aggBig: bool, mode: InfoBy): Store {
    if arr == [] then st
    else
      var startMS, endMS := arr[0].time, arr[|arr| - 1].time + MSecs(tf);
      var st1 := st.(bars := st.bars[tf := Inserted(st.Bars(tf), arr, startMS, endMS)]);
      var st2 := WithRange(st1, tf, startMS, endMS);
      if aggBig then WithBig(st2, tf, startMS, endMS, mode) else st2
  }

  class KlineStore {
    var db: Store
    const mode: InfoBy

    constructor (mode: InfoBy)
      ensures db == EMPTY && this.mode == mode
    {
      db := EMPTY;
      this.mode := mode;
    }

    /** Records the effective range of a table after a change of [startMS, endMS). */
    method UpdateKLineRange(tf: TimeFrame, startMS: int, endMS: int)
      modifies this
      ensures db == WithRange(old(db), tf, startMS, endMS)
    {
      var span := CalcRange(db.Bars(tf), tf);
      var realStart, realEnd := span.start, span.stop;
      if realStart == 0 || realEnd == 0 {
        if startMS == 0 || endMS == 0 {
          return;
        }
        realStart, realEnd := startMS, endMS;
      } else if startMS > 0 && endMS > 0 {
        realStart := Min(realStart, startMS);
        realEnd := Max(realEnd, endMS);
      }
      db := db.(ranges := db.ranges[tf := Range(realStart, realEnd)]);
    }

    method RefreshAgg(item: Job, orgStart: int, orgEnd: int)
      modifies this
      ensures db == Refresh(old(db), item, orgStart, orgEnd, mode)
    {
      var tf := MSecs(item.tf);
      var startMS := AlignDown(orgStart, tf);
      var endMS := AlignDown(orgEnd, tf);
      if startMS == endMS && endMS < orgStart {
        return;
      }
      var aggStart := startMS - tf;
      var known := db.RangeOf(item.tf);
      if known.start > 0 && known.stop > known.start {
        aggStart := Min(aggStart, known.stop);
        endMS := Max(endMS, known.start);
      }
      assert RefreshRange(tf, known, orgStart, orgEnd) == Some(Range(aggStart, endMS));
      Regroup(item, Range(aggStart, endMS));
      UpdateKLineRange(item.tf, startMS, endMS);
    }

    /** Runs the grouping query over the range and writes its rows. */
    method Regroup(item: Job, r: Range)
      modifies this
      ensures db == WithRows(old(db), item, r, mode)
    {
      var rows := Grouped(db.Bars(item.source), r.start, r.stop, MSecs(item.tf), mode);
      db := db.(bars := db.bars[item.tf := db.Bars(item.tf) + rows]);
    }

    /** Refreshes, in order, the tables whose bars the change completes. */
    method UpdateBigHyper(tf: TimeFrame, startMS: int, endMS: int)
      modifies this
      ensures db == WithBig(old(db), tf, startMS, endMS, mode)
    {
      var aggJobs := ChooseJobs(tf, startMS, endMS);
      RefreshJobs(aggJobs, startMS, endMS);
    }

    method RefreshJobs(aggJobs: seq<Job>, startMS: int, endMS: int)
      modifies this
      ensures db == RefreshAll(old(db), aggJobs, |aggJobs|, startMS, endMS, mode)
    {
      ghost var was := db;
      var i := 0;
      while i < |aggJobs|
        invariant 0 <= i <= |aggJobs|
        invariant db == RefreshAll(was, aggJobs, i, startMS, endMS, mode)
      {
        RefreshNext(was, aggJobs, i, startMS, endMS);
        i := i + 1;
      }
    }

    method RefreshNext(ghost was: Store, aggJobs: seq<Job>, i: nat, startMS: int, endMS: int)
      requires i < |aggJobs| && db == RefreshAll(was, aggJobs, i, startMS, endMS, mode)
      modifies this
      ensures db == RefreshAll(was, aggJobs, i + 1, startMS, endMS, mode)
    {
      RefreshAgg(aggJobs[i], startMS, endMS);
    }

    /**
     * Inserts a batch and brings ranges and coarser tables up to date; a symbol locked by another insert is skipped.
     */
    method InsertKLinesAuto(tf: TimeFrame, arr: seq<Kline>, aggBig: bool, locked: bool) returns (num: int)
      requires Rising(arr)
      modifies this
      ensures num == if locked then 0 else |arr|
      ensures db == if locked then old(db) else WithKlines(old(db), tf, arr, aggBig, mode)
    {
      if |arr| == 0 || locked {
        return 0;
      }
      var startMS := arr[0].time;
      var endMS := arr[|arr| - 1].time + MSecs(tf);
      InsertKLines(tf, arr);
      UpdateKLineRange(tf, startMS, endMS);
      if aggBig {
        UpdateBigHyper(tf, startMS, endMS);
      }
      num := |arr|;
    }

    method InsertKLines(tf: TimeFrame, arr: seq<Kline>)
      requires Rising(arr) && arr != []
      modifies this
      ensures var startMS, endMS := arr[0].time, arr[|arr| - 1].time + MSecs(tf);
        db == old(db).(bars := old(db).bars[tf := Inserted(old(db).Bars(tf), arr, startMS, endMS)])
    {
      var t := db.Bars(tf);
      var startMS, endMS := arr[0].time, arr[|arr| - 1].time + MSecs(tf);
      if Clash(t, arr) {
        t := map k | k in t && !(startMS <= k < endMS) :: t[k];
      }
      ghost var base := t;
      var i := 0;
      while i < |arr|
        invariant 0 <= i <= |arr|
        invariant t == AddFirst(base, arr, i)
      {
        t := t[arr[i].time := arr[i].bar];
        i := i + 1;
      }
      db := db.(bars := db.bars[tf := t]);
    }
  }
}
