/** Price bars, and grouping the bars of a table into coarser ones. */
module Bars {
  import opened Basics

  datatype Option<+T> = None | Some(value: T)

  /** Everything a bar stores besides its start time. */
  datatype Bar = Bar(open: real, high: real, low: real, close: real, volume: real, info: real)

  datatype Kline = Kline(time: int, bar: Bar)

  /** How the extra column is aggregated. */
  datatype InfoBy = LastInfo | SumInfo

  /** The bars of one series by start time. */
  type Table = map<int, Bar>

  function MaxReal(a: real, b: real): real { if a < b then b else a }

  function MinReal(a: real, b: real): real { if b < a then b else a }

  /** A bar followed by a later one, taken together. */
  function Join(a: Bar, b: Bar, mode: InfoBy): Bar {
    Bar(a.open, MaxReal(a.high, b.high), MinReal(a.low, b.low), b.close, a.volume + b.volume,
        if mode == SumInfo then a.info + b.info else b.info)
  }

  function JoinMaybe(a: Option<Bar>, b: Option<Bar>, mode: InfoBy): Option<Bar> {
    if a.None? then b else if b.None? then a else Some(Join(a.value, b.value, mode))
  }

  function At(src: Table, t: int): Option<Bar> {
    if t in src then Some(src[t]) else None
  }

  /** All bars that start in [lo, hi) taken together: first open, highest high, lowest low, last close, total volume. */
  function Group(src: Table, lo: int, hi: int, mode: InfoBy): Option<Bar>
    decreases hi - lo
  {
    if lo >= hi then None else JoinMaybe(Group(src, lo, hi - 1, mode), At(src, hi - 1), mode)
  }

  lemma {:induction false} GroupSplit(src: Table, lo: int, mid: int, hi: int, mode: InfoBy)
    requires lo <= mid <= hi
    ensures Group(src, lo, hi, mode) == JoinMaybe(Group(src, lo, mid, mode), Group(src, mid, hi, mode), mode)
    decreases hi - mid
  {
    if mid < hi {
      GroupSplit(src, lo, mid, hi - 1, mode);
    }
  }

  /** Grouping depends on the bars of the range only. */
  lemma {:induction false} GroupSame(a: Table, b: Table, lo: int, hi: int, mode: InfoBy)
    requires forall t :: lo <= t < hi ==> At(a, t) == At(b, t)
    ensures Group(a, lo, hi, mode) == Group(b, lo, hi, mode)
    decreases hi - lo
  {
    if lo < hi {
      GroupSame(a, b, lo, hi - 1, mode);
    }
  }

  lemma {:induction false} GroupNone(src: Table, lo: int, hi: int, mode: InfoBy)
    ensures Group(src, lo, hi, mode).None? <==> forall t :: lo <= t < hi ==> t !in src
    decreases hi - lo
  {
    if lo < hi {
      GroupNone(src, lo, hi - 1, mode);
    }
  }

  /** The total of a column over the bars of a range. */
  function Volume(src: Table, lo: int, hi: int): real
    decreases hi - lo
  {
    if lo >= hi then 0.0 else Volume(src, lo, hi - 1) + if hi - 1 in src then src[hi - 1].volume else 0.0
  }

  function InfoTotal(src: Table, lo: int, hi: int): real
    decreases hi - lo
  {
    if lo >= hi then 0.0 else InfoTotal(src, lo, hi - 1) + if hi - 1 in src then src[hi - 1].info else 0.0
  }

  /** What a grouping query computes for one group: `first` and `last` are its earliest and latest bars. */
  ghost predicate IsGroup(src: Table, lo: int, hi: int, mode: InfoBy, first: int, last: int, g: Bar) {
    && lo <= first <= last < hi && first in src && last in src
    && (forall t :: lo <= t < hi && t in src ==> first <= t <= last)
    && g.open == src[first].open && g.close == src[last].close
    && (forall t :: lo <= t < hi && t in src ==> src[t].high <= g.high && g.low <= src[t].low)
    && (exists t :: lo <= t < hi && t in src && src[t].high == g.high)
    && (exists t :: lo <= t < hi && t in src && src[t].low == g.low)
    && g.volume == Volume(src, lo, hi)
    && g.info == if mode == SumInfo then InfoTotal(src, lo, hi) else src[last].info
  }

  lemma {:induction false} VolumeNone(src: Table, lo: int, hi: int)
    requires forall t :: lo <= t < hi ==> t !in src
    ensures Volume(src, lo, hi) == 0.0 && InfoTotal(src, lo, hi) == 0.0
    decreases hi - lo
  {
    if lo < hi {
      VolumeNone(src, lo, hi - 1);
    }
  }

  /** A group is empty exactly when the range holds no bar, and otherwise has the meaning of the query. */
  lemma {:induction false} GroupMeaning(src: Table, lo: int, hi: int, mode: InfoBy) returns (first: int, last: int)
    requires Group(src, lo, hi, mode).Some?
    ensures IsGroup(src, lo, hi, mode, first, last, Group(src, lo, hi, mode).value)
    decreases hi - lo
  {
    var t := hi - 1;
    if Group(src, lo, t, mode).None? {
      GroupNone(src, lo, t, mode);
      VolumeNone(src, lo, t);
      first, last := t, t;
    } else {
      first, last := GroupMeaning(src, lo, t, mode);
      if t in src {
        GroupMeaningStep(src, lo, hi, mode, first, last);
        last := t;
      }
    }
  }

  lemma GroupMeaningStep(src: Table, lo: int, hi: int, mode: InfoBy, first: int, last: int)
    requires hi - 1 in src && Group(src, lo, hi - 1, mode).Some?
    requires IsGroup(src, lo, hi - 1, mode, first, last, Group(src, lo, hi - 1, mode).value)
    ensures IsGroup(src, lo, hi, mode, first, hi - 1, Group(src, lo, hi, mode).value)
  {
    var g, b := Group(src, lo, hi - 1, mode).value, src[hi - 1];
    var high :| lo <= high < hi - 1 && high in src && src[high].high == g.high;
    var low :| lo <= low < hi - 1 && low in src && src[low].low == g.low;
    var r := Group(src, lo, hi, mode).value;
    assert r == Join(g, b, mode);
    assert src[if g.high < b.high then hi - 1 else high].high == r.high;
    assert src[if b.low < g.low then hi - 1 else low].low == r.low;
  }

  // ---------------------------------------------------------------- coarser tables

  /** From `lo` to `hi`, `big` holds exactly the groups of the buckets of `src`. */
  ghost predicate Agrees(src: Table, big: Table, tf: int, lo: int, hi: int, mode: InfoBy)
    requires tf > 0
  {
    forall b :: lo <= b < hi ==> At(big, b) == if b % tf == 0 then Group(src, b, b + tf, mode) else None
  }

  /** Grouping the groups is grouping the bars. */
  lemma {:induction false} TwoStep(src: Table, mid: Table, tf: int, lo: int, hi: int, mode: InfoBy)
    requires tf > 0 && lo % tf == 0 && hi % tf == 0 && lo <= hi && Agrees(src, mid, tf, lo, hi, mode)
    ensures Group(mid, lo, hi, mode) == Group(src, lo, hi, mode)
    decreases hi - lo
  {
    if lo < hi {
      var b := hi - tf;
      ShiftMultiple(hi, -1, tf);
      if b < lo {
        SameMultiple(lo, hi, tf);
      }
      TwoStep(src, mid, tf, lo, b, mode);
      GroupSplit(src, lo, b, hi, mode);
      GroupSplit(mid, lo, b, hi, mode);
      OneBucket(src, mid, tf, b, mode);
    }
  }

  /** A bucket of the middle table holds one bar, at its start. */
  lemma OneBucket(src: Table, mid: Table, tf: int, b: int, mode: InfoBy)
    requires tf > 0 && b % tf == 0 && Agrees(src, mid, tf, b, b + tf, mode)
    ensures Group(mid, b, b + tf, mode) == Group(src, b, b + tf, mode)
  {
    GroupSplit(mid, b, b + 1, b + tf, mode);
    assert Group(mid, b, b, mode) == None;
    assert Group(mid, b, b + 1, mode) == At(mid, b);
    forall t | b + 1 <= t < b + tf ensures t !in mid {
      if t % tf == 0 {
        SameMultiple(t, b, tf);
      }
      assert At(mid, t) == None;
    }
    GroupNone(mid, b + 1, b + tf, mode);
  }
}
