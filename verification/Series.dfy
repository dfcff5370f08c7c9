/** The bars of one market in time order, and the parts of such a series. */
module Series {
  import opened Basics
  import opened Bars

  lemma LastOnGrid(t: int, top: int, tf: int)
    requires tf > 0 && t % tf == 0 && top % tf == 0 && t < top
    ensures t + tf <= top
  {
    if t + tf > top {
      SameMultiple(t, top, tf);
    }
  }

  /** The bars of one market, by start time, all on the grid of the time frame. */
  ghost predicate Market(bars: seq<Kline>, tf: int) {
    && tf > 0
    && (forall i, j :: 0 <= i < j < |bars| ==> bars[i].time < bars[j].time)
    && (forall i :: 0 <= i < |bars| ==> bars[i].time % tf == 0)
  }

  /** How many of the first `n` bars start before `t`. */
  function CountBefore(bars: seq<Kline>, n: nat, t: int): (c: nat)
    requires n <= |bars|
    ensures c <= n
  {
    if n == 0 then 0 else CountBefore(bars, n - 1, t) + if bars[n - 1].time < t then 1 else 0
  }

  function IndexOf(bars: seq<Kline>, t: int): (c: nat)
    ensures c <= |bars|
  {
    CountBefore(bars, |bars|, t)
  }

  /** In a market the bars before `t` come first. */
  lemma {:induction false} CountSplits(bars: seq<Kline>, n: nat, t: int)
    requires n <= |bars| && forall i, j :: 0 <= i < j < |bars| ==> bars[i].time < bars[j].time
    ensures forall i :: 0 <= i < n ==> (bars[i].time < t <==> i < CountBefore(bars, n, t))
  {
    if n > 0 {
      CountSplits(bars, n - 1, t);
    }
  }

  /** The bars that start in [lo, hi). */
  function Slice(bars: seq<Kline>, lo: int, hi: int): seq<Kline> {
    if IndexOf(bars, lo) <= IndexOf(bars, hi) then bars[IndexOf(bars, lo)..IndexOf(bars, hi)] else []
  }

  lemma SliceMember(bars: seq<Kline>, tf: int, lo: int, hi: int, k: Kline)
    requires Market(bars, tf)
    ensures k in Slice(bars, lo, hi) <==> k in bars && lo <= k.time < hi
  {
    CountSplits(bars, |bars|, lo);
    CountSplits(bars, |bars|, hi);
    var from, to := IndexOf(bars, lo), IndexOf(bars, hi);
    if k in bars && lo <= k.time < hi {
      var i :| 0 <= i < |bars| && bars[i] == k;
      assert from <= i < to;
      assert bars[from..to][i - from] == k;
    }
    if k in Slice(bars, lo, hi) {
      var j :| 0 <= j < |bars[from..to]| && bars[from..to][j] == k;
      assert bars[from + j] == k;
    }
  }

  lemma IndexMonotone(bars: seq<Kline>, tf: int, lo: int, hi: int)
    requires Market(bars, tf) && lo <= hi
    ensures IndexOf(bars, lo) <= IndexOf(bars, hi)
  {
    CountMonotone(bars, |bars|, lo, hi);
  }

  lemma {:induction false} CountMonotone(bars: seq<Kline>, n: nat, lo: int, hi: int)
    requires n <= |bars| && lo <= hi
    ensures CountBefore(bars, n, lo) <= CountBefore(bars, n, hi)
  {
    if n > 0 {
      CountMonotone(bars, n - 1, lo, hi);
    }
  }

  lemma SliceConcat(bars: seq<Kline>, tf: int, lo: int, mid: int, hi: int)
    requires Market(bars, tf) && lo <= mid <= hi
    ensures Slice(bars, lo, mid) + Slice(bars, mid, hi) == Slice(bars, lo, hi)
  {
    IndexMonotone(bars, tf, lo, mid);
    IndexMonotone(bars, tf, mid, hi);
  }

  /** Bars `j - i` places apart are at least that many frames apart. */
  lemma {:induction false} Spacing(bars: seq<Kline>, tf: int, i: nat, j: nat)
    requires Market(bars, tf) && i <= j < |bars|
    ensures bars[j].time >= bars[i].time + tf * (j - i)
    decreases j
  {
    if i < j {
      Spacing(bars, tf, i, j - 1);
      LastOnGrid(bars[j - 1].time, bars[j].time, tf);
      assert tf * (j - i) == tf * (j - 1 - i) + tf;
    }
  }

  /** The index of a time that lies between two neighbours. */
  lemma IndexBetween(bars: seq<Kline>, tf: int, t: int, k: nat)
    requires Market(bars, tf) && k <= |bars|
    requires (k > 0 ==> bars[k - 1].time < t) && (k < |bars| ==> t <= bars[k].time)
    ensures IndexOf(bars, t) == k
  {
    CountIs(bars, |bars|, t, k);
  }

  lemma {:induction false} CountIs(bars: seq<Kline>, n: nat, t: int, k: nat)
    requires k <= n <= |bars|
    requires forall i :: 0 <= i < k ==> bars[i].time < t
    requires forall i :: k <= i < n ==> t <= bars[i].time
    ensures CountBefore(bars, n, t) == k
    decreases n
  {
    if n > k {
      CountIs(bars, n - 1, t, k);
    } else if n > 0 {
      CountIs(bars, n - 1, t, k - 1);
    }
  }

  /** From a bar at or after `t` on, no bar starts before `t`. */
  lemma IndexAtMost(bars: seq<Kline>, tf: int, t: int, k: nat)
    requires Market(bars, tf) && k <= |bars| && (k < |bars| ==> t <= bars[k].time)
    ensures IndexOf(bars, t) <= k
  {
    if k < |bars| {
      CountSplits(bars, |bars|, t);
    }
  }
}
