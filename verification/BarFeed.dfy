/** Handing bars of one time frame to the strategies: finished ones once, the unfinished last one when it is done. */
module BarFeed {
  import opened Basics
  import opened Bars

  /** The unfinished bar that is kept back, and the time from which bars are new. */
  datatype Cache = Cache(waitBar: Option<Kline>, nextMS: int)

  /** The bars of one delivery, and whether the last of them is finished. */
  datatype Delivery = Delivery(bars: seq<Kline>, lastOk: bool)

  ghost predicate Spaced(bars: seq<Kline>, tf: int) {
    forall i, j :: 0 <= i < j < |bars| ==> bars[i].time + tf <= bars[j].time
  }

  function DropBefore(bars: seq<Kline>, time: int): seq<Kline> {
    if bars != [] && bars[0].time < time then DropBefore(bars[1..], time) else bars
  }

  /** The bar kept back goes first, unless the delivery begins at it or before it. */
  function WithWaiting(c: Cache, bars: seq<Kline>): seq<Kline>
    requires bars != []
  {
    if c.waitBar.Some? && c.waitBar.value.time < bars[0].time then [c.waitBar.value] + bars else bars
  }

  /** The bars that a delivery finishes. */
  function Finished(c: Cache, d: Delivery): seq<Kline> {
    if d.bars == [] then []
    else
      var all := WithWaiting(c, d.bars);
      DropBefore(if d.lastOk then all else all[..|all| - 1], c.nextMS)
  }

  function After(c: Cache, d: Delivery, tf: int): Cache {
    if d.bars == [] then c
    else
      var done := Finished(c, d);
      Cache(if d.lastOk then None else Some(d.bars[|d.bars| - 1]),
            if done == [] then c.nextMS else done[|done| - 1].time + tf)
  }

  class PairTFCache {
    const tfMSecs: int
    var waitBar: Option<Kline>
    var nextMS: int
    var latest: Option<Kline>

    constructor (tfMSecs: int, nextMS: int)
      ensures this.tfMSecs == tfMSecs && State() == Cache(None, nextMS)
    {
      this.tfMSecs, this.nextMS := tfMSecs, nextMS;
      waitBar, latest := None, None;
    }

    function State(): Cache
      reads this
    {
      Cache(waitBar, nextMS)
    }

    method OnStateOhlcvs(delivered: seq<Kline>, lastOk: bool) returns (finishBars: seq<Kline>)
      modifies this
      ensures finishBars == Finished(old(State()), Delivery(delivered, lastOk))
      ensures State() == After(old(State()), Delivery(delivered, lastOk), tfMSecs)
      ensures latest == if delivered == [] then old(latest) else Some(delivered[|delivered| - 1])
    {
      if |delivered| == 0 {
        return [];
      }
      latest := Some(delivered[|delivered| - 1]);
      var bars := delivered;
      if waitBar.Some? && waitBar.value.time < bars[0].time {
        bars := [waitBar.value] + bars;
      }
      waitBar := None;
      finishBars := bars;
      if !lastOk {
        finishBars := bars[..|bars| - 1];
        waitBar := latest;
      }
      ghost var all := finishBars;
      while |finishBars| > 0 && finishBars[0].time < nextMS
        invariant DropBefore(finishBars, nextMS) == DropBefore(all, nextMS)
        decreases |finishBars|
      {
        finishBars := finishBars[1..];
      }
      if |finishBars| > 0 {
        nextMS := finishBars[|finishBars| - 1].time + tfMSecs;
      }
    }
  }

  // ---------------------------------------------------------------- nothing twice

  lemma {:induction false} DropFacts(bars: seq<Kline>, time: int, tf: int)
    requires Spaced(bars, tf)
    ensures var r := DropBefore(bars, time);
      && Spaced(r, tf) && (r != [] ==> r[0].time >= time) && (bars != [] && bars[0].time >= time ==> r == bars)
  {
    if bars != [] && bars[0].time < time {
      DropFacts(bars[1..], time, tf);
    }
  }

  /** The start times that bars of a time frame can have: no two of them overlap. */
  ghost predicate IsGrid(grid: iset<int>, tf: int) {
    tf > 0 && forall a, b :: a in grid && b in grid && a < b ==> a + tf <= b
  }

  ghost predicate Ascending(bars: seq<Kline>) {
    forall i, j :: 0 <= i < j < |bars| ==> bars[i].time < bars[j].time
  }

  /** Bars in strictly increasing order on a grid. */
  ghost predicate OnGrid(bars: seq<Kline>, grid: iset<int>) {
    (forall i :: 0 <= i < |bars| ==> bars[i].time in grid) && Ascending(bars)
  }

  ghost function Aligned(tf: int, off: int): iset<int>
    requires tf > 0
  {
    iset t | t % tf == off
  }

  /** The times with the same remainder form a grid. */
  lemma AlignedGrid(tf: int, off: int)
    requires tf > 0
    ensures IsGrid(Aligned(tf, off), tf)
  {
    forall a, b | a % tf == off && b % tf == off && a < b
      ensures a + tf <= b
    {
      var k := b / tf - a / tf;
      assert b - a == tf * k;
      MulBounds(tf, k);
    }
  }

  lemma GridSpaced(bars: seq<Kline>, grid: iset<int>, tf: int)
    requires IsGrid(grid, tf) && OnGrid(bars, grid)
    ensures Spaced(bars, tf)
  {
  }

  ghost predicate WaitsOnGrid(c: Cache, grid: iset<int>) {
    c.waitBar.Some? ==> c.waitBar.value.time in grid
  }

  lemma WithWaitingOnGrid(c: Cache, bars: seq<Kline>, grid: iset<int>)
    requires bars != [] && OnGrid(bars, grid) && WaitsOnGrid(c, grid)
    ensures OnGrid(WithWaiting(c, bars), grid)
  {
  }

  lemma SpacedAppend(a: seq<Kline>, b: seq<Kline>, tf: int)
    requires Spaced(a, tf) && Spaced(b, tf) && tf > 0
    requires a != [] && b != [] ==> a[|a| - 1].time + tf <= b[0].time
    ensures Spaced(a + b, tf)
  {
    forall i, j | 0 <= i < j < |a + b|
      ensures (a + b)[i].time + tf <= (a + b)[j].time
    {
      if i < |a| <= j {
        assert a[i].time <= a[|a| - 1].time;
        assert b[0].time <= b[j - |a|].time;
      }
    }
  }

  lemma SpacedPrefix(bars: seq<Kline>, n: nat, tf: int)
    requires n <= |bars| && Spaced(bars, tf)
    ensures Spaced(bars[..n], tf)
  {
  }

  /** Before old bars are dropped. */
  function Kept(c: Cache, d: Delivery): seq<Kline>
    requires d.bars != []
  {
    var all := WithWaiting(c, d.bars);
    if d.lastOk then all else all[..|all| - 1]
  }

  lemma KeptSpaced(c: Cache, d: Delivery, tf: int, grid: iset<int>)
    requires IsGrid(grid, tf) && WaitsOnGrid(c, grid) && OnGrid(d.bars, grid) && d.bars != []
    ensures Spaced(WithWaiting(c, d.bars), tf) && Spaced(Kept(c, d), tf)
  {
    var all := WithWaiting(c, d.bars);
    WithWaitingOnGrid(c, d.bars, grid);
    GridSpaced(all, grid, tf);
    SpacedPrefix(all, |all| - 1, tf);
  }

  /** Bars that are spaced and new from `start` on, so that the next ones are new from `next` on. */
  ghost predicate NewFrom(out: seq<Kline>, start: int, next: int, tf: int) {
    && Spaced(out, tf)
    && (out != [] ==> out[0].time >= start && next == out[|out| - 1].time + tf)
    && (out == [] ==> next == start)
  }

  /** One delivery hands out spaced bars that are all new. */
  lemma FinishedFacts(c: Cache, d: Delivery, tf: int, grid: iset<int>)
    requires IsGrid(grid, tf) && WaitsOnGrid(c, grid) && OnGrid(d.bars, grid)
    ensures NewFrom(Finished(c, d), c.nextMS, After(c, d, tf).nextMS, tf)
    ensures WaitsOnGrid(After(c, d, tf), grid)
  {
    if d.bars != [] {
      KeptSpaced(c, d, tf, grid);
      DropFacts(Kept(c, d), c.nextMS, tf);
    }
  }

  ghost predicate GridDeliveries(ds: seq<Delivery>, grid: iset<int>) {
    forall k :: 0 <= k < |ds| ==> OnGrid(ds[k].bars, grid)
  }

  function CacheAfter(c: Cache, ds: seq<Delivery>, n: nat, tf: int): Cache
    requires n <= |ds|
  {
    if n == 0 then c else After(CacheAfter(c, ds, n - 1, tf), ds[n - 1], tf)
  }

  /** Everything handed out by the first `n` deliveries. */
  function HandedOut(c: Cache, ds: seq<Delivery>, n: nat, tf: int): seq<Kline>
    requires n <= |ds|
  {
    if n == 0 then [] else HandedOut(c, ds, n - 1, tf) + Finished(CacheAfter(c, ds, n - 1, tf), ds[n - 1])
  }

  lemma NewAppend(a: seq<Kline>, b: seq<Kline>, start: int, middle: int, next: int, tf: int)
    requires tf > 0 && NewFrom(a, start, middle, tf) && NewFrom(b, middle, next, tf)
    ensures NewFrom(a + b, start, next, tf)
  {
    if a == [] {
      assert a + b == b;
    } else if b == [] {
      assert a + b == a;
    } else {
      SpacedAppend(a, b, tf);
      assert (a + b)[0] == a[0] && (a + b)[|a + b| - 1] == b[|b| - 1];
    }
  }

  /** What has been handed out so far is spaced and new. */
  ghost predicate InOrder(c: Cache, ds: seq<Delivery>, n: nat, tf: int, grid: iset<int>)
    requires n <= |ds|
  {
    && NewFrom(HandedOut(c, ds, n, tf), c.nextMS, CacheAfter(c, ds, n, tf).nextMS, tf)
    && WaitsOnGrid(CacheAfter(c, ds, n, tf), grid)
  }

  lemma StaysInOrder(c: Cache, ds: seq<Delivery>, n: nat, tf: int, grid: iset<int>)
    requires 0 < n <= |ds| && IsGrid(grid, tf) && OnGrid(ds[n - 1].bars, grid) && InOrder(c, ds, n - 1, tf, grid)
    ensures InOrder(c, ds, n, tf, grid)
  {
    var before, after := CacheAfter(c, ds, n - 1, tf), CacheAfter(c, ds, n, tf);
    FinishedFacts(before, ds[n - 1], tf, grid);
    NewAppend(HandedOut(c, ds, n - 1, tf), Finished(before, ds[n - 1]), c.nextMS, before.nextMS, after.nextMS, tf);
  }

  lemma DeliveryOnGrid(ds: seq<Delivery>, grid: iset<int>, k: nat)
    requires k < |ds| && GridDeliveries(ds, grid)
    ensures OnGrid(ds[k].bars, grid)
  {
  }

  lemma NothingYet(c: Cache, ds: seq<Delivery>, tf: int, grid: iset<int>)
    requires WaitsOnGrid(c, grid)
    ensures InOrder(c, ds, 0, tf, grid)
  {
  }

  /**
   * Over any deliveries, overlapping or repeated, bars are handed out in order, each time once, and none from before
   * the start.
   */
  lemma {:induction false} NothingTwice(c: Cache, ds: seq<Delivery>, n: nat, tf: int, grid: iset<int>)
    requires n <= |ds| && IsGrid(grid, tf) && WaitsOnGrid(c, grid) && GridDeliveries(ds, grid)
    ensures InOrder(c, ds, n, tf, grid)
  {
    hide InOrder, OnGrid, IsGrid;
    if n > 0 {
      NothingTwice(c, ds, n - 1, tf, grid);
      DeliveryOnGrid(ds, grid, n - 1);
      StaysInOrder(c, ds, n, tf, grid);
    } else {
      NothingYet(c, ds, tf, grid);
    }
  }

  // ---------------------------------------------------------------- nothing lost

  /** What has been seen so far, the latest version of each bar; the last one is kept back while it is unfinished. */
  ghost predicate Shown(c: Cache, seen: seq<Kline>, out: seq<Kline>) {
    && seen == out + (if c.waitBar.Some? then [c.waitBar.value] else [])
    && (c.waitBar.Some? ==> c.nextMS <= c.waitBar.value.time)
  }

  /** A delivery goes on where the last one ended: with a new version of the unfinished bar, or after it. */
  ghost predicate Continues(c: Cache, d: Delivery) {
    d.bars != [] ==> (if c.waitBar.Some? then c.waitBar.value.time <= d.bars[0].time else c.nextMS <= d.bars[0].time)
  }

  /** The bars seen with those of a delivery, where a new version of the last bar takes the place of the old one. */
  function Extended(c: Cache, seen: seq<Kline>, bars: seq<Kline>): seq<Kline> {
    if bars != [] && seen != [] && c.waitBar.Some? && seen[|seen| - 1].time == bars[0].time then
      seen[..|seen| - 1] + bars
    else seen + bars
  }

  lemma NothingDropped(c: Cache, d: Delivery, tf: int, grid: iset<int>)
    requires IsGrid(grid, tf) && WaitsOnGrid(c, grid) && OnGrid(d.bars, grid) && d.bars != [] && Continues(c, d)
    requires c.waitBar.Some? ==> c.nextMS <= c.waitBar.value.time
    ensures Finished(c, d) == Kept(c, d)
  {
    KeptSpaced(c, d, tf, grid);
    DropFacts(Kept(c, d), c.nextMS, tf);
  }

  lemma NextBeforeLast(c: Cache, d: Delivery, tf: int, grid: iset<int>)
    requires IsGrid(grid, tf) && WaitsOnGrid(c, grid) && OnGrid(d.bars, grid) && d.bars != [] && !d.lastOk
      && Continues(c, d)
    requires (c.waitBar.Some? ==> c.nextMS <= c.waitBar.value.time) && Finished(c, d) == Kept(c, d)
    ensures After(c, d, tf).nextMS <= d.bars[|d.bars| - 1].time
  {
    KeptSpaced(c, d, tf, grid);
    var all := WithWaiting(c, d.bars);
    if |all| > 1 {
      assert all[|all| - 2].time + tf <= all[|all| - 1].time;
    }
  }

  lemma DeliveryShown(c: Cache, d: Delivery, seen: seq<Kline>, out: seq<Kline>, tf: int, grid: iset<int>)
    requires IsGrid(grid, tf) && WaitsOnGrid(c, grid) && OnGrid(d.bars, grid) && Shown(c, seen, out) && Continues(c, d)
    ensures Shown(After(c, d, tf), Extended(c, seen, d.bars), out + Finished(c, d))
  {
    if d.bars != [] {
      NothingDropped(c, d, tf, grid);
      if !d.lastOk {
        NextBeforeLast(c, d, tf, grid);
      }
      SeenMore(c, d, seen, out);
    }
  }

  lemma SeenMore(c: Cache, d: Delivery, seen: seq<Kline>, out: seq<Kline>)
    requires Shown(c, seen, out) && Continues(c, d) && d.bars != []
    ensures Extended(c, seen, d.bars) == out + Kept(c, d) + (if d.lastOk then [] else [d.bars[|d.bars| - 1]])
  {
    var all := WithWaiting(c, d.bars);
    assert Extended(c, seen, d.bars) == out + all;
    if !d.lastOk {
      assert all == Kept(c, d) + [d.bars[|d.bars| - 1]];
    }
  }

  ghost predicate Stream(c: Cache, ds: seq<Delivery>, n: nat, tf: int)
    requires n <= |ds|
  {
    n == 0 || (Stream(c, ds, n - 1, tf) && Continues(CacheAfter(c, ds, n - 1, tf), ds[n - 1]))
  }

  /** The latest version of every bar of the first `n` deliveries. */
  function Latest(c: Cache, ds: seq<Delivery>, n: nat, tf: int): seq<Kline>
    requires n <= |ds|
  {
    if n == 0 then [] else Extended(CacheAfter(c, ds, n - 1, tf), Latest(c, ds, n - 1, tf), ds[n - 1].bars)
  }

  /**
   * If every delivery goes on where the last one ended, all bars are handed out in their final version, but an
   * unfinished last one.
   */
  lemma {:induction false} NothingLost(ds: seq<Delivery>, n: nat, nextMS: int, tf: int, grid: iset<int>)
    requires n <= |ds| && IsGrid(grid, tf) && GridDeliveries(ds, grid) && Stream(Cache(None, nextMS), ds, n, tf)
    ensures var c := Cache(None, nextMS);
      var r := CacheAfter(c, ds, n, tf);
      Latest(c, ds, n, tf) == HandedOut(c, ds, n, tf) + (if r.waitBar.Some? then [r.waitBar.value] else [])
    ensures Shown(CacheAfter(Cache(None, nextMS), ds, n, tf), Latest(Cache(None, nextMS), ds, n, tf),
      HandedOut(Cache(None, nextMS), ds, n, tf))
  {
    var c := Cache(None, nextMS);
    if n > 0 {
      NothingLost(ds, n - 1, nextMS, tf, grid);
      NothingTwice(c, ds, n - 1, tf, grid);
      DeliveryShown(CacheAfter(c, ds, n - 1, tf), ds[n - 1], Latest(c, ds, n - 1, tf), HandedOut(c, ds, n - 1, tf),
        tf, grid);
    }
  }

  /** Bars with the same remainder, which are on a grid: each is handed out once, and in a stream none is lost. */
  lemma AlignedFeed(ds: seq<Delivery>, n: nat, nextMS: int, tf: int, off: int)
    requires n <= |ds| && tf > 0 && GridDeliveries(ds, Aligned(tf, off))
    ensures InOrder(Cache(None, nextMS), ds, n, tf, Aligned(tf, off))
    ensures var c := Cache(None, nextMS);
      Stream(c, ds, n, tf) ==> Shown(CacheAfter(c, ds, n, tf), Latest(c, ds, n, tf), HandedOut(c, ds, n, tf))
  {
    AlignedGrid(tf, off);
    NothingTwice(Cache(None, nextMS), ds, n, tf, Aligned(tf, off));
    if Stream(Cache(None, nextMS), ds, n, tf) {
      NothingLost(ds, n, nextMS, tf, Aligned(tf, off));
    }
  }

  /** A bar of that start time is in the list. */
  ghost predicate HasTime(bars: seq<Kline>, time: int) {
    exists k :: 0 <= k < |bars| && bars[k].time == time
  }

  lemma {:induction false} DropKeeps(bars: seq<Kline>, time: int, at: int)
    requires time <= at
    ensures HasTime(bars, at) && Ascending(bars) ==> HasTime(DropBefore(bars, time), at)
    ensures HasTime(DropBefore(bars, time), at) ==> HasTime(bars, at)
  {
    if bars != [] && bars[0].time < time {
      DropKeeps(bars[1..], time, at);
      if HasTime(bars, at) {
        var k :| 0 <= k < |bars| && bars[k].time == at;
        assert bars[1..][k - 1].time == at;
      }
      if k :| 0 <= k < |bars[1..]| && bars[1..][k].time == at {
        assert bars[k + 1].time == at;
      }
    }
  }

  lemma KeptHas(c: Cache, d: Delivery, at: int)
    requires d.bars != [] && c.waitBar.Some? && at == c.waitBar.value.time && Ascending(d.bars)
    ensures Ascending(Kept(c, d))
    ensures HasTime(Kept(c, d), at) || (!d.lastOk && d.bars[|d.bars| - 1].time == at)
      <==> at <= d.bars[0].time || HasTime(d.bars, at)
  {
    var all := WithWaiting(c, d.bars);
    if at < d.bars[0].time {
      assert Kept(c, d)[0].time == at;
    } else if k :| 0 <= k < |d.bars| && d.bars[k].time == at {
      assert all == d.bars;
      if k < |Kept(c, d)| {
        assert Kept(c, d)[k].time == at;
      }
    }
  }

  /**
   * The time of the bar kept back is handed out or still kept back, unless a delivery begins before it and does not
   * bring it.
   */
  lemma WaitingStaysExactly(c: Cache, d: Delivery, tf: int)
    requires c.waitBar.Some? && c.nextMS <= c.waitBar.value.time && Ascending(d.bars)
    ensures var at, next := c.waitBar.value.time, After(c, d, tf);
      HasTime(Finished(c, d), at) || (next.waitBar.Some? && next.waitBar.value.time == at)
      <==> d.bars == [] || at <= d.bars[0].time || HasTime(d.bars, at)
  {
    if d.bars != [] {
      KeptHas(c, d, c.waitBar.value.time);
      DropKeeps(Kept(c, d), c.nextMS, c.waitBar.value.time);
    }
  }

  lemma {:induction false} DropExactly(bars: seq<Kline>, time: int, k: Kline)
    requires Ascending(bars)
    ensures k in DropBefore(bars, time) <==> k in bars && time <= k.time
    ensures Ascending(DropBefore(bars, time))
  {
    if bars != [] && bars[0].time < time {
      DropExactly(bars[1..], time, k);
      assert k in bars <==> k == bars[0] || k in bars[1..];
    } else if bars != [] && k in bars {
      var i :| 0 <= i < |bars| && bars[i] == k;
      assert bars[0].time <= k.time;
    }
  }

  lemma KeptExactly(c: Cache, d: Delivery, k: Kline)
    requires d.bars != [] && Ascending(d.bars)
    ensures Ascending(Kept(c, d))
    ensures k in Kept(c, d) <==>
      || (c.waitBar == Some(k) && k.time < d.bars[0].time)
      || (k in d.bars && (d.lastOk || k.time != d.bars[|d.bars| - 1].time))
  {
    hide WithWaiting;
    WaitingExactly(c, d.bars, k);
    if !d.lastOk {
      WithoutLast(WithWaiting(c, d.bars), k);
    }
  }

  lemma WaitingExactly(c: Cache, bars: seq<Kline>, k: Kline)
    requires bars != [] && Ascending(bars)
    ensures var all := WithWaiting(c, bars);
      && Ascending(all) && all != [] && all[|all| - 1] == bars[|bars| - 1]
      && (k in all <==> (c.waitBar == Some(k) && k.time < bars[0].time) || k in bars)
  {
    if c.waitBar.Some? && c.waitBar.value.time < bars[0].time {
      assert k in WithWaiting(c, bars) <==> k == c.waitBar.value || k in bars;
    }
  }

  lemma WithoutLast(all: seq<Kline>, k: Kline)
    requires all != [] && Ascending(all)
    ensures k in all[..|all| - 1] <==> k in all && k.time != all[|all| - 1].time
    ensures Ascending(all[..|all| - 1])
  {
    assert all == all[..|all| - 1] + [all[|all| - 1]];
    if k in all {
      var i :| 0 <= i < |all| && all[i] == k;
    }
  }

  /**
   * Whatever is kept back and wherever a delivery in order begins, it hands out, in order, exactly the new bars among
   * its
   * own and the one kept back before it, but for an unfinished last one.
   */
  lemma FinishedExactly(c: Cache, d: Delivery, k: Kline)
    requires d.bars != [] && Ascending(d.bars)
    ensures Ascending(Finished(c, d))
    ensures k in Finished(c, d) <==>
      && c.nextMS <= k.time
      && ((c.waitBar == Some(k) && k.time < d.bars[0].time)
          || (k in d.bars && (d.lastOk || k.time != d.bars[|d.bars| - 1].time)))
  {
    KeptExactly(c, d, k);
    DropExactly(Kept(c, d), c.nextMS, k);
  }

  /** A delivery that begins before the bar kept back, and does not bring it again, loses it. */
  lemma EarlierDeliveryDropsBar(c: Cache, d: Delivery, tf: int, grid: iset<int>)
    requires IsGrid(grid, tf) && WaitsOnGrid(c, grid) && OnGrid(d.bars, grid) && d.bars != [] && c.waitBar.Some?
    requires d.bars[0].time < c.waitBar.value.time && forall k :: 0 <= k < |d.bars| ==>
      d.bars[k].time != c.waitBar.value.time
    ensures c.waitBar.value !in Finished(c, d) && After(c, d, tf).waitBar != c.waitBar
  {
    DropWithin(if d.lastOk then d.bars else d.bars[..|d.bars| - 1], c.nextMS);
  }

  lemma {:induction false} DropWithin(bars: seq<Kline>, time: int)
    ensures forall k :: k in DropBefore(bars, time) ==> k in bars
  {
    if bars != [] && bars[0].time < time {
      DropWithin(bars[1..], time);
    }
  }
}
