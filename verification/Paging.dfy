/** Downloading a range of bars page by page, in either direction. */
module Paging {
  import opened Basics
  import opened Bars
  import opened Series
  import opened Spans

  const BATCH: int := 900
  const MIN_STAMP: int := 1000000000000

  // ---------------------------------------------------------------- how many bars fit a window

  /** `n` whole frames fit into a length exactly when `n` is at most the quotient. */
  lemma FramesIn(a: int, n: int, tf: int)
    requires tf > 0
    ensures tf * n <= a <==> n <= a / tf
  {
    var q, r := a / tf, a % tf;
    assert a == tf * q + r;
    assert tf * n == tf * q + tf * (n - q);
    MulBounds(tf, n - q);
    assert n == q ==> tf * (n - q) == 0;
  }

  /** A window whose end or whose length is whole holds no more bars than fit its length. */
  lemma WindowFits(bars: seq<Kline>, tf: int, since: int, until: int)
    requires Market(bars, tf) && since <= until && (until % tf == 0 || (until - since) % tf == 0)
    ensures |Slice(bars, since, until)| <= (until - since) / tf
  {
    IndexMonotone(bars, tf, since, until);
    CountSplits(bars, |bars|, since);
    CountSplits(bars, |bars|, until);
    var i, j := IndexOf(bars, since), IndexOf(bars, until);
    var n := j - i;
    FramesIn(until - since, n, tf);
    if n > 0 {
      Spacing(bars, tf, i, j - 1);
      var last := bars[j - 1].time;
      assert tf * n == tf * (n - 1) + tf;
      if until % tf == 0 {
        LastOnGrid(last, until, tf);
      } else {
        WholeLength(until - since, n, tf);
      }
    }
  }

  /** A whole length that exceeds n - 1 frames holds n. */
  lemma WholeLength(a: int, n: int, tf: int)
    requires tf > 0 && a % tf == 0 && tf * n - tf < a
    ensures tf * n <= a
  {
    var q := a / tf;
    assert a == tf * q;
    assert tf * n == tf * q + tf * (n - q);
    MulBounds(tf, n - q);
  }

  // ---------------------------------------------------------------- the requests

  /** The answer to a request of `n` bars from `since`: the bars from there on, at least `n` unless there are fewer. */
  ghost predicate IsPage(bars: seq<Kline>, since: int, n: int, data: seq<Kline>) {
    var i := IndexOf(bars, since);
    i + |data| <= |bars| && data == bars[i..i + |data|] && (|data| >= n || i + |data| == |bars|)
  }

  /** Some request is answered by an error. */
  ghost predicate Fails(fetch: (int, int) -> Option<seq<Kline>>) {
    exists since, n :: fetch(since, n).None?
  }

  lemma FailsAt(fetch: (int, int) -> Option<seq<Kline>>, since: int, n: int)
    requires fetch(since, n).None?
    ensures Fails(fetch)
  {
  }

  /** Every request that succeeds, and is not for more than a full batch, is answered from the same market. */
  ghost predicate Honest(fetch: (int, int) -> Option<seq<Kline>>, bars: seq<Kline>) {
    forall since, n :: n <= BATCH && fetch(since, n).Some? ==> IsPage(bars, since, n, fetch(since, n).value)
  }

  /** Drops the bars at the end of a page that start at `until` or later. */
  method TrimTail(page: seq<Kline>, until: int, ghost bars: seq<Kline>, ghost tf: int, ghost since: int, ghost n: int)
    returns (data: seq<Kline>)
    requires Market(bars, tf) && IsPage(bars, since, n, page) && since <= until
    requires |Slice(bars, since, until)| <= n
    ensures data == Slice(bars, since, until)
  {
    data := page;
    ghost var i := IndexOf(bars, since);
    IndexMonotone(bars, tf, since, until);
    CountSplits(bars, |bars|, until);
    while |data| > 0 && data[|data| - 1].time >= until
      invariant |data| <= |page| && i + |data| <= |bars| && data == bars[i..i + |data|]
      invariant IndexOf(bars, until) <= i + |data|
    {
      assert data[|data| - 1] == bars[i + |data| - 1];
      data := data[..|data| - 1];
    }
    if |data| > 0 {
      assert data[|data| - 1] == bars[i + |data| - 1];
    }
  }

  // ---------------------------------------------------------------- the windows

  /** The window after [start, stop) in the direction of the download; zeros when there is none. */
  function NextRange(forward: bool, lo: int, hi: int, size: int, start: int, stop: int): Span {
    if forward then
      if stop >= hi then Span(0, 0) else Span(stop, Min(hi, stop + size))
    else
      if start <= lo then Span(0, 0) else Span(Max(lo, start - size), start)
  }

  function Concat(pages: seq<seq<Kline>>): seq<Kline> {
    if pages == [] then [] else Concat(pages[..|pages| - 1]) + pages[|pages| - 1]
  }

  /** The pages in the opposite order of their emission. */
  function ConcatBack(pages: seq<seq<Kline>>): seq<Kline> {
    if pages == [] then [] else pages[|pages| - 1] + ConcatBack(pages[..|pages| - 1])
  }

  function Emitted(forward: bool, pages: seq<seq<Kline>>): seq<Kline> {
    if forward then Concat(pages) else ConcatBack(pages)
  }

  lemma NothingEmitted(forward: bool)
    ensures Emitted(forward, []) == []
  {
  }

  lemma EmittedMore(forward: bool, pages: seq<seq<Kline>>, data: seq<Kline>)
    ensures Emitted(forward, if data == [] then pages else pages + [data]) ==
      if forward then Emitted(forward, pages) + data else data + Emitted(forward, pages)
  {
    assert (pages + [data])[..|pages|] == pages;
  }

  /**
   * The windows asked for so far: each begins where the one before it stopped, seen in the direction of the download,
   * and has the full size unless it reaches the far end.
   */
  ghost predicate Tiles(forward: bool, ws: seq<Span>, lo: int, hi: int, size: int) {
    && (forall i :: 0 <= i < |ws| ==> IsWindow(forward, ws[i], lo, hi, size))
    && Chained(forward, ws)
    && (|ws| > 0 ==> if forward then ws[0].start == lo else ws[0].stop == hi)
  }

  ghost predicate Chained(forward: bool, ws: seq<Span>) {
    forall i, j :: 0 <= i && j == i + 1 && j < |ws| ==>
      if forward then ws[j].start == ws[i].stop else ws[j].stop == ws[i].start
  }

  predicate IsWindow(forward: bool, w: Span, lo: int, hi: int, size: int) {
    lo <= w.start < w.stop <= hi && w.stop - w.start <= size && FullOrLast(forward, w, lo, hi, size)
  }

  predicate FullOrLast(forward: bool, w: Span, lo: int, hi: int, size: int) {
    w.stop - w.start == size || if forward then w.stop == hi else w.start == lo
  }

  /** The state of the download between two requests. */
  ghost predicate Progress(bars: seq<Kline>, tf: int, forward: bool, lo: int, hi: int, size: int,
                           reached: int, w: Span, pages: seq<seq<Kline>>, windows: seq<Span>)
    requires tf > 0
  {
    && lo <= reached <= hi
    && (forward || reached == lo || reached % tf == 0)
    && w == NextFrom(forward, lo, hi, size, reached)
    && Emitted(forward, pages) == (if forward then Slice(bars, lo, reached) else Slice(bars, reached, hi))
    && Tiles(forward, windows, lo, hi, size)
    && (|windows| == 0 ==> reached == if forward then lo else hi)
    && (|windows| > 0 ==> reached == if forward then windows[|windows| - 1].stop else windows[|windows| - 1].start)
    && (forall i :: 0 <= i < |pages| ==> 0 < |pages[i]| <= size / tf)
  }

  /** The page of the next window holds all its bars, and moves the download on. */
  lemma NextPage(bars: seq<Kline>, tf: int, forward: bool, lo: int, hi: int, size: int,
                 reached: int, w: Span, pages: seq<seq<Kline>>, windows: seq<Span>)
    requires Market(bars, tf) && hi % tf == 0 && size > 0 && size % tf == 0
    requires Progress(bars, tf, forward, lo, hi, size, reached, w, pages, windows) && w.stop > w.start
    ensures |Slice(bars, w.start, w.stop)| <= (w.stop - w.start) / tf <= size / tf
    ensures var data := Slice(bars, w.start, w.stop);
      var reached' := if forward then w.stop else w.start;
      var pages' := if data == [] then pages else pages + [data];
      var w' := NextRange(forward, lo, hi, size, w.start, w.stop);
      Progress(bars, tf, forward, lo, hi, size, reached', w', pages', windows + [w])
  {
    PageFits(bars, tf, forward, lo, hi, size, reached, w);
    PageEmitted(bars, tf, forward, lo, hi, reached, w, pages);
    TilesMore(forward, windows, lo, hi, size, reached, w);
  }

  lemma PageFits(bars: seq<Kline>, tf: int, forward: bool, lo: int, hi: int, size: int, reached: int, w: Span)
    requires Market(bars, tf) && hi % tf == 0 && size > 0 && size % tf == 0 && lo <= reached <= hi
    requires w == NextFrom(forward, lo, hi, size, reached)
    requires (forward || reached == lo || reached % tf == 0) && w.stop > w.start
    ensures |Slice(bars, w.start, w.stop)| <= (w.stop - w.start) / tf <= size / tf
    ensures !forward && w.start != lo ==> w.start % tf == 0
  {
    WindowWhole(forward, lo, hi, size, w, tf, reached);
    WindowFits(bars, tf, w.start, w.stop);
    SizeBound(w.stop - w.start, size, tf);
  }

  lemma PageEmitted(bars: seq<Kline>, tf: int, forward: bool, lo: int, hi: int, reached: int, w: Span,
      pages: seq<seq<Kline>>)
    requires Market(bars, tf) && lo <= w.start <= w.stop <= hi
    requires if forward then w.start == reached && Emitted(true, pages) == Slice(bars, lo, reached)
             else w.stop == reached && Emitted(false, pages) == Slice(bars, reached, hi)
    ensures var data := Slice(bars, w.start, w.stop);
      Emitted(forward, if data == [] then pages else pages + [data]) ==
        if forward then Slice(bars, lo, w.stop) else Slice(bars, w.start, hi)
  {
    EmittedMore(forward, pages, Slice(bars, w.start, w.stop));
    if forward {
      SliceConcat(bars, tf, lo, w.start, w.stop);
    } else {
      SliceConcat(bars, tf, w.start, w.stop, hi);
    }
  }

  lemma ChainMore(forward: bool, ws: seq<Span>, w: Span)
    requires Chained(forward, ws)
    requires |ws| > 0 ==> if forward then w.start == ws[|ws| - 1].stop else w.stop == ws[|ws| - 1].start
    ensures Chained(forward, ws + [w])
  {
  }

  lemma OneWindow(forward: bool, w: Span, lo: int, hi: int, size: int)
    requires lo <= w.start < w.stop <= hi && w.stop - w.start <= size && FullOrLast(forward, w, lo, hi, size)
    ensures IsWindow(forward, w, lo, hi, size)
  {
  }

  lemma TilesMore(forward: bool, ws: seq<Span>, lo: int, hi: int, size: int, reached: int, w: Span)
    requires Tiles(forward, ws, lo, hi, size)
    requires lo <= w.start < w.stop <= hi && w.stop - w.start <= size && reached == if forward then w.start else w.stop
    requires FullOrLast(forward, w, lo, hi, size)
    requires if |ws| == 0 then reached == if forward then lo else hi
             else reached == if forward then ws[|ws| - 1].stop else ws[|ws| - 1].start
    ensures Tiles(forward, ws + [w], lo, hi, size)
  {
    hide Chained, IsWindow;
    ChainMore(forward, ws, w);
    assert IsWindow(forward, w, lo, hi, size) by {
      OneWindow(forward, w, lo, hi, size);
    }
  }

  lemma SizeBound(a: int, size: int, tf: int)
    requires tf > 0 && a <= size
    ensures a / tf <= size / tf
  {
    FramesIn(a, a / tf, tf);
    FramesIn(size, a / tf, tf);
  }

  lemma WindowWhole(forward: bool, lo: int, hi: int, size: int, w: Span, tf: int, reached: int)
    requires tf > 0 && hi % tf == 0 && size % tf == 0 && size > 0 && lo <= reached <= hi
    requires if forward then w == Span(reached, Min(hi, reached + size)) && reached < hi
             else w == Span(Max(lo, reached - size), reached) && lo < reached && reached % tf == 0
    ensures w.stop % tf == 0 || (w.stop - w.start) % tf == 0
    ensures !forward && w.start != lo ==> w.start % tf == 0
  {
    if !forward {
      var m := size / tf;
      assert size == tf * m;
      ShiftMultiple(reached, -m, tf);
      assert reached + tf * -m == reached - size;
    }
  }

  /** Integer division as the source does it, toward zero. */
  function Quotient(a: int, b: int): int
    requires b > 0
  {
    if a >= 0 then a / b else -(-a / b)
  }

  /**
   * Downloads the bars of the range given by the two times, backward when the first one is later.
   * Unless a request fails, what is emitted is exactly the bars of the market in the range, up to the
   * last full frame, each once. A backward range that begins at or before time zero loses its first part.
   */
  method FetchApiOHLCV(fetch: (int, int) -> Option<seq<Kline>>, netDisabled: bool, tf: int, startMS: int, endMS: int,
                       nowMS: int, ghost bars: seq<Kline>)
    returns (pages: seq<seq<Kline>>, ok: bool, ghost windows: seq<Span>, ghost reached: int)
    requires Market(bars, tf) && Honest(fetch, bars) && startMS >= MIN_STAMP
    ensures netDisabled ==> pages == [] && ok
    ensures !ok ==> Fails(fetch)
    ensures var forward := startMS <= endMS;
      var lo, hi := Min(startMS, endMS), AlignDown(Min(Max(startMS, endMS), nowMS), tf);
      !netDisabled ==>
        && Tiles(forward, windows, lo, hi, 900 * tf)
        && (forall i :: 0 <= i < |pages| ==> 0 < |pages[i]| <= 900)
        && Emitted(forward, pages) == (if forward then Slice(bars, lo, reached) else Slice(bars, reached, hi))
        && (ok && (lo > 0 || hi - lo < tf) ==> Emitted(forward, pages) == Slice(bars, lo, hi))
        && (lo <= 0 && hi - lo >= tf ==> !forward && (hi > 0 ==> reached > 0))
        && (ok && lo <= 0 && hi - lo >= tf ==> lo < reached <= 900 * tf)
  {
    pages, ok, windows := [], true, [];
    reached := startMS;
    if netDisabled {
      return;
    }
    var forward := startMS <= endMS;
    var lo, hi := Min(startMS, endMS), Max(startMS, endMS);
    hi := AlignDown(Min(hi, nowMS), tf);
    reached := if forward then lo else hi;
    EmptySlice(bars, tf, lo, hi);
    var fetchNum, size := PageSize(lo, hi, tf);
    if fetchNum == 0 {
      return;
    }
    var at := if forward then lo else hi;
    var w := NextRange(forward, lo, hi, size, at, at);
    pages, ok, windows, reached := FetchPages(fetch, forward, lo, hi, size, tf, w, bars);
    if lo < hi {
      FetchedAll(bars, tf, forward, lo, hi, size, BATCH * tf, reached, pages, windows);
    }
  }

  /** A bar at time zero is lost by every backward download of a range that holds it. */
  method BarAtZeroIsLost(fetch: (int, int) -> Option<seq<Kline>>, tf: int, startMS: int, endMS: int, nowMS: int,
                         ghost bars: seq<Kline>, ghost k: Kline)
    returns (pages: seq<seq<Kline>>, ok: bool)
    requires Market(bars, tf) && Honest(fetch, bars) && k in bars && k.time == 0
    requires endMS <= 0 && startMS >= MIN_STAMP && nowMS >= tf && tf <= MIN_STAMP
    ensures k in Slice(bars, endMS, AlignDown(Min(startMS, nowMS), tf)) && k !in Emitted(false, pages)
  {
    ghost var windows, reached;
    pages, ok, windows, reached := FetchApiOHLCV(fetch, false, tf, startMS, endMS, nowMS, bars);
    ghost var hi := AlignDown(Min(startMS, nowMS), tf);
    assert hi >= tf by {
      if hi < tf {
        LastOnGrid(hi, tf, tf);
      }
    }
    SliceMember(bars, tf, endMS, hi, k);
    SliceMember(bars, tf, reached, hi, k);
  }

  lemma FirstFrame(a: int, tf: int, q: int)
    requires tf > 0 && a >= 0 && q == a / tf
    ensures q >= 0 && (q == 0 <==> a < tf)
  {
    FramesIn(a, 1, tf);
    FramesIn(a, 0, tf);
  }

  lemma QuotientSign(a: int, tf: int)
    requires tf > 0
    ensures Quotient(a, tf) == 0 <==> -tf < a < tf
    ensures Quotient(a, tf) > 0 <==> a >= tf
  {
    if a >= 0 {
      FirstFrame(a, tf, a / tf);
    } else {
      FirstFrame(-a, tf, -a / tf);
    }
  }

  /** How many frames are asked for, and how long a window may be. */
  method PageSize(lo: int, hi: int, tf: int) returns (fetchNum: int, size: int)
    requires tf > 0
    ensures fetchNum == 0 <==> -tf < hi - lo < tf
    ensures fetchNum > 0 <==> hi - lo >= tf
    ensures fetchNum > 0 ==> size > 0 && size % tf == 0 && size <= BATCH * tf && size / tf <= BATCH
    ensures fetchNum > 0 ==> size == BATCH * tf || hi - lo <= size
  {
    fetchNum := Quotient(hi - lo, tf);
    QuotientSign(hi - lo, tf);
    size := Min(BATCH, fetchNum + 5) * tf;
    if fetchNum > 0 {
      SizeFacts(fetchNum, tf);
      RangeFits(hi - lo, tf, fetchNum);
    }
  }

  /** What the loop has fetched, in terms of the range. */
  lemma FetchedAll(bars: seq<Kline>, tf: int, forward: bool, lo: int, hi: int, size: int, most: int, reached: int,
                   pages: seq<seq<Kline>>, windows: seq<Span>)
    requires Market(bars, tf) && lo < hi && size <= most && size / tf <= BATCH && (size == most || hi - lo <= size)
    requires Progress(bars, tf, forward, lo, hi, size, reached, NextFrom(forward, lo, hi, size, reached), pages,
      windows)
    ensures Tiles(forward, windows, lo, hi, most)
    ensures forall i :: 0 <= i < |pages| ==> 0 < |pages[i]| <= BATCH
    ensures Emitted(forward, pages) == (if forward then Slice(bars, lo, reached) else Slice(bars, reached, hi))
  {
  }

  /** The loop over the windows. */
  method FetchPages(fetch: (int, int) -> Option<seq<Kline>>, forward: bool, lo: int, hi: int, size: int, tf: int,
                    first: Span, ghost bars: seq<Kline>)
    returns (pages: seq<seq<Kline>>, ok: bool, ghost windows: seq<Span>, ghost reached: int)
    requires Market(bars, tf) && Honest(fetch, bars) && hi % tf == 0 && (forward ==> lo > 0)
    requires lo < hi ==> size > 0 && size % tf == 0 && size / tf <= BATCH
    requires first == NextFrom(forward, lo, hi, size, if forward then lo else hi)
    ensures !ok ==> Fails(fetch)
    ensures lo >= hi ==> pages == [] && windows == [] && ok && reached == if forward then lo else hi
    ensures lo < hi ==> Progress(bars, tf, forward, lo, hi, size, reached, NextFrom(forward, lo, hi, size, reached),
      pages, windows)
    ensures lo < hi && ok && lo > 0 ==> reached == if forward then hi else lo
    ensures lo < hi && lo <= 0 ==> !forward && (hi > 0 ==> reached > 0)
    ensures lo < hi && ok && lo <= 0 ==> lo < reached <= size
  {
    hide Fails, IsWindow, Slice, IsPage, Emitted;
    pages, ok, windows := [], true, [];
    NothingEmitted(forward);
    reached := if forward then lo else hi;
    EmptySlice(bars, tf, lo, hi);
    var w := first;
    while w.start > 0 && w.stop > w.start
      invariant lo >= hi ==> pages == [] && windows == [] && reached == (if forward then lo else hi) && w == Span(0, 0)
      invariant lo < hi ==> Progress(bars, tf, forward, lo, hi, size, reached, w, pages, windows)
      invariant lo < hi && lo <= 0 ==> reached > lo && (hi > 0 ==> reached > 0)
      decreases if forward then hi - reached else reached - lo
    {
      var curSize := (w.stop - w.start) / tf;
      var page := fetch(w.start, curSize);
      if page.None? {
        FailsAt(fetch, w.start, curSize);
        ok := false;
        break;
      }
      NextPage(bars, tf, forward, lo, hi, size, reached, w, pages, windows);
      assert curSize <= BATCH;
      assert IsPage(bars, w.start, curSize, page.value);
      var data := TrimTail(page.value, w.stop, bars, tf, w.start, curSize);
      windows := windows + [w];
      reached := if forward then w.stop else w.start;
      w := NextRange(forward, lo, hi, size, w.start, w.stop);
      if |data| > 0 {
        pages := pages + [data];
      }
    }
  }

  /** The window that follows once the download has reached a time. */
  function NextFrom(forward: bool, lo: int, hi: int, size: int, reached: int): Span {
    if forward then NextRange(true, lo, hi, size, lo, reached) else NextRange(false, lo, hi, size, reached, hi)
  }

  lemma SizeFacts(fetchNum: int, tf: int)
    requires tf > 0 && fetchNum > 0
    ensures var size := Min(BATCH, fetchNum + 5) * tf;
      size > 0 && size % tf == 0 && size <= BATCH * tf && size / tf <= BATCH
  {
    var m := Min(BATCH, fetchNum + 5);
    assert m * tf == tf * m;
    MulBounds(tf, m);
    MultipleMod(m, tf);
    FramesIn(m * tf, m + 1, tf);
    assert tf * (m + 1) == m * tf + tf;
    assert BATCH * tf == m * tf + (BATCH - m) * tf;
    MulNonNegative(BATCH - m, tf);
  }

  /** Less than a full batch is asked for at once only if it is all of the range. */
  lemma RangeFits(range: int, tf: int, fetchNum: int)
    requires tf > 0 && fetchNum > 0 && fetchNum == Quotient(range, tf)
    ensures Min(BATCH, fetchNum + 5) * tf == BATCH * tf || range <= Min(BATCH, fetchNum + 5) * tf
  {
    if range >= 0 && fetchNum + 5 < BATCH {
      assert range == tf * fetchNum + range % tf;
      assert (fetchNum + 5) * tf == tf * fetchNum + 5 * tf;
    }
  }

  lemma MulNonNegative(a: int, b: int)
    requires a >= 0 && b >= 0
    ensures a * b >= 0
  {
  }

  /** Less than one frame before an aligned end there is no bar. */
  lemma EmptySlice(bars: seq<Kline>, tf: int, lo: int, hi: int)
    requires Market(bars, tf)
    ensures Slice(bars, lo, lo) == [] && Slice(bars, hi, hi) == []
    ensures hi % tf == 0 && hi - lo < tf ==> Slice(bars, lo, hi) == []
  {
    if hi % tf == 0 && hi - lo < tf && Slice(bars, lo, hi) != [] {
      var k := Slice(bars, lo, hi)[0];
      SliceMember(bars, tf, lo, hi, k);
      LastOnGrid(k.time, hi, tf);
    }
  }
}
