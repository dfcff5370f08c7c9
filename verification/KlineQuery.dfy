/** Queries for the bars of a table, and the table with an unfinished bar that comes along with a query. */
module KlineQuery {
  import opened Basics
  import opened Bars
  import opened Series

  const HOUR: int := 3600000
  const MIN_STAMP: int := 1001894400000
  const NEVER: int := 9223372036854775807

  /** The first `n` bars are in order on the grid, and so are their ends. */
  ghost predicate StoredUpTo(bars: seq<Kline>, tf: int, n: nat)
    requires n <= |bars| && tf > 0
  {
    n == 0 || (
      && 0 < bars[n - 1].time < NEVER - tf && bars[n - 1].time % tf == 0
      && (n > 1 ==> bars[n - 2].time < bars[n - 1].time)
      && StoredUpTo(bars, tf, n - 1))
  }

  /** The stored bars of one symbol and time frame. */
  ghost predicate StoredBars(bars: seq<Kline>, tf: int) {
    tf > 0 && StoredUpTo(bars, tf, |bars|)
  }

  lemma {:induction false} StoredIsMarket(bars: seq<Kline>, tf: int)
    requires StoredBars(bars, tf)
    ensures Market(bars, tf) && forall i :: 0 <= i < |bars| ==> 0 < bars[i].time < NEVER - tf
  {
    StoredFirst(bars, tf, |bars|);
  }

  lemma {:induction false} StoredFirst(bars: seq<Kline>, tf: int, n: nat)
    requires tf > 0 && n <= |bars| && StoredUpTo(bars, tf, n)
    ensures forall i, j :: 0 <= i < j < n ==> bars[i].time < bars[j].time
    ensures forall i :: 0 <= i < n ==> bars[i].time % tf == 0 && 0 < bars[i].time < NEVER - tf
  {
    if n > 0 {
      StoredFirst(bars, tf, n - 1);
    }
  }

  lemma {:induction false} MarketIsStored(bars: seq<Kline>, tf: int, n: nat)
    requires Market(bars, tf) && n <= |bars| && forall i :: 0 <= i < |bars| ==> 0 < bars[i].time < NEVER - tf
    ensures StoredUpTo(bars, tf, n)
  {
    if n > 0 {
      MarketIsStored(bars, tf, n - 1);
    }
  }

  /** What a query finds besides the stored bars: the clock, the frame it is in, and the row kept for that frame. */
  datatype Now = Now(ms: int, top: int, un: Option<Kline>)

  ghost predicate ValidNow(now: Now, tf: int)
    requires tf > 0
  {
    && now.top % tf == 0 && now.top <= now.ms < now.top + tf
    && (now.un.Some? ==> now.un.value.time == now.top && 0 < now.top < NEVER - tf)
  }

  /** The first `n` stored bars of [since, end). */
  function Rows(table: seq<Kline>, since: int, end: int, n: nat): seq<Kline> {
    var found := Slice(table, since, end);
    if |found| <= n then found else found[..n]
  }

  /** The unfinished bar comes along when the rows lead right up to it, whatever the end of the query. */
  predicate Appends(rows: seq<Kline>, tf: int, now: Now) {
    rows != [] && rows[|rows| - 1].time + tf == now.top && now.un.Some?
  }

  /** A query for the first `n` bars of [since, end), of which only those are finished that end by the clock. */
  function Query(table: seq<Kline>, tf: int, since: int, end: int, n: nat, now: Now): seq<Kline> {
    var rows := Rows(table, since, Min(end, now.top), n);
    if Appends(rows, tf, now) then rows + [now.un.value] else rows
  }

  /** An index is where the bars before `t` end. */
  lemma Splits(bars: seq<Kline>, tf: int, t: int)
    requires StoredBars(bars, tf)
    ensures var i := IndexOf(bars, t);
      (i > 0 ==> bars[i - 1].time < t) && (i < |bars| ==> t <= bars[i].time)
  {
    StoredIsMarket(bars, tf);
    CountSplits(bars, |bars|, t);
  }

  lemma IndexAt(bars: seq<Kline>, tf: int, t: int, k: nat)
    requires StoredBars(bars, tf) && k <= |bars|
    requires (k > 0 ==> bars[k - 1].time < t) && (k < |bars| ==> t <= bars[k].time)
    ensures IndexOf(bars, t) == k
  {
    StoredIsMarket(bars, tf);
    IndexBetween(bars, tf, t, k);
  }

  lemma GridAt(bars: seq<Kline>, tf: int, k: nat)
    requires StoredBars(bars, tf) && k < |bars|
    ensures bars[k].time % tf == 0 && 0 < bars[k].time < NEVER - tf
    ensures k + 1 < |bars| ==> bars[k].time + tf <= bars[k + 1].time
  {
    StoredIsMarket(bars, tf);
    if k + 1 < |bars| {
      LastOnGrid(bars[k].time, bars[k + 1].time, tf);
    }
  }

  lemma RowsAreRun(table: seq<Kline>, tf: int, since: int, end: int, n: nat)
    requires StoredBars(table, tf)
    ensures var q, i := Rows(table, since, end, n), IndexOf(table, since);
      && i + |q| <= |table| && q == table[i..i + |q|]
      && (q == [] && n > 0 && i < |table| ==> end <= table[i].time)
      && (q != [] ==> since <= q[0].time && q[|q| - 1].time < end)
  {
    var i, j := IndexOf(table, since), IndexOf(table, end);
    Splits(table, tf, since);
    Splits(table, tf, end);
    if i <= j {
      RunEnds(table, tf, i, |Rows(table, since, end, n)|, j);
    } else if i < |table| {
      BeforeIndex(table, tf, end, i);
    }
  }

  /** A query finds the stored bars of its times, all of them or the earliest `n`. */
  lemma RowsExactly(table: seq<Kline>, tf: int, since: int, end: int, n: nat, k: Kline)
    requires StoredBars(table, tf)
    ensures var q, asked := Rows(table, since, end, n), k in table && since <= k.time < end;
      && |q| <= n && (k in q ==> asked)
      && (asked && k !in q ==> |q| == n && forall i :: 0 <= i < n ==> q[i].time < k.time)
  {
    var found, q := Slice(table, since, end), Rows(table, since, end, n);
    StoredIsMarket(table, tf);
    SliceMember(table, tf, since, end, k);
    if k in q {
      assert k in found;
    } else if k in found {
      var at := BehindPrefix(found, |q|, k);
      assert forall i :: 0 <= i < |q| ==> q[i] == found[i];
    }
  }

  lemma BehindPrefix(bars: seq<Kline>, m: nat, k: Kline) returns (at: nat)
    requires m <= |bars| && k in bars && k !in bars[..m]
    ensures m <= at < |bars| && bars[at] == k
  {
    assert bars == bars[..m] + bars[m..];
    at :| m <= at < |bars| && bars[at] == k;
  }

  lemma BeforeIndex(table: seq<Kline>, tf: int, end: int, i: nat)
    requires StoredBars(table, tf) && IndexOf(table, end) < i < |table|
    ensures end <= table[i].time
  {
    StoredIsMarket(table, tf);
    CountSplits(table, |table|, end);
  }

  /** The bars at [i, i + m) are not later than the one before `j`. */
  lemma RunEnds(table: seq<Kline>, tf: int, i: nat, m: nat, j: nat)
    requires StoredBars(table, tf) && i + m <= j <= |table|
    ensures m > 0 ==> table[i + m - 1].time <= table[j - 1].time
  {
    StoredIsMarket(table, tf);
  }

  /** Just after a bar the next index is one further. */
  lemma IndexAfter(table: seq<Kline>, tf: int, i: nat)
    requires StoredBars(table, tf) && i < |table|
    ensures IndexOf(table, table[i].time) == i && IndexOf(table, table[i].time + tf) == i + 1
  {
    GridAt(table, tf, i);
    if i > 0 {
      GridAt(table, tf, i - 1);
    }
    IndexAt(table, tf, table[i].time, i);
    IndexAt(table, tf, table[i].time + tf, i + 1);
  }

  // ---------------------------------------------------------------- a table with an unfinished bar

  /** The bar at its time is replaced, or one is put in. */
  function Patch(bars: seq<Kline>, u: Kline): seq<Kline> {
    var i := IndexOf(bars, u.time);
    bars[..i] + [u] + (if i < |bars| && bars[i].time == u.time then bars[i + 1..] else bars[i..])
  }

  ghost predicate Fits(u: Kline, tf: int)
    requires tf > 0
  {
    u.time % tf == 0 && 0 < u.time < NEVER - tf
  }

  lemma PatchStored(bars: seq<Kline>, tf: int, u: Kline)
    requires StoredBars(bars, tf) && Fits(u, tf)
    ensures StoredBars(Patch(bars, u), tf)
  {
    StoredIsMarket(bars, tf);
    PatchOrdered(bars, tf, u);
    PatchBounded(bars, tf, u);
    MarketIsStored(Patch(bars, u), tf, |Patch(bars, u)|);
  }

  lemma PatchOrdered(bars: seq<Kline>, tf: int, u: Kline)
    requires Market(bars, tf) && u.time % tf == 0
    ensures Market(Patch(bars, u), tf)
  {
    CountSplits(bars, |bars|, u.time);
  }

  lemma PatchBounded(bars: seq<Kline>, tf: int, u: Kline)
    requires tf > 0 && Fits(u, tf) && forall i :: 0 <= i < |bars| ==> 0 < bars[i].time < NEVER - tf
    ensures var p := Patch(bars, u); forall i :: 0 <= i < |p| ==> 0 < p[i].time < NEVER - tf
  {
  }

  /** The bars behind the time of a patch. */
  lemma IndexBehind(bars: seq<Kline>, tf: int, u: Kline)
    requires StoredBars(bars, tf) && Fits(u, tf)
    ensures var i := IndexOf(bars, u.time);
      IndexOf(bars, u.time + tf) == if i < |bars| && bars[i].time == u.time then i + 1 else i
  {
    var i := IndexOf(bars, u.time);
    Splits(bars, tf, u.time);
    if i < |bars| && bars[i].time == u.time {
      IndexAfter(bars, tf, i);
    } else {
      if i < |bars| {
        GridAt(bars, tf, i);
        LastOnGrid(u.time, bars[i].time, tf);
      }
      IndexAt(bars, tf, u.time + tf, i);
    }
  }

  lemma PatchAt(bars: seq<Kline>, tf: int, u: Kline)
    requires StoredBars(bars, tf) && Fits(u, tf)
    ensures var i, p := IndexOf(bars, u.time), Patch(bars, u);
      && StoredBars(p, tf) && i < |p| && p[i] == u && p[..i] == bars[..i]
      && p[i + 1..] == bars[IndexOf(bars, u.time + tf)..]
      && IndexOf(p, u.time) == i && IndexOf(p, u.time + tf) == i + 1
  {
    IndexBehind(bars, tf, u);
    PatchStored(bars, tf, u);
    IndexAfter(Patch(bars, u), tf, IndexOf(bars, u.time));
  }

  /** The bars before and from an index on, by their times. */
  lemma SidesOfIndex(bars: seq<Kline>, tf: int, t: int, k: Kline)
    requires StoredBars(bars, tf)
    ensures k in bars[..IndexOf(bars, t)] <==> k in bars && k.time < t
    ensures k in bars[IndexOf(bars, t)..] <==> k in bars && t <= k.time
  {
    hide StoredUpTo;
    StoredIsMarket(bars, tf);
    CountSplits(bars, |bars|, t);
    var i := IndexOf(bars, t);
    assert bars == bars[..i] + bars[i..];
    assert k in bars <==> k in bars[..i] || k in bars[i..];
  }

  lemma PatchIs(bars: seq<Kline>, tf: int, u: Kline)
    requires StoredBars(bars, tf)
    ensures Patch(bars, u) == bars[..IndexOf(bars, u.time)] + [u] + bars[IndexOf(bars, u.time + 1)..]
  {
    hide StoredUpTo, IndexOf;
    var i := IndexOf(bars, u.time);
    Splits(bars, tf, u.time);
    if i < |bars| {
      GridAt(bars, tf, i);
    }
    IndexAt(bars, tf, u.time + 1, if i < |bars| && bars[i].time == u.time then i + 1 else i);
  }

  lemma PatchHolds(bars: seq<Kline>, tf: int, u: Kline, k: Kline)
    requires StoredBars(bars, tf) && Fits(u, tf)
    ensures k in Patch(bars, u) <==> k == u || (k in bars && k.time != u.time)
  {
    hide StoredUpTo, IndexOf, Patch;
    PatchIs(bars, tf, u);
    SidesOfIndex(bars, tf, u.time, k);
    SidesOfIndex(bars, tf, u.time + 1, k);
    var before, after := bars[..IndexOf(bars, u.time)], bars[IndexOf(bars, u.time + 1)..];
    assert k in before + [u] + after <==> k in before || k == u || k in after;
  }

  /** What is before the patch stays where it is. */
  lemma PatchLater(bars: seq<Kline>, tf: int, u: Kline, t: int)
    requires StoredBars(bars, tf) && Fits(u, tf) && t <= u.time
    ensures IndexOf(Patch(bars, u), t) == IndexOf(bars, t) <= IndexOf(bars, u.time)
  {
    var p, k, i := Patch(bars, u), IndexOf(bars, t), IndexOf(bars, u.time);
    PatchAt(bars, tf, u);
    CountMonotone(bars, |bars|, t, u.time);
    Splits(bars, tf, t);
    if k > 0 {
      assert p[k - 1] == p[..i][k - 1] == bars[k - 1];
    }
    if k < i {
      assert p[k] == p[..i][k] == bars[k];
    }
    IndexAt(p, tf, t, k);
  }

  /** The bars from the first one on that does not start before `t`. */
  function From(bars: seq<Kline>, t: int): seq<Kline> {
    if bars == [] || bars[0].time >= t then bars else From(bars[1..], t)
  }

  lemma {:induction false} FromIsDrop(bars: seq<Kline>, tf: int, t: int, k: nat)
    requires k <= |bars| && (forall i :: 0 <= i < k ==> bars[i].time < t) && (k < |bars| ==> bars[k].time >= t)
    ensures From(bars, t) == bars[k..]
  {
    if k > 0 {
      FromIsDrop(bars[1..], tf, t, k - 1);
      assert bars[1..][k - 1..] == bars[k..];
    }
  }

  lemma FromAt(bars: seq<Kline>, tf: int, t: int)
    requires StoredBars(bars, tf)
    ensures From(bars, t) == bars[IndexOf(bars, t)..]
  {
    StoredIsMarket(bars, tf);
    CountSplits(bars, |bars|, t);
    FromIsDrop(bars, tf, t, IndexOf(bars, t));
  }

  /** From `off` on the two series are the same. */
  ghost predicate Agree(seen: seq<Kline>, table: seq<Kline>, off: int) {
    From(seen, off) == From(table, off)
  }

  lemma InTail(bars: seq<Kline>, tf: int, off: int, k: Kline)
    requires StoredBars(bars, tf) && off <= k.time
    ensures k in bars <==> k in From(bars, off)
  {
    StoredIsMarket(bars, tf);
    CountSplits(bars, |bars|, off);
    FromAt(bars, tf, off);
    var i := IndexOf(bars, off);
    if k in bars {
      var j :| 0 <= j < |bars| && bars[j] == k;
      assert bars[i..][j - i] == k;
    }
  }

  lemma DropTwice(bars: seq<Kline>, i: nat, m: nat)
    requires i + m <= |bars|
    ensures bars[i..][m..] == bars[i + m..] && (m > 0 ==> bars[i..][m - 1] == bars[i + m - 1])
  {
  }

  lemma FromRun(bars: seq<Kline>, tf: int, off: int, m: nat)
    requires StoredBars(bars, tf) && 0 < m <= |From(bars, off)|
    ensures var next := From(bars, off)[m - 1].time + tf;
      IndexOf(bars, next) == IndexOf(bars, off) + m && From(bars, next) == From(bars, off)[m..]
  {
    var i := IndexOf(bars, off);
    FromAt(bars, tf, off);
    DropTwice(bars, i, m);
    IndexAfter(bars, tf, i + m - 1);
    FromAt(bars, tf, bars[i + m - 1].time + tf);
  }

  /** They stay so behind any run of bars from there. */
  lemma AgreeAfter(seen: seq<Kline>, table: seq<Kline>, tf: int, off: int, m: nat)
    requires StoredBars(seen, tf) && StoredBars(table, tf) && Agree(seen, table, off) && 0 < m <= |From(seen, off)|
    ensures var next := From(seen, off)[m - 1].time + tf;
      IndexOf(seen, next) == IndexOf(seen, off) + m && Agree(seen, table, next)
  {
    FromRun(seen, tf, off, m);
    FromRun(table, tf, off, m);
  }

  lemma FromNext(bars: seq<Kline>, tf: int, u: Kline)
    requires StoredBars(bars, tf) && Fits(u, tf)
    ensures From(bars, u.time + tf) ==
      if From(bars, u.time) != [] && From(bars, u.time)[0].time == u.time then From(bars, u.time)[1..]
      else From(bars, u.time)
  {
    FromAt(bars, tf, u.time);
    FromAt(bars, tf, u.time + tf);
    IndexBehind(bars, tf, u);
    if IndexOf(bars, u.time) < |bars| {
      DropTwice(bars, IndexOf(bars, u.time), 1);
    }
  }

  lemma AgreePatched(seen: seq<Kline>, table: seq<Kline>, tf: int, u: Kline)
    requires StoredBars(seen, tf) && StoredBars(table, tf) && Fits(u, tf) && Agree(seen, table, u.time)
    ensures Agree(Patch(seen, u), table, u.time + tf)
  {
    FromNext(seen, tf, u);
    FromNext(table, tf, u);
    FromPatched(seen, tf, u);
  }

  lemma FromPatched(seen: seq<Kline>, tf: int, u: Kline)
    requires StoredBars(seen, tf) && Fits(u, tf)
    ensures From(Patch(seen, u), u.time + tf) == From(seen, u.time + tf)
  {
    PatchAt(seen, tf, u);
    FromSame(Patch(seen, u), seen, tf, u.time + tf);
  }

  lemma FromSame(p: seq<Kline>, seen: seq<Kline>, tf: int, t: int)
    requires StoredBars(p, tf) && StoredBars(seen, tf) && p[IndexOf(p, t)..] == seen[IndexOf(seen, t)..]
    ensures From(p, t) == From(seen, t)
  {
    FromAt(p, tf, t);
    FromAt(seen, tf, t);
  }

  /** The rows of a query are a run of every series that agrees with the table. */
  lemma RowsOf(seen: seq<Kline>, table: seq<Kline>, tf: int, off: int, end: int, n: nat)
    requires StoredBars(seen, tf) && StoredBars(table, tf) && Agree(seen, table, off) && n > 0
    ensures var q, i := Rows(table, off, end, n), IndexOf(seen, off);
      && |q| <= |From(seen, off)| && q == From(seen, off)[..|q|] && From(seen, off) == seen[i..]
      && (q == [] && i < |seen| ==> end <= seen[i].time)
      && (q != [] ==> off <= q[0].time && q[|q| - 1].time < end)
  {
    var q, i, j := Rows(table, off, end, n), IndexOf(seen, off), IndexOf(table, off);
    RowsAreRun(table, tf, off, end, n);
    FromAt(seen, tf, off);
    FromAt(table, tf, off);
    SliceOfDrop(table, j, |q|);
    FirstOfDrop(seen, i, table, j);
  }

  lemma FirstOfDrop(a: seq<Kline>, i: nat, b: seq<Kline>, j: nat)
    requires i <= |a| && j <= |b| && a[i..] == b[j..]
    ensures i < |a| <==> j < |b|
    ensures i < |a| ==> a[i] == b[j]
  {
    if i < |a| {
      assert a[i] == a[i..][0] == b[j..][0];
    }
  }

  lemma SliceOfDrop(s: seq<Kline>, i: nat, m: nat)
    requires i + m <= |s|
    ensures s[i..][..m] == s[i..i + m]
  {
  }

  lemma SliceSnoc(s: seq<Kline>, was: seq<Kline>, i: nat, k: nat)
    requires i <= k < |s| && k <= |was| && s[..k] == was[..k]
    ensures s[i..k + 1] == was[i..k] + [s[k]]
  {
    assert s[i..k] == s[..k][i..] && was[i..k] == was[..k][i..];
  }

  /** A bar that is put in right behind a run prolongs it. */
  lemma AppendedRun(seen: seq<Kline>, tf: int, i: nat, rows: seq<Kline>, u: Kline)
    requires StoredBars(seen, tf) && Fits(u, tf) && i + |rows| <= |seen| && rows == seen[i..i + |rows|]
    requires IndexOf(seen, u.time) == i + |rows|
    ensures var p := Patch(seen, u);
      i + |rows| < |p| && rows + [u] == p[i..i + |rows| + 1]
  {
    PatchAt(seen, tf, u);
    SliceSnoc(Patch(seen, u), seen, i, i + |rows|);
  }

  /** The bars of a query are a run of the series `p` from index `i` on, up to what was asked for. */
  ghost predicate Found(q: seq<Kline>, p: seq<Kline>, i: nat, tf: int, asked: int) {
    q != [] && i + |q| <= |p| && q == p[i..i + |q|] && q[|q| - 1].time < asked && StoredBars(p, tf)
  }

  lemma RowsFound(seen: seq<Kline>, table: seq<Kline>, tf: int, off: int, end: int, n: nat)
    requires StoredBars(seen, tf) && StoredBars(table, tf) && Agree(seen, table, off) && n > 0
    requires Rows(table, off, end, n) != []
    ensures Found(Rows(table, off, end, n), seen, IndexOf(seen, off), tf, end)
  {
    RowsOf(seen, table, tf, off, end, n);
    SliceOfDrop(seen, IndexOf(seen, off), |Rows(table, off, end, n)|);
  }

  lemma RowsAgree(seen: seq<Kline>, table: seq<Kline>, tf: int, off: int, end: int, n: nat)
    requires StoredBars(seen, tf) && StoredBars(table, tf) && Agree(seen, table, off) && n > 0
    requires Rows(table, off, end, n) != []
    ensures var q := Rows(table, off, end, n);
      && Agree(seen, table, q[|q| - 1].time + tf) && off <= q[|q| - 1].time
      && IndexOf(seen, q[|q| - 1].time + tf) == IndexOf(seen, off) + |q|
  {
    var rows := Rows(table, off, end, n);
    RowsOf(seen, table, tf, off, end, n);
    AgreeAfter(seen, table, tf, off, |rows|);
    LastOfRun(From(seen, off), rows);
    RowsEnd(rows, table, tf, off, end, n);
  }

  lemma LastOfRun(rest: seq<Kline>, rows: seq<Kline>)
    requires 0 < |rows| <= |rest| && rows == rest[..|rows|]
    ensures rows[|rows| - 1] == rest[|rows| - 1]
  {
  }

  /** After a query that found `q` the series is `p`, and the offset behind `q`. */
  ghost predicate GoesOn(seen: seq<Kline>, table: seq<Kline>, tf: int, off: int, q: seq<Kline>, p: seq<Kline>,
                         asked: int, now: Now)
  {
    && Found(q, p, IndexOf(seen, off), tf, asked) && IndexOf(p, off) == IndexOf(seen, off)
    && Agree(p, table, q[|q| - 1].time + tf)
    && Grown(seen, off, IndexOf(seen, off), p, q[|q| - 1].time + tf, now)
  }

  /** An unfinished bar that comes along is put into the series right behind the rows. */
  lemma UnfinishedGoesOn(seen: seq<Kline>, table: seq<Kline>, tf: int, off: int, rows: seq<Kline>, now: Now)
    requires StoredBars(seen, tf) && StoredBars(table, tf) && ValidNow(now, tf) && now.un.Some? && rows != []
    requires GoesOn(seen, table, tf, off, rows, seen, now.top, now) && off <= rows[|rows| - 1].time
    requires rows[|rows| - 1].time + tf == now.top == now.un.value.time
    requires IndexOf(seen, now.top) == IndexOf(seen, off) + |rows|
    ensures GoesOn(seen, table, tf, off, rows + [now.un.value], Patch(seen, now.un.value), now.top + 1, now)
  {
    AppendedRun(seen, tf, IndexOf(seen, off), rows, now.un.value);
    AgreePatched(seen, table, tf, now.un.value);
    PatchLater(seen, tf, now.un.value, off);
    PatchStored(seen, tf, now.un.value);
  }

  lemma RowsGoOn(seen: seq<Kline>, table: seq<Kline>, tf: int, off: int, end: int, n: nat, now: Now)
    requires StoredBars(seen, tf) && StoredBars(table, tf) && Agree(seen, table, off) && n > 0 && tf > 0
    requires Rows(table, off, end, n) != []
    ensures GoesOn(seen, table, tf, off, Rows(table, off, end, n), seen, end, now)
  {
    RowsFound(seen, table, tf, off, end, n);
    RowsAgree(seen, table, tf, off, end, n);
  }

  lemma UnfinishedAfterRows(seen: seq<Kline>, table: seq<Kline>, tf: int, off: int, end: int, n: nat, now: Now)
    requires StoredBars(seen, tf) && StoredBars(table, tf) && Agree(seen, table, off) && n > 0 && ValidNow(now, tf)
    requires Appends(Rows(table, off, Min(end, now.top), n), tf, now)
    ensures GoesOn(seen, table, tf, off, Query(table, tf, off, end, n, now), Patch(seen, now.un.value), now.top + 1,
      now)
  {
    RowsGoOn(seen, table, tf, off, Min(end, now.top), n, now);
    RowsAgree(seen, table, tf, off, Min(end, now.top), n);
    UnfinishedGoesOn(seen, table, tf, off, Rows(table, off, Min(end, now.top), n), now);
  }

  /** The series when the unfinished bar comes along, or not. */
  function Continued(seen: seq<Kline>, meets: bool, now: Now): seq<Kline> {
    if meets && now.un.Some? then Patch(seen, now.un.value) else seen
  }

  /**
   * What a query finds is a run of the series from the offset on, in which the unfinished bar is put if it comes
   * along.
   */
  lemma QueryOf(seen: seq<Kline>, table: seq<Kline>, tf: int, off: int, end: int, n: nat, q: seq<Kline>, now: Now)
    returns (p: seq<Kline>, asked: int)
    requires StoredBars(seen, tf) && StoredBars(table, tf) && Agree(seen, table, off) && n > 0 && ValidNow(now, tf)
    requires q == Query(table, tf, off, end, n, now) && q != []
    ensures GoesOn(seen, table, tf, off, q, p, asked, now)
    ensures p == Continued(seen, Appends(Rows(table, off, Min(end, now.top), n), tf, now), now)
    ensures now.un.None? ==> asked == Min(end, now.top)
  {
    if Appends(Rows(table, off, Min(end, now.top), n), tf, now) {
      UnfinishedAfterRows(seen, table, tf, off, end, n, now);
      p, asked := Patch(seen, now.un.value), now.top + 1;
    } else {
      RowsGoOn(seen, table, tf, off, Min(end, now.top), n, now);
      p, asked := seen, Min(end, now.top);
    }
  }

  lemma QueryNone(seen: seq<Kline>, table: seq<Kline>, tf: int, off: int, end: int, n: nat, now: Now)
    requires StoredBars(seen, tf) && StoredBars(table, tf) && Agree(seen, table, off) && n > 0
    requires Query(table, tf, off, end, n, now) == []
    ensures IndexOf(seen, off) < |seen| ==> Min(end, now.top) <= seen[IndexOf(seen, off)].time
  {
    RowsOf(seen, table, tf, off, Min(end, now.top), n);
  }

  lemma RowsEnd(rows: seq<Kline>, table: seq<Kline>, tf: int, off: int, end: int, n: nat)
    requires StoredBars(table, tf) && rows == Rows(table, off, end, n) && rows != []
    ensures off <= rows[|rows| - 1].time
  {
    StoredIsMarket(table, tf);
    RowsAreRun(table, tf, off, end, n);
    assert rows[0].time <= rows[|rows| - 1].time;
  }

  /** A cached bar is the one of the series. */
  lemma InCache(seen: seq<Kline>, tf: int, first: nat, caches: seq<Kline>, i: nat)
    requires StoredBars(seen, tf) && first + |caches| <= |seen| && caches == seen[first..first + |caches|]
      && i < |caches|
    ensures seen[first + i] == caches[i] && caches[i].time <= caches[|caches| - 1].time
    ensures 0 < caches[i].time + tf < NEVER && (i + 1 < |caches| ==> caches[i].time < caches[i + 1].time)
    ensures i == |caches| - 1 ==> IndexOf(seen, caches[i].time + tf) == first + |caches|
  {
    StoredIsMarket(seen, tf);
    assert seen[first + i] == caches[i] && seen[first + |caches| - 1] == caches[|caches| - 1];
    if i + 1 < |caches| {
      assert seen[first + i + 1] == caches[i + 1];
    }
    IndexAfter(seen, tf, first + i);
  }

  lemma IndexFrom(seen: seq<Kline>, tf: int, off: int)
    requires StoredBars(seen, tf)
    ensures IndexOf(seen, off) < |seen| ==> off <= seen[IndexOf(seen, off)].time
  {
    Splits(seen, tf, off);
  }

  /** Since the series was `before`, at most the unfinished bar has come into it, behind the next bar to read. */
  ghost predicate Grown(before: seq<Kline>, offB: int, next: nat, seen: seq<Kline>, offA: int, now: Now) {
    && offB <= offA
    && (seen != before ==>
          && now.un.Some? && seen == Patch(before, now.un.value)
          && offB <= now.top < offA && next < IndexOf(before, now.top))
  }

  lemma GrownKeeps(before: seq<Kline>, offB: int, next: nat, seen: seq<Kline>, offA: int, now: Now, tf: int)
    requires Grown(before, offB, next, seen, offA, now) && next <= |before| && StoredBars(before, tf)
      && ValidNow(now, tf)
    ensures next <= |seen| && seen[..next] == before[..next]
  {
    if seen != before {
      PatchAt(before, tf, now.un.value);
      var i := IndexOf(before, now.top);
      assert seen[..next] == seen[..i][..next] && before[..next] == before[..i][..next];
    }
  }

  /** The bars that a query found from an offset on are later than the offset. */
  lemma FoundAfter(q: seq<Kline>, p: seq<Kline>, i: nat, tf: int, asked: int, off: int)
    requires Found(q, p, i, tf, asked) && i == IndexOf(p, off) && off > 0
    ensures off <= q[0].time <= q[|q| - 1].time && 0 < q[0].time + tf <= q[|q| - 1].time + tf < NEVER
  {
    InCache(p, tf, i, q, 0);
    InCache(p, tf, i, q, |q| - 1);
    IndexFrom(p, tf, off);
  }

  lemma IndexIs(seen: seq<Kline>, tf: int, from: nat, next: nat, bound: int)
    requires StoredBars(seen, tf) && from <= next <= |seen|
    requires next > from ==> seen[next - 1].time < bound
    requires next < |seen| ==> bound <= seen[next].time
    ensures next == Max(from, IndexOf(seen, bound))
  {
    StoredIsMarket(seen, tf);
    IndexAtMost(seen, tf, bound, next);
    if next > from {
      IndexBetween(seen, tf, bound, next);
    }
  }

  lemma PatchSame(bars: seq<Kline>, tf: int, u: Kline)
    requires StoredBars(bars, tf) && u in bars
    ensures Patch(bars, u) == bars
  {
    var j :| 0 <= j < |bars| && bars[j] == u;
    IndexAfter(bars, tf, j);
  }

  lemma SlicePatched(bars: seq<Kline>, tf: int, u: Kline, since: int, bound: int)
    requires StoredBars(bars, tf) && Fits(u, tf) && since <= u.time && bound <= u.time
    ensures Slice(Patch(bars, u), since, bound) == Slice(bars, since, bound)
  {
    PatchAt(bars, tf, u);
    PatchLater(bars, tf, u, since);
    PatchLater(bars, tf, u, bound);
    var i, j, m := IndexOf(bars, since), IndexOf(bars, bound), IndexOf(bars, u.time);
    if i <= j {
      assert Patch(bars, u)[i..j] == Patch(bars, u)[..m][i..j] && bars[i..j] == bars[..m][i..j];
    }
  }
}
