/** When a loader that is read hour by hour hands out hours that were not over. */
module StaleHours {
  import opened Basics
  import opened Bars
  import opened Series
  import opened KlineQuery
  import opened CursorState
  import opened KlineCursor
  import opened CursorRuns

  ghost predicate HasBar(table: seq<Kline>, t: int) {
    exists i :: 0 <= i < |table| && table[i].time == t
  }

  /** The bar at `t` is stored and has not been read by a cursor at `off`. */
  ghost predicate Unread(table: seq<Kline>, off: int, t: int) {
    off <= t && HasBar(table, t)
  }

  /** A query up to the present frame that finds no rows. */
  lemma NoRows(f: Feed, off: int, now: Now)
    requires StoredBars(f.table, f.tf) && ValidNow(now, f.tf) && f.batch > 0
    requires Rows(f.table, off, now.top, f.batch) == []
    ensures !Unread(f.table, off, now.top - f.tf)
  {
    RowsAreRun(f.table, f.tf, off, now.top, f.batch);
    StoredIsMarket(f.table, f.tf);
    CountSplits(f.table, |f.table|, off);
  }

  /** The last row of such a query is the bar before the present frame, or an earlier one. */
  lemma LastRow(f: Feed, off: int, now: Now)
    requires StoredBars(f.table, f.tf) && ValidNow(now, f.tf) && f.batch > 0
    requires Rows(f.table, off, now.top, f.batch) != []
    ensures var rows := Rows(f.table, off, now.top, f.batch);
      var last := rows[|rows| - 1].time;
      && off <= last && (last + f.tf == now.top || last + f.tf <= now.top - f.tf)
      && HasBar(f.table, last)
  {
    var rows, i := Rows(f.table, off, now.top, f.batch), IndexOf(f.table, off);
    RowsAreRun(f.table, f.tf, off, now.top, f.batch);
    RowsEnd(rows, f.table, f.tf, off, now.top, f.batch);
    var k := i + |rows| - 1;
    assert rows[|rows| - 1] == f.table[k];
    GridAt(f.table, f.tf, k);
    FrameBefore(f.table[k].time, now.top, f.tf);
  }

  lemma FrameBefore(t: int, top: int, tf: int)
    requires tf > 0 && t % tf == 0 && top % tf == 0 && t < top
    ensures t + tf == top || t + tf <= top - tf
  {
    LastOnGrid(t, top, tf);
    if t + tf < top {
      ShiftMultiple(t, 1, tf);
      LastOnGrid(t + tf, top, tf);
    }
  }

  /**
   * A read up to the present frame meets the unfinished bar exactly when there is one and the bar before it is stored
   * and has not been read yet.
   */
  lemma {:induction false} MeetsExactly(f: Feed, end: int, upTo: int, m: Mark, now: Now)
    requires StoredBars(f.table, f.tf) && ValidNow(now, f.tf) && f.batch > 0 && now.top <= upTo <= end
    ensures ThroughMeets(f, end, upTo, m, now) <==>
      !m.mode.Over? && now.un.Some? && Unread(f.table, m.off, now.top - f.tf)
    decreases m.mode.Blank?, upTo - m.off
  {
    hide Rows, HasBar, Through;
    ThroughGoes(f, end, upTo, m, now);
    if Continues(m, upTo) && Asks(m, end) {
      RefillMoves(f, end, m, now);
      var rows := Rows(f.table, m.off, now.top, f.batch);
      if rows == [] {
        NoRows(f, m.off, now);
        NoRowsNoStep(f, end, m, now);
      } else {
        LastRow(f, m.off, now);
        var r := Refilled(f, end, m, now);
        if rows[|rows| - 1].time + f.tf < now.top {
          MeetsExactly(f, end, upTo, r, now);
        }
      }
    }
  }

  // ---------------------------------------------------------------- an hour after the other

  /** How far a read may go. */
  lemma {:induction false} ThroughBounded(f: Feed, end: int, upTo: int, m: Mark, now: Now)
    requires StoredBars(f.table, f.tf) && ValidNow(now, f.tf) && f.batch > 0
    ensures Through(f, end, upTo, m, now).off <=
      Max(m.off, if ThroughMeets(f, end, upTo, m, now) then now.top + f.tf else now.top)
    decreases m.mode.Blank?, upTo - m.off
  {
    if Continues(m, upTo) {
      RefillMoves(f, end, m, now);
      RefillBounded(f, end, m, now);
      var r := Refilled(f, end, m, now);
      if r.off > m.off {
        ThroughBounded(f, end, upTo, r, now);
        if Meets(f, end, m, now) {
          MeetsNoMore(f, end, upTo, r, now);
        }
      }
    }
  }

  lemma RefillBounded(f: Feed, end: int, m: Mark, now: Now)
    requires StoredBars(f.table, f.tf) && ValidNow(now, f.tf) && f.batch > 0
    ensures Refilled(f, end, m, now).off <= Max(m.off, if Meets(f, end, m, now) then now.top + f.tf else now.top)
  {
    var rows, i := Rows(f.table, m.off, Min(end, now.top), f.batch), IndexOf(f.table, m.off);
    if Asks(m, end) && rows != [] {
      RowsAreRun(f.table, f.tf, m.off, Min(end, now.top), f.batch);
      var k := i + |rows| - 1;
      assert rows[|rows| - 1] == f.table[k];
      GridAt(f.table, f.tf, k);
      LastOnGrid(f.table[k].time, now.top, f.tf);
    }
  }

  /** Reading again up to the same hour changes nothing, whatever the queries would find by then. */
  lemma SameHourReadsNothing(f: Feed, c: Cursor, end: int, now: Now, end': int, now': Now)
    requires Sound(f, c) && ValidNow(now, f.tf) && AlignDown(end', HOUR) == AlignDown(end, HOUR)
    ensures AfterRead(f, AfterRead(f, c, end, true, now), end', true, now') == AfterRead(f, c, end, true, now)
  {
    ReadKeeps(f, Extended(c, AlignDown(end, HOUR), true), AlignDown(end, HOUR), now);
  }

  /**
   * A loader for hours that is placed within an hour, and read once in each of the hours that follow, up to the
   * beginning of that hour. Every hour is stored when it is over, and the seek and all reads find a row for the
   * present one, as it is then.
   */
  ghost predicate Hourly(p: Plan) {
    && ValidPlan(p) && p.f.tf == HOUR && p.since <= p.seekNow.top && p.end <= p.seekNow.top
    && (forall k :: 0 <= k < |p.calls| ==> HourAfter(p, k))
  }

  ghost predicate HourAfter(p: Plan, k: nat)
    requires k < |p.calls|
  {
    && NowAt(p, k + 1).top == NowAt(p, k).top + HOUR == AlignDown(p.calls[k].end, HOUR)
    && NowAt(p, k + 1).un.Some? && HasBar(p.f.table, NowAt(p, k).top)
  }

  /** Whether the next read meets its unfinished bar depends on whether the bar of the hour before has been read. */
  lemma NextMeets(p: Plan, k: nat)
    requires Hourly(p) && k < |p.calls|
    ensures MeetsAt(p, k + 1) <==> CursorAt(p, k).mark.off <= NowAt(p, k).top
    ensures CursorAt(p, k + 1).mark.off <= Max(CursorAt(p, k).mark.off,
                                               if MeetsAt(p, k + 1) then NowAt(p, k + 1).top + HOUR
                                               else NowAt(p, k + 1).top)
  {
    assert HourAfter(p, k);
    EndInTime(p, k);
    ReadsKeep(p, k);
    if k > 0 {
      assert HourAfter(p, k - 1);
    }
    var upTo := AlignDown(p.calls[k].end, HOUR);
    var c := Extended(CursorAt(p, k), upTo, true);
    assert c.end == upTo && !c.mark.mode.Over?;
    MeetsExactly(p.f, c.end, upTo, c.mark, p.calls[k].now);
    ThroughBounded(p.f, c.end, upTo, c.mark, p.calls[k].now);
  }

  lemma SeekBounded(p: Plan)
    requires Hourly(p)
    ensures CursorAt(p, 0).mark.off <= if MeetsAt(p, 0) then p.seekNow.top + HOUR else p.seekNow.top
  {
    RefillBounded(p.f, p.end, Mark(p.since, Blank), p.seekNow);
  }

  lemma {:induction false} OffBounded(p: Plan, k: nat)
    requires Hourly(p) && k <= |p.calls|
    ensures CursorAt(p, k).mark.off <= if MeetsAt(p, k) then NowAt(p, k).top + HOUR else NowAt(p, k).top
  {
    if k == 0 {
      SeekBounded(p);
    } else {
      hide CursorAt, MeetsAt;
      OffBounded(p, k - 1);
      NextMeets(p, k - 1);
      assert HourAfter(p, k - 1);
    }
  }

  /** Exactly every second one of the hours is met before it is over. */
  lemma EverySecondHour(p: Plan, k: nat)
    requires Hourly(p) && k < |p.calls|
    ensures MeetsAt(p, k + 1) <==> !MeetsAt(p, k)
  {
    hide CursorAt, MeetsAt;
    OffBounded(p, k);
    NextMeets(p, k);
    if MeetsAt(p, k) {
      MetAt(p, k);
    }
  }

  lemma {:induction false} TopsApart(p: Plan, i: nat, k: nat)
    requires Hourly(p) && i < k <= |p.calls|
    ensures NowAt(p, i).top + HOUR <= NowAt(p, k).top
    decreases k
  {
    assert HourAfter(p, k - 1);
    if i < k - 1 {
      TopsApart(p, i, k - 1);
    }
  }

  /** What is not in the table has been met. */
  lemma {:induction false} OnlyMet(p: Plan, n: nat, u: Kline) returns (i: nat)
    requires ValidPlan(p) && n <= |p.calls| && u in CursorAt(p, n).seen && u !in p.f.table
    ensures i <= n && MeetsAt(p, i) && NowAt(p, i).un == Some(u)
  {
    hide CursorAt, MeetsAt;
    SeenIs(p, n);
    i := n;
    if MeetsAt(p, n) {
      MetAt(p, n);
      TailIsTable(p, n, NowAt(p, n).un.value);
      PatchHolds(SeenBefore(p, n), p.f.tf, NowAt(p, n).un.value, u);
    }
    if !(MeetsAt(p, n) && NowAt(p, n).un == Some(u)) {
      i := OnlyMet(p, n - 1, u);
    }
  }

  /**
   * When no row of an hour that is not over is the finished one, exactly every second of the hours that are handed out
   * is as it was before it was over: the one that the seek or the first read meets, and every second one from there.
   */
  lemma EverySecondIsStale(p: Plan, n: nat, k: nat)
    requires Hourly(p) && k < n <= |p.calls| && NowAt(p, k).un.Some? && NowAt(p, k).un.value !in p.f.table
    ensures NowAt(p, k).un.value in Handed(p, n) <==> MeetsAt(p, k)
    ensures MeetsAt(p, k + 1) <==> !MeetsAt(p, k)
  {
    hide CursorAt, MeetsAt, Handed;
    var u := NowAt(p, k).un.value;
    EverySecondHour(p, k);
    TopsApart(p, k, n);
    assert HourAfter(p, n - 1);
    ReadsAreComplete(p, n, u);
    if MeetsAt(p, k) {
      assert Stale(p, k, n);
      StaleIsHanded(p, k, n);
    } else if u in Handed(p, n) {
      var i := OnlyMet(p, n, u);
      EndInTime(p, i);
      EndInTime(p, k);
      MetAt(p, i);
      if i < k {
        TopsApart(p, i, k);
      } else {
        TopsApart(p, k, i);
      }
      assert false;
    }
  }

  // ---------------------------------------------------------------- nine and ten o'clock

  lemma TwoHours(nine: Kline, ten: Kline)
    requires nine.time == 32400000 && ten.time == 36000000
    ensures StoredBars([nine, ten], HOUR)
    ensures IndexOf([nine, ten], 32400000) == 0 && IndexOf([nine, ten], 36000000) == 1
    ensures IndexOf([nine, ten], 36000001) == 2
  {
    var bars := [nine, ten];
    assert Market(bars, HOUR);
    MarketIsStored(bars, HOUR, 2);
    IndexBetween(bars, HOUR, 32400000, 0);
    IndexBetween(bars, HOUR, 36000000, 1);
    IndexBetween(bars, HOUR, 36000001, 2);
  }

  /** At half past ten a query from nine o'clock on finds the second hour as it is then. */
  lemma HalfIsMet(f: Feed, end: int, nine: Kline, ten: Kline, half: Kline)
    requires nine.time == 32400000 && ten.time == half.time == 36000000
    requires f == Feed([nine, ten], HOUR, 3000) && end >= 36000000
    ensures Meets(f, end, Mark(32400000, Blank), Now(37800000, 36000000, Some(half)))
    ensures Patch([nine, ten], half) == [nine, half]
  {
    TwoHours(nine, ten);
    assert Slice(f.table, 32400000, 36000000) == [nine];
  }

  /**
   * A loader that is placed at nine o'clock at half past ten and read at eleven hands out the second hour as it was at
   * half past ten.
   */
  method StaleHour(nine: Kline, ten: Kline, half: Kline) returns (out: seq<Kline>)
    requires nine.time == 32400000 && ten.time == half.time == 36000000
    ensures out == [nine, half]
  {
    TwoHours(nine, ten);
    TwoHours(nine, half);
    var loader := new TfKlineLoader("BTC/USDT", [nine, ten], HOUR, 3000, 36000000);
    var seekNow, eleven := Now(37800000, 36000000, Some(half)), Now(39600000, 39600000, None);
    ghost var p := PlanOf(loader, 32400000, seekNow, [Read(39600000, eleven)]);
    HalfIsMet(p.f, p.end, nine, ten, half);
    SeenIs(p, 0);
    SeenIs(p, 1);
    assert AlignDown(39600000, HOUR) == 39600000;
    out := SeekAndRead(loader, 32400000, seekNow, [Read(39600000, eleven)]);
  }
}
