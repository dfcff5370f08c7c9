/** Reading the bars of a table one by one, with a cache that is refilled in batches. */
module KlineCursor {
  import opened Basics
  import opened Bars
  import opened Series
  import opened KlineQuery
  import opened CursorState

  class TfKlineLoader {
    const symbol: string
    const table: seq<Kline>
    const tf: int
    const batchSize: nat
    var endMS: int
    var firstRead: bool
    var rowIdx: int
    var caches: seq<Kline>
    var nextMS: int
    var offsetMS: int
    /** The table as it has been read, with the unfinished bars that came along. */
    ghost var seen: seq<Kline>
    /** Where in it the cache begins. */
    ghost var first: nat

    /** Just reset: nothing has been read from the offset on. */
    predicate Fresh()
      reads this
    {
      rowIdx == 0 && caches == [] && nextMS == 0
    }

    /** Nothing is left to read before the end. */
    predicate Ended()
      reads this
    {
      rowIdx == -1
    }

    ghost predicate Reading()
      reads this
    {
      && 0 <= rowIdx < |caches|
      && nextMS == caches[rowIdx].time + tf
      && offsetMS == caches[|caches| - 1].time + tf
      && first + |caches| <= |seen| && caches == seen[first..first + |caches|]
    }

    ghost predicate Configured()
      reads this`endMS
    {
      StoredBars(table, tf) && batchSize > 0 && endMS > 0
    }

    ghost function Source(): Feed {
      Feed(table, tf, batchSize)
    }

    /** What the reads to come depend on, apart from the position. */
    ghost function State(): Cursor
      reads this
    {
      Cursor(Mark(offsetMS, if Fresh() then Blank else if Ended() then Over else Cached), endMS, seen)
    }

    ghost predicate Valid()
      reads this
    {
      && Sound(Source(), State())
      && (Fresh() || Reading() || (Ended() && nextMS == NEVER))
    }

    /** The index in the series of the next bar to read. */
    ghost function Next(): (i: nat)
      requires Valid()
      reads this
      ensures i <= |seen|
    {
      if Reading() then first + rowIdx else IndexOf(seen, offsetMS)
    }

    constructor (symbol: string, table: seq<Kline>, tf: int, batchSize: nat, endMS: int)
      requires StoredBars(table, tf) && batchSize > 0 && endMS > 0
      ensures Configured() && this.table == table && this.tf == tf && this.endMS == endMS && firstRead
      ensures this.symbol == symbol && this.batchSize == batchSize
    {
      this.symbol := symbol;
      this.table, this.tf, this.batchSize, this.endMS := table, tf, batchSize, endMS;
      firstRead := true;
      rowIdx, caches, nextMS, offsetMS := 0, [], 0, 0;
      seen := table;
    }

    /** The next bar; none when the reading has not begun or has ended. */
    method GetBar() returns (bar: Option<Kline>)
      requires Valid()
      ensures bar == if Reading() then Some(seen[Next()]) else None
    {
      if rowIdx < 0 || rowIdx >= |caches| {
        return None;
      }
      bar := Some(caches[rowIdx]);
    }

    /** Whether there is a bar to get. */
    predicate Shows()
      requires Valid()
      reads this
      ensures Shows() <==> Reading()
    {
      0 <= rowIdx < |caches|
    }

    method Reset(since: int)
      requires Configured() && since >= 0
      modifies this
      ensures Valid() && Fresh() && firstRead == old(firstRead)
      ensures State() == Cursor(Mark(SeekTime(since), Blank), old(endMS), table)
    {
      rowIdx, nextMS, caches := 0, 0, [];
      offsetMS := if since == 0 then MIN_STAMP else since;
      seen := table;
    }

    method SetSeek(since: int, now: Now)
      requires Configured() && since >= 0 && ValidNow(now, tf)
      modifies this
      ensures Valid() && !Fresh() && firstRead == old(firstRead)
      ensures Next() == IndexOf(table, SeekTime(since))
      ensures State() == Sought(Source(), old(endMS), SeekTime(since), now)
    {
      Reset(since);
      SetNext(now);
    }

    /** Moves to the next bar, refilling the cache when it is used up. */
    method SetNext(now: Now)
      requires Valid() && !Ended() && ValidNow(now, tf)
      modifies `rowIdx, `caches, `nextMS, `offsetMS, `seen, `first
      ensures Valid() && !Fresh() && old(nextMS) < nextMS <= NEVER
      ensures Next() == old(Next()) + if old(Reading()) then 1 else 0
      ensures State() ==
        if old(rowIdx + 1 < |caches|) then old(State()) else AfterRefill(Source(), old(State()), now)
    {
      if rowIdx + 1 < |caches| {
        Advance();
        return;
      }
      Refill(now);
    }

    /** Behind the last bar of the cache the offset is where the next bar is. */
    lemma BehindCache()
      requires Valid() && !Ended() && rowIdx + 1 >= |caches|
      ensures IndexOf(seen, offsetMS) == Next() + (if Reading() then 1 else 0)
      ensures nextMS <= offsetMS && nextMS < NEVER
    {
      if Reading() {
        InCache(seen, tf, first, caches, rowIdx);
      }
    }

    method Advance()
      requires Valid() && Reading() && rowIdx + 1 < |caches|
      modifies `rowIdx, `nextMS
      ensures Valid() && Reading() && Next() == old(Next()) + 1
      ensures old(nextMS) < nextMS <= NEVER && State() == old(State()) && !Fresh() && !Ended()
    {
      NextInCache();
      rowIdx := rowIdx + 1;
      nextMS := caches[rowIdx].time + tf;
    }

    lemma NextInCache()
      requires Valid() && Reading() && rowIdx + 1 < |caches|
      ensures nextMS < caches[rowIdx + 1].time + tf < NEVER
    {
      InCache(seen, tf, first, caches, rowIdx);
      InCache(seen, tf, first, caches, rowIdx + 1);
    }

    /** Reads the next batch from the offset, unless the end has been reached. */
    method Refill(now: Now)
      requires Valid() && !Ended() && rowIdx + 1 >= |caches| && ValidNow(now, tf)
      modifies `rowIdx, `caches, `nextMS, `offsetMS, `seen, `first
      ensures Valid() && !Fresh() && old(nextMS) < nextMS <= NEVER
      ensures Next() == old(Next()) + if old(Reading()) then 1 else 0
      ensures State() == AfterRefill(Source(), old(State()), now)
    {
      BehindCache();
      if nextMS >= endMS {
        RefillNone(Source(), State(), now);
        End();
        return;
      }
      Fetch(now);
    }

    method Fetch(now: Now)
      requires Valid() && !Ended() && rowIdx + 1 >= |caches| && ValidNow(now, tf) && nextMS < NEVER
      requires Asks(State().mark, endMS)
      modifies `rowIdx, `caches, `nextMS, `offsetMS, `seen, `first
      ensures Valid() && !Fresh() && old(nextMS) < nextMS <= NEVER
      ensures Next() == IndexOf(old(seen), old(offsetMS)) && State() == AfterRefill(Source(), old(State()), now)
    {
      var bars := Query(table, tf, offsetMS, endMS, batchSize, now);
      if |bars| == 0 {
        RefillNone(Source(), State(), now);
        End();
        return;
      }
      Fill(bars, now);
    }

    /** Goes on with the bars that a query has found. */
    method Fill(bars: seq<Kline>, ghost now: Now)
      requires Valid() && !Ended() && rowIdx + 1 >= |caches| && ValidNow(now, tf) && nextMS <= offsetMS
      requires Asks(State().mark, endMS)
      requires bars != [] && bars == Query(table, tf, offsetMS, endMS, batchSize, now)
      modifies `rowIdx, `caches, `nextMS, `offsetMS, `seen, `first
      ensures Valid() && !Fresh() && old(nextMS) < nextMS <= NEVER
      ensures Next() == IndexOf(old(seen), old(offsetMS)) && State() == AfterRefill(Source(), old(State()), now)
    {
      ghost var p, asked := RefillFound(Source(), State(), bars, now);
      Keep(bars, p, asked);
    }

    /** The reading ends; the offset is kept for a later one. */
    method End()
      requires Valid() && !Ended() && rowIdx + 1 >= |caches|
      modifies `rowIdx, `offsetMS, `nextMS
      ensures Valid() && Ended() && nextMS == NEVER && offsetMS == old(offsetMS) && !Fresh()
      ensures Next() == IndexOf(seen, offsetMS)
    {
      rowIdx := -1;
      offsetMS := Max(offsetMS, nextMS);
      nextMS := NEVER;
    }

    /** Puts the bars of a query into the cache. */
    method Keep(bars: seq<Kline>, ghost p: seq<Kline>, ghost asked: int)
      requires Configured() && offsetMS > 0 && Found(bars, p, IndexOf(seen, offsetMS), tf, asked)
      requires IndexOf(p, offsetMS) == IndexOf(seen, offsetMS) && Agree(p, table, bars[|bars| - 1].time + tf)
      requires nextMS <= offsetMS
      modifies `rowIdx, `caches, `nextMS, `offsetMS, `seen, `first
      ensures Valid() && Reading() && !Fresh() && !Ended() && seen == p
      ensures Next() == old(IndexOf(seen, offsetMS))
      ensures old(nextMS) < nextMS <= NEVER && offsetMS == bars[|bars| - 1].time + tf
    {
      first := IndexOf(seen, offsetMS);
      seen := p;
      FoundAfter(bars, seen, first, tf, asked, offsetMS);
      caches := bars;
      rowIdx := 0;
      nextMS := bars[0].time + tf;
      offsetMS := bars[|bars| - 1].time + tf;
    }

    /** Moves the end up; a reading that had ended begins again at its offset. */
    method Extend(upTo: int)
      requires Valid()
      modifies this
      ensures Valid() && Next() == old(Next()) && firstRead == old(firstRead)
      ensures State() == Extended(old(State()), upTo, true)
    {
      ShownIsCached();
      if endMS < upTo {
        endMS := upTo;
        if nextMS == NEVER {
          ghost var s := seen;
          Reset(offsetMS);
          seen := s;
        }
      }
    }

    /** The bar that is shown is the next one of the series. */
    lemma ShownIsCached()
      requires Valid()
      ensures Reading() ==>
        Next() < |seen| && seen[Next()] == caches[rowIdx] && seen[Next()].time + tf == nextMS <= offsetMS < NEVER
    {
      if Reading() {
        InCache(seen, tf, first, caches, rowIdx);
        InCache(seen, tf, first, caches, |caches| - 1);
      }
    }

    /** Fills the cache of a cursor that has none. */
    method Start(ghost upTo: int, now: Now)
      requires Valid() && Fresh() && ValidNow(now, tf)
      modifies `rowIdx, `caches, `nextMS, `offsetMS, `seen, `first
      ensures Valid() && !Fresh() && Next() == old(Next()) && nextMS <= NEVER
      ensures ReadOn(Source(), State(), upTo, now) == ReadOn(Source(), old(State()), upTo, now)
      ensures old(Plain(Source(), State())) && Quiet(endMS, now) ==> Plain(Source(), State())
    {
      ReadStep(Source(), State(), upTo, now);
      RefillKeeps(Source(), State(), now);
      SetNext(now);
    }

    /** A read under way that has taken `result` from index `next` on and will lead to `goal`. */
    ghost predicate Going(next: nat, result: seq<Kline>, upTo: int, now: Now, plain: bool, goal: Cursor)
      reads this
    {
      Valid() && !Fresh() && nextMS <= NEVER && Taken(Source(), State(), Next(), next, result, upTo, now, plain, goal)
    }

    /** Where the next move leads when the bar that is shown, which ends by `upTo`, is taken. */
    lemma ShownTaken(taken: seq<Kline>, next: nat, upTo: int, now: Now, plain: bool, goal: Cursor)
      requires Going(next, taken, upTo, now, plain, goal) && Reading() && nextMS <= upTo && ValidNow(now, tf)
      ensures var r := if rowIdx + 1 < |caches| then State() else AfterRefill(Source(), State(), now);
        Taken(Source(), r, Next() + 1, next, taken + [caches[rowIdx]], upTo, now, plain, goal)
    {
      hide Taken, AfterRefill, ReadOn, Plain;
      ShownIsCached();
      if rowIdx + 1 < |caches| {
        TakenInCache(Source(), State(), Next(), next, taken, upTo, now, plain, goal);
      } else {
        LastTaken(taken, next, upTo, now, plain, goal);
      }
    }

    lemma LastTaken(taken: seq<Kline>, next: nat, upTo: int, now: Now, plain: bool, goal: Cursor)
      requires Going(next, taken, upTo, now, plain, goal) && Reading() && nextMS <= upTo && ValidNow(now, tf)
      requires rowIdx + 1 == |caches|
      ensures var r := AfterRefill(Source(), State(), now);
        Taken(Source(), r, Next() + 1, next, taken + [caches[rowIdx]], upTo, now, plain, goal)
    {
      ShownIsCached();
      BehindCache();
      TakenLast(Source(), State(), Next(), next, taken, upTo, now, plain, goal);
    }

    /** Takes it. */
    method Step(ghost taken: seq<Kline>, ghost next: nat, ghost upTo: int, now: Now, ghost plain: bool,
        ghost goal: Cursor)
      requires Going(next, taken, upTo, now, plain, goal) && Reading() && nextMS <= upTo && ValidNow(now, tf)
      modifies `rowIdx, `caches, `nextMS, `offsetMS, `seen, `first
      ensures Going(next, taken + [old(caches[rowIdx])], upTo, now, plain, goal) && old(nextMS) < nextMS
    {
      ShownTaken(taken, next, upTo, now, plain, goal);
      SetNext(now);
    }

    /** One turn of the loop; it stops behind a bar that ends at `upTo`, and before one that ends later. */
    method Turn(taken: seq<Kline>, ghost next: nat, upTo: int, now: Now, ghost plain: bool, ghost goal: Cursor)
      returns (result: seq<Kline>, stop: bool)
      requires Going(next, taken, upTo, now, plain, goal) && Reading() && ValidNow(now, tf)
      modifies `rowIdx, `caches, `nextMS, `offsetMS, `seen, `first
      ensures Going(next, result, upTo, now, plain, goal)
      ensures if stop then Reading() ==> nextMS > upTo else old(nextMS) < nextMS
    {
      result, stop := taken, true;
      var bar := caches[rowIdx];
      var barEnd := bar.time + tf;
      if barEnd > upTo {
        return;
      }
      result := taken + [bar];
      Step(taken, next, upTo, now, plain, goal);
      stop := barEnd == upTo;
    }

    /** Hands out bars as long as they end by `upTo`. */
    method TakeUpTo(upTo: int, now: Now, ghost plain: bool) returns (result: seq<Kline>)
      requires Valid() && !Fresh() && nextMS <= NEVER && ValidNow(now, tf)
      requires plain ==> Quiet(endMS, now) && Plain(Source(), State())
      modifies `rowIdx, `caches, `nextMS, `offsetMS, `seen, `first
      ensures Going(old(Next()), result, upTo, now, plain, State()) && (Reading() ==> nextMS > upTo)
      ensures State() == ReadOn(Source(), old(State()), upTo, now)
    {
      ghost var next, goal := Next(), ReadOn(Source(), State(), upTo, now);
      result := [];
      while 0 <= rowIdx < |caches|
        invariant Going(next, result, upTo, now, plain, goal)
        decreases NEVER - nextMS
      {
        ShownIsCached();
        var stop;
        result, stop := Turn(result, next, upTo, now, plain, goal);
        if stop {
          break;
        }
      }
      ShownIsCached();
    }

    /** Moves the end up if it is a forced read, fills the cache of a cursor that has none, and hands out bars. */
    method ReadUpTo(upTo: int, force: bool, now: Now, ghost plain: bool) returns (result: seq<Kline>)
      requires Valid() && ValidNow(now, tf)
      requires plain ==> !force && Quiet(endMS, now) && Plain(Source(), State())
      modifies this
      ensures Going(old(Next()), result, upTo, now, plain, State()) && StandsAt(Source(), State(), Next(), upTo)
      ensures State() == ReadOn(Source(), Extended(old(State()), upTo, force), upTo, now)
      ensures firstRead == old(firstRead)
    {
      hide ReadOn, Plain;
      if force {
        Extend(upTo);
      }
      if rowIdx >= |caches| {
        Start(upTo, now);
      }
      ShownIsCached();
      result := TakeUpTo(upTo, now, plain);
      ShownIsCached();
    }

    /**
     * Hands out the bars that end by `end`, which is first rounded down to the hour. With `force` the end
     * of the reading is moved up if need be, and a reading that had ended is taken up again at its offset.
     */
    method ReadTo(end: int, force: bool, now: Now) returns (result: seq<Kline>)
      requires Valid() && ValidNow(now, tf)
      modifies this
      ensures Valid() && !Fresh() && !firstRead
      ensures HandsOut(Source(), old(State()), State(), old(Next()), Next(), result, end, force, now)
    {
      hide ReadOn, Plain, OnTime, Taken, HandsOut;
      ghost var c, n := State(), Next();
      ghost var plain := !force && Plain(Source(), c) && Quiet(endMS, now);
      firstRead := false;
      result := ReadUpTo(AlignDown(end, HOUR), force, now, plain);
      ReadHandsOut(Source(), c, State(), n, Next(), result, end, force, now, plain);
    }
  }
}
