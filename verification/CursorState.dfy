/** What a cursor over a table asks for, and how the unfinished bar comes into what it reads. */
module CursorState {
  import opened Basics
  import opened Bars
  import opened Series
  import opened KlineQuery

  /** The table that is read, its time frame, and how many bars a query asks for. */
  datatype Feed = Feed(table: seq<Kline>, tf: int, batch: nat)

  /** A cursor without a cache, with one that ends before its offset, or at the end of its reading. */
  datatype Mode = Blank | Cached | Over

  datatype Mark = Mark(off: int, mode: Mode)

  /** The offset and the cache of a cursor, the end of its reading, and the series as it has been read. */
  datatype Cursor = Cursor(mark: Mark, end: int, seen: seq<Kline>)

  /** A cursor that has used up its cache asks again, unless the end has been reached. */
  predicate Asks(m: Mark, end: int) {
    !(m.mode.Cached? && m.off >= end)
  }

  /** The refill of the cache brings the unfinished bar along. */
  predicate Meets(f: Feed, end: int, m: Mark, now: Now) {
    Asks(m, end) && Appends(Rows(f.table, m.off, Min(end, now.top), f.batch), f.tf, now)
  }

  function Refilled(f: Feed, end: int, m: Mark, now: Now): Mark {
    if !Asks(m, end) then Mark(m.off, Over)
    else
      var q := Query(f.table, f.tf, m.off, end, f.batch, now);
      if q == [] then Mark(m.off, Over) else Mark(q[|q| - 1].time + f.tf, Cached)
  }

  function AfterRefill(f: Feed, c: Cursor, now: Now): Cursor {
    Cursor(Refilled(f, c.end, c.mark, now), c.end, Continued(c.seen, Meets(f, c.end, c.mark, now), now))
  }

  /** A cache is filled if there is none, and refilled as long as all of its bars end by `upTo`. */
  predicate Continues(m: Mark, upTo: int) {
    m.mode.Blank? || (m.mode.Cached? && m.off <= upTo)
  }

  function Through(f: Feed, end: int, upTo: int, m: Mark, now: Now): Mark
    decreases m.mode.Blank?, upTo - m.off
  {
    if !Continues(m, upTo) then m
    else
      var r := Refilled(f, end, m, now);
      if r.off <= m.off then r else Through(f, end, upTo, r, now)
  }

  /** One of the queries on the way meets the unfinished bar. */
  predicate ThroughMeets(f: Feed, end: int, upTo: int, m: Mark, now: Now)
    decreases m.mode.Blank?, upTo - m.off
  {
    Continues(m, upTo) && (
      || Meets(f, end, m, now)
      || (Refilled(f, end, m, now).off > m.off && ThroughMeets(f, end, upTo, Refilled(f, end, m, now), now)))
  }

  /** A forced read moves the end up; a reading that had ended begins again at its offset. */
  function Extended(c: Cursor, upTo: int, force: bool): Cursor {
    if force && c.end < upTo then
      c.(end := upTo, mark := if c.mark.mode.Over? then Mark(c.mark.off, Blank) else c.mark)
    else c
  }

  /** A read up to a time on the hour. */
  function ReadOn(f: Feed, c: Cursor, upTo: int, now: Now): Cursor {
    Cursor(Through(f, c.end, upTo, c.mark, now), c.end,
           Continued(c.seen, ThroughMeets(f, c.end, upTo, c.mark, now), now))
  }

  function AfterRead(f: Feed, c: Cursor, end: int, force: bool, now: Now): Cursor {
    ReadOn(f, Extended(c, AlignDown(end, HOUR), force), AlignDown(end, HOUR), now)
  }

  /** The time that a seek to `since` starts at. */
  function SeekTime(since: int): int {
    if since == 0 then MIN_STAMP else since
  }

  /** A cursor placed at a time fills its cache from there. */
  function Sought(f: Feed, end: int, since: int, now: Now): Cursor {
    AfterRefill(f, Cursor(Mark(since, Blank), end, f.table), now)
  }

  /** Beyond the present frame there is nothing to meet. */
  lemma MeetsNoMore(f: Feed, end: int, upTo: int, m: Mark, now: Now)
    requires StoredBars(f.table, f.tf) && m.off > now.top
    ensures !Meets(f, end, m, now) && !ThroughMeets(f, end, upTo, m, now)
  {
    var rows := Rows(f.table, m.off, Min(end, now.top), f.batch);
    if rows != [] {
      RowsAreRun(f.table, f.tf, m.off, Min(end, now.top), f.batch);
      RowsEnd(rows, f.table, f.tf, m.off, Min(end, now.top), f.batch);
    }
    if Refilled(f, end, m, now).off > m.off {
      NoRowsNoStep(f, end, m, now);
    }
  }

  /** A refill moves the offset on, or ends the reading; with the unfinished bar it moves beyond the present frame. */
  lemma RefillMoves(f: Feed, end: int, m: Mark, now: Now)
    requires StoredBars(f.table, f.tf) && ValidNow(now, f.tf)
    ensures var r := Refilled(f, end, m, now);
      && (if r.mode.Over? then r.off == m.off && !Meets(f, end, m, now) else r.mode.Cached? && r.off > m.off)
      && (Meets(f, end, m, now) ==> now.un.Some? && r == Mark(now.top + f.tf, Cached))
  {
    var rows := Rows(f.table, m.off, Min(end, now.top), f.batch);
    if Asks(m, end) && rows != [] {
      RowsEnd(rows, f.table, f.tf, m.off, Min(end, now.top), f.batch);
    }
  }

  /** Going on from a refill leads to the same cursor. */
  lemma ReadStep(f: Feed, c: Cursor, upTo: int, now: Now)
    requires StoredBars(f.table, f.tf) && ValidNow(now, f.tf) && Continues(c.mark, upTo)
    ensures ReadOn(f, AfterRefill(f, c, now), upTo, now) == ReadOn(f, c, upTo, now)
  {
    RefillMoves(f, c.end, c.mark, now);
    if Meets(f, c.end, c.mark, now) {
      MeetsNoMore(f, c.end, upTo, Refilled(f, c.end, c.mark, now), now);
    }
  }

  /** The offset never goes back; when a query meets the unfinished bar, it passes the present frame. */
  lemma {:induction false} ThroughGoes(f: Feed, end: int, upTo: int, m: Mark, now: Now)
    requires StoredBars(f.table, f.tf) && ValidNow(now, f.tf)
    ensures var r := Through(f, end, upTo, m, now);
      m.off <= r.off && (ThroughMeets(f, end, upTo, m, now) ==> now.un.Some? && m.off <= now.top < r.off)
    decreases m.mode.Blank?, upTo - m.off
  {
    if Continues(m, upTo) {
      RefillMoves(f, end, m, now);
      var r := Refilled(f, end, m, now);
      if r.off > m.off {
        ThroughGoes(f, end, upTo, r, now);
      }
      if m.off > now.top {
        MeetsNoMore(f, end, upTo, m, now);
      }
    }
  }

  lemma NoRowsNoStep(f: Feed, end: int, m: Mark, now: Now)
    requires Rows(f.table, m.off, Min(end, now.top), f.batch) == []
    ensures Refilled(f, end, m, now).off == m.off
  {
  }

  // ---------------------------------------------------------------- what every read keeps

  /** The series agrees with the table from the offset on. */
  ghost predicate Sound(f: Feed, c: Cursor) {
    && StoredBars(f.table, f.tf) && f.batch > 0 && c.end > 0 && c.mark.off > 0
    && StoredBars(c.seen, f.tf) && Agree(c.seen, f.table, c.mark.off)
  }

  /** Every bar that ends by the end has been passed when the reading is over. */
  ghost predicate OnTime(f: Feed, c: Cursor) {
    var i := IndexOf(c.seen, c.mark.off);
    c.mark.mode.Over? && i < |c.seen| ==> c.end < c.seen[i].time + f.tf
  }

  /** A query finds no unfinished bar, and nothing before the end that is not finished. */
  predicate Quiet(end: int, now: Now) {
    now.un.None? && end <= now.top
  }

  /** No unfinished bar has come along, the cache ends before the end, and is followed up to it. */
  ghost predicate Plain(f: Feed, c: Cursor) {
    var i := IndexOf(f.table, c.mark.off);
    && c.seen == f.table
    && (c.mark.mode.Cached? ==> c.mark.off - f.tf < c.end)
    && (c.mark.mode.Over? && i < |f.table| ==> c.end <= f.table[i].time)
  }

  ghost predicate GrownTo(c: Cursor, r: Cursor, now: Now) {
    Grown(c.seen, c.mark.off, IndexOf(c.seen, c.mark.off), r.seen, r.mark.off, now)
  }

  /** A refill that ends the reading. */
  lemma EndKeeps(f: Feed, c: Cursor, now: Now)
    requires Sound(f, c) && ValidNow(now, f.tf) && Refilled(f, c.end, c.mark, now).mode.Over?
    ensures AfterRefill(f, c, now) == c.(mark := Mark(c.mark.off, Over))
    ensures c.end <= now.ms ==> OnTime(f, AfterRefill(f, c, now))
    ensures c.seen == f.table && Quiet(c.end, now) ==> Plain(f, AfterRefill(f, c, now))
  {
    RefillMoves(f, c.end, c.mark, now);
    IndexFrom(c.seen, f.tf, c.mark.off);
    if Asks(c.mark, c.end) {
      QueryNone(c.seen, f.table, f.tf, c.mark.off, c.end, f.batch, now);
    }
  }

  /** A refill with the bars of a query. */
  lemma RefillFound(f: Feed, c: Cursor, q: seq<Kline>, now: Now) returns (p: seq<Kline>, asked: int)
    requires Sound(f, c) && ValidNow(now, f.tf) && Asks(c.mark, c.end)
    requires q == Query(f.table, f.tf, c.mark.off, c.end, f.batch, now) && q != []
    ensures GoesOn(c.seen, f.table, f.tf, c.mark.off, q, p, asked, now)
    ensures AfterRefill(f, c, now) == Cursor(Mark(q[|q| - 1].time + f.tf, Cached), c.end, p)
  {
    p, asked := QueryOf(c.seen, f.table, f.tf, c.mark.off, c.end, f.batch, q, now);
  }

  lemma RefillNone(f: Feed, c: Cursor, now: Now)
    requires Sound(f, c) && ValidNow(now, f.tf)
    requires !Asks(c.mark, c.end) || Query(f.table, f.tf, c.mark.off, c.end, f.batch, now) == []
    ensures AfterRefill(f, c, now) == c.(mark := Mark(c.mark.off, Over))
  {
  }

  lemma RefillKeeps(f: Feed, c: Cursor, now: Now)
    requires Sound(f, c) && ValidNow(now, f.tf)
    ensures var r := AfterRefill(f, c, now);
      && Sound(f, r) && GrownTo(c, r, now) && IndexOf(r.seen, c.mark.off) == IndexOf(c.seen, c.mark.off)
      && c.mark.off <= r.mark.off && !r.mark.mode.Blank?
      && (c.end <= now.ms ==> OnTime(f, r))
      && (c.seen == f.table && Quiet(c.end, now) ==> Plain(f, r))
  {
    hide Rows, Appends, IndexOf, From, Patch, StoredUpTo;
    RefillMoves(f, c.end, c.mark, now);
    if Refilled(f, c.end, c.mark, now).mode.Over? {
      EndKeeps(f, c, now);
    } else {
      var q := Query(f.table, f.tf, c.mark.off, c.end, f.batch, now);
      var p, asked := QueryOf(c.seen, f.table, f.tf, c.mark.off, c.end, f.batch, q, now);
    }
  }

  /** A refill behind the bar at index `n`, which has just been taken. */
  lemma RefillTakes(f: Feed, c: Cursor, n: nat, next: nat, upTo: int, now: Now)
    requires Sound(f, c) && ValidNow(now, f.tf) && Continues(c.mark, upTo)
    requires next <= n < |c.seen| && IndexOf(c.seen, c.mark.off) == n + 1
    ensures var r := AfterRefill(f, c, now);
      && ReadOn(f, r, upTo, now) == ReadOn(f, c, upTo, now)
      && n < |r.seen| && r.seen[n] == c.seen[n] && r.seen[next..n + 1] == c.seen[next..n] + [c.seen[n]]
      && (Plain(f, c) && Quiet(c.end, now) ==> Plain(f, r))
  {
    var r := AfterRefill(f, c, now);
    ReadStep(f, c, upTo, now);
    RefillKeeps(f, c, now);
    GrownKeeps(c.seen, c.mark.off, n + 1, r.seen, r.mark.off, now, f.tf);
    TakenStays(c.seen, r.seen, next, n);
  }

  lemma TakenStays(was: seq<Kline>, seen: seq<Kline>, next: nat, n: nat)
    requires next <= n < |seen| && n < |was| && seen[..n + 1] == was[..n + 1]
    ensures seen[n] == was[n] && seen[next..n + 1] == was[next..n] + [was[n]]
  {
    assert seen[n] == seen[..n + 1][n] && was[n] == was[..n + 1][n];
    assert seen[next..n + 1] == seen[..n + 1][next..] && was[next..n + 1] == was[..n + 1][next..];
  }

  /**
   * The bars at [next, n) have been taken, all of which end by `upTo`; from here the read leads to `goal`. In `plain`
   * reading no bar from the end on has been taken.
   */
  ghost predicate Taken(f: Feed, c: Cursor, n: nat, next: nat, result: seq<Kline>, upTo: int, now: Now, plain: bool,
                        goal: Cursor)
  {
    && next <= n <= |c.seen| && result == c.seen[next..n]
    && (n > next ==> c.seen[n - 1].time + f.tf <= upTo)
    && ReadOn(f, c, upTo, now) == goal
    && (plain ==> Quiet(c.end, now) && Plain(f, c) && (n > next ==> c.seen[n - 1].time < c.end))
  }

  lemma TakenInCache(f: Feed, c: Cursor, n: nat, next: nat, result: seq<Kline>, upTo: int, now: Now, plain: bool,
                     goal: Cursor)
    requires Taken(f, c, n, next, result, upTo, now, plain, goal)
    requires c.mark.mode.Cached? && n < |c.seen| && c.seen[n].time + f.tf <= Min(upTo, c.mark.off)
    ensures Taken(f, c, n + 1, next, result + [c.seen[n]], upTo, now, plain, goal)
  {
    SliceSnoc(c.seen, c.seen, next, n);
  }

  /** With the last bar of the cache comes a refill. */
  lemma TakenLast(f: Feed, c: Cursor, n: nat, next: nat, result: seq<Kline>, upTo: int, now: Now, plain: bool,
                  goal: Cursor)
    requires Sound(f, c) && ValidNow(now, f.tf) && Taken(f, c, n, next, result, upTo, now, plain, goal)
    requires c.mark.mode.Cached? && n < |c.seen| && c.seen[n].time + f.tf <= Min(upTo, c.mark.off)
    requires c.mark.off <= upTo && IndexOf(c.seen, c.mark.off) == n + 1
    ensures Taken(f, AfterRefill(f, c, now), n + 1, next, result + [c.seen[n]], upTo, now, plain, goal)
  {
    RefillTakes(f, c, n, next, upTo, now);
  }

  /** The same for all refills of a read; the position before them stays where it is. */
  lemma {:induction false} ReadKeeps(f: Feed, c: Cursor, upTo: int, now: Now)
    requires Sound(f, c) && ValidNow(now, f.tf)
    ensures var r := ReadOn(f, c, upTo, now);
      && Sound(f, r) && GrownTo(c, r, now) && r.end == c.end && c.mark.off <= r.mark.off
      && !r.mark.mode.Blank? && (r.mark.mode.Cached? ==> r.mark.off > upTo)
      && (OnTime(f, c) && c.end <= now.ms ==> OnTime(f, r))
      && (Plain(f, c) && Quiet(c.end, now) ==> Plain(f, r))
    decreases c.mark.mode.Blank?, upTo - c.mark.off
  {
    if Continues(c.mark, upTo) {
      var r := AfterRefill(f, c, now);
      RefillMoves(f, c.end, c.mark, now);
      RefillKeeps(f, c, now);
      ReadStep(f, c, upTo, now);
      if r.mark.mode.Cached? {
        ReadKeeps(f, r, upTo, now);
        GrownFurther(c, r, ReadOn(f, r, upTo, now), now);
      }
    }
  }

  lemma GrownFurther(c: Cursor, r: Cursor, t: Cursor, now: Now)
    requires GrownTo(c, r, now) && GrownTo(r, t, now) && IndexOf(r.seen, c.mark.off) == IndexOf(c.seen, c.mark.off)
    ensures GrownTo(c, t, now)
  {
    CountMonotone(r.seen, |r.seen|, c.mark.off, r.mark.off);
  }

  /** The first time at which a bar is too late to end by `end`, rounded down to the hour. */
  function Bound(tf: int, end: int): int {
    AlignDown(end, HOUR) - tf + 1
  }

  /** Where a forced read up to `end` leaves the position. */
  function NextAfter(seen: seq<Kline>, tf: int, next: nat, end: int): nat {
    Max(next, IndexOf(seen, Bound(tf, end)))
  }

  /** Forced reads that do not reach into the future stay on time. */
  lemma ForcedOnTime(f: Feed, c: Cursor, end: int, now: Now)
    requires Sound(f, c) && ValidNow(now, f.tf) && OnTime(f, c) && c.end <= now.ms && AlignDown(end, HOUR) <= now.ms
    ensures var r := AfterRead(f, c, end, true, now);
      OnTime(f, r) && r.end == Max(c.end, AlignDown(end, HOUR))
  {
    ReadKeeps(f, Extended(c, AlignDown(end, HOUR), true), AlignDown(end, HOUR), now);
  }

  /** The position is before the bar that the cache shows next, which ends after `upTo`, or where the reading ended. */
  ghost predicate StandsAt(f: Feed, c: Cursor, n: nat, upTo: int) {
    match c.mark.mode
    case Blank => false
    case Cached => n < |c.seen| && upTo < c.seen[n].time + f.tf <= c.mark.off
    case Over => n == IndexOf(c.seen, c.mark.off)
  }

  /**
   * A read from `c` at index `n` leads to `r` at index `m`. It hands out the bars between, all of which end by `end`,
   * rounded down to the hour, and leaves one to show only if that ends later. A forced read that is on time hands out
   * all that end by then. In plain reading the bars are those of the table, bounded by the end of the reading too.
   */
  ghost predicate HandsOut(f: Feed, c: Cursor, r: Cursor, n: nat, m: nat, result: seq<Kline>, end: int, force: bool,
                           now: Now)
    requires f.tf > 0
  {
    && r == AfterRead(f, c, end, force, now)
    && n <= m <= |r.seen| && result == r.seen[n..m]
    && (m > n ==> r.seen[m - 1].time < Bound(f.tf, end))
    && (r.mark.mode.Cached? ==> m < |r.seen| && Bound(f.tf, end) <= r.seen[m].time)
    && (force && OnTime(f, c) && c.end <= now.ms && AlignDown(end, HOUR) <= now.ms ==>
          OnTime(f, r) && m == NextAfter(r.seen, f.tf, n, end))
    && (!force && Plain(f, c) && Quiet(c.end, now) ==>
          Plain(f, r) && m == Max(n, IndexOf(f.table, Min(Bound(f.tf, end), r.end))))
  }

  lemma ReadHandsOut(f: Feed, c: Cursor, r: Cursor, n: nat, m: nat, result: seq<Kline>, end: int, force: bool,
                     now: Now, plain: bool)
    requires Sound(f, c) && ValidNow(now, f.tf) && Sound(f, r) && r == AfterRead(f, c, end, force, now)
    requires Taken(f, r, m, n, result, AlignDown(end, HOUR), now, plain, r) && StandsAt(f, r, m, AlignDown(end, HOUR))
    requires plain <==> !force && Plain(f, c) && Quiet(c.end, now)
    ensures HandsOut(f, c, r, n, m, result, end, force, now)
  {
    if force && OnTime(f, c) && c.end <= now.ms && AlignDown(end, HOUR) <= now.ms {
      ForcedOnTime(f, c, end, now);
      StandsOnTime(f, r, n, m, end);
    }
    if plain {
      StandsPlain(f, r, n, m, end);
    }
  }

  lemma StandsOnTime(f: Feed, r: Cursor, n: nat, m: nat, end: int)
    requires Sound(f, r) && OnTime(f, r) && StandsAt(f, r, m, AlignDown(end, HOUR)) && AlignDown(end, HOUR) <= r.end
    requires n <= m <= |r.seen| && (m > n ==> r.seen[m - 1].time < Bound(f.tf, end))
    ensures m == NextAfter(r.seen, f.tf, n, end)
  {
    IndexIs(r.seen, f.tf, n, m, Bound(f.tf, end));
  }

  lemma StandsPlain(f: Feed, r: Cursor, n: nat, m: nat, end: int)
    requires Sound(f, r) && Plain(f, r) && StandsAt(f, r, m, AlignDown(end, HOUR))
    requires n <= m <= |r.seen| && (m > n ==> r.seen[m - 1].time < Min(Bound(f.tf, end), r.end))
    ensures m == Max(n, IndexOf(f.table, Min(Bound(f.tf, end), r.end)))
  {
    IndexIs(r.seen, f.tf, n, m, Min(Bound(f.tf, end), r.end));
  }
}
