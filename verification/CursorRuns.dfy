/** Whole runs of a cursor: a seek, and any number of forced reads. */
module CursorRuns {
  import opened Basics
  import opened Bars
  import opened Series
  import opened KlineQuery
  import opened CursorState
  import opened KlineCursor

  datatype Read = Read(end: int, now: Now)

  /** A loader made with an end, a seek to `since`, the reads after it, and what the queries of each find. */
  datatype Plan = Plan(f: Feed, since: int, end: int, seekNow: Now, calls: seq<Read>)

  /** No end lies in the future, and the ends of the reads never decrease. */
  ghost predicate ValidPlan(p: Plan) {
    && StoredBars(p.f.table, p.f.tf) && p.f.batch > 0 && p.since > 0 && p.end > 0
    && ValidNow(p.seekNow, p.f.tf) && p.end <= p.seekNow.ms
    && (forall k :: 0 <= k < |p.calls| ==> InTime(p, p.calls[k]))
    && (forall k :: 0 < k < |p.calls| ==> p.calls[k - 1].end <= p.calls[k].end)
  }

  ghost predicate InTime(p: Plan, read: Read)
    requires p.f.tf > 0
  {
    ValidNow(read.now, p.f.tf) && p.end <= read.now.ms && AlignDown(read.end, HOUR) <= read.now.ms
  }

  /** The cursor after the seek and `k` reads. */
  function CursorAt(p: Plan, k: nat): Cursor
    requires k <= |p.calls|
  {
    if k == 0 then Sought(p.f, p.end, p.since, p.seekNow)
    else AfterRead(p.f, CursorAt(p, k - 1), p.calls[k - 1].end, true, p.calls[k - 1].now)
  }

  /** What the seek finds, and what the k-th read finds. */
  function NowAt(p: Plan, k: nat): Now
    requires k <= |p.calls|
  {
    if k == 0 then p.seekNow else p.calls[k - 1].now
  }

  /** The seek, or one of the queries of the k-th read, brings the unfinished bar along. */
  predicate MeetsAt(p: Plan, k: nat)
    requires k <= |p.calls|
  {
    if k == 0 then Meets(p.f, p.end, Mark(p.since, Blank), p.seekNow)
    else
      var upTo := AlignDown(p.calls[k - 1].end, HOUR);
      var c := Extended(CursorAt(p, k - 1), upTo, true);
      ThroughMeets(p.f, c.end, upTo, c.mark, p.calls[k - 1].now)
  }

  /** The index of the next bar after `k` reads. */
  function NextAt(p: Plan, k: nat): nat
    requires k <= |p.calls|
  {
    if k == 0 then IndexOf(p.f.table, p.since)
    else NextAfter(CursorAt(p, k).seen, p.f.tf, NextAt(p, k - 1), p.calls[k - 1].end)
  }

  /** Everything the first `k` reads hand out, one after the other. */
  function Handed(p: Plan, k: nat): seq<Kline>
    requires k <= |p.calls|
  {
    if k == 0 then []
    else
      var from, to, seen := NextAt(p, k - 1), NextAt(p, k), CursorAt(p, k).seen;
      Handed(p, k - 1) + if from <= to <= |seen| then seen[from..to] else []
  }

  // ---------------------------------------------------------------- what every run keeps

  /** What holds between two reads: the position is not behind the offset. */
  ghost predicate Between(p: Plan, c: Cursor, next: nat) {
    && Sound(p.f, c) && OnTime(p.f, c) && !c.mark.mode.Blank?
    && p.since <= c.mark.off && IndexOf(c.seen, p.since) == IndexOf(p.f.table, p.since)
    && IndexOf(p.f.table, p.since) <= next <= IndexOf(c.seen, c.mark.off)
  }

  lemma SeekBetween(p: Plan)
    requires ValidPlan(p)
    ensures Between(p, CursorAt(p, 0), NextAt(p, 0)) && CursorAt(p, 0).end == p.end
  {
    var c := Cursor(Mark(p.since, Blank), p.end, p.f.table);
    RefillKeeps(p.f, c, p.seekNow);
    var r := CursorAt(p, 0);
    CountMonotone(r.seen, |r.seen|, p.since, r.mark.off);
  }

  /** A bar that has grown in is behind everything that was before the offset. */
  lemma GrownIndex(f: Feed, c: Cursor, r: Cursor, t: int, now: Now)
    requires Sound(f, c) && ValidNow(now, f.tf) && GrownTo(c, r, now) && t <= c.mark.off
    ensures IndexOf(r.seen, t) == IndexOf(c.seen, t)
  {
    if r.seen != c.seen {
      PatchLater(c.seen, f.tf, now.un.value, t);
    }
  }

  /** A read on time goes beyond every bar that ends by its end. */
  lemma BoundBeforeOffset(f: Feed, r: Cursor, upTo: int)
    requires Sound(f, r) && OnTime(f, r) && !r.mark.mode.Blank? && upTo <= r.end
    requires r.mark.mode.Cached? ==> r.mark.off > upTo
    ensures IndexOf(r.seen, upTo - f.tf + 1) <= IndexOf(r.seen, r.mark.off)
  {
    StoredIsMarket(r.seen, f.tf);
    if r.mark.mode.Cached? {
      CountMonotone(r.seen, |r.seen|, upTo - f.tf + 1, r.mark.off);
    } else {
      IndexAtMost(r.seen, f.tf, upTo - f.tf + 1, IndexOf(r.seen, r.mark.off));
    }
  }

  lemma ReadBetween(p: Plan, c: Cursor, next: nat, read: Read)
    requires ValidPlan(p) && Between(p, c, next) && InTime(p, read) && c.end <= read.now.ms
    ensures var r := AfterRead(p.f, c, read.end, true, read.now);
      && Between(p, r, NextAfter(r.seen, p.f.tf, next, read.end)) && GrownTo(c, r, read.now)
      && r.end == Max(c.end, AlignDown(read.end, HOUR))
  {
    hide ReadOn, Patch, From;
    var upTo := AlignDown(read.end, HOUR);
    var e, r := Extended(c, upTo, true), AfterRead(p.f, c, read.end, true, read.now);
    ReadKeeps(p.f, e, upTo, read.now);
    ForcedOnTime(p.f, c, read.end, read.now);
    GrownIndex(p.f, e, r, p.since, read.now);
    GrownIndex(p.f, e, r, c.mark.off, read.now);
    CountMonotone(r.seen, |r.seen|, c.mark.off, r.mark.off);
    BoundBeforeOffset(p.f, r, upTo);
  }

  lemma AlignMonotone(a: int, b: int)
    requires a <= b
    ensures AlignDown(a, HOUR) <= AlignDown(b, HOUR)
  {
    var x, y := AlignDown(a, HOUR), AlignDown(b, HOUR);
    if y < x {
      LastOnGrid(y, x, HOUR);
    }
  }

  lemma EndOfRead(f: Feed, c: Cursor, end: int, now: Now)
    ensures AfterRead(f, c, end, true, now).end == Max(c.end, AlignDown(end, HOUR))
  {
  }

  lemma EndOfSeek(f: Feed, end: int, since: int, now: Now)
    ensures Sought(f, end, since, now).end == end
  {
  }

  /** No read moves the end of the reading into the future. */
  lemma {:induction false} EndInTime(p: Plan, k: nat)
    requires ValidPlan(p) && k <= |p.calls|
    ensures CursorAt(p, k).end == if k == 0 then p.end else Max(p.end, AlignDown(p.calls[k - 1].end, HOUR))
    ensures k < |p.calls| ==> InTime(p, p.calls[k]) && CursorAt(p, k).end <= p.calls[k].now.ms
  {
    hide AfterRead, Sought, AlignDown;
    if k == 0 {
      EndOfSeek(p.f, p.end, p.since, p.seekNow);
    } else {
      EndInTime(p, k - 1);
      EndOfRead(p.f, CursorAt(p, k - 1), p.calls[k - 1].end, p.calls[k - 1].now);
      if k > 1 {
        AlignMonotone(p.calls[k - 2].end, p.calls[k - 1].end);
      }
      if k < |p.calls| {
        AlignMonotone(p.calls[k - 1].end, p.calls[k].end);
      }
    }
  }

  lemma {:induction false} ReadsKeep(p: Plan, k: nat)
    requires ValidPlan(p) && k <= |p.calls|
    ensures Between(p, CursorAt(p, k), NextAt(p, k))
  {
    if k == 0 {
      SeekBetween(p);
    } else {
      ReadsKeep(p, k - 1);
      EndInTime(p, k - 1);
      ReadBetween(p, CursorAt(p, k - 1), NextAt(p, k - 1), p.calls[k - 1]);
    }
  }

  /** The series grows by the unfinished bar that the k-th read met. */
  lemma ReadGrows(p: Plan, k: nat)
    requires ValidPlan(p) && 0 < k <= |p.calls|
    ensures Between(p, CursorAt(p, k - 1), NextAt(p, k - 1)) && Between(p, CursorAt(p, k), NextAt(p, k))
    ensures ValidNow(NowAt(p, k), p.f.tf) && GrownTo(CursorAt(p, k - 1), CursorAt(p, k), NowAt(p, k))
    ensures NextAt(p, k - 1) <= NextAt(p, k) && AlignDown(p.calls[k - 1].end, HOUR) <= NowAt(p, k).ms
  {
    ReadsKeep(p, k - 1);
    EndInTime(p, k - 1);
    ReadBetween(p, CursorAt(p, k - 1), NextAt(p, k - 1), p.calls[k - 1]);
  }

  lemma JoinRuns(before: seq<Kline>, seen: seq<Kline>, a: nat, b: nat, c: nat)
    requires a <= b <= c <= |seen| && b <= |before| && seen[..b] == before[..b]
    ensures before[a..b] + seen[b..c] == seen[a..c]
  {
    assert before[a..b] == before[..b][a..] && seen[a..b] == seen[..b][a..];
  }

  lemma RunGoesOn(f: Feed, c: Cursor, r: Cursor, now: Now, a: nat, b: nat, d: nat)
    requires Sound(f, c) && ValidNow(now, f.tf) && GrownTo(c, r, now)
    requires a <= b <= IndexOf(c.seen, c.mark.off) && b <= d <= |r.seen|
    ensures c.seen[a..b] + r.seen[b..d] == r.seen[a..d]
  {
    var m := IndexOf(c.seen, c.mark.off);
    GrownKeeps(c.seen, c.mark.off, m, r.seen, r.mark.off, now, f.tf);
    assert c.seen[..b] == c.seen[..m][..b] && r.seen[..b] == r.seen[..m][..b];
    JoinRuns(c.seen, r.seen, a, b, d);
  }

  /** The first `k` reads have handed out a run of the series. */
  ghost predicate HandsRun(p: Plan, k: nat)
    requires k <= |p.calls|
  {
    && NextAt(p, 0) <= NextAt(p, k) <= |CursorAt(p, k).seen|
    && Handed(p, k) == CursorAt(p, k).seen[NextAt(p, 0)..NextAt(p, k)]
  }

  lemma RunGrows(p: Plan, k: nat)
    requires ValidPlan(p) && 0 < k <= |p.calls| && HandsRun(p, k - 1)
    ensures HandsRun(p, k)
  {
    ReadGrows(p, k);
    RunGoesOn(p.f, CursorAt(p, k - 1), CursorAt(p, k), NowAt(p, k), NextAt(p, 0), NextAt(p, k - 1), NextAt(p, k));
  }

  lemma {:induction false} HandedIsRun(p: Plan, k: nat)
    requires ValidPlan(p) && k <= |p.calls|
    ensures HandsRun(p, k)
  {
    if k == 0 {
      SeekBetween(p);
    } else {
      HandedIsRun(p, k - 1);
      RunGrows(p, k);
    }
  }

  /** The ends grow, so that the last read alone decides where the position is. */
  lemma {:induction false} NextIsLast(p: Plan, k: nat)
    requires ValidPlan(p) && 0 < k <= |p.calls|
    ensures NextAt(p, k) == Max(NextAt(p, 0), IndexOf(CursorAt(p, k).seen, Bound(p.f.tf, p.calls[k - 1].end)))
  {
    if k > 1 {
      NextIsLast(p, k - 1);
      ReadGrows(p, k);
      AlignMonotone(p.calls[k - 2].end, p.calls[k - 1].end);
      LateBound(p, CursorAt(p, k), CursorAt(p, k - 1), p.calls[k - 2].end, NowAt(p, k), p.calls[k - 1].end);
    }
  }

  /** What has been read of the old series is at most what is read of the new one. */
  lemma LateBound(p: Plan, r: Cursor, c: Cursor, last: int, now: Now, end: int)
    requires Sound(p.f, c) && ValidNow(now, p.f.tf) && GrownTo(c, r, now)
    requires AlignDown(last, HOUR) <= AlignDown(end, HOUR) <= now.ms
    ensures IndexOf(c.seen, Bound(p.f.tf, last)) <= IndexOf(r.seen, Bound(p.f.tf, end))
  {
    if r.seen != c.seen {
      PatchLater(c.seen, p.f.tf, now.un.value, Bound(p.f.tf, last));
    }
    CountMonotone(r.seen, |r.seen|, Bound(p.f.tf, last), Bound(p.f.tf, end));
  }

  /**
   * After a seek, what any number of forced reads with non-decreasing ends hands out is the flat list of
   * the bars of the series from the seek position on that end by the last end, rounded down to the hour.
   */
  lemma ReadsAreFlat(p: Plan, n: nat)
    requires ValidPlan(p) && 0 < n <= |p.calls|
    ensures Handed(p, n) == Slice(CursorAt(p, n).seen, p.since, Bound(p.f.tf, p.calls[n - 1].end))
  {
    HandedIsRun(p, n);
    NextIsLast(p, n);
    ReadsKeep(p, n);
  }

  /** Each bar of the series from the seek position on that ends by the last end is handed out, and no other. */
  lemma ReadsAreComplete(p: Plan, n: nat, k: Kline)
    requires ValidPlan(p) && 0 < n <= |p.calls|
    ensures k in Handed(p, n) <==>
      k in CursorAt(p, n).seen && p.since <= k.time && k.time + p.f.tf <= AlignDown(p.calls[n - 1].end, HOUR)
  {
    ReadsAreFlat(p, n);
    ReadsKeep(p, n);
    StoredIsMarket(CursorAt(p, n).seen, p.f.tf);
    SliceMember(CursorAt(p, n).seen, p.f.tf, p.since, Bound(p.f.tf, p.calls[n - 1].end), k);
  }

  // ---------------------------------------------------------------- reads of unfinished bars

  function SeenBefore(p: Plan, k: nat): seq<Kline>
    requires k <= |p.calls|
  {
    if k == 0 then p.f.table else CursorAt(p, k - 1).seen
  }

  function OffBefore(p: Plan, k: nat): int
    requires k <= |p.calls|
  {
    if k == 0 then p.since else CursorAt(p, k - 1).mark.off
  }

  /** The seek and every read put the unfinished bar into the series exactly when one of their queries meets it. */
  lemma SeenIs(p: Plan, k: nat)
    requires k <= |p.calls|
    ensures CursorAt(p, k).seen == Continued(SeenBefore(p, k), MeetsAt(p, k), NowAt(p, k))
  {
  }

  /** From the offset on the series is the table. */
  lemma TailIsTable(p: Plan, k: nat, bar: Kline)
    requires ValidPlan(p) && k <= |p.calls| && OffBefore(p, k) <= bar.time
    ensures StoredBars(SeenBefore(p, k), p.f.tf) && p.since <= OffBefore(p, k)
    ensures bar in SeenBefore(p, k) <==> bar in p.f.table
  {
    if k > 0 {
      ReadsKeep(p, k - 1);
      InTail(CursorAt(p, k - 1).seen, p.f.tf, OffBefore(p, k), bar);
      InTail(p.f.table, p.f.tf, OffBefore(p, k), bar);
    }
  }

  /** Where a query meets the unfinished bar. */
  lemma MetAt(p: Plan, k: nat)
    requires ValidPlan(p) && k <= |p.calls| && MeetsAt(p, k)
    ensures ValidNow(NowAt(p, k), p.f.tf) && NowAt(p, k).un.Some?
    ensures OffBefore(p, k) <= NowAt(p, k).top < CursorAt(p, k).mark.off
  {
    if k == 0 {
      RefillMoves(p.f, p.end, Mark(p.since, Blank), p.seekNow);
      if p.since > p.seekNow.top {
        MeetsNoMore(p.f, p.end, p.since, Mark(p.since, Blank), p.seekNow);
      }
    } else {
      EndInTime(p, k - 1);
      var upTo := AlignDown(p.calls[k - 1].end, HOUR);
      var c := Extended(CursorAt(p, k - 1), upTo, true);
      ThroughGoes(p.f, c.end, upTo, c.mark, p.calls[k - 1].now);
    }
  }

  /** A bar that has been met stays in the series. */
  lemma {:induction false} MetStays(p: Plan, i: nat, n: nat)
    requires ValidPlan(p) && i <= n <= |p.calls| && MeetsAt(p, i)
    ensures NowAt(p, i).un.Some? && NowAt(p, i).un.value in CursorAt(p, n).seen
    ensures p.since <= NowAt(p, i).un.value.time == NowAt(p, i).top < CursorAt(p, n).mark.off
    decreases n
  {
    hide CursorAt, MeetsAt;
    if i == n {
      MetAt(p, i);
      TailIsTable(p, i, NowAt(p, i).un.value);
      SeenIs(p, i);
      PatchHolds(SeenBefore(p, i), p.f.tf, NowAt(p, i).un.value, NowAt(p, i).un.value);
    } else {
      MetStays(p, i, n - 1);
      StaysOneMore(p, n, NowAt(p, i).un.value);
    }
  }

  lemma StaysOneMore(p: Plan, n: nat, u: Kline)
    requires ValidPlan(p) && 0 < n <= |p.calls| && u in CursorAt(p, n - 1).seen && u.time < CursorAt(p, n - 1).mark.off
    ensures u in CursorAt(p, n).seen && u.time < CursorAt(p, n).mark.off
  {
    ReadGrows(p, n);
    var before, now := CursorAt(p, n - 1).seen, NowAt(p, n);
    if CursorAt(p, n).seen != before {
      PatchHolds(before, p.f.tf, now.un.value, u);
    }
  }

  /** A bar that is met and is one of the table, or starts too late, does not change what comes before `bound`. */
  lemma MetUnnoticed(p: Plan, k: nat, bound: int)
    requires ValidPlan(p) && k <= |p.calls| && MeetsAt(p, k)
    requires NowAt(p, k).un.Some? && NowAt(p, k).top < bound ==> NowAt(p, k).un.value in p.f.table
    ensures Slice(CursorAt(p, k).seen, p.since, bound) == Slice(SeenBefore(p, k), p.since, bound)
  {
    MetAt(p, k);
    SeenIs(p, k);
    var u := NowAt(p, k).un.value;
    TailIsTable(p, k, u);
    if u.time < bound {
      PatchSame(SeenBefore(p, k), p.f.tf, u);
    } else {
      SlicePatched(SeenBefore(p, k), p.f.tf, u, p.since, bound);
    }
  }

  lemma {:induction false} FrontIsTable(p: Plan, n: nat, bound: int)
    requires ValidPlan(p) && n <= |p.calls|
    requires forall k :: 0 <= k <= n && MeetsAt(p, k) && NowAt(p, k).un.Some? && NowAt(p, k).top < bound ==>
      NowAt(p, k).un.value in p.f.table
    ensures Slice(CursorAt(p, n).seen, p.since, bound) == Slice(p.f.table, p.since, bound)
  {
    hide CursorAt, MeetsAt;
    SeenIs(p, n);
    if MeetsAt(p, n) {
      MetUnnoticed(p, n, bound);
    }
    if n > 0 {
      FrontIsTable(p, n - 1, bound);
    }
  }

  /**
   * The seek or a read meets a bar that is none of the table, as it is finished later or not at all, and that ends by
   * the end of the n-th read.
   */
  ghost predicate Stale(p: Plan, k: nat, n: nat)
    requires k <= n <= |p.calls| && n > 0
  {
    && MeetsAt(p, k) && NowAt(p, k).un.Some? && NowAt(p, k).un.value !in p.f.table
    && NowAt(p, k).top + p.f.tf <= AlignDown(p.calls[n - 1].end, HOUR)
  }

  lemma StaleIsHanded(p: Plan, k: nat, n: nat)
    requires ValidPlan(p) && k <= n <= |p.calls| && n > 0 && Stale(p, k, n)
    ensures NowAt(p, k).un.value in Handed(p, n)
    ensures NowAt(p, k).un.value !in Slice(p.f.table, p.since, Bound(p.f.tf, p.calls[n - 1].end))
  {
    MetStays(p, k, n);
    ReadsAreComplete(p, n, NowAt(p, k).un.value);
    StoredIsMarket(p.f.table, p.f.tf);
    SliceMember(p.f.table, p.f.tf, p.since, Bound(p.f.tf, p.calls[n - 1].end), NowAt(p, k).un.value);
  }

  /**
   * The reads hand out the finished bars of the table, if and only if neither the seek nor a read has met a bar, other
   * than the finished one, that ends by the last end. Such a bar is handed out in place of the finished one.
   */
  lemma ReadsAreFinished(p: Plan, n: nat)
    requires ValidPlan(p) && 0 < n <= |p.calls|
    ensures Handed(p, n) == Slice(p.f.table, p.since, Bound(p.f.tf, p.calls[n - 1].end)) <==>
      forall k :: 0 <= k <= n ==> !Stale(p, k, n)
    ensures forall k :: 0 <= k <= n && Stale(p, k, n) ==> NowAt(p, k).un.value in Handed(p, n)
  {
    hide CursorAt, MeetsAt, Handed;
    forall k | 0 <= k <= n && Stale(p, k, n)
      ensures NowAt(p, k).un.value in Handed(p, n)
      ensures NowAt(p, k).un.value !in Slice(p.f.table, p.since, Bound(p.f.tf, p.calls[n - 1].end))
    {
      StaleIsHanded(p, k, n);
    }
    if forall k :: 0 <= k <= n ==> !Stale(p, k, n) {
      var bound := Bound(p.f.tf, p.calls[n - 1].end);
      forall k | 0 <= k <= n && MeetsAt(p, k) && NowAt(p, k).un.Some? && NowAt(p, k).top < bound
        ensures NowAt(p, k).un.value in p.f.table
      {
        assert !Stale(p, k, n);
      }
      ReadsAreFlat(p, n);
      FrontIsTable(p, n, bound);
    }
  }

  // ---------------------------------------------------------------- the loader itself

  ghost function PlanOf(loader: TfKlineLoader, since: int, seekNow: Now, calls: seq<Read>): Plan
    reads loader
  {
    Plan(loader.Source(), SeekTime(since), loader.endMS, seekNow, calls)
  }

  /** The loader is where the plan is after `k` reads. */
  ghost predicate Stands(loader: TfKlineLoader, p: Plan, k: nat)
    requires k <= |p.calls|
    reads loader
  {
    && loader.Valid() && loader.Source() == p.f
    && loader.State() == CursorAt(p, k) && loader.Next() == NextAt(p, k)
  }

  method ReadNext(loader: TfKlineLoader, ghost p: Plan, ghost k: nat, read: Read) returns (bars: seq<Kline>)
    requires ValidPlan(p) && k < |p.calls| && read == p.calls[k] && Stands(loader, p, k)
    modifies loader
    ensures Stands(loader, p, k + 1) && Handed(p, k) + bars == Handed(p, k + 1)
  {
    ReadsKeep(p, k);
    EndInTime(p, k);
    bars := loader.ReadTo(read.end, true, read.now);
  }

  method Place(loader: TfKlineLoader, since: int, seekNow: Now, ghost p: Plan)
    requires loader.Configured() && since >= 0 && ValidPlan(p) && p == PlanOf(loader, since, seekNow, p.calls)
    modifies loader
    ensures Stands(loader, p, 0)
  {
    loader.SetSeek(since, seekNow);
  }

  method ReadAll(loader: TfKlineLoader, ghost p: Plan, calls: seq<Read>) returns (out: seq<Kline>)
    requires ValidPlan(p) && calls == p.calls && Stands(loader, p, 0)
    modifies loader
    ensures Stands(loader, p, |calls|) && out == Handed(p, |calls|)
  {
    hide CursorAt, NextAt;
    out := [];
    for i := 0 to |calls|
      invariant Stands(loader, p, i) && out == Handed(p, i)
    {
      var bars := ReadNext(loader, p, i, calls[i]);
      out := out + bars;
    }
  }

  /** Places a loader and reads on with it, as its users do; the bars that it hands out, one after the other. */
  method SeekAndRead(loader: TfKlineLoader, since: int, seekNow: Now, calls: seq<Read>) returns (out: seq<Kline>)
    requires loader.Configured() && since >= 0 && ValidPlan(PlanOf(loader, since, seekNow, calls))
    modifies loader
    ensures Stands(loader, old(PlanOf(loader, since, seekNow, calls)), |calls|)
    ensures out == Handed(old(PlanOf(loader, since, seekNow, calls)), |calls|)
    ensures calls != [] ==>
      out == Slice(loader.seen, SeekTime(since), Bound(loader.tf, calls[|calls| - 1].end))
  {
    hide CursorAt, NextAt, Handed;
    ghost var p := PlanOf(loader, since, seekNow, calls);
    Place(loader, since, seekNow, p);
    out := ReadAll(loader, p, calls);
    if calls != [] {
      ReadsAreFlat(p, |calls|);
    }
  }
}
