/** Which ranges a download request fetches, given the range that is recorded as downloaded. */
module DownPlan {
  import opened Basics
  import opened Spans
  import Bars
  import Rollup

  /** A range to fetch; the part before the recorded one is fetched backward. */
  datatype DownRange = DownRange(span: Span, reverse: bool)

  /** What a request is checked against before anything is planned. */
  datatype Listing = Listing(listMs: int, combined: bool, delistMs: int, netDisabled: bool)

  /** Zeros stand for "nothing is recorded". */
  ghost predicate ValidKnown(known: Span) {
    known == Span(0, 0) || 0 < known.start < known.stop
  }

  /** Nothing is loaded for what lies before the listing, for combined and delisted symbols, or without a network. */
  predicate Refused(listing: Listing, req: Span) {
    || (req.start <= listing.listMs && req.stop <= listing.listMs)
    || listing.combined || listing.delistMs > 0 || listing.netDisabled
  }

  predicate Skipped(req: Span, known: Span, listing: Listing) {
    (known.start <= req.start && req.stop <= known.stop) || Refused(listing, req)
  }

  ghost predicate Fetches(plan: seq<DownRange>, t: int) {
    exists i :: 0 <= i < |plan| && Within(t, plan[i].span)
  }

  /** The smallest interval around the recorded range and the request. */
  function Hull(known: Span, req: Span): Span {
    if known.start == 0 then req else Span(Min(known.start, req.start), Max(known.stop, req.stop))
  }

  function PlanFor(req: Span, known: Span, listing: Listing): seq<DownRange> {
    if Skipped(req, known, listing) then []
    else if known.start == 0 then [DownRange(req, false)]
    else
      (if req.stop > known.stop then [DownRange(Span(known.stop, req.stop), false)] else [])
      + (if req.start < known.start then [DownRange(Span(req.start, known.start), true)] else [])
  }

  /** The span that the insert job locks, from the first planned time to the last one. */
  function JobFor(req: Span, known: Span, listing: Listing): Span {
    if Skipped(req, known, listing) then Span(0, 0)
    else if known.start == 0 then req
    else
      Span(if req.start < known.start then req.start else known.stop,
           if req.stop > known.stop then req.stop else known.start)
  }

  method PlanDownload(req: Span, known: Span, listing: Listing) returns (plan: seq<DownRange>, job: Span)
    requires 0 < req.start < req.stop && ValidKnown(known)
    ensures plan == PlanFor(req, known, listing) && job == JobFor(req, known, listing)
  {
    plan, job := [], Span(0, 0);
    if Skipped(req, known, listing) {
      return;
    }
    if known.start == 0 {
      job := req;
      plan := plan + [DownRange(req, false)];
    } else {
      if req.stop > known.stop {
        job := Span(known.stop, req.stop);
        plan := plan + [DownRange(Span(known.stop, req.stop), false)];
      }
      if req.start < known.start {
        if job.start == 0 {
          job := Span(req.start, known.start);
        } else {
          job := job.(start := req.start);
        }
        plan := plan + [DownRange(Span(req.start, known.start), true)];
      }
    }
  }

  /**
   * Together with the recorded range the planned ones make up one interval that holds the request; nothing recorded
   * is planned.
   */
  lemma PlanFillsHull(req: Span, known: Span, listing: Listing, t: int)
    requires 0 < req.start < req.stop && ValidKnown(known)
    ensures var plan := PlanFor(req, known, listing);
      && (plan == [] <==>
            || (known.start <= req.start && req.stop <= known.stop) || req.stop <= listing.listMs
            || listing.combined || listing.delistMs > 0 || listing.netDisabled)
      && (Skipped(req, known, listing) <==> plan == [])
      && (plan != [] ==> (Fetches(plan, t) <==> Within(t, Hull(known, req)) && !Within(t, known)))
      && (forall i, j :: 0 <= i < j < |plan| ==> !(Within(t, plan[i].span) && Within(t, plan[j].span)))
  {
    var plan := PlanFor(req, known, listing);
    if |plan| == 1 {
      assert Fetches(plan, t) <==> Within(t, plan[0].span);
    } else if |plan| == 2 {
      assert Fetches(plan, t) <==> Within(t, plan[0].span) || Within(t, plan[1].span);
    }
  }

  /**
   * The locked span is the smallest around the planned ranges; only a range that ends where the record begins is
   * reversed.
   */
  lemma JobSpansPlan(req: Span, known: Span, listing: Listing)
    requires 0 < req.start < req.stop && ValidKnown(known) && !Skipped(req, known, listing)
    ensures var plan, job := PlanFor(req, known, listing), JobFor(req, known, listing);
      && (forall i :: 0 <= i < |plan| ==> plan[i].span.start < plan[i].span.stop)
      && (forall i :: 0 <= i < |plan| ==> job.start <= plan[i].span.start && plan[i].span.stop <= job.stop)
      && job.start == plan[|plan| - 1].span.start && job.stop == plan[0].span.stop
      && (forall i :: 0 <= i < |plan| ==> (plan[i].reverse <==> known.start > 0 && plan[i].span.stop == known.start))
  {
  }

  // ---------------------------------------------------------------- what is recorded

  /** The record is the span of the stored bars, from the start of the first one to the end of the last one. */
  ghost predicate IsRecord(known: Span, stored: set<int>, tf: int) {
    if stored == {} then known == Span(0, 0)
    else
      && known.start in stored && known.stop - tf in stored
      && forall t :: t in stored ==> known.start <= t && t + tf <= known.stop
  }

  ghost function KnownOf(stored: set<int>, tf: int): (known: Span)
    ensures IsRecord(known, stored, tf)
  {
    RecordExists(stored, tf);
    var known :| IsRecord(known, stored, tf);
    known
  }

  lemma RecordExists(stored: set<int>, tf: int)
    ensures exists known :: IsRecord(known, stored, tf)
  {
    if stored == {} {
      assert IsRecord(Span(0, 0), stored, tf);
    } else {
      var lo, hi := Rollup.Bounds(stored);
      assert IsRecord(Span(lo, hi + tf), stored, tf);
    }
  }

  /** A download passes the starts of its first and last bars; what is recorded then is the span of the table. */
  lemma RecordIsSpan(st: Rollup.Store, tf: Rollup.TimeFrame, first: int, last: int)
    requires first in st.Bars(tf) && last in st.Bars(tf) && forall k :: k in st.Bars(tf) ==> k > 0
    ensures var r := Rollup.WithRange(st, tf, first, last).RangeOf(tf);
      Span(r.start, r.stop) == KnownOf(st.Bars(tf).Keys, Rollup.MSecs(tf))
  {
    var t, r := st.Bars(tf), Rollup.WithRange(st, tf, first, last).RangeOf(tf);
    var lo, hi := Rollup.MinKey(t), Rollup.MaxKey(t);
    assert lo in t.Keys && hi in t.Keys;
    assert IsRecord(Span(r.start, r.stop), t.Keys, Rollup.MSecs(tf));
    RecordUnique(Span(r.start, r.stop), t.Keys, Rollup.MSecs(tf));
  }

  lemma RecordUnique(known: Span, stored: set<int>, tf: int)
    requires IsRecord(known, stored, tf)
    ensures KnownOf(stored, tf) == known
  {
  }

  // ---------------------------------------------------------------- one request

  datatype Request = Request(span: Span, listing: Listing, nowMS: int)

  /** A download ends with the last frame that is over. */
  function Cut(stop: int, nowMS: int, tf: int): int
    requires tf > 0
  {
    AlignDown(Min(stop, nowMS), tf)
  }

  ghost predicate Downloads(plan: seq<DownRange>, nowMS: int, tf: int, t: int)
    requires tf > 0
  {
    exists i :: 0 <= i < |plan| && plan[i].span.start <= t < Cut(plan[i].span.stop, nowMS, tf)
  }

  /** The bars that a request downloads; the market gives the starts of all bars there ever are. */
  ghost function Loaded(stored: set<int>, market: set<int>, r: Request, tf: int): set<int>
    requires tf > 0
  {
    set t | t in market && Downloads(PlanFor(r.span, KnownOf(stored, tf), r.listing), r.nowMS, tf, t)
  }

  /** The bars of the market are on the grid, after the epoch. */
  ghost predicate OnGrid(market: set<int>, tf: int)
    requires tf > 0
  {
    forall t :: t in market ==> t > 0 && t % tf == 0
  }

  /** Only finished bars of the market are stored, and inside the record none is missing. */
  ghost predicate Dense(stored: set<int>, market: set<int>, tf: int, nowMS: int)
    requires tf > 0
  {
    && OnGrid(market, tf) && stored <= market
    && (forall t :: t in stored ==> t + tf <= nowMS)
    && (forall t :: t in market && Within(t, KnownOf(stored, tf)) ==> t in stored)
  }

  predicate ValidRequest(r: Request, nowMS: int) {
    0 < r.span.start < r.span.stop && nowMS <= r.nowMS
  }

  /** The record is on the grid and in the past. */
  lemma DenseRecord(stored: set<int>, market: set<int>, tf: int, nowMS: int)
    requires tf > 0 && Dense(stored, market, tf, nowMS)
    ensures var known := KnownOf(stored, tf);
      ValidKnown(known) && (stored != {} ==> known.start % tf == 0 && known.stop % tf == 0 && known.stop <= nowMS)
  {
    var known := KnownOf(stored, tf);
    if stored != {} {
      assert known.start in stored && known.stop - tf in stored;
      ShiftMultiple(known.stop - tf, 1, tf);
      assert tf * 1 == tf;
    }
  }

  /** A bar is over by an aligned end if and only if it starts before it. */
  lemma BeforeCut(t: int, stop: int, nowMS: int, tf: int)
    requires tf > 0 && t % tf == 0
    ensures t < Cut(stop, nowMS, tf) <==> t + tf <= Min(stop, nowMS)
  {
    FrontFits(t, Cut(stop, nowMS, tf), tf);
    NextFits(t, Min(stop, nowMS), Cut(stop, nowMS, tf), tf);
  }

  lemma NextFits(t: int, stop: int, cut: int, tf: int)
    requires tf > 0 && t % tf == 0 && cut % tf == 0 && cut <= stop < cut + tf
    ensures t + tf <= cut <==> t + tf <= stop
  {
    ShiftMultiple(t, 1, tf);
    if cut < t + tf <= stop {
      SameMultiple(t + tf, cut, tf);
    }
  }

  /** Which bars a request downloads: those of it that are over and not in the record. */
  lemma LoadedExactly(stored: set<int>, market: set<int>, r: Request, tf: int, nowMS: int, t: int)
    requires tf > 0 && Dense(stored, market, tf, nowMS) && ValidRequest(r, nowMS) && t in market
    requires !Skipped(r.span, KnownOf(stored, tf), r.listing)
    ensures t in Loaded(stored, market, r, tf) <==>
      && Within(t, Hull(KnownOf(stored, tf), r.span)) && !Within(t, KnownOf(stored, tf))
      && t + tf <= Min(Max(KnownOf(stored, tf).stop, r.span.stop), r.nowMS)
  {
    var known := KnownOf(stored, tf);
    var plan := PlanFor(r.span, known, r.listing);
    DenseRecord(stored, market, tf, nowMS);
    BeforeCut(t, r.span.stop, r.nowMS, tf);
    BeforeCut(t, known.start, r.nowMS, tf);
    FrontFits(t, known.start, tf);
    LoadedByPlan(plan, r.nowMS, tf, t);
  }

  lemma FrontFits(t: int, start: int, tf: int)
    requires tf > 0 && t % tf == 0 && start % tf == 0
    ensures t < start <==> t + tf <= start
  {
    if t < start < t + tf {
      SameMultiple(t, start, tf);
    }
  }

  lemma LoadedByPlan(plan: seq<DownRange>, nowMS: int, tf: int, t: int)
    requires tf > 0 && 1 <= |plan| <= 2
    ensures Downloads(plan, nowMS, tf, t) <==>
      || plan[0].span.start <= t < Cut(plan[0].span.stop, nowMS, tf)
      || (|plan| == 2 && plan[1].span.start <= t < Cut(plan[1].span.stop, nowMS, tf))
  {
  }

  // ---------------------------------------------------------------- after a request

  ghost function After(stored: set<int>, market: set<int>, r: Request, tf: int): set<int>
    requires tf > 0
  {
    stored + Loaded(stored, market, r, tf)
  }

  /** The bars of the market that are over and lie in the interval around the record and the request. */
  ghost function Reached(stored: set<int>, market: set<int>, r: Request, tf: int): set<int> {
    var known := KnownOf(stored, tf);
    set t | t in market && Within(t, Hull(known, r.span)) && t + tf <= Min(Max(known.stop, r.span.stop), r.nowMS)
  }

  /** A request that is not skipped leaves exactly the bars it could reach, and downloads none that was stored. */
  lemma AfterIsReached(stored: set<int>, market: set<int>, r: Request, tf: int, nowMS: int)
    requires tf > 0 && Dense(stored, market, tf, nowMS) && ValidRequest(r, nowMS)
    ensures Skipped(r.span, KnownOf(stored, tf), r.listing) ==> Loaded(stored, market, r, tf) == {}
    ensures !Skipped(r.span, KnownOf(stored, tf), r.listing) ==>
      && After(stored, market, r, tf) == Reached(stored, market, r, tf)
      && Loaded(stored, market, r, tf) !! stored
  {
    var known := KnownOf(stored, tf);
    if Skipped(r.span, known, r.listing) {
      assert PlanFor(r.span, known, r.listing) == [];
    } else {
      DenseRecord(stored, market, tf, nowMS);
      forall t | t in market
        ensures t in After(stored, market, r, tf) <==> t in Reached(stored, market, r, tf)
        ensures t in stored ==> t !in Loaded(stored, market, r, tf)
      {
        LoadedExactly(stored, market, r, tf, nowMS, t);
      }
    }
  }

  /** The record never shrinks. */
  lemma RecordGrows(before: set<int>, later: set<int>, tf: int, t: int)
    requires tf > 0 && before <= later && Within(t, KnownOf(before, tf))
    ensures Within(t, KnownOf(later, tf))
  {
    var known, next := KnownOf(before, tf), KnownOf(later, tf);
    assert known.start in later && known.stop - tf in later;
  }

  /** A request keeps the record free of missing bars. */
  lemma StepKeeps(stored: set<int>, market: set<int>, r: Request, tf: int, nowMS: int)
    requires tf > 0 && Dense(stored, market, tf, nowMS) && ValidRequest(r, nowMS)
    ensures Dense(After(stored, market, r, tf), market, tf, r.nowMS)
    ensures Loaded(stored, market, r, tf) !! stored
  {
    AfterIsReached(stored, market, r, tf, nowMS);
    if Skipped(r.span, KnownOf(stored, tf), r.listing) {
      assert After(stored, market, r, tf) == stored;
    } else {
      ReachedIsDense(stored, market, r, tf);
    }
  }

  lemma ReachedIsDense(stored: set<int>, market: set<int>, r: Request, tf: int)
    requires tf > 0 && OnGrid(market, tf)
    ensures Dense(Reached(stored, market, r, tf), market, tf, r.nowMS)
  {
    var reached := Reached(stored, market, r, tf);
    var next := KnownOf(reached, tf);
    forall t | t in market && Within(t, next) ensures t in reached {
      assert next.start in reached && next.stop - tf in reached;
      ShiftMultiple(next.stop - tf, 1, tf);
      FrontFits(t, next.stop, tf);
    }
  }

  /** After a request that is not refused every finished bar of it is stored. */
  lemma StepCovers(stored: set<int>, market: set<int>, r: Request, tf: int, nowMS: int, t: int)
    requires tf > 0 && Dense(stored, market, tf, nowMS) && ValidRequest(r, nowMS)
    requires !Refused(r.listing, r.span)
    requires t in market && Within(t, r.span) && t + tf <= Min(r.span.stop, r.nowMS)
    ensures t in After(stored, market, r, tf)
  {
    AfterIsReached(stored, market, r, tf, nowMS);
  }

  // ---------------------------------------------------------------- asking again

  /** A bar starts by `t` and one ends after it. */
  ghost predicate Enclosed(bars: set<int>, t: int, tf: int) {
    (exists a :: a in bars && a <= t) && (exists b :: b in bars && t < b + tf)
  }

  lemma EnclosedIsRecorded(bars: set<int>, t: int, tf: int)
    requires tf > 0
    ensures Within(t, KnownOf(bars, tf)) <==> Enclosed(bars, t, tf)
  {
    var known := KnownOf(bars, tf);
    if Within(t, known) {
      assert known.start in bars && known.stop - tf in bars;
    }
  }

  /** A planned time is planned again by the same request unless reachable bars enclose it. */
  lemma AgainExactly(stored: set<int>, market: set<int>, r: Request, tf: int, nowMS: int, t: int)
    requires tf > 0 && Dense(stored, market, tf, nowMS) && ValidRequest(r, nowMS)
    requires Fetches(PlanFor(r.span, KnownOf(stored, tf), r.listing), t)
    ensures Fetches(PlanFor(r.span, KnownOf(After(stored, market, r, tf), tf), r.listing), t)
      <==> !Enclosed(Reached(stored, market, r, tf), t, tf)
  {
    var known := KnownOf(stored, tf);
    AfterIsReached(stored, market, r, tf, nowMS);
    StepKeeps(stored, market, r, tf, nowMS);
    var next := After(stored, market, r, tf);
    DenseRecord(stored, market, tf, nowMS);
    DenseRecord(next, market, tf, r.nowMS);
    EnclosedIsRecorded(next, t, tf);
    HullGrows(stored, next, r.span, tf, t);
    PlanFillsHull(r.span, known, r.listing, t);
    PlanFillsHull(r.span, KnownOf(next, tf), r.listing, t);
  }

  /** What the old record and the request enclose the new record and the request enclose too. */
  lemma HullGrows(stored: set<int>, next: set<int>, req: Span, tf: int, t: int)
    requires tf > 0 && stored <= next && Within(t, Hull(KnownOf(stored, tf), req))
    requires ValidKnown(KnownOf(stored, tf)) && ValidKnown(KnownOf(next, tf))
    ensures Within(t, Hull(KnownOf(next, tf), req))
  {
    var known := KnownOf(stored, tf);
    if stored != {} {
      RecordGrows(stored, next, tf, known.start);
      RecordGrows(stored, next, tf, known.stop - 1);
    }
  }

  /** The same request plans nothing more if and only if bars reach both of its ends. */
  lemma SettledExactly(stored: set<int>, market: set<int>, r: Request, tf: int, nowMS: int)
    requires tf > 0 && Dense(stored, market, tf, nowMS) && ValidRequest(r, nowMS)
    requires !Skipped(r.span, KnownOf(stored, tf), r.listing)
    ensures var reached := Reached(stored, market, r, tf);
      PlanFor(r.span, KnownOf(After(stored, market, r, tf), tf), r.listing) == []
      <==> (exists a :: a in reached && a <= r.span.start) && (exists b :: b in reached && r.span.stop <= b + tf)
  {
    AfterIsReached(stored, market, r, tf, nowMS);
    var reached := Reached(stored, market, r, tf);
    EnclosedIsRecorded(reached, r.span.start, tf);
    var next := KnownOf(reached, tf);
    if reached != {} {
      assert next.start in reached && next.stop - tf in reached;
    }
  }

  /** With bars at two inner frames only, both ends are planned again and the record never holds the request. */
  lemma EmptyEndsAreFetchedAgain(listing: Listing)
    requires listing == Listing(0, false, 0, false)
    ensures var market, req := {120000, 180000}, Request(Span(60000, 300000), listing, 600000);
      var next := After({}, market, req, 60000);
      && next == market && KnownOf(next, 60000) == Span(120000, 240000)
      && Fetches(PlanFor(req.span, KnownOf({}, 60000), listing), 70000)
      && Fetches(PlanFor(req.span, KnownOf(next, 60000), listing), 70000)
  {
    var market, req := {120000, 180000}, Request(Span(60000, 300000), listing, 600000);
    assert Dense({}, market, 60000, 0);
    AfterIsReached({}, market, req, 60000, 0);
    assert Reached({}, market, req, 60000) == market;
    RecordUnique(Span(120000, 240000), market, 60000);
    PlanFillsHull(req.span, KnownOf({}, 60000), listing, 70000);
    PlanFillsHull(req.span, Span(120000, 240000), listing, 70000);
  }

  // ---------------------------------------------------------------- runs of requests

  ghost function Run(stored: set<int>, market: set<int>, rs: seq<Request>, tf: int): set<int>
    requires tf > 0
    decreases |rs|
  {
    if rs == [] then stored else Run(After(stored, market, rs[0], tf), market, rs[1..], tf)
  }

  /** How many requests of the run download the bar. */
  ghost function TimesLoaded(stored: set<int>, market: set<int>, rs: seq<Request>, tf: int, t: int): nat
    requires tf > 0
    decreases |rs|
  {
    if rs == [] then 0
    else
      (if t in Loaded(stored, market, rs[0], tf) then 1 else 0)
      + TimesLoaded(After(stored, market, rs[0], tf), market, rs[1..], tf, t)
  }

  /** How many requests of the run plan the time. */
  ghost function TimesPlanned(stored: set<int>, market: set<int>, rs: seq<Request>, tf: int, t: int): nat
    requires tf > 0
    decreases |rs|
  {
    if rs == [] then 0
    else
      (if Fetches(PlanFor(rs[0].span, KnownOf(stored, tf), rs[0].listing), t) then 1 else 0)
      + TimesPlanned(After(stored, market, rs[0], tf), market, rs[1..], tf, t)
  }

  /** The clock never goes back. */
  predicate Timely(rs: seq<Request>, nowMS: int) {
    rs == [] || (ValidRequest(rs[0], nowMS) && Timely(rs[1..], rs[0].nowMS))
  }

  function LastNow(rs: seq<Request>, nowMS: int): int {
    if rs == [] then nowMS else LastNow(rs[1..], rs[0].nowMS)
  }

  /** Over any run a bar is downloaded once if it comes to be stored, and the record stays free of missing bars. */
  lemma {:induction false} RunLoadsOnce(stored: set<int>, market: set<int>, rs: seq<Request>, tf: int, nowMS: int,
      t: int)
    requires tf > 0 && Dense(stored, market, tf, nowMS) && Timely(rs, nowMS)
    ensures stored <= Run(stored, market, rs, tf)
    ensures Dense(Run(stored, market, rs, tf), market, tf, LastNow(rs, nowMS))
    ensures TimesLoaded(stored, market, rs, tf, t)
      == if t in Run(stored, market, rs, tf) && t !in stored then 1 else 0
    decreases |rs|
  {
    if rs != [] {
      StepKeeps(stored, market, rs[0], tf, nowMS);
      RunLoadsOnce(After(stored, market, rs[0], tf), market, rs[1..], tf, rs[0].nowMS, t);
    }
  }

  /** After any run every finished bar of every request that was not refused is stored. */
  lemma {:induction false} RunCovers(stored: set<int>, market: set<int>, rs: seq<Request>, tf: int, nowMS: int,
      i: nat, t: int)
    requires tf > 0 && Dense(stored, market, tf, nowMS) && Timely(rs, nowMS)
    requires i < |rs| && !Refused(rs[i].listing, rs[i].span)
    requires t in market && Within(t, rs[i].span) && t + tf <= Min(rs[i].span.stop, rs[i].nowMS)
    ensures t in Run(stored, market, rs, tf)
    decreases |rs|
  {
    var next := After(stored, market, rs[0], tf);
    StepKeeps(stored, market, rs[0], tf, nowMS);
    if i == 0 {
      StepCovers(stored, market, rs[0], tf, nowMS, t);
      RunLoadsOnce(next, market, rs[1..], tf, rs[0].nowMS, t);
    } else {
      RunCovers(next, market, rs[1..], tf, rs[0].nowMS, i - 1, t);
    }
  }

  /** No request of any run plans a time that bars enclose already. */
  lemma {:induction false} EnclosedStaysSettled(stored: set<int>, market: set<int>, rs: seq<Request>, tf: int,
      nowMS: int, t: int)
    requires tf > 0 && Dense(stored, market, tf, nowMS) && Timely(rs, nowMS) && Enclosed(stored, t, tf)
    ensures TimesPlanned(stored, market, rs, tf, t) == 0
    decreases |rs|
  {
    if rs != [] {
      var next := After(stored, market, rs[0], tf);
      EnclosedIsRecorded(stored, t, tf);
      DenseRecord(stored, market, tf, nowMS);
      PlanFillsHull(rs[0].span, KnownOf(stored, tf), rs[0].listing, t);
      StepKeeps(stored, market, rs[0], tf, nowMS);
      assert Enclosed(next, t, tf);
      EnclosedStaysSettled(next, market, rs[1..], tf, rs[0].nowMS, t);
    }
  }

  function Repeats(r: Request, n: nat): (rs: seq<Request>)
    ensures |rs| == n && forall i :: 0 <= i < n ==> rs[i] == r
  {
    if n == 0 then [] else [r] + Repeats(r, n - 1)
  }

  /** A request asked again and again plans a time once if reachable bars enclose it, and every time if not. */
  lemma {:induction false} RepeatExactly(stored: set<int>, market: set<int>, r: Request, n: nat, tf: int, nowMS: int,
      t: int)
    requires tf > 0 && Dense(stored, market, tf, nowMS) && ValidRequest(r, nowMS) && n > 0
    requires Fetches(PlanFor(r.span, KnownOf(stored, tf), r.listing), t)
    ensures TimesPlanned(stored, market, Repeats(r, n), tf, t)
      == if Enclosed(Reached(stored, market, r, tf), t, tf) then 1 else n
    decreases n
  {
    var next, rs := After(stored, market, r, tf), Repeats(r, n);
    assert rs[1..] == Repeats(r, n - 1);
    AgainExactly(stored, market, r, tf, nowMS, t);
    AfterIsReached(stored, market, r, tf, nowMS);
    StepKeeps(stored, market, r, tf, nowMS);
    if Enclosed(next, t, tf) {
      RepeatsTimely(r, n - 1, r.nowMS);
      EnclosedStaysSettled(next, market, rs[1..], tf, r.nowMS, t);
    } else if n > 1 {
      RepeatExactly(next, market, r, n - 1, tf, r.nowMS, t);
      ReachedAgain(stored, market, r, tf, nowMS);
    }
  }

  lemma {:induction false} RepeatsTimely(r: Request, n: nat, nowMS: int)
    requires ValidRequest(r, nowMS)
    ensures Timely(Repeats(r, n), nowMS)
  {
    if n > 0 {
      assert Repeats(r, n)[1..] == Repeats(r, n - 1);
      RepeatsTimely(r, n - 1, r.nowMS);
    }
  }

  /** Asking again reaches the same bars. */
  lemma ReachedAgain(stored: set<int>, market: set<int>, r: Request, tf: int, nowMS: int)
    requires tf > 0 && Dense(stored, market, tf, nowMS) && ValidRequest(r, nowMS)
    ensures Reached(Reached(stored, market, r, tf), market, r, tf) == Reached(stored, market, r, tf)
  {
    var reached := Reached(stored, market, r, tf);
    var known, next := KnownOf(stored, tf), KnownOf(reached, tf);
    DenseRecord(stored, market, tf, nowMS);
    if reached != {} {
      assert next.start in reached && next.stop - tf in reached;
    }
    if stored != {} {
      StoredIsReached(stored, market, r, tf, nowMS);
      RecordGrows(stored, reached, tf, known.start);
      RecordGrows(stored, reached, tf, known.stop - 1);
    }
  }

  lemma StoredIsReached(stored: set<int>, market: set<int>, r: Request, tf: int, nowMS: int)
    requires tf > 0 && Dense(stored, market, tf, nowMS) && ValidRequest(r, nowMS)
    ensures stored <= Reached(stored, market, r, tf)
  {
    DenseRecord(stored, market, tf, nowMS);
  }
}
