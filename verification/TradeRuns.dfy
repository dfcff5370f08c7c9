/** What the trades of an order come to, however they are delivered. */
module TradeRuns {
  import opened Bars
  import opened TradeStream

  /**
   * A trade arrives, or one that waited for the order is taken up with it, or one that waited too long is tried once
   * more, or old entries of the done lists are cleaned up.
   */
  datatype Event =
    | Arrive(t: Trade, curMS: int)
    | TakeUp(t: Trade, curMS: int)
    | Retry(t: Trade, curMS: int)
    | Forget(trades: set<string>, keys: set<string>)

  function Step(d: Desk, e: Event): (r: Desk)
    ensures r.types == d.types
  {
    match e
    case Arrive(t, curMS) => Handled(d, t, curMS)
    case TakeUp(t, curMS) => ConsumedOne(d, t, curMS)
    case Retry(t, curMS) => Retried(d, t, curMS)
    case Forget(trades, keys) => d.(doneTrades := d.doneTrades - trades, doneKeys := d.doneKeys - keys)
  }

  /** Whether a trade comes to the order at all; only arriving ones are ignored for their type. */
  predicate Comes(types: Types, e: Event) {
    !e.Forget? && (e.Arrive? ==> !Ignored(types, e.t))
  }

  function Run(d: Desk, es: seq<Event>, n: nat): (r: Desk)
    requires n <= |es|
    ensures r.types == d.types
  {
    if n == 0 then d else Step(Run(d, es, n - 1), es[n - 1])
  }

  function SideOf(od: Live, enters: bool): Option<Side> {
    if enters then Some(od.enter) else od.exit
  }

  // ---------------------------------------------------------------- time never goes back

  /** One side is no older than another one, and the same if that is closed. */
  ghost predicate Later(s: Option<Side>, u: Option<Side>) {
    s.Some? ==> u.Some? && s.value.updateAt <= u.value.updateAt && (s.value.status == Closed ==> u == s)
  }

  lemma UpdatedMonotone(d: Desk, t: Trade, curMS: int, enters: bool)
    ensures Later(SideOf(d.od, enters), SideOf(Updated(d, t, curMS).od, enters))
      && Updated(d, t, curMS).od.short == d.od.short
  {
  }

  /** Whatever is delivered, the time of an update never goes back, and a closed side stays as it is. */
  lemma StepMonotone(d: Desk, e: Event, enters: bool)
    ensures Later(SideOf(d.od, enters), SideOf(Step(d, e).od, enters)) && Step(d, e).od.short == d.od.short
  {
    if !e.Forget? {
      UpdatedMonotone(d, e.t, e.curMS, enters);
    }
  }

  lemma {:induction false} RunMonotone(d: Desk, es: seq<Event>, n: nat, enters: bool)
    requires n <= |es|
    ensures Later(SideOf(d.od, enters), SideOf(Run(d, es, n).od, enters)) && Run(d, es, n).od.short == d.od.short
  {
    if n > 0 {
      RunMonotone(d, es, n - 1, enters);
      StepMonotone(Run(d, es, n - 1), es[n - 1], enters);
    }
  }

  // ---------------------------------------------------------------- streams with one full fill

  /** A trade of the other side does nothing: that side is closed, or is an exit that this trade does not bring up. */
  ghost predicate Idle(od: Live, enters: bool, t: Trade) {
    if enters then (if od.exit.Some? then od.exit.value.status == Closed else !Triggered(od, t))
    else od.enter.status == Closed
  }

  /** What decides about that is the same for both orders. */
  ghost predicate SameOther(od: Live, was: Live, enters: bool) {
    if enters then od.exit == was.exit && od.slOrder == was.slOrder && od.tpOrder == was.tpOrder
    else od.enter == was.enter
  }

  /** A trade of the stream of `last`: a partial fill, the full fill itself, or a trade of the other side. */
  ghost predicate Belongs(t: Trade, last: Trade) {
    && (t.key == last.key ==> t == last)
    && (t.isSell == last.isSell ==> t == last || t.state == PartFilled)
  }

  /** An event of the stream of `last` on a side of the order. */
  ghost predicate InStream(od: Live, enters: bool, e: Event, last: Trade) {
    !e.Forget? ==> Belongs(e.t, last) && (e.t.isSell != last.isSell ==> Idle(od, enters, e.t))
  }

  /** Trades of the stream, and trades of the other side as far as they do nothing there. */
  ghost predicate Stream(od: Live, enters: bool, es: seq<Event>, last: Trade) {
    forall k :: 0 <= k < |es| ==> InStream(od, enters, es[k], last)
  }

  lemma StreamEvent(od: Live, was: Live, enters: bool, es: seq<Event>, last: Trade, k: nat)
    requires k < |es| && Stream(was, enters, es, last) && SameOther(od, was, enters)
    ensures InStream(od, enters, es[k], last)
  {
    assert InStream(was, enters, es[k], last);
  }

  /** The full fill has not come through yet, and it will when it comes. */
  ghost predicate Waiting(d: Desk, enters: bool, last: Trade) {
    && SideOf(d.od, enters).Some? && SideOf(d.od, enters).value.status != Closed
    && SideOf(d.od, enters).value.updateAt <= last.time
    && d.od.status != FullExit && IsEnter(d.od, last) == enters
    && last.key !in d.doneTrades && last.order !in d.doneKeys
  }

  /** The side shows the full fill. */
  ghost predicate Shows(s: Side, last: Trade) {
    && s.status == Closed && s.filled == last.filled && s.average == last.average && s.price == last.average
    && s.orderType == last.orderType && s.updateAt == last.time
    && (last.fee.Some? ==> s.fee == last.fee.value)
  }

  ghost predicate Through(d: Desk, enters: bool, last: Trade) {
    && SideOf(d.od, enters).Some? && Shows(SideOf(d.od, enters).value, last)
    && d.od.status == (if enters then FullEnter else FullExit)
    && IsEnter(d.od, last) == enters
  }

  /** What does not come to the order leaves it alone. */
  lemma NotComing(d: Desk, e: Event)
    requires !Comes(d.types, e)
    ensures Step(d, e).od == d.od && Step(d, e).doneTrades <= d.doneTrades && Step(d, e).doneKeys <= d.doneKeys
  {
  }

  /** A trade that is not the full fill leaves the stream waiting. */
  lemma PartKeepsWaiting(d: Desk, e: Event, enters: bool, last: Trade)
    requires Waiting(d, enters, last) && InStream(d.od, enters, e, last)
    requires Comes(d.types, e) ==> e.t != last && (e.t.isSell == last.isSell ==> e.t.time <= last.time)
    ensures Waiting(Step(d, e), enters, last) && SameOther(Step(d, e).od, d.od, enters)
    ensures Step(d, e).od.finishes == d.od.finishes && Step(d, e).od.callbacks == d.od.callbacks
  {
    if !Comes(d.types, e) {
      NotComing(d, e);
    }
  }

  /** The full fill comes through, and an exit is finished and called back with it. */
  lemma FullFillComesThrough(d: Desk, e: Event, enters: bool, last: Trade)
    requires Waiting(d, enters, last) && last.state == Filled && Comes(d.types, e) && e.t == last
    ensures Through(Step(d, e), enters, last) && SameOther(Step(d, e).od, d.od, enters)
    ensures Step(d, e).od.finishes == d.od.finishes + (if enters then 0 else 1)
    ensures Step(d, e).od.callbacks == d.od.callbacks + (if enters then 0 else 1)
  {
  }

  /** After that nothing of the order changes any more. */
  lemma NothingChanges(d: Desk, e: Event, enters: bool, last: Trade)
    requires Through(d, enters, last) && last.state == Filled && InStream(d.od, enters, e, last)
    ensures Through(Step(d, e), enters, last) && Step(d, e).od == d.od
  {
  }

  ghost predicate Delivered(types: Types, es: seq<Event>, last: Trade, n: nat)
    requires n <= |es|
  {
    exists k :: 0 <= k < n && Comes(types, es[k]) && es[k].t == last
  }

  /** No trade that comes to this side of the order is later than the full fill. */
  ghost predicate Latest(types: Types, es: seq<Event>, last: Trade) {
    forall k :: 0 <= k < |es| && Comes(types, es[k]) && es[k].t.isSell == last.isSell ==> es[k].t.time <= last.time
  }

  lemma {:induction false} StreamRun(d: Desk, es: seq<Event>, n: nat, enters: bool, last: Trade)
    requires n <= |es| && Waiting(d, enters, last) && last.state == Filled
      && Stream(d.od, enters, es, last) && Latest(d.types, es, last)
    ensures var r := Run(d, es, n);
      var finish := if enters || !Delivered(d.types, es, last, n) then 0 else 1;
      && (if Delivered(d.types, es, last, n) then Through(r, enters, last) else Waiting(r, enters, last))
      && r.od.finishes == d.od.finishes + finish && r.od.callbacks == d.od.callbacks + finish
      && SameOther(r.od, d.od, enters)
  {
    if n > 0 {
      StreamRun(d, es, n - 1, enters, last);
      var r, e := Run(d, es, n - 1), es[n - 1];
      StreamEvent(r.od, d.od, enters, es, last, n - 1);
      if Delivered(d.types, es, last, n - 1) {
        NothingChanges(r, e, enters, last);
      } else if Comes(d.types, e) && e.t == last {
        FullFillComesThrough(r, e, enters, last);
      } else {
        PartKeepsWaiting(r, e, enters, last);
      }
    }
  }

  /**
   * If the full fill comes to the order and is the latest trade that does, every delivery, in any order and with any
   * repetitions, ends with the same side; an exit is finished and called back exactly once.
   */
  lemma Converges(d: Desk, es: seq<Event>, enters: bool, last: Trade)
    requires Waiting(d, enters, last) && last.state == Filled && Stream(d.od, enters, es, last)
    requires Latest(d.types, es, last) && Delivered(d.types, es, last, |es|)
    ensures var r := Run(d, es, |es|).od;
      && SideOf(r, enters).Some? && Shows(SideOf(r, enters).value, last)
      && r.status == (if enters then FullEnter else FullExit)
      && r.finishes == d.od.finishes + (if enters then 0 else 1)
      && r.callbacks == d.od.callbacks + (if enters then 0 else 1)
  {
    StreamRun(d, es, |es|, enters, last);
  }

  /** A full fill that only arrives, and is of an ignored type, never closes the order. */
  lemma IgnoredFillIsLost(d: Desk, es: seq<Event>, enters: bool, last: Trade)
    requires Waiting(d, enters, last) && last.state == Filled
    requires Stream(d.od, enters, es, last) && Latest(d.types, es, last)
    requires Arrivals(es) && Ignored(d.types, last)
    ensures Waiting(Run(d, es, |es|), enters, last) && Run(d, es, |es|).od.finishes == d.od.finishes
  {
    StreamRun(d, es, |es|, enters, last);
  }

  /** Trades only arrive; the order is known from the start. */
  ghost predicate Arrivals(es: seq<Event>) {
    forall k :: 0 <= k < |es| ==> es[k].Arrive? || es[k].Forget?
  }

  // ---------------------------------------------------------------- when the full fill is not the latest

  /** A later trade was applied: the full fill is skipped from now on. */
  ghost predicate Overtaken(d: Desk, enters: bool, last: Trade) {
    && SideOf(d.od, enters).Some? && SideOf(d.od, enters).value.status != Closed
    && last.time < SideOf(d.od, enters).value.updateAt
    && d.od.status != FullExit && IsEnter(d.od, last) == enters
  }

  lemma StaysOvertaken(d: Desk, e: Event, enters: bool, last: Trade)
    requires Overtaken(d, enters, last) && InStream(d.od, enters, e, last)
    ensures Overtaken(Step(d, e), enters, last) && SameOther(Step(d, e).od, d.od, enters)
    ensures Step(d, e).od.finishes == d.od.finishes && Step(d, e).od.callbacks == d.od.callbacks
  {
  }

  lemma {:induction false} OvertakenRun(d: Desk, es: seq<Event>, n: nat, enters: bool, last: Trade)
    requires n <= |es| && Overtaken(d, enters, last) && Stream(d.od, enters, es, last)
    ensures Overtaken(Run(d, es, n), enters, last) && SameOther(Run(d, es, n).od, d.od, enters)
    ensures Run(d, es, n).od.finishes == d.od.finishes && Run(d, es, n).od.callbacks == d.od.callbacks
  {
    if n > 0 {
      OvertakenRun(d, es, n - 1, enters, last);
      StreamEvent(Run(d, es, n - 1).od, d.od, enters, es, last, n - 1);
      StaysOvertaken(Run(d, es, n - 1), es[n - 1], enters, last);
    }
  }

  /**
   * A partial fill that carries a later time than the full fill, and comes to the order first, keeps it open for
   * good.
   */
  lemma LaterTradeLosesFill(d: Desk, e: Event, es: seq<Event>, enters: bool, last: Trade)
    requires Waiting(d, enters, last) && Comes(d.types, e)
    requires Belongs(e.t, last) && e.t.state == PartFilled && e.t.isSell == last.isSell
    requires e.t.key !in d.doneTrades && e.t.order !in d.doneKeys
    requires e.t.time > last.time && Stream(d.od, enters, es, last)
    ensures var r := Run(Step(d, e), es, |es|).od;
      SideOf(r, enters).Some? && SideOf(r, enters).value.status != Closed && r.finishes == d.od.finishes
  {
    Overtake(d, e, enters, last);
    forall k | 0 <= k < |es| ensures InStream(Step(d, e).od, enters, es[k], last) {
      StreamEvent(Step(d, e).od, d.od, enters, es, last, k);
    }
    OvertakenRun(Step(d, e), es, |es|, enters, last);
  }

  lemma Overtake(d: Desk, e: Event, enters: bool, last: Trade)
    requires Waiting(d, enters, last) && Comes(d.types, e)
    requires Belongs(e.t, last) && e.t.state == PartFilled && e.t.isSell == last.isSell
    requires e.t.key !in d.doneTrades && e.t.order !in d.doneKeys && e.t.time > last.time
    ensures Overtaken(Step(d, e), enters, last) && Step(d, e).od.finishes == d.od.finishes
    ensures SameOther(Step(d, e).od, d.od, enters)
  {
    assert SideOf(d.od, enters).value.updateAt <= e.t.time;
  }

  // ---------------------------------------------------------------- for which trades every delivery closes the order

  ghost predicate From(es: seq<Event>, trades: set<Trade>) {
    forall k :: 0 <= k < |es| && !es[k].Forget? ==> es[k].t in trades
  }

  ghost predicate Brings(es: seq<Event>, last: Trade) {
    exists k :: 0 <= k < |es| && !es[k].Forget? && es[k].t == last
  }

  ghost predicate Closes(d: Desk, es: seq<Event>, enters: bool) {
    SideOf(Run(d, es, |es|).od, enters).Some? && SideOf(Run(d, es, |es|).od, enters).value.status == Closed
  }

  /** The trades of one side of the order, none of them done yet, with one full fill among them. */
  ghost predicate OneStream(d: Desk, trades: set<Trade>, last: Trade) {
    && last.state == Filled && last in trades
    && forall t :: t in trades ==>
      Belongs(t, last) && t.isSell == last.isSell && t.key !in d.doneTrades && t.order !in d.doneKeys
  }

  /**
   * Every delivery of arriving trades closes the side, if and only if the full fill is not ignored for its type and no
   * partial fill that is not ignored is later.
   */
  lemma ConvergesIff(d: Desk, trades: set<Trade>, enters: bool, last: Trade)
    requires Waiting(d, enters, last) && OneStream(d, trades, last)
    ensures (forall es :: Arrivals(es) && From(es, trades) && Brings(es, last) ==> Closes(d, es, enters))
       <==> !Ignored(d.types, last) && forall t :: t in trades && !Ignored(d.types, t) ==> t.time <= last.time
  {
    if Ignored(d.types, last) {
      var es := [Arrive(last, 0)];
      assert es[0].t == last;
      IgnoredFillIsLost(d, es, enters, last);
      assert Arrivals(es) && From(es, trades) && Brings(es, last) && !Closes(d, es, enters);
    } else if m: Trade :| m in trades && !Ignored(d.types, m) && m.time > last.time {
      var es := BadDelivery(d, Arrive(m, 0), Arrive(last, 0), enters, last);
      assert Arrivals(es) && From(es, trades) && Brings(es, last) && !Closes(d, es, enters);
    } else {
      forall es | Arrivals(es) && From(es, trades) && Brings(es, last)
        ensures Closes(d, es, enters)
      {
        Converges(d, es, enters, last);
      }
    }
  }

  /**
   * If trades may also have waited for the order, which no type keeps from it, every delivery in which the full fill
   * comes to the order closes the side, if and only if no partial fill is later.
   */
  lemma ConvergesIffWaiting(d: Desk, trades: set<Trade>, enters: bool, last: Trade)
    requires Waiting(d, enters, last) && OneStream(d, trades, last)
    ensures (forall es :: From(es, trades) && Delivered(d.types, es, last, |es|) ==> Closes(d, es, enters))
       <==> (forall t :: t in trades ==> t.time <= last.time)
  {
    if m: Trade :| m in trades && m.time > last.time {
      var es := BadDelivery(d, TakeUp(m, 0), TakeUp(last, 0), enters, last);
      assert Comes(d.types, es[1]) && es[1].t == last;
      assert From(es, trades) && Delivered(d.types, es, last, |es|) && !Closes(d, es, enters);
    } else {
      forall es | From(es, trades) && Delivered(d.types, es, last, |es|)
        ensures Closes(d, es, enters)
      {
        Converges(d, es, enters, last);
      }
    }
  }

  lemma BadDelivery(d: Desk, e: Event, f: Event, enters: bool, last: Trade) returns (es: seq<Event>)
    requires Waiting(d, enters, last) && Comes(d.types, e) && Belongs(e.t, last) && e.t.isSell == last.isSell
    requires e.t.key !in d.doneTrades && e.t.order !in d.doneKeys && e.t.time > last.time
    requires !f.Forget? && f.t == last
    ensures es == [e, f] && es[1].t == last && !Closes(d, es, enters)
  {
    es := [e, f];
    Overtake(d, e, enters, last);
    assert Run(d, es, 0) == d && Run(d, es, 1) == Step(d, e);
    StaysOvertaken(Step(d, e), f, enters, last);
  }

  // ---------------------------------------------------------------- exits that come up with their trade

  /** An exit that a stop order has brought up: the trades of that order are the stream of `last`. */
  ghost predicate Awaited(d: Desk, last: Trade) {
    && d.od.exit.None? && d.od.status != FullExit
    && !IsEnter(d.od, last) && Triggered(d.od, last)
    && last.key !in d.doneTrades && last.order !in d.doneKeys
  }

  lemma ExitIsUpdated(d: Desk, t: Trade, curMS: int, last: Trade)
    requires Awaited(d, last) && last.state == Filled && t.order == last.order
    requires Belongs(t, last) && t.isSell == last.isSell && t.time <= last.time
    ensures var r := Updated(d, t, curMS);
      && (last.time < curMS ==> Overtaken(r, false, last))
      && (last.time >= curMS && t == last ==> Through(r, false, last))
      && (last.time >= curMS && t != last ==> Waiting(r, false, last))
      && r.od.finishes == d.od.finishes + (if last.time >= curMS && t == last then 1 else 0)
      && r.od.callbacks == d.od.callbacks + (if last.time >= curMS && t == last then 1 else 0)
      && r.od.enter == d.od.enter
  {
  }

  /** The first trade that comes creates the exit, dated now, and counts only if it is not older. */
  lemma ExitComesUp(d: Desk, e: Event, last: Trade)
    requires Awaited(d, last) && last.state == Filled && Comes(d.types, e) && e.t.order == last.order
    requires Belongs(e.t, last) && e.t.isSell == last.isSell && e.t.time <= last.time
    requires e.t.key !in d.doneTrades
    ensures var r := Step(d, e);
      && (last.time < e.curMS ==> Overtaken(r, false, last))
      && (last.time >= e.curMS && e.t == last ==> Through(r, false, last))
      && (last.time >= e.curMS && e.t != last ==> Waiting(r, false, last))
      && r.od.finishes == d.od.finishes + (if last.time >= e.curMS && e.t == last then 1 else 0)
      && r.od.callbacks == d.od.callbacks + (if last.time >= e.curMS && e.t == last then 1 else 0)
      && r.od.enter == d.od.enter
  {
    ExitIsUpdated(d, e.t, e.curMS, last);
    assert Step(d, e) == Updated(d, e.t, e.curMS);
  }

  /**
   * A whole stream for such an exit: with the full fill as the latest trade, it closes the exit, finished and called
   * back once, if and only if the full fill is not older than the moment at which the first trade came.
   */
  lemma TriggeredExit(d: Desk, e: Event, es: seq<Event>, last: Trade)
    requires Awaited(d, last) && last.state == Filled && Comes(d.types, e) && e.t.order == last.order
      && e.t.key !in d.doneTrades
    requires Belongs(e.t, last) && e.t.isSell == last.isSell && e.t.time <= last.time
    requires Stream(d.od, false, es, last) && Latest(d.types, es, last)
      && (e.t == last || Delivered(d.types, es, last, |es|))
    ensures var r := Run(Step(d, e), es, |es|).od;
      && r.exit.Some?
      && (r.exit.value.status == Closed <==> last.time >= e.curMS)
      && (last.time >= e.curMS ==> Shows(r.exit.value, last))
      && r.finishes == d.od.finishes + (if last.time >= e.curMS then 1 else 0)
      && r.callbacks == d.od.callbacks + (if last.time >= e.curMS then 1 else 0)
  {
    ExitComesUp(d, e, last);
    var f := Step(d, e);
    forall k | 0 <= k < |es| ensures InStream(f.od, false, es[k], last) {
      StreamEvent(f.od, d.od, false, es, last, k);
    }
    if last.time < e.curMS {
      OvertakenRun(f, es, |es|, false, last);
    } else if e.t == last {
      StaysThrough(f, es, |es|, false, last);
    } else {
      StreamRun(f, es, |es|, false, last);
    }
  }

  lemma {:induction false} StaysThrough(d: Desk, es: seq<Event>, n: nat, enters: bool, last: Trade)
    requires n <= |es| && Through(d, enters, last) && last.state == Filled && Stream(d.od, enters, es, last)
    ensures Through(Run(d, es, n), enters, last) && Run(d, es, n).od == d.od
  {
    if n > 0 {
      StaysThrough(d, es, n - 1, enters, last);
      assert InStream(d.od, enters, es[n - 1], last);
      NothingChanges(Run(d, es, n - 1), es[n - 1], enters, last);
    }
  }

  // ---------------------------------------------------------------- what a side shows meanwhile

  /** The side shows the amounts of a fill, which are totals, and is no older than it. */
  ghost predicate Reported(s: Side, t: Trade) {
    && IsFill(t) && s.filled == t.filled && s.average == t.average && s.orderType == t.orderType
    && (t.fee.Some? ==> s.fee == t.fee.value) && t.time <= s.updateAt
  }

  /** No fill has come to the side yet; an exit that is brought up begins with nothing. */
  ghost predicate Unfilled(was: Option<Side>, s: Side) {
    match was
    case Some(w) => s.filled == w.filled && s.average == w.average && s.fee == w.fee && s.orderType == w.orderType
    case None => s.filled == 0.0 && s.average == 0.0 && s.fee == 0.0
  }

  ghost predicate OfSide(short: bool, enters: bool, e: Event) {
    !e.Forget? && (short == e.t.isSell) == enters
  }

  /** One of the first `n` events is a fill of the side that it shows. */
  ghost predicate ShowsOne(s: Side, short: bool, enters: bool, es: seq<Event>, n: nat)
    requires n <= |es|
  {
    exists k :: 0 <= k < n && OfSide(short, enters, es[k]) && Reported(s, es[k].t)
  }

  lemma {:induction false} ShowsMore(s: Side, u: Side, short: bool, enters: bool, es: seq<Event>, n: nat)
    requires n < |es| && ShowsOne(s, short, enters, es, n)
    requires u.filled == s.filled && u.average == s.average && u.orderType == s.orderType && u.fee == s.fee
      && s.updateAt <= u.updateAt
    ensures ShowsOne(u, short, enters, es, n + 1)
  {
    var k :| 0 <= k < n && OfSide(short, enters, es[k]) && Reported(s, es[k].t);
    assert Reported(u, es[k].t);
  }

  /** A side stays, or takes over the amounts of a fill, or its time only. */
  ghost predicate Moves(was: Option<Side>, now: Option<Side>, t: Trade) {
    match now
    case None => was.None?
    case Some(u) =>
      || was == now
      || Reported(u, t)
      || (Unfilled(was, u) && (was.Some? ==> was.value.updateAt <= u.updateAt))
  }

  lemma {:induction false} SideUpdateMoves(d: Desk, side: bool, s: Side, t: Trade, enters: bool)
    requires SideOf(d.od, side) == Some(s)
    ensures var r := UpdatedSide(d, side, s, t).od;
      && (side != enters ==> SideOf(r, enters) == SideOf(d.od, enters))
      && (side == enters ==> Moves(SideOf(d.od, enters), SideOf(r, enters), t) && SideOf(r, enters).Some?)
      && (side == enters && IsFill(t) ==>
            || SideOf(r, enters) == Some(s)
            || (Reported(SideOf(r, enters).value, t) && SideOf(r, enters).value.updateAt == t.time))
  {
  }

  /** What an update does to a side. */
  lemma {:induction false} UpdateMoves(d: Desk, t: Trade, curMS: int, enters: bool)
    ensures (d.od.short == t.isSell) != enters ==> SideOf(Updated(d, t, curMS).od, enters) == SideOf(d.od, enters)
    ensures Moves(SideOf(d.od, enters), SideOf(Updated(d, t, curMS).od, enters), t)
    ensures IsFill(t) || t.state == Open ==> FillMoves(SideOf(d.od, enters), SideOf(Updated(d, t, curMS).od, enters), t)
  {
    hide UpdatedSide;
    var e := d.(doneTrades := d.doneTrades + {t.key});
    if IsEnter(d.od, t) {
      SideUpdateMoves(e, true, d.od.enter, t, enters);
    } else if d.od.exit.Some? {
      SideUpdateMoves(e, false, d.od.exit.value, t, enters);
    } else if Triggered(d.od, t) {
      var f := e.(od := WithExit(d.od, curMS));
      SideUpdateMoves(f, false, f.od.exit.value, t, enters);
    }
  }

  /** A fill is taken over with its time, or leaves a side as it is or as it is brought up. */
  ghost predicate FillMoves(was: Option<Side>, now: Option<Side>, t: Trade) {
    || was == now
    || (now.Some? && Reported(now.value, t) && now.value.updateAt == t.time)
    || (was.None? && now.Some? && Unfilled(was, now.value))
  }

  lemma {:induction false} StepMoves(d: Desk, e: Event, enters: bool)
    ensures e.Forget? || !OfSide(d.od.short, enters, e) ==> SideOf(Step(d, e).od, enters) == SideOf(d.od, enters)
    ensures !e.Forget? ==> Moves(SideOf(d.od, enters), SideOf(Step(d, e).od, enters), e.t)
    ensures !e.Forget? && (IsFill(e.t) || e.t.state == Open) ==>
      FillMoves(SideOf(d.od, enters), SideOf(Step(d, e).od, enters), e.t)
  {
    hide Updated;
    if !e.Forget? {
      UpdateMoves(d, e.t, e.curMS, enters);
    }
  }

  /**
   * After every run of events the amounts of a side are those that it began with, or those of one fill that was
   * delivered and is no later than the side; they are never added up.
   */
  lemma {:induction false} FillsAreTotals(d: Desk, es: seq<Event>, n: nat, enters: bool)
    requires n <= |es| && SideOf(Run(d, es, n).od, enters).Some?
    ensures var s := SideOf(Run(d, es, n).od, enters).value;
      Unfilled(SideOf(d.od, enters), s) || ShowsOne(s, d.od.short, enters, es, n)
  {
    if n > 0 {
      var was, e := Run(d, es, n - 1), es[n - 1];
      RunMonotone(d, es, n - 1, enters);
      StepMoves(was, e, enters);
      if SideOf(was.od, enters).Some? {
        FillsAreTotals(d, es, n - 1, enters);
        SideMoves(d, was, es, n, enters);
      } else if !e.Forget? && Reported(SideOf(Run(d, es, n).od, enters).value, e.t) {
        assert OfSide(d.od.short, enters, es[n - 1]);
      }
    }
  }

  lemma {:induction false} SideMoves(d: Desk, was: Desk, es: seq<Event>, n: nat, enters: bool)
    requires 0 < n <= |es| && SideOf(was.od, enters).Some? && was.od.short == d.od.short
    requires var s := SideOf(was.od, enters).value;
      Unfilled(SideOf(d.od, enters), s) || ShowsOne(s, d.od.short, enters, es, n - 1)
    ensures SideOf(Step(was, es[n - 1]).od, enters).Some?
    ensures var u := SideOf(Step(was, es[n - 1]).od, enters).value;
      Unfilled(SideOf(d.od, enters), u) || ShowsOne(u, d.od.short, enters, es, n)
  {
    var e := es[n - 1];
    StepMoves(was, e, enters);
    StepMonotone(was, e, enters);
    var s, u := SideOf(was.od, enters).value, SideOf(Step(was, e).od, enters).value;
    if OfSide(d.od.short, enters, e) && Reported(u, e.t) {
      assert OfSide(d.od.short, enters, es[n - 1]) && Reported(u, es[n - 1].t);
    } else if ShowsOne(s, d.od.short, enters, es, n - 1) {
      ShowsMore(s, u, d.od.short, enters, es, n - 1);
    }
  }

  /** Of the first `n` events only fills concern the side. */
  ghost predicate OnlyFills(short: bool, enters: bool, es: seq<Event>, n: nat)
    requires n <= |es|
  {
    forall k :: 0 <= k < n && OfSide(short, enters, es[k]) ==> IsFill(es[k].t) || es[k].t.state == Open
  }

  /** The side shows one of the fills, and its time. */
  ghost predicate ShowsTimed(s: Side, short: bool, enters: bool, es: seq<Event>, n: nat)
    requires n <= |es|
  {
    exists k :: 0 <= k < n && OfSide(short, enters, es[k]) && Reported(s, es[k].t) && s.updateAt == es[k].t.time
  }

  lemma {:induction false} FillsAreTimed(d: Desk, es: seq<Event>, n: nat, enters: bool)
    requires n <= |es| && SideOf(d.od, enters).Some? && OnlyFills(d.od.short, enters, es, n)
    ensures SideOf(Run(d, es, n).od, enters).Some?
    ensures var s := SideOf(Run(d, es, n).od, enters);
      s == SideOf(d.od, enters) || ShowsTimed(s.value, d.od.short, enters, es, n)
  {
    if n > 0 {
      var was, e := Run(d, es, n - 1), es[n - 1];
      FillsAreTimed(d, es, n - 1, enters);
      RunMonotone(d, es, n - 1, enters);
      StepMoves(was, e, enters);
      var s, u := SideOf(was.od, enters), SideOf(Run(d, es, n).od, enters);
      if u == s && s != SideOf(d.od, enters) {
        var k :| 0 <= k < n - 1 && OfSide(d.od.short, enters, es[k]) && Reported(s.value, es[k].t)
          && s.value.updateAt == es[k].t.time;
        assert OfSide(d.od.short, enters, es[k]) && Reported(u.value, es[k].t);
      } else if u != s {
        assert OfSide(d.od.short, enters, es[n - 1]) && Reported(u.value, es[n - 1].t);
      }
    }
  }

  /** A trade of a side that comes, and is not done, leaves the side no older than itself, or closed. */
  lemma {:induction false} ComesInTime(d: Desk, e: Event, enters: bool)
    requires Comes(d.types, e) && OfSide(d.od.short, enters, e) && SideOf(d.od, enters).Some? && e.t.state != Open
    requires e.t.key !in d.doneTrades && e.t.order !in d.doneKeys
    ensures SideOf(Step(d, e).od, enters).Some?
    ensures var s := SideOf(Step(d, e).od, enters).value; s.status == Closed || e.t.time <= s.updateAt
  {
  }

  /** What has come stays reflected in the time of the side. */
  lemma {:induction false} StaysInTime(d: Desk, es: seq<Event>, k: nat, n: nat, enters: bool)
    requires k < n <= |es| && SideOf(Run(d, es, k).od, enters).Some?
    requires Comes(d.types, es[k]) && OfSide(d.od.short, enters, es[k]) && es[k].t.state != Open
    requires es[k].t.key !in Run(d, es, k).doneTrades && es[k].t.order !in Run(d, es, k).doneKeys
    ensures SideOf(Run(d, es, n).od, enters).Some?
    ensures var s := SideOf(Run(d, es, n).od, enters).value; s.status == Closed || es[k].t.time <= s.updateAt
    decreases n
  {
    RunMonotone(d, es, k, enters);
    if n == k + 1 {
      ComesInTime(Run(d, es, k), es[k], enters);
    } else {
      StaysInTime(d, es, k, n - 1, enters);
      StepMonotone(Run(d, es, n - 1), es[n - 1], enters);
    }
  }

  /**
   * Of fills that are delivered in any order and with any repetitions, a side that is still open shows the latest one
   * that has come to it, with the amounts that it reports.
   */
  lemma {:induction false} LatestFillShows(d: Desk, es: seq<Event>, k: nat, n: nat, enters: bool)
    requires k < n <= |es| && SideOf(d.od, enters).Some? && OnlyFills(d.od.short, enters, es, n)
    requires Comes(d.types, es[k]) && OfSide(d.od.short, enters, es[k]) && IsFill(es[k].t)
    requires es[k].t.key !in Run(d, es, k).doneTrades && es[k].t.order !in Run(d, es, k).doneKeys
    requires SideOf(d.od, enters).value.updateAt < es[k].t.time
    requires forall j :: 0 <= j < n && OfSide(d.od.short, enters, es[j]) && es[j].t != es[k].t ==>
      es[j].t.time < es[k].t.time
    ensures SideOf(Run(d, es, n).od, enters).Some?
    ensures var s := SideOf(Run(d, es, n).od, enters).value;
      s.status == Closed || (Reported(s, es[k].t) && s.updateAt == es[k].t.time)
  {
    FillsAreTimed(d, es, k, enters);
    FillsAreTimed(d, es, n, enters);
    StaysInTime(d, es, k, n, enters);
    var s := SideOf(Run(d, es, n).od, enters).value;
    if s.status != Closed && SideOf(Run(d, es, n).od, enters) != SideOf(d.od, enters) {
      var j :| 0 <= j < n && OfSide(d.od.short, enters, es[j]) && Reported(s, es[j].t) && s.updateAt == es[j].t.time;
    }
  }

  /**
   * A cancelled or expired entry is closed with the amounts that it has, and is entered if that is anything, else over:
   * then it is finished and called back once. A cancelled exit is closed and the order stays as it was.
   */
  lemma {:induction false} CancelledSide(d: Desk, e: Event, enters: bool)
    requires Comes(d.types, e) && OfSide(d.od.short, enters, e) && e.t.state == Ended
    requires e.t.key !in d.doneTrades && e.t.order !in d.doneKeys && d.od.status != FullExit
    requires SideOf(d.od, enters).Some? && SideOf(d.od, enters).value.status != Closed
    requires SideOf(d.od, enters).value.updateAt <= e.t.time
    ensures var was, r := SideOf(d.od, enters).value, Step(d, e).od;
      && SideOf(r, enters).Some? && SideOf(r, enters).value.status == Closed
      && SideOf(r, enters).value.filled == was.filled && SideOf(r, enters).value.average == was.average
      && (r.status == FullExit <==> enters && was.filled == 0.0)
      && (enters && was.filled != 0.0 ==> r.status == FullEnter) && (!enters ==> r.status == d.od.status)
      && r.finishes == d.od.finishes + (if enters && was.filled == 0.0 then 1 else 0)
      && r.callbacks == d.od.callbacks + (if enters && was.filled == 0.0 then 1 else 0)
  {
  }
}
