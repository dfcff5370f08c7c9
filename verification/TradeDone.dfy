/** What a delivered trade leaves behind in the order and in the lists of what is done. */
module TradeDone {
  import opened Bars
  import opened TradeStream
  import opened TradeRuns

  ghost predicate Occurs(text: string, part: string) {
    exists i :: 0 <= i <= |text| - |part| && text[i..][..|part|] == part
  }

  /** A text contains another one exactly when that begins at some place of it. */
  lemma {:induction false} ContainsExactly(text: string, part: string)
    ensures Contains(text, part) <==> Occurs(text, part)
  {
    if |part| <= |text| {
      assert text[0..] == text;
      if text != "" {
        ContainsExactly(text[1..], part);
        if Occurs(text[1..], part) {
          var i :| 0 <= i <= |text[1..]| - |part| && text[1..][i..][..|part|] == part;
          assert text[i + 1..] == text[1..][i..];
        }
        if i :| 0 < i <= |text| - |part| && text[i..][..|part|] == part {
          assert text[1..][i - 1..] == text[i..];
        }
      }
    }
  }

  /** A delivery does nothing at all. */
  ghost predicate TurnedAway(d: Desk, e: Event) {
    match e
    case Arrive(t, _) =>
      || t.state == Open || t.key in d.doneTrades || t.order in d.doneKeys
      || Occurs(t.orderType, d.types.stop) || Occurs(t.orderType, d.types.takeProfit)
    case TakeUp(t, _) =>
      var s := SideOf(d.od, IsEnter(d.od, t));
      t.state == Open || t.key in d.doneTrades || t.order in d.doneKeys || (s.Some? && t.time < s.value.updateAt)
    case Retry(t, _) => t.state == Open || t.order in d.doneKeys
    case Forget(trades, keys) => trades !! d.doneTrades && keys !! d.doneKeys
  }

  /** A trade is done once it is let in, whether it changes the order or not, and nothing else is. */
  lemma {:induction false} DoneExactly(d: Desk, e: Event)
    ensures TurnedAway(d, e) ==> Step(d, e) == d
    ensures !TurnedAway(d, e) && !e.Forget? ==> Step(d, e).doneTrades == d.doneTrades + {e.t.key}
    ensures !TurnedAway(d, e) && !e.Forget? && (OfSide(d.od.short, true, e) || d.od.exit.Some?) ==>
      var enters := OfSide(d.od.short, true, e);
      (Skips(SideOf(d.od, enters).value, e.t) ==> Step(d, e).od == d.od)
    ensures Step(d, e).enterKey == d.enterKey && Step(d, e).exitKey == d.exitKey
  {
    if e.Arrive? {
      ContainsExactly(e.t.orderType, d.types.stop);
      ContainsExactly(e.t.orderType, d.types.takeProfit);
    }
    hide Contains, Occurs;
    if e.Forget? && TurnedAway(d, e) {
      assert d.doneTrades - e.trades == d.doneTrades && d.doneKeys - e.keys == d.doneKeys;
    }
  }

  /** An order that is not at the exchange, or is recorded as done. */
  predicate Settled(key: string, doneKeys: set<string>) {
    key == "" || key in doneKeys
  }

  /** No stop or take-profit order of the exchange is waited for any more. */
  predicate NothingTriggers(od: Live) {
    && (od.slOrder.None? || od.slOrder == Some(""))
    && (od.tpOrder.None? || od.tpOrder == Some(""))
  }

  /**
   * An order that has left is finished and called back, with its exchange orders done and its stop orders forgotten.
   */
  ghost predicate FinishedOnce(d: Desk, r: Desk) {
    && r.od.finishes == d.od.finishes + 1 && r.od.callbacks == d.od.callbacks + 1
    && r.od.status == FullExit && NothingTriggers(r.od)
    && Settled(d.enterKey, r.doneKeys) && (r.od.exit.Some? ==> Settled(d.exitKey, r.doneKeys))
    && d.doneKeys <= r.doneKeys <= d.doneKeys + {d.enterKey, d.exitKey} && ("" in r.doneKeys ==> "" in d.doneKeys)
  }

  ghost predicate NotFinished(d: Desk, r: Desk) {
    && r.od.finishes == d.od.finishes && r.od.callbacks == d.od.callbacks
    && r.doneKeys == d.doneKeys && r.od.slOrder == d.od.slOrder && r.od.tpOrder == d.od.tpOrder
  }

  lemma {:induction false} SideLeaves(d: Desk, enters: bool, s: Side, t: Trade)
    ensures var r := UpdatedSide(d, enters, s, t); FinishedOnce(d, r) || NotFinished(d, r)
  {
    hide Applied, StatusAfter;
  }

  lemma {:induction false} UpdateLeaves(d: Desk, t: Trade, curMS: int)
    ensures var r := Updated(d, t, curMS); FinishedOnce(d, r) || NotFinished(d, r)
  {
    hide UpdatedSide;
    var e := d.(doneTrades := d.doneTrades + {t.key});
    if IsEnter(d.od, t) {
      SideLeaves(e, true, d.od.enter, t);
    } else if d.od.exit.Some? {
      SideLeaves(e, false, d.od.exit.value, t);
    } else {
      var f := e.(od := WithExit(d.od, curMS));
      SideLeaves(f, false, f.od.exit.value, t);
    }
  }

  /** Every delivery finishes the order once, as it has left, or leaves it, its stop orders and the lists alone. */
  lemma {:induction false} FinishLeaves(d: Desk, e: Event)
    requires !e.Forget?
    ensures FinishedOnce(d, Step(d, e)) || NotFinished(d, Step(d, e))
  {
    hide Updated;
    UpdateLeaves(d, e.t, e.curMS);
  }

  /** Until the lists are cleaned up, no trade of an order that is done changes anything. */
  lemma {:induction false} DoneStaysDone(d: Desk, es: seq<Event>, n: nat)
    requires n <= |es| && forall k :: 0 <= k < n ==> !es[k].Forget? && es[k].t.order in d.doneKeys
    ensures Run(d, es, n) == d
  {
    if n > 0 {
      DoneStaysDone(d, es, n - 1);
    }
  }

  /**
   * After the delivery that finishes an order, nothing that is delivered for its entry or its exit reaches it, up to
   * the next cleaning.
   */
  lemma FinishIsFinal(d: Desk, e: Event, es: seq<Event>)
    requires !e.Forget? && Step(d, e).od.finishes != d.od.finishes && Step(d, e).od.exit.Some?
    requires d.enterKey != "" && d.exitKey != ""
    requires forall k :: 0 <= k < |es| ==> !es[k].Forget? && es[k].t.order in {d.enterKey, d.exitKey}
    ensures Run(Step(d, e), es, |es|) == Step(d, e)
  {
    FinishLeaves(d, e);
    DoneStaysDone(Step(d, e), es, |es|);
  }

  // ---------------------------------------------------------------- amounts and the time of the exit

  /** A trade of a side that is let in and applied. */
  ghost predicate Applies(d: Desk, e: Event, enters: bool) {
    && !e.Forget? && !TurnedAway(d, e) && OfSide(d.od.short, enters, e)
    && SideOf(d.od, enters).Some? && !Skips(SideOf(d.od, enters).value, e.t)
  }

  /** A side without an amount takes over that of a trade, and keeps it. */
  lemma {:induction false} AmountExactly(d: Desk, e: Event, enters: bool)
    requires SideOf(d.od, enters).Some?
    ensures SideOf(Step(d, e).od, enters).Some?
    ensures SideOf(Step(d, e).od, enters).value.amount ==
      if SideOf(d.od, enters).value.amount == 0.0 && Applies(d, e, enters) then e.t.amount
      else SideOf(d.od, enters).value.amount
  {
    DoneExactly(d, e);
  }

  /** Whatever is delivered, the amount of a side is not changed any more. */
  lemma {:induction false} AmountStays(d: Desk, es: seq<Event>, n: nat, enters: bool)
    requires n <= |es| && SideOf(d.od, enters).Some? && SideOf(d.od, enters).value.amount != 0.0
    ensures SideOf(Run(d, es, n).od, enters).Some?
    ensures SideOf(Run(d, es, n).od, enters).value.amount == SideOf(d.od, enters).value.amount
  {
    if n > 0 {
      AmountStays(d, es, n - 1, enters);
      AmountExactly(Run(d, es, n - 1), es[n - 1], enters);
    }
  }

  /** The first fill of an exit dates it; no other trade of an exit that is there does. */
  lemma {:induction false} ExitIsDated(d: Desk, e: Event)
    requires d.od.exit.Some?
    ensures Step(d, e).od.exitAt ==
      if Applies(d, e, false) && IsFill(e.t) && d.od.exit.value.filled == 0.0 then e.t.time else d.od.exitAt
  {
    DoneExactly(d, e);
  }

  /** A trade of the stop or take-profit order at the exchange, on the side of the exit. */
  ghost predicate BringsUp(d: Desk, e: Event) {
    && !e.Forget? && !TurnedAway(d, e) && OfSide(d.od.short, false, e)
    && (d.od.slOrder == Some(e.t.order) || d.od.tpOrder == Some(e.t.order))
  }

  /** A fill dates the exit, unless it is older than the moment at which it brings the exit up. */
  function DateBroughtUp(exitAt: int, t: Trade, curMS: int): int {
    if IsFill(t) && t.time >= curMS then t.time else if exitAt == 0 then curMS else exitAt
  }

  /**
   * The trade of a stop order at the exchange brings up an exit for all that is filled of the entry; a trade of any
   * other order does not.
   */
  lemma {:induction false} ExitBroughtUp(d: Desk, e: Event)
    requires d.od.exit.None?
    ensures var r := Step(d, e).od;
      && (r.exit.Some? <==> BringsUp(d, e))
      && (r.exit.Some? && d.od.enter.filled != 0.0 ==> r.exit.value.amount == d.od.enter.filled)
      && (r.exit.Some? ==> r.exitAt == DateBroughtUp(d.od.exitAt, e.t, e.curMS))
      && (r.exit.None? ==> r.exitAt == d.od.exitAt)
  {
    DoneExactly(d, e);
  }
}
