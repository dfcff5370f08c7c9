/** The trades of an order as the exchange reports them, in any order and more than once. */
module TradeStream {
  import opened Bars

  datatype SideStatus = Init | PartOK | Closed

  datatype Overall = New | PartEnter | FullEnter | PartExit | FullExit

  datatype TradeState = Open | PartFilled | Filled | Ended | Unknown

  /** One side of an order at the exchange. */
  datatype Side = Side(status: SideStatus, filled: real, average: real, price: real, amount: real, fee: real,
                       orderType: string, updateAt: int)

  /** A reported trade; `key` names the trade and `order` the order at the exchange. */
  datatype Trade = Trade(key: string, order: string, time: int, state: TradeState, isSell: bool, filled: real,
                         average: real, amount: real, orderType: string, fee: Option<real>)

  /** A local order, and how often it was finished and called back. */
  datatype Live = Live(short: bool, enter: Side, exit: Option<Side>, status: Overall, exitAt: int,
                       slOrder: Option<string>, tpOrder: Option<string>, finishes: nat, callbacks: nat)

  /** The names of the order types that the exchange library uses for stop and take-profit orders. */
  datatype Types = Types(stop: string, takeProfit: string)

  /** The order with the trades and the exchange orders that are done. */
  datatype Desk = Desk(od: Live, enterKey: string, exitKey: string, types: Types, doneTrades: set<string>,
      doneKeys: set<string>)

  predicate Contains(text: string, part: string) {
    |part| <= |text| && (text[..|part|] == part || (text != "" && Contains(text[1..], part)))
  }

  /** An arriving trade of a stop or take-profit order is left to the order itself. */
  predicate Ignored(types: Types, t: Trade) {
    Contains(t.orderType, types.stop) || Contains(t.orderType, types.takeProfit)
  }

  predicate IsFill(t: Trade) {
    t.state == PartFilled || t.state == Filled
  }

  predicate IsEnter(od: Live, t: Trade) {
    od.short == t.isSell
  }

  predicate Triggered(od: Live, t: Trade) {
    od.slOrder == Some(t.order) || od.tpOrder == Some(t.order)
  }

  // ---------------------------------------------------------------- one trade

  /** A trade older than the last one, or for a closed side, is not applied. */
  predicate Skips(s: Side, t: Trade) {
    t.time < s.updateAt || s.status == Closed
  }

  function Applied(s: Side, t: Trade): Side {
    var seen := s.(updateAt := t.time, amount := if s.amount == 0.0 then t.amount else s.amount);
    if IsFill(t) then
      var part := seen.(orderType := t.orderType, filled := t.filled, average := t.average,
                        fee := if t.fee.Some? then t.fee.value else s.fee);
      if t.state == Filled then part.(status := Closed, price := t.average) else part.(status := PartOK)
    else if t.state == Ended then seen.(status := Closed)
    else seen
  }

  function StatusAfter(od: Live, enters: bool, s: Side, t: Trade): Overall {
    if t.state == Filled then (if enters then FullEnter else FullExit)
    else if t.state == Ended && enters then (if s.filled == 0.0 then FullExit else FullEnter)
    else od.status
  }

  /** The exit that a stop order at the exchange stands for is created now. */
  function WithExit(od: Live, curMS: int): Live {
    od.(exit := Some(Side(Init, 0.0, 0.0, 0.0, od.enter.filled, 0.0, "", curMS)),
        exitAt := if od.exitAt == 0 then curMS else od.exitAt)
  }

  /** Orders without an id at the exchange leave no trace. */
  function WithKey(keys: set<string>, key: string): set<string> {
    if key != "" then keys + {key} else keys
  }

  function Finished(d: Desk): Desk {
    var entered := WithKey(d.doneKeys, d.enterKey);
    d.(od := d.od.(finishes := d.od.finishes + 1, callbacks := d.od.callbacks + 1,
                   slOrder := if d.od.slOrder.Some? then Some("") else None,
                   tpOrder := if d.od.tpOrder.Some? then Some("") else None),
       doneKeys := if d.od.exit.Some? then WithKey(entered, d.exitKey) else entered)
  }

  /** The trade is applied to its side, and the order is finished once it has left completely. */
  function UpdatedSide(d: Desk, enters: bool, s: Side, t: Trade): Desk {
    if Skips(s, t) then d
    else
      var u := Applied(s, t);
      var od := d.od.(status := StatusAfter(d.od, enters, s, t),
                      exitAt := if !enters && IsFill(t) && s.filled == 0.0 then t.time else d.od.exitAt);
      var e := d.(od := if enters then od.(enter := u) else od.(exit := Some(u)));
      if e.od.status == FullExit then Finished(e) else e
  }

  function Updated(d: Desk, t: Trade, curMS: int): Desk {
    if t.state == Open then d
    else
      var e := d.(doneTrades := d.doneTrades + {t.key});
      if IsEnter(d.od, t) then UpdatedSide(e, true, d.od.enter, t)
      else if d.od.exit.Some? then UpdatedSide(e, false, d.od.exit.value, t)
      else if Triggered(d.od, t) then
        var f := e.(od := WithExit(d.od, curMS));
        UpdatedSide(f, false, f.od.exit.value, t)
      else e
  }

  function Handled(d: Desk, t: Trade, curMS: int): Desk {
    if t.key in d.doneTrades || t.order in d.doneKeys || Ignored(d.types, t) then d else Updated(d, t, curMS)
  }

  /** Trades that were waiting for the order are applied if they are not too old. */
  function ConsumedOne(d: Desk, t: Trade, curMS: int): Desk {
    var s := if IsEnter(d.od, t) then Some(d.od.enter) else d.od.exit;
    if t.key in d.doneTrades || (s.Some? && t.time < s.value.updateAt) || t.order in d.doneKeys then d
    else Updated(d, t, curMS)
  }

  /** Trades that waited too long are applied once more, even if they are done. */
  function Retried(d: Desk, t: Trade, curMS: int): Desk {
    if t.order in d.doneKeys then d else Updated(d, t, curMS)
  }

  // ---------------------------------------------------------------- the handler

  /** The side of an order after a trade that is not skipped. */
  method ApplyTrade(s: Side, t: Trade) returns (sub: Side)
    ensures sub == Applied(s, t)
  {
    sub := s.(updateAt := t.time);
    if sub.amount == 0.0 {
      sub := sub.(amount := t.amount);
    }
    if t.state == Filled || t.state == PartFilled {
      sub := sub.(orderType := t.orderType, filled := t.filled, average := t.average, status := PartOK);
      if t.state == Filled {
        sub := sub.(status := Closed, price := t.average);
      }
      if t.fee.Some? {
        sub := sub.(fee := t.fee.value);
      }
    } else if t.state == Ended {
      sub := sub.(status := Closed);
    }
  }

  class LiveOrder {
    const short: bool
    const enterKey: string
    const exitKey: string
    const types: Types
    var enter: Side
    var exit: Option<Side>
    var status: Overall
    var exitAt: int
    var slOrder: Option<string>
    var tpOrder: Option<string>
    var doneTrades: set<string>
    var doneKeys: set<string>
    ghost var finishes: nat
    ghost var callbacks: nat

    ghost function State(): Desk
      reads this
    {
      Desk(Live(short, enter, exit, status, exitAt, slOrder, tpOrder, finishes, callbacks),
           enterKey, exitKey, types, doneTrades, doneKeys)
    }

    constructor (short: bool, enterKey: string, exitKey: string, types: Types, enter: Side, exit: Option<Side>,
        status: Overall, slOrder: Option<string>, tpOrder: Option<string>)
      ensures State() ==
        Desk(Live(short, enter, exit, status, 0, slOrder, tpOrder, 0, 0), enterKey, exitKey, types, {}, {})
    {
      this.short, this.enterKey, this.exitKey, this.types := short, enterKey, exitKey, types;
      this.enter, this.exit, this.status, this.exitAt := enter, exit, status, 0;
      this.slOrder, this.tpOrder := slOrder, tpOrder;
      doneTrades, doneKeys, finishes, callbacks := {}, {}, 0, 0;
    }

    method Finish()
      modifies this
      ensures State() == Finished(old(State()))
    {
      doneKeys := WithKey(doneKeys, enterKey);
      if exit.Some? {
        doneKeys := WithKey(doneKeys, exitKey);
      }
      finishes := finishes + 1;
      if slOrder.Some? {
        slOrder := Some("");
      }
      if tpOrder.Some? {
        tpOrder := Some("");
      }
      callbacks := callbacks + 1;
    }

    method UpdateByMyTrade(t: Trade, curMS: int)
      modifies this
      ensures State() == Updated(old(State()), t, curMS)
    {
      if t.state == Open {
        return;
      }
      doneTrades := doneTrades + {t.key};
      var isEnter := short == t.isSell;
      var sub;
      if isEnter {
        sub := enter;
      } else {
        if exit.None? {
          if !(slOrder == Some(t.order) || tpOrder == Some(t.order)) {
            return;
          }
          if exitAt == 0 {
            exitAt := curMS;
          }
          exit := Some(Side(Init, 0.0, 0.0, 0.0, enter.filled, 0.0, "", curMS));
        }
        sub := exit.value;
      }
      UpdateSide(isEnter, sub, t);
    }

    method UpdateSide(isEnter: bool, s: Side, t: Trade)
      requires if isEnter then enter == s else exit == Some(s)
      modifies this
      ensures State() == UpdatedSide(old(State()), isEnter, s, t)
    {
      if t.time < s.updateAt || s.status == Closed {
        return;
      }
      var sub := ApplyTrade(s, t);
      if (t.state == Filled || t.state == PartFilled) && s.filled == 0.0 && !isEnter {
        exitAt := t.time;
      }
      if t.state == Filled {
        status := if isEnter then FullEnter else FullExit;
      } else if t.state == Ended && isEnter {
        status := if sub.filled == 0.0 then FullExit else FullEnter;
      }
      if isEnter {
        enter := sub;
      } else {
        exit := Some(sub);
      }
      if status == FullExit {
        Finish();
      }
    }

    method HandleMyTrade(t: Trade, curMS: int)
      modifies this
      ensures State() == Handled(old(State()), t, curMS)
    {
      if t.key in doneTrades || t.order in doneKeys {
        return;
      }
      if Contains(t.orderType, types.stop) || Contains(t.orderType, types.takeProfit) {
        return;
      }
      UpdateByMyTrade(t, curMS);
    }
  }
}
