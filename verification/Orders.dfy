/** Orders with an entry and an exit, and splitting a part off an order. */
module Orders {
  import opened Basics
  import opened Bars

  const AMT_DUST: real := 0.00000001

  /** One side of an order: how much was asked for, how much of it is filled, and the fee. */
  datatype ExOrder = ExOrder(amount: real, filled: real, fee: real, feeQuote: real)

  /** What an order is about: its entry, its exit if there is one, and the reason of the exit. */
  datatype Deal = Deal(enter: ExOrder, exit: Option<ExOrder>, exitTag: string)

  function HoldOf(d: Deal): real {
    if d.enter.filled == 0.0 then 0.0
    else if d.exit.Some? then d.enter.filled - d.exit.value.filled
    else d.enter.filled
  }

  /** The part takes its share of the amount, and fills up before the rest does; the fees are copied. */
  function PartOf(x: ExOrder, rate: real): ExOrder {
    var amount := x.amount * rate;
    var filled := if x.filled > 0.0 then MinReal(x.filled, amount) else MaxReal(0.0, x.filled - (x.amount - amount));
    x.(amount := amount, filled := filled)
  }

  function RestOf(x: ExOrder, rate: real): ExOrder {
    x.(amount := x.amount - PartOf(x, rate).amount, filled := x.filled - PartOf(x, rate).filled)
  }

  /** The share of the exit that goes with the part: as asked for, or what no longer fits the rest of the entry. */
  function ExitShare(d: Deal, restAmount: real, exitAmt: real): real
    requires d.exit.Some? ==> d.exit.value.amount != 0.0 || (exitAmt <= 0.0 && restAmount >= 0.0)
  {
    if d.exit.None? then 0.0
    else if exitAmt > 0.0 then exitAmt / d.exit.value.amount
    else if d.exit.value.amount > restAmount then (d.exit.value.amount - restAmount) / d.exit.value.amount
    else 0.0
  }

  /** An order can be cut if its entry has an amount, and its exit as well. */
  predicate CanCut(d: Deal) {
    d.enter.amount > 0.0 && (d.exit.Some? ==> d.exit.value.amount > 0.0)
  }

  function PartDeal(d: Deal, enterAmt: real, exitAmt: real): Deal
    requires CanCut(d)
  {
    var enterRate := enterAmt / d.enter.amount;
    var exitRate := ExitShare(d, RestOf(d.enter, enterRate).amount, exitAmt);
    if exitRate > 0.0 then Deal(PartOf(d.enter, enterRate), Some(PartOf(d.exit.value, exitRate)), d.exitTag)
    else Deal(PartOf(d.enter, enterRate), None, "")
  }

  function RestDeal(d: Deal, enterAmt: real, exitAmt: real): Deal
    requires CanCut(d)
  {
    var enterRate := enterAmt / d.enter.amount;
    var exitRate := ExitShare(d, RestOf(d.enter, enterRate).amount, exitAmt);
    Deal(RestOf(d.enter, enterRate), if exitRate > 0.0 then Some(RestOf(d.exit.value, exitRate)) else d.exit, d.exitTag)
  }

  /** Fills stay within amounts, and an exit within the entry. */
  ghost predicate Regular(d: Deal) {
    && CanCut(d)
    && 0.0 <= d.enter.filled <= d.enter.amount
    && (d.exit.Some? ==> 0.0 <= d.exit.value.filled <= d.exit.value.amount <= d.enter.amount)
  }

  ghost predicate AllRegular(ds: seq<Deal>) {
    forall k :: 0 <= k < |ds| ==> Regular(ds[k])
  }

  // ---------------------------------------------------------------- what a cut keeps

  lemma SideConserved(x: ExOrder, rate: real)
    ensures PartOf(x, rate).amount + RestOf(x, rate).amount == x.amount
    ensures PartOf(x, rate).filled + RestOf(x, rate).filled == x.filled
    ensures PartOf(x, rate).fee + RestOf(x, rate).fee == 2.0 * x.fee
    ensures PartOf(x, rate).feeQuote + RestOf(x, rate).feeQuote == 2.0 * x.feeQuote
  {
  }

  lemma RateTimes(part: real, whole: real)
    requires whole > 0.0
    ensures whole * (part / whole) == part
  {
  }

  function ExitFilled(d: Deal): real {
    if d.exit.Some? then d.exit.value.filled else 0.0
  }

  function ExitAmount(d: Deal): real {
    if d.exit.Some? then d.exit.value.amount else 0.0
  }

  /** A cut splits amounts and fills exactly; every fee is written on both orders. */
  lemma CutConserves(d: Deal, enterAmt: real)
    requires CanCut(d) && 0.0 <= enterAmt <= d.enter.amount
    ensures var part, rest := PartDeal(d, enterAmt, 0.0), RestDeal(d, enterAmt, 0.0);
      && part.enter.amount == enterAmt && rest.enter.amount == d.enter.amount - enterAmt
      && (d.enter.filled > 0.0 ==> part.enter.filled == MinReal(d.enter.filled, enterAmt))
      && part.enter.filled + rest.enter.filled == d.enter.filled
      && ExitFilled(part) + ExitFilled(rest) == ExitFilled(d)
      && ExitAmount(part) + ExitAmount(rest) == ExitAmount(d)
      && ExitAmount(part) == MaxReal(0.0, ExitAmount(d) - rest.enter.amount)
      && (d.exit.Some? && d.exit.value.filled >= 0.0 ==>
        ExitFilled(part) == MinReal(d.exit.value.filled, ExitAmount(part)))
      && part.enter.fee == d.enter.fee && rest.enter.fee == d.enter.fee
      && (part.exit.Some? <==> ExitAmount(d) > rest.enter.amount)
      && (rest.exit.Some? <==> d.exit.Some?)
  {
    RateTimes(enterAmt, d.enter.amount);
    SideConserved(d.enter, enterAmt / d.enter.amount);
    if d.exit.Some? {
      var x := d.exit.value;
      var over := x.amount - (d.enter.amount - enterAmt);
      RateTimes(over, x.amount);
      if over > 0.0 {
        SideConserved(x, over / x.amount);
        PositiveShare(over, x.amount);
      }
    }
  }

  lemma PositiveShare(part: real, whole: real)
    requires part > 0.0 && whole > 0.0
    ensures part / whole > 0.0
  {
  }

  // ---------------------------------------------------------------- the order object

  const EXIT_TAG_UNKNOWN := "unknown"

  function ExitSet(d: Deal, first: bool, tag: string): (e: Deal)
    ensures e.exit.Some? && e.enter == d.enter
  {
    d.(exitTag := if !first then d.exitTag else if tag == "" then EXIT_TAG_UNKNOWN else tag,
       exit := if d.exit.Some? then d.exit else Some(ExOrder(d.enter.filled, 0.0, 0.0, 0.0)))
  }

  function ExitedNow(d: Deal): Deal
    requires d.exit.Some?
  {
    d.(exit := Some(d.exit.value.(filled := d.enter.filled)))
  }

  /** A cut that names how much of the exit goes with the part; only what has an exit keeps the reason of it. */
  lemma ExitCutExactly(d: Deal, enterAmt: real, exitAmt: real)
    requires CanCut(d) && d.exit.Some? && 0.0 < exitAmt <= d.exit.value.amount
    ensures var part, rest := PartDeal(d, enterAmt, exitAmt), RestDeal(d, enterAmt, exitAmt);
      && part.exit.Some? && rest.exit.Some?
      && part.exit.value.amount == exitAmt && rest.exit.value.amount == d.exit.value.amount - exitAmt
      && part.exit.value.filled + rest.exit.value.filled == d.exit.value.filled
      && (d.exit.value.filled > 0.0 ==> part.exit.value.filled == MinReal(d.exit.value.filled, exitAmt))
      && part.exitTag == d.exitTag && rest.exitTag == d.exitTag
  {
    var x := d.exit.value;
    RateTimes(exitAmt, x.amount);
    PositiveShare(exitAmt, x.amount);
    SideConserved(x, exitAmt / x.amount);
  }

  /** A part without an exit can still be closed; the rest stays marked as it was. */
  lemma CutTags(d: Deal, enterAmt: real, exitAmt: real)
    requires CanCut(d)
    ensures var part := PartDeal(d, enterAmt, exitAmt); part.exitTag == if part.exit.Some? then d.exitTag else ""
    ensures RestDeal(d, enterAmt, exitAmt).exitTag == d.exitTag
  {
  }

  /**
   * An exit asks for all that the order holds and is marked, so that the order is not closed a second time; an exit
   * that is there stays, and so does its mark. Closing the order at once leaves it nothing.
   */
  lemma ExitCovers(d: Deal, first: bool, tag: string)
    ensures var e := ExitSet(d, first, tag);
      && (d.exit.None? ==> ExitAmount(e) == HoldOf(d) && HoldOf(e) == HoldOf(d))
      && (d.exit.Some? ==> e.exit == d.exit)
      && (first ==> e.exitTag != "" && (tag != "" ==> e.exitTag == tag))
      && (!first ==> e.exitTag == d.exitTag)
      && ExitSet(e, false, tag) == e
      && HoldOf(ExitedNow(e)) == 0.0 && ExitedNow(e).exitTag == e.exitTag && ExitAmount(ExitedNow(e)) == ExitAmount(e)
  {
  }

  class InOutOrder {
    const ws: bool
    const tfMSecs: int
    const realEnterMS: int
    var enterAt: int
    var exitAt: int
    var enter: ExOrder
    var exit: Option<ExOrder>
    var exitTag: string

    ghost function State(): Deal
      reads this
    {
      Deal(enter, exit, exitTag)
    }

    constructor (ws: bool, tfMSecs: int, realEnterMS: int, enterAt: int, exitAt: int, enter: ExOrder,
        exit: Option<ExOrder>, exitTag: string)
      ensures State() == Deal(enter, exit, exitTag)
      ensures this.enterAt == enterAt && this.exitAt == exitAt
    {
      this.ws, this.tfMSecs, this.realEnterMS, this.enterAt, this.exitAt := ws, tfMSecs, realEnterMS, enterAt, exitAt;
      this.enter, this.exit, this.exitTag := enter, exit, exitTag;
    }

    method HoldAmount() returns (amount: real)
      ensures amount == HoldOf(State())
    {
      amount := enter.filled;
      if amount == 0.0 {
        return 0.0;
      }
      if exit.Some? {
        amount := amount - exit.value.filled;
      }
    }

    /** An order can be closed once, and not before most of its first bar is over. */
    predicate CanClose(curMS: int)
      reads this
    {
      exitTag == "" && (ws || (curMS - realEnterMS) as real > tfMSecs as real * 0.9)
    }

    /** Cuts a part off; this order keeps the rest, one millisecond later so that its key is another one. */
    method CutPart(enterAmt: real, exitAmt: real) returns (part: InOutOrder)
      requires CanCut(State())
      modifies this
      ensures fresh(part)
      ensures part.State() == PartDeal(old(State()), enterAmt, exitAmt)
      ensures State() == RestDeal(old(State()), enterAmt, exitAmt)
      ensures part.enterAt == old(enterAt) && enterAt == old(enterAt) + 1 && exitAt == old(exitAt)
      ensures part.exitAt == if part.exit.Some? then exitAt else 0
    {
      var enterRate, exitRate := enterAmt / enter.amount, 0.0;
      if exit.Some? && exitAmt > 0.0 {
        exitRate := exitAmt / exit.value.amount;
      }
      var partEnter := CutSide(enter, enterRate);
      enterAt := enterAt + 1;
      enter := ExOrder(enter.amount - partEnter.amount, enter.filled - partEnter.filled, enter.fee, enter.feeQuote);
      if exitRate == 0.0 && exit.Some? && exit.value.amount > enter.amount {
        exitRate := (exit.value.amount - enter.amount) / exit.value.amount;
      }
      if exitRate > 0.0 && exit.Some? {
        var partExit := CutSide(exit.value, exitRate);
        exit := Some(ExOrder(exit.value.amount - partExit.amount, exit.value.filled - partExit.filled, exit.value.fee,
          exit.value.feeQuote));
        part := new InOutOrder(ws, tfMSecs, realEnterMS, enterAt - 1, exitAt, partEnter, Some(partExit), exitTag);
      } else {
        part := new InOutOrder(ws, tfMSecs, realEnterMS, enterAt - 1, 0, partEnter, None, "");
      }
    }

    /** Marks the order as exiting; its exit covers what its entry has filled. */
    method SetExit(curMS: int, tag: string)
      modifies this
      ensures State() == ExitSet(old(State()), old(exitAt) == 0, tag)
      ensures enterAt == old(enterAt)
    {
      if exitAt == 0 {
        exitTag := if tag == "" then EXIT_TAG_UNKNOWN else tag;
        exitAt := curMS;
      }
      if exit.None? {
        exit := Some(ExOrder(enter.filled, 0.0, 0.0, 0.0));
      }
    }

    /** Closes the order at once. */
    method LocalExit(curMS: int, tag: string)
      modifies this
      ensures State() == ExitedNow(ExitSet(old(State()), old(exitAt) == 0, tag))
      ensures HoldOf(State()) == 0.0
    {
      SetExit(curMS, tag);
      exit := Some(exit.value.(filled := enter.filled));
    }
  }

  /** An order on bars can be closed from nine tenths of its first bar on, one on trades at any time, and each once. */
  lemma ClosesExactly(od: InOutOrder, curMS: int)
    ensures od.CanClose(curMS) <==> od.exitTag == "" && (od.ws || 10 * (curMS - od.realEnterMS) > 9 * od.tfMSecs)
  {
  }

  /** The part that is cut off one side of an order. */
  method CutSide(x: ExOrder, rate: real) returns (part: ExOrder)
    ensures part == PartOf(x, rate)
  {
    var amount := x.amount * rate;
    var left := x.amount - amount;
    if x.filled > 0.0 {
      if x.filled <= amount {
        part := ExOrder(amount, x.filled, x.fee, x.feeQuote);
      } else {
        part := ExOrder(amount, amount, x.fee, x.feeQuote);
      }
    } else if x.filled > left {
      part := ExOrder(amount, x.filled - left, x.fee, x.feeQuote);
    } else {
      part := ExOrder(amount, 0.0, x.fee, x.feeQuote);
    }
  }

  ghost function Deals(ods: seq<InOutOrder>): (ds: seq<Deal>)
    reads ods
    ensures |ds| == |ods| && forall k :: 0 <= k < |ods| ==> ds[k] == ods[k].State()
  {
    seq(|ods|, k requires 0 <= k < |ods| reads ods => ods[k].State())
  }

  ghost predicate Distinct(ods: seq<InOutOrder>) {
    forall j, k :: 0 <= j < k < |ods| ==> ods[j] != ods[k]
  }
}
