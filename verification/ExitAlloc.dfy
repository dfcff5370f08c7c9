/** Taking an amount out of a list of open orders. */
module ExitAlloc {
  import opened Basics
  import opened Bars
  import opened Orders

  /**
   * A request to exit; `exitRate` is rewritten when an order is cut for it. It is none when it is not a number, as zero
   * divided by zero, which no comparison holds of.
   */
  class ExitReq {
    const tag: string
    const force: bool
    const filledOnly: bool
    const amount: real
    var exitRate: Option<real>

    constructor (tag: string, force: bool, filledOnly: bool, amount: real, exitRate: Option<real>)
      ensures this.tag == tag && this.force == force && this.filledOnly == filledOnly && this.amount == amount
      ensures this.exitRate == exitRate
    {
      this.tag, this.force, this.filledOnly, this.amount, this.exitRate := tag, force, filledOnly, amount, exitRate;
    }
  }

  // ---------------------------------------------------------------- what one order gives

  /** What can be taken out of an order at most. */
  function Capacity(d: Deal, filledOnly: bool): real {
    if filledOnly && d.enter.filled < d.enter.amount then d.enter.filled else d.enter.amount
  }

  /** Only the filled part of an order may leave, and that is not all of it. */
  predicate FilledPart(d: Deal, filledOnly: bool) {
    filledOnly && d.enter.filled < d.enter.amount
  }

  /** An order gives what is asked for; from 99% of its amount on, or when that is no number, it gives all of it. */
  function Gives(d: Deal, left: Option<real>, filledOnly: bool): real {
    if left.None? then d.enter.amount
    else if FilledPart(d, filledOnly) then MinReal(left.value, d.enter.filled)
    else if left.value < 0.99 * d.enter.amount then left.value
    else d.enter.amount
  }

  /** What is left; an order without an amount makes it no number if nothing was left. */
  function Remains(d: Deal, left: Option<real>, filledOnly: bool): Option<real> {
    if left.None? || (left.value == 0.0 && d.enter.amount == 0.0) then None
    else Some(MaxReal(0.0, left.value - Gives(d, left, filledOnly)))
  }

  /** What orders gave so far, what is left of the request, and whether that is too little to go on. */
  datatype Alloc = Alloc(exited: real, left: Option<real>, done: bool)

  predicate Below(left: Option<real>, bound: real) {
    left.Some? && left.value < bound
  }

  function Allocate(ds: seq<Deal>, can: seq<bool>, request: real, filledOnly: bool, n: nat): Alloc
    requires n <= |ds| == |can|
  {
    if n == 0 then Alloc(0.0, Some(request), false)
    else
      var a := Allocate(ds, can, request, filledOnly, n - 1);
      var d := ds[n - 1];
      if a.done || !can[n - 1] then a
      else if Below(a.left, d.enter.amount * 0.01) then a.(done := true)
      else Alloc(a.exited + Gives(d, a.left, filledOnly), Remains(d, a.left, filledOnly), false)
  }

  /** The amounts of part and rest, and a part that can itself be cut. */
  lemma CutAmounts(d: Deal, enterAmt: real, part: Deal, rest: Deal)
    requires CanCut(d) && 0.0 <= enterAmt <= d.enter.amount
    requires part == PartDeal(d, enterAmt, 0.0) && rest == RestDeal(d, enterAmt, 0.0)
    ensures part.enter.amount == enterAmt && rest.enter.amount == d.enter.amount - enterAmt
    ensures enterAmt > 0.0 ==> CanCut(part)
    ensures 0.0 < enterAmt <= d.enter.filled ==> part.enter.filled == enterAmt
  {
    CutConserves(d, enterAmt);
  }

  function Times(amount: real, rate: real): real {
    amount * rate
  }

  /** A proper share of an order is cut off. */
  method CutShare(od: InOutOrder, rate: real) returns (piece: InOutOrder)
    requires CanCut(od.State()) && 0.0 < rate < 1.0
    modifies od
    ensures fresh(piece) && CanCut(piece.State()) && piece.enter.amount == old(Times(od.enter.amount, rate))
    ensures piece.State() == PartDeal(old(od.State()), old(Times(od.enter.amount, rate)), 0.0)
    ensures od.State() == RestDeal(old(od.State()), old(Times(od.enter.amount, rate)), 0.0)
    ensures od.enter.amount == old(od.enter.amount) - piece.enter.amount
    ensures piece.exitAt == if piece.exit.Some? then old(od.exitAt) else 0
  {
    ghost var d := od.State();
    var enterAmt := od.enter.amount * rate;
    ProperShare(od.enter.amount, rate, enterAmt);
    piece := od.CutPart(enterAmt, 0.0);
    CutAmounts(d, enterAmt, piece.State(), od.State());
  }

  /** A rate at which a part of an order exits, and not all of it. */
  predicate IsPart(rate: Option<real>) {
    rate.Some? && 0.0 < rate.value < 0.99
  }

  /** What a rate takes out of an order. */
  function Taken(amount: real, rate: Option<real>): real {
    if IsPart(rate) then Times(amount, rate.value) else amount
  }

  /** The rate at which the order is asked for in the end. */
  function Asked(rate: Option<real>): Option<real> {
    if IsPart(rate) then Some(1.0) else rate
  }

  /** Exits an order, or a part of it that is cut off first; the request then asks for all of the part. */
  method ExitOrder(od: InOutOrder, req: ExitReq, curMS: int) returns (part: InOutOrder)
    requires IsPart(req.exitRate) ==> CanCut(od.State())
    modifies od, req
    ensures part == od || fresh(part)
    ensures part.exit.Some?
    ensures od.enter.amount == old(od.enter.amount) - if part == od then 0.0 else part.enter.amount
    ensures part.enter.amount == old(Taken(od.enter.amount, req.exitRate)) && req.exitRate == old(Asked(req.exitRate))
    ensures old(IsPart(req.exitRate)) ==>
      && part != od
      && (var piece := PartDeal(old(od.State()), old(Times(od.enter.amount, req.exitRate.value)), 0.0);
          part.State() == ExitSet(piece, piece.exit.None? || old(od.exitAt) == 0, req.tag))
      && od.State() == RestDeal(old(od.State()), old(Times(od.enter.amount, req.exitRate.value)), 0.0)
    ensures !old(IsPart(req.exitRate)) ==>
      part == od && od.State() == ExitSet(old(od.State()), old(od.exitAt) == 0, req.tag)
    decreases if IsPart(req.exitRate) then 1 else 0
  {
    hide PartDeal, RestDeal, Times;
    if IsPart(req.exitRate) {
      var piece := CutShare(od, req.exitRate.value);
      req.exitRate := Some(1.0);
      part := ExitOrder(piece, req, curMS);
    } else {
      od.SetExit(curMS, req.tag);
      part := od;
    }
  }

  // ---------------------------------------------------------------- one order of the list

  lemma LeftShare(left: real, amount: real)
    requires amount > 0.0
    ensures left < 0.99 * amount <==> left / amount < 0.99
    ensures left > 0.0 <==> left / amount > 0.0
    ensures left < amount <==> left / amount < 1.0
    ensures amount * (left / amount) == left
  {
    var r := left / amount;
    assert r * amount == left;
    LessTimes(r, 0.99, amount);
    LessTimes(r, 1.0, amount);
    LessTimes(0.0, r, amount);
  }

  lemma LessTimes(r: real, s: real, amount: real)
    requires amount > 0.0
    ensures r < s <==> r * amount < s * amount
  {
    if r < s {
      assert (s - r) * amount > 0.0;
    } else {
      assert (r - s) * amount >= 0.0;
    }
  }

  /** The smaller one of 1 and the quotient, which is no number for zero by zero and exceeds 1 for more by zero. */
  function RateOf(left: Option<real>, amount: real): Option<real>
    requires left.Some? ==> left.value >= 0.0
  {
    if left.None? || (left.value == 0.0 && amount == 0.0) then None
    else if amount == 0.0 then Some(1.0)
    else Some(MinReal(1.0, left.value / amount))
  }

  function LeftAfter(left: Option<real>, amount: real, rate: Option<real>): Option<real> {
    if left.None? || rate.None? then None else Some(left.value - Times(amount, rate.value))
  }

  /** An order that can be cut, or has no amount yet. */
  predicate CanExit(d: Deal) {
    d.enter.amount == 0.0 || CanCut(d)
  }

  lemma ShareGives(left: real, amount: real)
    requires amount > 0.0 && left >= amount * 0.01
    ensures var rate := RateOf(Some(left), amount);
      && rate.Some? && (IsPart(rate) <==> left < 0.99 * amount)
      && Times(amount, rate.value) == MinReal(left, amount)
  {
    LeftShare(left, amount);
  }

  lemma ShareTaken(d: Deal, left: real, filledOnly: bool, rate: Option<real>)
    requires d.enter.amount > 0.0 && left >= d.enter.amount * 0.01 && !FilledPart(d, filledOnly)
    requires rate.Some? && (IsPart(rate) <==> left < 0.99 * d.enter.amount)
    requires Times(d.enter.amount, rate.value) == MinReal(left, d.enter.amount)
    ensures Taken(d.enter.amount, rate) == Gives(d, Some(left), filledOnly)
    ensures LeftAfter(Some(left), Taken(d.enter.amount, rate), Asked(rate)) == Remains(d, Some(left), filledOnly)
  {
  }

  lemma NoShare(d: Deal, left: Option<real>, filledOnly: bool)
    requires d.enter.amount >= 0.0 && !Below(left, d.enter.amount * 0.01) && !FilledPart(d, filledOnly)
    requires d.enter.amount == 0.0 || left.None?
    ensures var rate := RateOf(left, d.enter.amount);
      && !IsPart(rate) && Taken(d.enter.amount, rate) == Gives(d, left, filledOnly)
      && LeftAfter(left, Taken(d.enter.amount, rate), Asked(rate)) == Remains(d, left, filledOnly)
  {
  }

  /** What is taken of an order, and what that leaves. */
  lemma RateGives(d: Deal, left: Option<real>, filledOnly: bool)
    requires d.enter.amount >= 0.0 && !Below(left, d.enter.amount * 0.01) && !FilledPart(d, filledOnly)
    ensures var rate := RateOf(left, d.enter.amount);
      && (IsPart(rate) ==> d.enter.amount > 0.0)
      && Taken(d.enter.amount, rate) == Gives(d, left, filledOnly)
      && LeftAfter(left, Taken(d.enter.amount, rate), Asked(rate)) == Remains(d, left, filledOnly)
  {
    hide RateOf, Taken, LeftAfter;
    if d.enter.amount > 0.0 && left.Some? {
      var rate := RateOf(left, d.enter.amount);
      ShareGives(left.value, d.enter.amount);
      ShareTaken(d, left.value, filledOnly, rate);
    } else {
      NoShare(d, left, filledOnly);
    }
  }

  /** Takes what an order gives, and subtracts from the request what the order was asked for. */
  method TakeFrom(od: InOutOrder, req: ExitReq, left: Option<real>, curMS: int)
    returns (part: InOutOrder, remains: Option<real>)
    requires CanExit(od.State()) && !Below(left, od.enter.amount * 0.01)
    requires !FilledPart(od.State(), req.filledOnly)
    modifies od
    ensures part == od || fresh(part)
    ensures part.exit.Some?
    ensures part.enter.amount == Gives(old(od.State()), left, req.filledOnly)
    ensures remains == Remains(old(od.State()), left, req.filledOnly)
    ensures od.enter.amount == old(od.enter.amount) - if part == od then 0.0 else part.enter.amount
  {
    var q := new ExitReq(req.tag, req.force, req.filledOnly, req.amount, RateOf(left, od.enter.amount));
    RateGives(od.State(), left, req.filledOnly);
    part := ExitOrder(od, q, curMS);
    remains := LeftAfter(left, part.enter.amount, q.exitRate);
  }

  // ---------------------------------------------------------------- the list of orders

  ghost function Closable(ods: seq<InOutOrder>, force: bool, curMS: int): (can: seq<bool>)
    reads ods
    ensures |can| == |ods| && forall k :: 0 <= k < |ods| ==> can[k] == (force || ods[k].CanClose(curMS))
  {
    seq(|ods|, k requires 0 <= k < |ods| reads ods => force || ods[k].CanClose(curMS))
  }

  /** One order of the list, whose part filled so far comes first when only filled amounts may be taken. */
  method TakeMatched(od: InOutOrder, req: ExitReq, left: Option<real>, curMS: int)
    returns (part: InOutOrder, remains: Option<real>)
    requires CanExit(od.State()) && !Below(left, od.enter.amount * 0.01)
    requires req.filledOnly ==> 0.0 <= od.enter.filled <= od.enter.amount && left.Some?
    modifies od
    ensures part == od || fresh(part)
    ensures part.exit.Some?
    ensures part.enter.amount == Gives(old(od.State()), left, req.filledOnly)
    ensures remains == Remains(old(od.State()), left, req.filledOnly)
    ensures od.enter.amount == old(od.enter.amount) - if part == od then 0.0 else part.enter.amount
  {
    if req.filledOnly && od.enter.filled < od.enter.amount {
      var cutAmt := MinReal(left.value, od.enter.filled);
      ghost var d := od.State();
      var piece := od.CutPart(cutAmt, 0.0);
      CutAmounts(d, cutAmt, piece.State(), od.State());
      part, remains := TakeFrom(piece, req, left, curMS);
    } else {
      part, remains := TakeFrom(od, req, left, curMS);
    }
  }

  /** With `filledOnly` something is filled of each order that is selected; one order alone can be named by its id. */
  ghost predicate Matched(ds: seq<Deal>, filledOnly: bool) {
    forall k :: 0 <= k < |ds| ==>
      && CanExit(ds[k])
      && (filledOnly ==> 0.0 <= ds[k].enter.filled <= ds[k].enter.amount && (0.0 < ds[k].enter.filled || |ds| == 1))
  }

  /**
   * What order `k` of the list gives: nothing if it cannot be closed, or if too little of the request is left by
   * then.
   */
  function GivesAt(ds: seq<Deal>, can: seq<bool>, request: real, filledOnly: bool, k: nat): Option<real>
    requires k < |ds| == |can|
  {
    var a := Allocate(ds, can, request, filledOnly, k);
    if a.done || !can[k] || Below(a.left, ds[k].enter.amount * 0.01) then None
    else Some(Gives(ds[k], a.left, filledOnly))
  }

  /** What the first `n` orders give, one after the other. */
  function GivenBy(ds: seq<Deal>, can: seq<bool>, request: real, filledOnly: bool, n: nat): seq<real>
    requires n <= |ds| == |can|
  {
    if n == 0 then []
    else
      var before := GivenBy(ds, can, request, filledOnly, n - 1);
      match GivesAt(ds, can, request, filledOnly, n - 1)
      case None => before
      case Some(x) => before + [x]
  }

  /** An order that gives nothing stays as it was; another one loses what it gives, or exits whole with it. */
  ghost predicate LeftOf(now: Deal, was: Deal, given: Option<real>) {
    match given
    case None => now == was
    case Some(x) =>
      || now.enter.amount == was.enter.amount - x
      || (now.enter.amount == was.enter.amount == x && now.exit.Some?)
  }

  /** That is how the first `n` orders are left. */
  ghost predicate AllLeft(ods: seq<InOutOrder>, ds: seq<Deal>, can: seq<bool>, request: real, filledOnly: bool, n: nat)
    requires n <= |ods| == |ds| == |can|
    reads ods
  {
    forall k :: 0 <= k < n ==> LeftOf(ods[k].State(), ds[k], GivesAt(ds, can, request, filledOnly, k))
  }

  lemma {:induction false} NoMore(ds: seq<Deal>, can: seq<bool>, request: real, filledOnly: bool, m: nat, n: nat)
    requires m <= n <= |ds| == |can| && Allocate(ds, can, request, filledOnly, m).done
    ensures GivenBy(ds, can, request, filledOnly, n) == GivenBy(ds, can, request, filledOnly, m)
    ensures forall k :: m <= k < n ==> GivesAt(ds, can, request, filledOnly, k).None?
    decreases n
  {
    if m < n {
      NoMore(ds, can, request, filledOnly, m, n - 1);
      StaysDone(ds, can, request, filledOnly, m, n - 1);
    }
  }

  /** What one order more gives is exited. */
  lemma ExitedMore(ds: seq<Deal>, can: seq<bool>, request: real, filledOnly: bool, n: nat)
    requires n < |ds| == |can|
    ensures var given := GivesAt(ds, can, request, filledOnly, n);
      && GivenBy(ds, can, request, filledOnly, n + 1)
        == GivenBy(ds, can, request, filledOnly, n) + (if given.Some? then [given.value] else [])
      && Allocate(ds, can, request, filledOnly, n + 1).exited
        == Allocate(ds, can, request, filledOnly, n).exited + (if given.Some? then given.value else 0.0)
  {
    hide Gives, Remains, Below;
  }

  /** The amounts given add up to what is exited. */
  lemma {:induction false} GivenSum(ds: seq<Deal>, can: seq<bool>, request: real, filledOnly: bool, n: nat)
    requires n <= |ds| == |can|
    ensures SumReals(GivenBy(ds, can, request, filledOnly, n)) == Allocate(ds, can, request, filledOnly, n).exited
  {
    if n > 0 {
      hide Allocate, GivesAt, GivenBy, SumReals;
      GivenSum(ds, can, request, filledOnly, n - 1);
      ExitedMore(ds, can, request, filledOnly, n - 1);
      var given := GivesAt(ds, can, request, filledOnly, n - 1);
      if given.Some? {
        SumAppend(GivenBy(ds, can, request, filledOnly, n - 1), given.value);
      }
    }
  }

  /** The loop has come to order `i`, with `left` of the request. */
  ghost predicate Halfway(ods: seq<InOutOrder>, result: seq<InOutOrder>, gives: seq<real>, ds: seq<Deal>,
      can: seq<bool>, request: real, filledOnly: bool, left: Option<real>, i: nat)
    reads ods, result
  {
    && i <= |ods| == |ds| == |can|
    && (forall k :: i <= k < |ods| ==> ods[k].State() == ds[k])
    && |gives| == |result|
    && (forall k :: 0 <= k < |result| ==> result[k].exit.Some? && result[k].enter.amount == gives[k])
    && (forall k, j :: 0 <= k < |result| && i <= j < |ods| ==> result[k] != ods[j])
    && AllLeft(ods, ds, can, request, filledOnly, i)
    && gives == GivenBy(ds, can, request, filledOnly, i)
    && Allocate(ds, can, request, filledOnly, i).left == left && !Allocate(ds, can, request, filledOnly, i).done
  }

  lemma SkipOne(ods: seq<InOutOrder>, result: seq<InOutOrder>, gives: seq<real>, ds: seq<Deal>, can: seq<bool>,
      request: real, filledOnly: bool, left: Option<real>, i: nat)
    requires Halfway(ods, result, gives, ds, can, request, filledOnly, left, i) && i < |ods| && !can[i]
    ensures Halfway(ods, result, gives, ds, can, request, filledOnly, left, i + 1)
  {
    hide Gives, Remains, Below, Allocate, GivesAt, GivenBy;
    AllocateSame(ds, can, request, filledOnly, i);
  }

  /** The loop ends at an order for which too little is left. */
  lemma StopAt(ods: seq<InOutOrder>, result: seq<InOutOrder>, gives: seq<real>, ds: seq<Deal>, can: seq<bool>,
      request: real, filledOnly: bool, left: Option<real>, i: nat)
    requires Halfway(ods, result, gives, ds, can, request, filledOnly, left, i) && i < |ods| && can[i]
    requires Below(left, ds[i].enter.amount * 0.01)
    ensures gives == GivenBy(ds, can, request, filledOnly, |ds|)
    ensures AllLeft(ods, ds, can, request, filledOnly, |ds|)
  {
    hide Gives, Remains, Below, Allocate, GivesAt, GivenBy;
    AllocateSame(ds, can, request, filledOnly, i);
    NoMore(ds, can, request, filledOnly, i + 1, |ds|);
  }

  /** An order that cannot be closed, or for which too little is left, gives nothing. */
  lemma AllocateSame(ds: seq<Deal>, can: seq<bool>, request: real, filledOnly: bool, i: nat)
    requires i < |ds| == |can| && !Allocate(ds, can, request, filledOnly, i).done
    ensures var a, b := Allocate(ds, can, request, filledOnly, i), Allocate(ds, can, request, filledOnly, i + 1);
      !can[i] || Below(a.left, ds[i].enter.amount * 0.01) ==>
        && b.left == a.left && b.done == can[i]
        && GivesAt(ds, can, request, filledOnly, i).None?
        && GivenBy(ds, can, request, filledOnly, i + 1) == GivenBy(ds, can, request, filledOnly, i)
  {
    hide Gives, Remains, Below;
  }

  lemma AllocateMore(ds: seq<Deal>, can: seq<bool>, request: real, filledOnly: bool, i: nat)
    requires i < |ds| == |can| && can[i] && !Allocate(ds, can, request, filledOnly, i).done
    ensures var left := Allocate(ds, can, request, filledOnly, i).left;
      !Below(left, ds[i].enter.amount * 0.01) ==>
        && Allocate(ds, can, request, filledOnly, i + 1).left == Remains(ds[i], left, filledOnly)
        && !Allocate(ds, can, request, filledOnly, i + 1).done
        && GivesAt(ds, can, request, filledOnly, i) == Some(Gives(ds[i], left, filledOnly))
        && GivenBy(ds, can, request, filledOnly, i + 1)
          == GivenBy(ds, can, request, filledOnly, i) + [Gives(ds[i], left, filledOnly)]
  {
    hide Gives, Remains, Below;
  }

  /** Takes from one order what it gives. */
  method ExitNext(ods: seq<InOutOrder>, i: nat, req: ExitReq, left: Option<real>, curMS: int,
      ghost result: seq<InOutOrder>, ghost gives: seq<real>, ghost ds: seq<Deal>, ghost can: seq<bool>,
      ghost request: real) returns (part: InOutOrder, remains: Option<real>)
    requires Halfway(ods, result, gives, ds, can, request, req.filledOnly, left, i) && i < |ods| && can[i]
    requires Distinct(ods) && Matched(ds, req.filledOnly) && (req.filledOnly ==> left.Some?)
    requires !Below(left, ds[i].enter.amount * 0.01)
    modifies ods[i]
    ensures Halfway(ods, result + [part], gives + [part.enter.amount], ds, can, request, req.filledOnly, remains, i + 1)
    ensures remains == Remains(ds[i], left, req.filledOnly)
  {
    hide Gives, Remains, Below, Allocate, GivesAt, GivenBy;
    part, remains := TakeMatched(ods[i], req, left, curMS);
    AllocateMore(ds, can, request, req.filledOnly, i);
  }

  /** Takes the requested amount out of the orders, one after the other. */
  method ExitOrders(matches: seq<InOutOrder>, req: ExitReq, request: real, curMS: int, ghost ds: seq<Deal>,
      ghost can: seq<bool>)
      returns (result: seq<InOutOrder>, ghost gives: seq<real>)
    requires Distinct(matches) && Matched(ds, req.filledOnly)
    requires Halfway(matches, [], [], ds, can, request, req.filledOnly, Some(request), 0)
    requires forall k :: 0 <= k < |matches| ==> can[k] == (req.force || matches[k].CanClose(curMS))
    modifies matches
    ensures |gives| == |result| && (forall k :: 0 <= k < |result| ==>
      result[k].exit.Some? && result[k].enter.amount == gives[k])
    ensures gives == GivenBy(ds, can, request, req.filledOnly, |ds|)
    ensures AllLeft(matches, ds, can, request, req.filledOnly, |ds|)
  {
    hide Gives, Below, Allocate, GivesAt, GivenBy;
    var exitAmount := Some(request);
    result, gives := [], [];
    for i := 0 to |matches|
      invariant Halfway(matches, result, gives, ds, can, request, req.filledOnly, exitAmount, i)
      invariant req.filledOnly && i < |matches| ==> exitAmount.Some?
    {
      var od := matches[i];
      assert can[i] == (req.force || od.CanClose(curMS));
      if req.force || od.CanClose(curMS) {
        var dust := od.enter.amount * 0.01;
        if Below(exitAmount, dust) {
          StopAt(matches, result, gives, ds, can, request, req.filledOnly, exitAmount, i);
          return;
        }
        var part, remains := ExitNext(matches, i, req, exitAmount, curMS, result, gives, ds, can, request);
        exitAmount, result, gives := remains, result + [part], gives + [part.enter.amount];
      } else {
        SkipOne(matches, result, gives, ds, can, request, req.filledOnly, exitAmount, i);
      }
    }
  }

  lemma {:induction false} StaysDone(ds: seq<Deal>, can: seq<bool>, request: real, filledOnly: bool, m: nat, n: nat)
    requires m <= n <= |ds| == |can| && Allocate(ds, can, request, filledOnly, m).done
    ensures Allocate(ds, can, request, filledOnly, n) == Allocate(ds, can, request, filledOnly, m)
    decreases n
  {
    if m < n {
      StaysDone(ds, can, request, filledOnly, m, n - 1);
    }
  }

  // ---------------------------------------------------------------- how much is asked for

  function TotalAmount(ds: seq<Deal>, n: nat): real
    requires n <= |ds|
  {
    if n == 0 then 0.0 else TotalAmount(ds, n - 1) + ds[n - 1].enter.amount - ExitAmount(ds[n - 1])
  }

  /** A proper rate counts more than an amount; without either everything is asked for. */
  function RequestOf(ds: seq<Deal>, exitRate: Option<real>, amount: real): real {
    if exitRate.Some? && 0.0 < exitRate.value < 1.0 then TotalAmount(ds, |ds|) * exitRate.value
    else if amount <= 0.0 then TotalAmount(ds, |ds|)
    else amount
  }

  method Requested(matches: seq<InOutOrder>, req: ExitReq) returns (exitAmount: real)
    ensures exitAmount == RequestOf(Deals(matches), req.exitRate, req.amount)
  {
    var useRate := req.exitRate.Some? && 0.0 < req.exitRate.value < 1.0;
    if useRate || req.amount <= 0.0 {
      var allAmount := 0.0;
      for k := 0 to |matches|
        invariant allAmount == TotalAmount(Deals(matches), k)
      {
        allAmount := allAmount + matches[k].enter.amount;
        if matches[k].exit.Some? {
          allAmount := allAmount - matches[k].exit.value.amount;
        }
      }
      exitAmount := allAmount;
      if useRate {
        exitAmount := allAmount * req.exitRate.value;
      }
    } else {
      exitAmount := req.amount;
    }
  }

  /** Exits what the request asks for out of the orders that match it. */
  method ExitOpenOrders(matches: seq<InOutOrder>, req: ExitReq, curMS: int)
      returns (result: seq<InOutOrder>, ghost gives: seq<real>)
    requires Distinct(matches) && Matched(Deals(matches), req.filledOnly)
    modifies matches
    ensures |gives| == |result| && (forall k :: 0 <= k < |result| ==>
      result[k].exit.Some? && result[k].enter.amount == gives[k])
    ensures var ds := old(Deals(matches));
      var can, request := old(Closable(matches, req.force, curMS)), RequestOf(ds, old(req.exitRate), req.amount);
      && gives == GivenBy(ds, can, request, req.filledOnly, |ds|)
      && AllLeft(matches, ds, can, request, req.filledOnly, |ds|)
      && SumReals(gives) == Allocate(ds, can, request, req.filledOnly, |ds|).exited
  {
    var exitAmount := Requested(matches, req);
    ghost var ds, can := Deals(matches), Closable(matches, req.force, curMS);
    result, gives := ExitOrders(matches, req, exitAmount, curMS, ds, can);
    GivenSum(ds, can, exitAmount, req.filledOnly, |ds|);
  }

  // ---------------------------------------------------------------- how much is exited

  function TotalCapacity(ds: seq<Deal>, can: seq<bool>, filledOnly: bool, n: nat): real
    requires n <= |ds| == |can|
  {
    if n == 0 then 0.0
    else TotalCapacity(ds, can, filledOnly, n - 1) + if can[n - 1] then Capacity(ds[n - 1], filledOnly) else 0.0
  }

  ghost predicate NonNegative(ds: seq<Deal>) {
    forall k :: 0 <= k < |ds| ==> ds[k].enter.amount >= 0.0 && ds[k].enter.filled >= 0.0
  }

  /** The amount is within 1% of the amount of some order. */
  ghost predicate WithinOne(ds: seq<Deal>, amount: real) {
    amount == 0.0 || exists k :: 0 <= k < |ds| && -0.01 * ds[k].enter.amount <= amount <= 0.01 * ds[k].enter.amount
  }

  /** As long as something is left, every order has given all it can. */
  ghost predicate OnTrack(a: Alloc, ds: seq<Deal>, request: real, total: real)
    requires a.left.Some?
  {
    && a.left.value >= 0.0 && a.exited <= total
    && (a.left.value > 0.0 ==> a.exited + a.left.value == request)
    && (a.left.value > 0.0 && !a.done ==> a.exited == total)
    && (a.left.value == 0.0 ==> request <= a.exited && WithinOne(ds, a.exited - request))
    && (a.done ==> WithinOne(ds, a.left.value))
  }

  lemma OneMore(ds: seq<Deal>, a: Alloc, request: real, filledOnly: bool, total: real, k: nat)
    requires NonNegative(ds) && k < |ds| && a.left.Some? && OnTrack(a, ds, request, total) && !a.done
      && a.left.value >= ds[k].enter.amount * 0.01 && Remains(ds[k], a.left, filledOnly).Some?
    ensures OnTrack(Alloc(a.exited + Gives(ds[k], a.left, filledOnly), Remains(ds[k], a.left, filledOnly), false), ds,
                    request, total + Capacity(ds[k], filledOnly))
  {
    var left, gives := a.left.value, Gives(ds[k], a.left, filledOnly);
    assert 0.0 <= a.exited + gives - request <= 0.01 * ds[k].enter.amount || left - gives > 0.0;
  }

  lemma {:induction false} AllocateOnTrack(ds: seq<Deal>, can: seq<bool>, request: real, filledOnly: bool, n: nat)
    requires n <= |ds| == |can| && NonNegative(ds) && request >= 0.0
    requires Allocate(ds, can, request, filledOnly, n).left.Some?
    ensures OnTrack(Allocate(ds, can, request, filledOnly, n), ds, request, TotalCapacity(ds, can, filledOnly, n))
  {
    if n > 0 {
      AllocateOnTrack(ds, can, request, filledOnly, n - 1);
      var a := Allocate(ds, can, request, filledOnly, n - 1);
      if !a.done && can[n - 1] && !Below(a.left, ds[n - 1].enter.amount * 0.01) {
        OneMore(ds, a, request, filledOnly, TotalCapacity(ds, can, filledOnly, n - 1), n - 1);
      } else if !a.done && can[n - 1] {
        assert -0.01 * ds[n - 1].enter.amount <= a.left.value <= 0.01 * ds[n - 1].enter.amount;
      }
    }
  }

  /**
   * What is exited differs from the request, or from all that can be taken, by at most 1% of a single order, as long
   * as what is left is a number.
   */
  lemma ExitBound(ds: seq<Deal>, can: seq<bool>, request: real, filledOnly: bool)
    requires |ds| == |can| && NonNegative(ds) && request >= 0.0
    ensures var goal := MinReal(request, TotalCapacity(ds, can, filledOnly, |ds|));
      var a := Allocate(ds, can, request, filledOnly, |ds|);
      a.left.Some? ==> WithinOne(ds, a.exited - goal)
  {
    var a := Allocate(ds, can, request, filledOnly, |ds|);
    var goal := MinReal(request, TotalCapacity(ds, can, filledOnly, |ds|));
    if a.left.Some? {
      AllocateOnTrack(ds, can, request, filledOnly, |ds|);
      if a.left.value > 0.0 && a.done {
        var k :| 0 <= k < |ds| && -0.01 * ds[k].enter.amount <= a.left.value <= 0.01 * ds[k].enter.amount;
        assert -0.01 * ds[k].enter.amount <= a.exited - goal <= 0.01 * ds[k].enter.amount;
      }
    }
  }

  // ---------------------------------------------------------------- orders without an amount

  /** Nothing is left of the request when the loop comes to order `k`, which has no amount yet. */
  ghost predicate MetBefore(ds: seq<Deal>, can: seq<bool>, request: real, filledOnly: bool, k: nat)
    requires k < |ds| == |can|
  {
    var a := Allocate(ds, can, request, filledOnly, k);
    !a.done && a.left == Some(0.0) && can[k] && ds[k].enter.amount == 0.0
  }

  /** What is left is no number any more, if and only if the loop came to such an order. */
  lemma {:induction false} NumberLostExactly(ds: seq<Deal>, can: seq<bool>, request: real, filledOnly: bool, n: nat)
    requires n <= |ds| == |can|
    ensures Allocate(ds, can, request, filledOnly, n).left.None? <==>
      exists k :: 0 <= k < n && MetBefore(ds, can, request, filledOnly, k)
  {
    if n > 0 {
      NumberLostExactly(ds, can, request, filledOnly, n - 1);
      if MetBefore(ds, can, request, filledOnly, n - 1) {
        assert Allocate(ds, can, request, filledOnly, n).left.None?;
      }
    }
  }

  /** From there on every closable order exits whole, although the request was met before. */
  lemma {:induction false} RestExitsToo(ds: seq<Deal>, can: seq<bool>, request: real, k: nat, n: nat)
    requires k < n <= |ds| == |can| && NonNegative(ds) && request >= 0.0 && MetBefore(ds, can, request, false, k)
    ensures var a := Allocate(ds, can, request, false, n);
      && a.left.None? && !a.done
      && a.exited == Allocate(ds, can, request, false, k).exited
           + TotalCapacity(ds, can, false, n) - TotalCapacity(ds, can, false, k)
    ensures request <= Allocate(ds, can, request, false, k).exited
    decreases n
  {
    AllocateOnTrack(ds, can, request, false, k);
    if n > k + 1 {
      RestExitsToo(ds, can, request, k, n - 1);
    }
  }

  /** Between two orders of five that are filled lies one without an amount; a request for five exits all ten. */
  lemma MetRequestExitsAll(five: Deal, none: Deal)
    requires five == Deal(ExOrder(5.0, 5.0, 0.0, 0.0), None, "") && none == Deal(ExOrder(0.0, 0.0, 0.0, 0.0), None, "")
    ensures Matched([five, none, five], false)
    ensures Allocate([five, none, five], [true, true, true], 5.0, false, 3).exited == 10.0
  {
    var ds, can := [five, none, five], [true, true, true];
    assert Allocate(ds, can, 5.0, false, 0) == Alloc(0.0, Some(5.0), false);
    assert Allocate(ds, can, 5.0, false, 1) == Alloc(5.0, Some(0.0), false);
    assert Allocate(ds, can, 5.0, false, 2) == Alloc(5.0, None, false);
  }

  /** A request for everything exits every order that can be closed, whole. */
  lemma {:induction false} FullExit(ds: seq<Deal>, can: seq<bool>, request: real, n: nat)
    requires n <= |ds| == |can| && NonNegative(ds) && request >= TotalCapacity(ds, can, false, |ds|)
    ensures var a := Allocate(ds, can, request, false, n);
      && a.exited == TotalCapacity(ds, can, false, n) && !a.done
      && (a.left.Some? ==> a.left.value == request - a.exited)
    ensures n < |ds| && can[n] ==>
      Gives(ds[n], Allocate(ds, can, request, false, n).left, false) == ds[n].enter.amount
  {
    if n > 0 {
      FullExit(ds, can, request, n - 1);
    }
    CapacityGrows(ds, can, n, |ds|);
    if n < |ds| {
      CapacityGrows(ds, can, n + 1, |ds|);
    }
  }

  lemma {:induction false} CapacityGrows(ds: seq<Deal>, can: seq<bool>, m: nat, n: nat)
    requires m <= n <= |ds| == |can| && NonNegative(ds)
    ensures TotalCapacity(ds, can, false, m) <= TotalCapacity(ds, can, false, n)
    decreases n
  {
    if m < n {
      CapacityGrows(ds, can, m, n - 1);
    }
  }

  /** Without a rate or an amount the request covers everything, so that every closable order exits. */
  lemma DefaultExitsAll(ds: seq<Deal>, can: seq<bool>, exitRate: Option<real>, amount: real)
    requires |ds| == |can| && NonNegative(ds) && (forall k :: 0 <= k < |ds| ==> ds[k].exit.None?)
    requires !(exitRate.Some? && 0.0 < exitRate.value < 1.0) && amount <= 0.0
    ensures var a := Allocate(ds, can, RequestOf(ds, exitRate, amount), false, |ds|);
      a.exited == TotalCapacity(ds, can, false, |ds|) && !a.done
  {
    CapacityBelowTotal(ds, can, |ds|);
    FullExit(ds, can, RequestOf(ds, exitRate, amount), |ds|);
  }

  lemma {:induction false} CapacityBelowTotal(ds: seq<Deal>, can: seq<bool>, n: nat)
    requires n <= |ds| == |can| && NonNegative(ds) && (forall k :: 0 <= k < |ds| ==> ds[k].exit.None?)
    ensures TotalCapacity(ds, can, false, n) <= TotalAmount(ds, n)
  {
    if n > 0 {
      CapacityBelowTotal(ds, can, n - 1);
    }
  }

  // ---------------------------------------------------------------- what a request is for

  /** The amounts that were entered, and those that are already exiting. */
  ghost function Entered(ds: seq<Deal>): (xs: seq<real>)
    ensures |xs| == |ds| && forall k :: 0 <= k < |ds| ==> xs[k] == ds[k].enter.amount
  {
    seq(|ds|, k requires 0 <= k < |ds| => ds[k].enter.amount)
  }

  ghost function Exiting(ds: seq<Deal>): (xs: seq<real>)
    ensures |xs| == |ds|
    ensures forall k :: 0 <= k < |ds| ==> xs[k] == if ds[k].exit.Some? then ds[k].exit.value.amount else 0.0
  {
    seq(|ds|, k requires 0 <= k < |ds| => if ds[k].exit.Some? then ds[k].exit.value.amount else 0.0)
  }

  /** What the orders hold that is not exiting yet. */
  ghost function Free(ds: seq<Deal>): real {
    SumReals(Entered(ds)) - SumReals(Exiting(ds))
  }

  lemma {:induction false} TotalIsFree(ds: seq<Deal>, n: nat)
    requires n <= |ds|
    ensures TotalAmount(ds, n) == SumReals(Entered(ds)[..n]) - SumReals(Exiting(ds)[..n])
  {
    if n > 0 {
      TotalIsFree(ds, n - 1);
      SumPrefix(Entered(ds), n);
      SumPrefix(Exiting(ds), n);
    }
  }

  lemma SumPrefix(xs: seq<real>, n: nat)
    requires 0 < n <= |xs|
    ensures SumReals(xs[..n]) == SumReals(xs[..n - 1]) + xs[n - 1]
  {
    assert xs[..n][..n - 1] == xs[..n - 1];
  }

  predicate IsShare(exitRate: Option<real>) {
    exitRate.Some? && 0.0 < exitRate.value < 1.0
  }

  lemma RequestExactly(ds: seq<Deal>, exitRate: Option<real>, amount: real)
    ensures IsShare(exitRate) ==> RequestOf(ds, exitRate, amount) == Times(Free(ds), exitRate.value)
    ensures !IsShare(exitRate) ==> RequestOf(ds, exitRate, amount) == if amount > 0.0 then amount else Free(ds)
    ensures Free(ds) >= 0.0 ==> RequestOf(ds, exitRate, amount) >= 0.0
  {
    TotalIsFree(ds, |ds|);
    assert Entered(ds)[..|ds|] == Entered(ds) && Exiting(ds)[..|ds|] == Exiting(ds);
  }

  /**
   * A rate below one takes its share of what is free, whatever amount is given too; an amount takes itself, and
   * neither of them takes all that is free; each up to what can be taken, and within 1% of a single order.
   */
  lemma RequestIsMet(ds: seq<Deal>, can: seq<bool>, exitRate: Option<real>, amount: real, filledOnly: bool)
    requires |ds| == |can| && NonNegative(ds) && Free(ds) >= 0.0
    ensures var a := Allocate(ds, can, RequestOf(ds, exitRate, amount), filledOnly, |ds|);
      var capacity := TotalCapacity(ds, can, filledOnly, |ds|);
      a.left.Some? ==>
        && (IsShare(exitRate) ==> WithinOne(ds, a.exited - MinReal(Times(Free(ds), exitRate.value), capacity)))
        && (!IsShare(exitRate) && amount > 0.0 ==> WithinOne(ds, a.exited - MinReal(amount, capacity)))
        && (!IsShare(exitRate) && amount <= 0.0 ==> WithinOne(ds, a.exited - MinReal(Free(ds), capacity)))
  {
    hide RequestOf, IsShare, Times, Free, Allocate, TotalCapacity, WithinOne, NonNegative;
    RequestExactly(ds, exitRate, amount);
    ExitBound(ds, can, RequestOf(ds, exitRate, amount), filledOnly);
  }
}
