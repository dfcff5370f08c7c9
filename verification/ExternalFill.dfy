/** A fill made outside the robot, spread over the open orders that it closes. */
module ExternalFill {
  import opened Basics
  import opened Bars
  import opened Orders

  const EXIT_TAG_THIRD := "third"
  const EXIT_TAG_FORCE := "force_exit"

  /** What is still to be distributed. */
  datatype Pool = Pool(filled: real, feeCost: real, feeQuote: real)

  predicate HasExit(d: Deal) {
    d.exit.Some? && d.exit.value.amount > 0.0
  }

  /** What an order can still take. */
  function Room(d: Deal): real {
    if HasExit(d) then d.exit.value.amount - d.exit.value.filled else d.enter.filled
  }

  /** What an order takes of a fill; one that was never entered takes nothing. */
  function Takes(d: Deal, filled: real): real {
    if d.enter.filled == 0.0 then 0.0 else MinReal(Room(d), filled)
  }

  /**
   * An order takes all of a fill, or all that its exit still lacks, or without an exit all that it has entered; never
   * more than any of these.
   */
  lemma TakesExactly(d: Deal, filled: real)
    requires d.enter.filled != 0.0
    ensures var take := Takes(d, filled);
      && take <= filled
      && (HasExit(d) ==> ExitFilled(d) + take <= ExitAmount(d))
      && (!HasExit(d) ==> take <= d.enter.filled)
      && (take == filled || if HasExit(d) then ExitFilled(d) + take == ExitAmount(d) else take == d.enter.filled)
    ensures Takes(d.(enter := d.enter.(filled := 0.0)), filled) == 0.0
  {
  }

  /** Whether a part is cut off: when some of the exit is filled already, or when the fill is well below what fits. */
  predicate Divides(d: Deal, filled: real) {
    (HasExit(d) && Room(d) / d.exit.value.amount < 0.99) || filled < Room(d) * 0.99
  }

  /** The order that carries the fill: the part that is cut off, or the order itself. */
  function Carrier(d: Deal, filled: real): Deal
    requires CanCut(d)
  {
    if Divides(d, filled) then PartDeal(d, Takes(d, filled), 0.0) else d
  }

  function Other(d: Deal, filled: real): Deal
    requires CanCut(d)
  {
    if Divides(d, filled) then RestDeal(d, Takes(d, filled), 0.0) else Deal(ExOrder(0.0, 0.0, 0.0, 0.0), None, "")
  }

  /** The exit of the carrier is written over with the fill and its share of the fees. */
  function Carried(d: Deal, fill: real, feeCost: real, feeQuote: real): Deal {
    Deal(d.enter, Some(ExOrder(if d.exit.Some? then d.exit.value.amount else d.enter.amount, fill, feeCost, feeQuote)),
      EXIT_TAG_THIRD)
  }

  function FeeShare(fee: real, take: real, filled: real): real
    requires filled != 0.0
  {
    fee * (take / filled)
  }

  /** The share of a fee that remains; zero by zero is no number, which stands here for any value. */
  method FeeRemains(fee: real, paid: real, ghost rate: real) returns (left: real)
    requires paid == fee * rate
    ensures fee != 0.0 ==> left == 1.0 - rate
  {
    if fee == 0.0 {
      left := *;
    } else {
      RemainingRate(fee, rate);
      left := (fee - paid) / fee;
    }
  }

  /** Writes a fill over the exit of an order, or makes one for all of its entry. */
  method WriteExit(part: InOutOrder, fillAmt: real, feeCost: real, feeQuote: real, odTime: int)
    modifies part`exit, part`exitTag, part`exitAt
    ensures part.exitAt == odTime
    ensures part.State() == Carried(old(part.State()), fillAmt, feeCost, feeQuote)
  {
    if part.exit.None? {
      part.exit := Some(ExOrder(part.enter.amount, fillAmt, feeCost, feeQuote));
    } else {
      part.exit := Some(ExOrder(part.exit.value.amount, fillAmt, feeCost, feeQuote));
    }
    part.exitTag, part.exitAt := EXIT_TAG_THIRD, odTime;
  }

  /** Closes an order, or a part of it, with a fill; `feeLeft` is the share of the fees that remains. */
  method TryFillExit(iod: InOutOrder, filled: real, feeCost: real, feeQuote: real, odTime: int,
      curMS: int) returns (left: real, feeLeft: real, part: InOutOrder)
    requires CanCut(iod.State()) && filled > 0.0
    modifies iod
    ensures part == iod || fresh(part)
    ensures left == filled - Takes(old(iod.State()), filled)
    ensures feeCost != 0.0 ==> feeLeft == 1.0 - Takes(old(iod.State()), filled) / filled
    ensures old(iod.enter.filled) != 0.0 ==>
      var d := old(iod.State());
      var take := Takes(d, filled);
      && part.State() == Carried(Carrier(d, filled), take, FeeShare(feeCost, take, filled),
        FeeShare(feeQuote, take, filled))
      && part.exitAt == odTime
      && (if Divides(d, filled) then part != iod && iod.State() == Other(d, filled) else part == iod)
    ensures old(iod.enter.filled) == 0.0 ==> part == iod && HoldOf(iod.State()) == 0.0
  {
    hide PartDeal, RestDeal;
    if iod.enter.filled == 0.0 {
      iod.LocalExit(curMS, EXIT_TAG_FORCE);
      feeLeft := FeeRemains(feeCost, 0.0, 0.0);
      NoRate(filled);
      return filled, feeLeft, iod;
    }
    var avaAmount, doCut := 0.0, false;
    if iod.exit.Some? && iod.exit.value.amount > 0.0 {
      avaAmount := iod.exit.value.amount - iod.exit.value.filled;
      doCut := avaAmount / iod.exit.value.amount < 0.99;
    } else {
      avaAmount := iod.enter.filled;
    }
    if !doCut && filled < avaAmount * 0.99 {
      doCut := true;
    }
    ghost var d := iod.State();
    assert avaAmount == Room(d) && doCut == Divides(d, filled);
    part := iod;
    var fillAmt := MinReal(avaAmount, filled);
    var curPartRate := fillAmt / filled;
    left := filled - fillAmt;
    if doCut {
      part := iod.CutPart(fillAmt, 0.0);
    }
    assert fillAmt == Takes(d, filled) && part.State() == Carrier(d, filled);
    var curFeeCost, curFeeQuote := feeCost * curPartRate, feeQuote * curPartRate;
    assert curFeeCost == FeeShare(feeCost, fillAmt, filled) && curFeeQuote == FeeShare(feeQuote, fillAmt, filled);
    WriteExit(part, fillAmt, curFeeCost, curFeeQuote, odTime);
    assert part.State() == Carried(Carrier(d, filled), fillAmt, curFeeCost, curFeeQuote);
    feeLeft := FeeRemains(feeCost, curFeeCost, curPartRate);
  }

  lemma NoRate(filled: real)
    requires filled > 0.0
    ensures 0.0 / filled == 0.0
  {
  }

  lemma RemainingRate(fee: real, rate: real)
    requires fee != 0.0
    ensures (fee - fee * rate) / fee == 1.0 - rate
  {
    var q := (fee - fee * rate) / fee;
    var left := 1.0 - rate;
    assert q * fee == fee - fee * rate;
    assert left * fee == fee - fee * rate;
    if fee > 0.0 {
      SameFactor(q, left, fee);
    } else {
      SameFactor(q, left, -fee);
    }
  }

  // ---------------------------------------------------------------- the position

  function NetHold(d: Deal): real {
    d.enter.filled - ExitFilled(d)
  }

  /** The exit fill that the carrier already had, which the new fill replaces. */
  function Replaced(d: Deal, filled: real): real {
    if Divides(d, filled) then MinReal(ExitFilled(d), MaxReal(0.0, ExitAmount(d) - (d.enter.amount - Takes(d, filled))))
    else ExitFilled(d)
  }

  /** The local position falls by what is taken, less the earlier exit fill that is written over. */
  lemma FillMovesPosition(d: Deal, filled: real, feeCost: real, feeQuote: real)
    requires Regular(d) && d.enter.filled > 0.0 && filled > 0.0
    ensures var take := Takes(d, filled);
      && 0.0 <= take <= filled
      && NetHold(Carried(Carrier(d, filled), take, feeCost, feeQuote)) + NetHold(Other(d, filled))
        == NetHold(d) - take + Replaced(d, filled)
  {
    CutConserves(d, Takes(d, filled));
  }

  /** An order without an exit that is closed whole was filled up to 1% of what it had entered. */
  lemma WholeCloseIsNearlyComplete(d: Deal, filled: real)
    requires Regular(d) && d.exit.None? && d.enter.filled > 0.0 && filled > 0.0
    ensures Divides(d, filled) <==> filled < 0.99 * d.enter.filled
    ensures !Divides(d, filled) ==> 0.0 <= d.enter.filled - Takes(d, filled) <= 0.01 * d.enter.filled
    ensures Divides(d, filled) ==> Takes(d, filled) == filled
  {
  }

  /** With an exit filled by half, a fill that closes the other half leaves the local position as it was. */
  lemma HalfFilledExitStays(d: Deal)
    requires d == Deal(ExOrder(10.0, 10.0, 0.0, 0.0), Some(ExOrder(10.0, 5.0, 0.0, 0.0)), "")
    ensures Regular(d) && Takes(d, 5.0) == 5.0 && NetHold(d) == 5.0
    ensures NetHold(Carried(Carrier(d, 5.0), 5.0, 1.0, 1.0)) + NetHold(Other(d, 5.0)) == 5.0
  {
    FillMovesPosition(d, 5.0, 1.0, 1.0);
    assert Divides(d, 5.0);
  }

  /**
   * What the fill does to an order without an exit: a part that is cut off for it is closed completely, and an order
   * that is not divided exits for all of its entry.
   */
  lemma FreshExit(d: Deal, filled: real, feeCost: real, feeQuote: real)
    requires Regular(d) && d.exit.None? && d.enter.filled > 0.0 && filled > 0.0
    ensures var take := Takes(d, filled);
      var c := Carried(Carrier(d, filled), take, feeCost, feeQuote);
      && c.exit.Some? && c.exit.value == ExOrder(c.enter.amount, take, feeCost, feeQuote)
      && c.enter.amount == (if Divides(d, filled) then take else d.enter.amount)
      && c.enter.filled == (if Divides(d, filled) then take else d.enter.filled)
  {
    CutConserves(d, Takes(d, filled));
  }

  // ---------------------------------------------------------------- the distribution

  /** What is left after some orders, and whether that is so little that the loop ended. */
  datatype Spread = Spread(pool: Pool, ended: bool)

  /** One loop ends below the dust, another one at it. */
  predicate IsDust(filled: real, atDust: bool) {
    filled < AMT_DUST || (atDust && filled == AMT_DUST)
  }

  function Reduced(pool: Pool, take: real): Pool
    requires pool.filled != 0.0
  {
    var rate := 1.0 - take / pool.filled;
    Pool(pool.filled - take, pool.feeCost * rate, pool.feeQuote * rate)
  }

  function PoolAfter(ds: seq<Deal>, pool: Pool, n: nat, atDust: bool): Spread
    requires n <= |ds|
  {
    if n == 0 then Spread(pool, false)
    else
      var s := PoolAfter(ds, pool, n - 1, atDust);
      if s.ended || s.pool.filled == 0.0 then s
      else
        var left := Reduced(s.pool, Takes(ds[n - 1], s.pool.filled));
        Spread(left, IsDust(left.filled, atDust))
  }

  ghost predicate Proportional(fee: real, filled: real, fee0: real, filled0: real) {
    fee * filled0 == fee0 * filled
  }

  lemma ShareOfRatio(fee: real, filled: real, take: real, fee0: real, filled0: real)
    requires filled > 0.0 && Proportional(fee, filled, fee0, filled0)
    ensures Proportional(FeeShare(fee, take, filled), take, fee0, filled0)
  {
    var rate := take / filled;
    assert rate * filled == take;
    assert (fee * rate) * filled0 == (fee * filled0) * rate;
    assert (fee0 * filled) * rate == fee0 * take;
  }

  lemma ReducedFees(pool: Pool, take: real)
    requires pool.filled > 0.0
    ensures Reduced(pool, take).feeCost == pool.feeCost - FeeShare(pool.feeCost, take, pool.filled)
    ensures Reduced(pool, take).feeQuote == pool.feeQuote - FeeShare(pool.feeQuote, take, pool.filled)
  {
  }

  lemma NothingTaken(pool: Pool)
    requires pool.filled > 0.0
    ensures Reduced(pool, 0.0) == pool
  {
    assert 0.0 / pool.filled == 0.0;
  }

  lemma RatioDifference(x: real, a: real, y: real, b: real, fee0: real, filled0: real)
    requires Proportional(x, a, fee0, filled0) && Proportional(y, b, fee0, filled0)
    ensures Proportional(x - y, a - b, fee0, filled0)
  {
  }

  lemma ReducedKeepsRatio(pool: Pool, take: real, pool0: Pool)
    requires pool.filled > 0.0
    requires Proportional(pool.feeCost, pool.filled, pool0.feeCost, pool0.filled)
    requires Proportional(pool.feeQuote, pool.filled, pool0.feeQuote, pool0.filled)
    ensures Proportional(Reduced(pool, take).feeCost, pool.filled - take, pool0.feeCost, pool0.filled)
    ensures Proportional(Reduced(pool, take).feeQuote, pool.filled - take, pool0.feeQuote, pool0.filled)
  {
    ReducedFees(pool, take);
    ShareOfRatio(pool.feeCost, pool.filled, take, pool0.feeCost, pool0.filled);
    ShareOfRatio(pool.feeQuote, pool.filled, take, pool0.feeQuote, pool0.filled);
    RatioDifference(pool.feeCost, pool.filled, FeeShare(pool.feeCost, take, pool.filled), take, pool0.feeCost,
      pool0.filled);
    RatioDifference(pool.feeQuote, pool.filled, FeeShare(pool.feeQuote, take, pool.filled), take, pool0.feeQuote,
      pool0.filled);
  }

  lemma TakesBounds(d: Deal, filled: real)
    requires Regular(d) && filled > 0.0
    ensures 0.0 <= Takes(d, filled) <= filled
  {
  }

  /** At every point the fees that remain are to the fees as the amount that remains is to the amount. */
  lemma {:induction false} FeesStayProportional(ds: seq<Deal>, pool: Pool, n: nat, atDust: bool)
    requires n <= |ds| && AllRegular(ds) && pool.filled > 0.0
    ensures var s := PoolAfter(ds, pool, n, atDust);
      && 0.0 <= s.pool.filled <= pool.filled
      && (s.pool.filled > 0.0 || s.ended)
      && Proportional(s.pool.feeCost, s.pool.filled, pool.feeCost, pool.filled)
      && Proportional(s.pool.feeQuote, s.pool.filled, pool.feeQuote, pool.filled)
  {
    if n > 0 {
      FeesStayProportional(ds, pool, n - 1, atDust);
      var s := PoolAfter(ds, pool, n - 1, atDust);
      if !s.ended {
        TakesBounds(ds[n - 1], s.pool.filled);
        ReducedKeepsRatio(s.pool, Takes(ds[n - 1], s.pool.filled), pool);
      }
    }
  }

  // ---------------------------------------------------------------- the loop over the orders

  /** What one order was given. */
  function GivenTo(pool: Pool, take: real): Pool
    requires pool.filled != 0.0
  {
    Pool(take, FeeShare(pool.feeCost, take, pool.filled), FeeShare(pool.feeQuote, take, pool.filled))
  }

  function SumOf(ps: seq<Pool>): Pool {
    if |ps| == 0 then Pool(0.0, 0.0, 0.0)
    else
      var s, p := SumOf(ps[..|ps| - 1]), ps[|ps| - 1];
      Pool(s.filled + p.filled, s.feeCost + p.feeCost, s.feeQuote + p.feeQuote)
  }

  /** The pool has been split into what was given and what is left. */
  ghost predicate Split(pool: Pool, given: seq<Pool>, left: Pool) {
    var s := SumOf(given);
    && s.filled + left.filled == pool.filled
    && s.feeCost + left.feeCost == pool.feeCost
    && s.feeQuote + left.feeQuote == pool.feeQuote
  }

  /** An order carries what it was given on its exit. */
  ghost predicate Carries(od: InOutOrder, p: Pool)
    reads od
  {
    od.exit.Some? && od.exit.value.filled == p.filled && od.exit.value.fee == p.feeCost
      && od.exit.value.feeQuote == p.feeQuote
  }

  /** A fee times the share that remains, which is no number when there was no fee to divide by. */
  method Scaled(fee: real, feeCost: real, rate: real) returns (r: real)
    ensures feeCost != 0.0 ==> r == fee * rate
  {
    if feeCost == 0.0 {
      r := *;
    } else {
      r := fee * rate;
    }
  }

  /** Gives one order what fits; an order that was never entered is just closed. */
  method FillOne(iod: InOutOrder, pool: Pool, odTime: int, curMS: int)
      returns (left: Pool, part: InOutOrder, entered: bool)
    requires Regular(iod.State()) && pool.filled > 0.0
    modifies iod
    ensures part == iod || fresh(part)
    ensures left.filled == pool.filled - Takes(old(iod.State()), pool.filled)
    ensures pool.feeCost != 0.0 ==> left == Reduced(pool, Takes(old(iod.State()), pool.filled))
    ensures entered == (old(iod.enter.filled) != 0.0)
    ensures entered ==> Carries(part, GivenTo(pool, Takes(old(iod.State()), pool.filled)))
  {
    entered := iod.enter.filled != 0.0;
    ghost var take := Takes(iod.State(), pool.filled);
    var filled, feeLeft;
    filled, feeLeft, part := TryFillExit(iod, pool.filled, pool.feeCost, pool.feeQuote, odTime, curMS);
    var feeCost := Scaled(pool.feeCost, pool.feeCost, feeLeft);
    var feeQuote := Scaled(pool.feeQuote, pool.feeCost, feeLeft);
    left := Pool(filled, feeCost, feeQuote);
    assert pool.feeCost != 0.0 ==> left == Reduced(pool, take);
  }

  /** The orders from `i` on are as they were, and none of them carries anything yet. */
  ghost predicate Halfway(ods: seq<InOutOrder>, carriers: seq<InOutOrder>, given: seq<Pool>, ds: seq<Deal>, i: nat)
    reads ods, carriers
  {
    && |ds| == |ods| && |carriers| == |given|
    && (forall k :: i <= k < |ods| ==> ods[k].State() == ds[k])
    && (forall k :: 0 <= k < |carriers| ==> Carries(carriers[k], given[k]))
    && (forall j, k :: 0 <= j < |carriers| && i <= k < |ods| ==> carriers[j] != ods[k])
  }

  method FillAt(ods: seq<InOutOrder>, i: nat, pool: Pool, odTime: int, curMS: int, ghost ds: seq<Deal>,
      ghost carriers: seq<InOutOrder>, ghost given: seq<Pool>)
      returns (left: Pool, part: InOutOrder, ghost carriers': seq<InOutOrder>, ghost given': seq<Pool>)
    requires i < |ods| && Distinct(ods) && Halfway(ods, carriers, given, ds, i) && Regular(ds[i])
    requires pool.filled > 0.0
    modifies ods[i]
    ensures Halfway(ods, carriers', given', ds, i + 1)
    ensures left.filled == pool.filled - Takes(ds[i], pool.filled)
    ensures pool.feeCost != 0.0 ==> left == Reduced(pool, Takes(ds[i], pool.filled))
    ensures carriers' == (if ds[i].enter.filled != 0.0 then carriers + [part] else carriers)
    ensures given' == (if ds[i].enter.filled != 0.0 then given + [GivenTo(pool, Takes(ds[i], pool.filled))] else given)
  {
    var entered;
    left, part, entered := FillOne(ods[i], pool, odTime, curMS);
    carriers', given' := carriers, given;
    if entered {
      carriers', given' := carriers + [part], given + [GivenTo(pool, Takes(ds[i], pool.filled))];
    }
  }

  lemma SomeFee(fee: real, filled: real, fee0: real, filled0: real)
    requires Proportional(fee, filled, fee0, filled0) && fee0 != 0.0 && filled > 0.0 && filled0 > 0.0
    ensures fee != 0.0
  {
    if fee0 > 0.0 {
      ProductPositive(fee0, filled, fee0 * filled);
    } else {
      ProductPositive(-fee0, filled, -fee0 * filled);
    }
  }

  lemma SplitMore(pool0: Pool, given: seq<Pool>, pool: Pool, take: real)
    requires pool.filled > 0.0 && Split(pool0, given, pool)
    ensures Split(pool0, given + [GivenTo(pool, take)], Reduced(pool, take))
  {
    ReducedFees(pool, take);
    var more := given + [GivenTo(pool, take)];
    assert more[..|more| - 1] == given;
  }

  /** Everyone pays fees in proportion to the amount it takes. */
  ghost predicate Fair(given: seq<Pool>, pool: Pool) {
    forall p :: p in given ==>
      Proportional(p.feeCost, p.filled, pool.feeCost, pool.filled)
        && Proportional(p.feeQuote, p.filled, pool.feeQuote, pool.filled)
  }

  lemma FairMore(given: seq<Pool>, pool: Pool, take: real, pool0: Pool)
    requires Fair(given, pool0) && pool.filled > 0.0
    requires Proportional(pool.feeCost, pool.filled, pool0.feeCost, pool0.filled)
    requires Proportional(pool.feeQuote, pool.filled, pool0.feeQuote, pool0.filled)
    ensures Fair(given + [GivenTo(pool, take)], pool0)
  {
    ShareOfRatio(pool.feeCost, pool.filled, take, pool0.feeCost, pool0.filled);
    ShareOfRatio(pool.feeQuote, pool.filled, take, pool0.feeQuote, pool0.filled);
  }

  /** What is left of a fill after the first `n` orders, each of which takes what fits. */
  function LeftAfter(ds: seq<Deal>, filled: real, n: nat): real
    requires n <= |ds|
  {
    if n == 0 then filled else LeftAfter(ds, filled, n - 1) - Takes(ds[n - 1], LeftAfter(ds, filled, n - 1))
  }

  /** What those of them take that were entered. */
  function Takings(ds: seq<Deal>, filled: real, n: nat): seq<real>
    requires n <= |ds|
  {
    if n == 0 then []
    else
      var before := Takings(ds, filled, n - 1);
      if ds[n - 1].enter.filled != 0.0 then before + [Takes(ds[n - 1], LeftAfter(ds, filled, n - 1))] else before
  }

  ghost predicate Amounts(given: seq<Pool>, takes: seq<real>) {
    |given| == |takes| && forall k :: 0 <= k < |given| ==> given[k].filled == takes[k]
  }

  /**
   * What the first `i` orders got, and what is left, are as they take it and add up to the fill. If there is a fee, the
   * fees are so too, and in proportion.
   */
  ghost predicate Sharing(ds: seq<Deal>, pool: Pool, given: seq<Pool>, left: Pool, i: nat, atDust: bool)
    requires i <= |ds|
  {
    && PoolAfter(ds, pool, i, atDust).pool.filled == left.filled
    && left.filled == LeftAfter(ds, pool.filled, i) && Amounts(given, Takings(ds, pool.filled, i))
    && SumOf(given).filled + left.filled == pool.filled
    && (pool.feeCost != 0.0 ==>
          PoolAfter(ds, pool, i, atDust).pool == left && Split(pool, given, left) && Fair(given, pool))
  }

  /** The loop has come to order `i`, and goes on. */
  ghost predicate Spreading(ds: seq<Deal>, pool: Pool, given: seq<Pool>, left: Pool, i: nat, atDust: bool)
    requires i <= |ds|
  {
    !PoolAfter(ds, pool, i, atDust).ended && Sharing(ds, pool, given, left, i, atDust)
  }

  lemma NothingGiven(ds: seq<Deal>, pool: Pool, atDust: bool)
    ensures Spreading(ds, pool, [], pool, 0, atDust)
  {
  }

  lemma SumMore(given: seq<Pool>, p: Pool)
    ensures SumOf(given + [p]).filled == SumOf(given).filled + p.filled
  {
    assert (given + [p])[..|given|] == given;
  }

  lemma StillFilled(ds: seq<Deal>, pool: Pool, given: seq<Pool>, left: Pool, i: nat, atDust: bool)
    requires i < |ds| && AllRegular(ds) && pool.filled > 0.0 && Spreading(ds, pool, given, left, i, atDust)
    ensures left.filled > 0.0 && (pool.feeCost != 0.0 ==> left.feeCost != 0.0)
  {
    FeesStayProportional(ds, pool, i, atDust);
    if pool.feeCost != 0.0 {
      SomeFee(left.feeCost, left.filled, pool.feeCost, pool.filled);
    }
  }

  /** One order more. */
  lemma SpreadMore(ds: seq<Deal>, pool: Pool, given: seq<Pool>, left: Pool, i: nat, atDust: bool, left': Pool)
    requires i < |ds| && AllRegular(ds) && pool.filled > 0.0 && Spreading(ds, pool, given, left, i, atDust)
    requires left.filled > 0.0 && left'.filled == left.filled - Takes(ds[i], left.filled)
    requires pool.feeCost != 0.0 ==> left' == Reduced(left, Takes(ds[i], left.filled))
    ensures var more := if ds[i].enter.filled != 0.0 then given + [GivenTo(left, Takes(ds[i], left.filled))] else given;
      && PoolAfter(ds, pool, i + 1, atDust).ended == IsDust(left'.filled, atDust)
      && Sharing(ds, pool, more, left', i + 1, atDust)
  {
    SumMore(given, GivenTo(left, Takes(ds[i], left.filled)));
    if pool.feeCost != 0.0 {
      FeesStayProportional(ds, pool, i, atDust);
      SplitMore(pool, given, left, Takes(ds[i], left.filled));
      FairMore(given, left, Takes(ds[i], left.filled), pool);
      NothingTaken(left);
    }
  }

  /**
   * Distributes a fill over orders. What the orders carry and what is left add up to the fill, whatever the fees are.
   * If there is a fee, the fees add up too, and stay in proportion to the amounts.
   */
  method Distribute(ods: seq<InOutOrder>, pool: Pool, atDust: bool, odTime: int, curMS: int, ghost ds: seq<Deal>)
      returns (left: Pool, done: seq<InOutOrder>, ghost carriers: seq<InOutOrder>, ghost given: seq<Pool>,
               ghost reached: nat)
    requires Distinct(ods) && Halfway(ods, [], [], ds, 0) && AllRegular(ds) && pool.filled > 0.0
    modifies ods
    ensures Halfway(ods, carriers, given, ds, reached) && reached <= |ods|
    ensures reached == |ods| || PoolAfter(ds, pool, reached, atDust).ended
    ensures Sharing(ds, pool, given, left, reached, atDust)
    ensures |done| == reached && forall c :: c in carriers ==> c in done
  {
    hide Takes, IsDust, Carries, Regular, Sharing;
    left, done, carriers, given, reached := pool, [], [], [], 0;
    NothingGiven(ds, pool, atDust);
    for i := 0 to |ods|
      invariant Halfway(ods, carriers, given, ds, i) && reached == i
      invariant Spreading(ds, pool, given, left, i, atDust)
      invariant |done| == i && forall c :: c in carriers ==> c in done
    {
      StillFilled(ds, pool, given, left, i, atDust);
      ghost var was, before := left, given;
      var part;
      left, part, carriers, given := FillAt(ods, i, left, odTime, curMS, ds, carriers, given);
      SpreadMore(ds, pool, before, was, i, atDust, left);
      done, reached := done + [part], i + 1;
      if IsDust(left.filled, atDust) {
        return;
      }
    }
  }

  /** After a loop that ended early, the rest of the orders would change nothing. */
  lemma SharedOut(ds: seq<Deal>, pool: Pool, given: seq<Pool>, left: Pool, reached: nat, atDust: bool)
    requires reached <= |ds| && Sharing(ds, pool, given, left, reached, atDust)
    requires reached == |ds| || PoolAfter(ds, pool, reached, atDust).ended
    ensures left.filled == PoolAfter(ds, pool, |ds|, atDust).pool.filled
    ensures pool.feeCost != 0.0 ==> left == PoolAfter(ds, pool, |ds|, atDust).pool
  {
    if reached < |ds| {
      StaysEnded(ds, pool, reached, |ds|, atDust);
    }
  }

  /** The loop ends as soon as less than the dust of 0.00000001 is left, or for one of the loops no more than that. */
  lemma {:induction false} EndsExactly(ds: seq<Deal>, pool: Pool, n: nat, atDust: bool)
    requires n <= |ds| && pool.filled > 0.00000001
    ensures var s := PoolAfter(ds, pool, n, atDust);
      s.ended <==> if atDust then s.pool.filled <= 0.00000001 else s.pool.filled < 0.00000001
  {
    if n > 0 {
      EndsExactly(ds, pool, n - 1, atDust);
    }
  }

  lemma {:induction false} StaysEnded(ds: seq<Deal>, pool: Pool, m: nat, n: nat, atDust: bool)
    requires m <= n <= |ds| && PoolAfter(ds, pool, m, atDust).ended
    ensures PoolAfter(ds, pool, n, atDust) == PoolAfter(ds, pool, m, atDust)
    decreases n
  {
    if m < n {
      StaysEnded(ds, pool, m, n - 1, atDust);
    }
  }
}
