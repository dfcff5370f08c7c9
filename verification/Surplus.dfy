/** Closing local orders until they hold no more than the position at the exchange. */
module Surplus {
  import opened Basics
  import opened Bars
  import opened Orders

  const EXIT_TAG_NO_MATCH := "no_match"

  /** The age in milliseconds below which the newest order still waits for its state. */
  const SETTLE_MS := 20000

  /**
   * What is closed of an order when `over` is too much: all of it, if it holds no more than 1% above that; otherwise a
   * part, whose holding falls short by the fills of the exit that go with it.
   */
  function CloseAmount(d: Deal, over: real): real {
    if HoldOf(d) > over * 1.01 then over - MinReal(ExitFilled(d), MaxReal(0.0, ExitAmount(d) - (d.enter.amount - over)))
    else HoldOf(d)
  }

  /** The surplus that is left, and whether it was small enough to stop. */
  datatype Sync = Sync(over: real, stopped: bool)

  function SyncFrom(ds: seq<Deal>, over: real, n: nat): Sync
    requires n <= |ds|
  {
    if n == 0 then Sync(over, false)
    else
      var s := SyncFrom(ds, over, n - 1);
      if s.stopped then s
      else if s.over < over * 0.001 then s.(stopped := true)
      else if HoldOf(ds[n - 1]) < AMT_DUST then s
      else Sync(s.over - CloseAmount(ds[n - 1], s.over), false)
  }

  function TotalHold(ds: seq<Deal>, n: nat): real
    requires n <= |ds|
  {
    if n == 0 then 0.0 else TotalHold(ds, n - 1) + HoldOf(ds[n - 1])
  }

  // ---------------------------------------------------------------- one cut

  /** A cut closes the surplus less the fills of the exit that go with the part, and the rest keeps everything else. */
  lemma CutHold(d: Deal, over: real)
    requires Regular(d) && over > 0.0 && HoldOf(d) > over * 1.01
    ensures var part, rest := PartDeal(d, over, 0.0), RestDeal(d, over, 0.0);
      && HoldOf(part) + HoldOf(rest) == HoldOf(d)
      && HoldOf(part) == CloseAmount(d, over)
      && 0.0 <= HoldOf(part) <= over
  {
    CutConserves(d, over);
  }

  /** A cut closes exactly the surplus, if and only if no fill of the exit goes with the part. */
  lemma CutIsExact(d: Deal, over: real)
    requires Regular(d) && over > 0.0 && HoldOf(d) > over * 1.01
    ensures HoldOf(PartDeal(d, over, 0.0)) == over <==> ExitFilled(d) == 0.0 || ExitAmount(d) <= d.enter.amount - over
  {
    CutHold(d, over);
  }

  // ---------------------------------------------------------------- the bounds

  /** Too much is never closed, but for 1% of the surplus. */
  lemma {:induction false} NeverFarBelow(ds: seq<Deal>, over: real, n: nat)
    requires n <= |ds| && AllRegular(ds) && over > 0.0
    ensures -0.01 * over <= SyncFrom(ds, over, n).over <= over
  {
    if n > 0 {
      NeverFarBelow(ds, over, n - 1);
      var s := SyncFrom(ds, over, n - 1);
      if !s.stopped && s.over >= over * 0.001 && HoldOf(ds[n - 1]) > s.over * 1.01 {
        CutHold(ds[n - 1], s.over);
      }
    }
  }

  ghost predicate NoExitFills(ds: seq<Deal>) {
    forall k :: 0 <= k < |ds| ==> ExitFilled(ds[k]) == 0.0
  }

  /** What a cut leaves of the surplus: the fills of the exit that go with the part. */
  function Retained(d: Deal, over: real): real {
    MinReal(ExitFilled(d), MaxReal(0.0, ExitAmount(d) - (d.enter.amount - over)))
  }

  /** The loop comes to order `k` and cuts it. */
  ghost predicate IsCut(ds: seq<Deal>, over: real, k: nat)
    requires k < |ds|
  {
    var s := SyncFrom(ds, over, k);
    && !s.stopped && s.over >= over * 0.001
    && HoldOf(ds[k]) >= AMT_DUST && HoldOf(ds[k]) > s.over * 1.01
  }

  /** What the orders at [from, n) hold that are not dust. */
  function OpenHold(ds: seq<Deal>, from: nat, n: nat): (h: real)
    requires from <= n <= |ds|
    ensures h >= 0.0
    decreases n
  {
    if n == from then 0.0
    else OpenHold(ds, from, n - 1) + if HoldOf(ds[n - 1]) < AMT_DUST then 0.0 else HoldOf(ds[n - 1])
  }

  lemma CutLeaves(ds: seq<Deal>, over: real, k: nat)
    requires k < |ds| && IsCut(ds, over, k)
    ensures SyncFrom(ds, over, k + 1) == Sync(Retained(ds[k], SyncFrom(ds, over, k).over), false)
  {
  }

  /** After a cut whose rest outlasts the later orders, each of these is closed whole or left as dust. */
  lemma {:induction false} ClosesTail(ds: seq<Deal>, over: real, bound: real, k: nat, n: nat)
    requires k < n <= |ds| && over > 0.0 && bound >= over * 0.001 && IsCut(ds, over, k)
    requires Retained(ds[k], SyncFrom(ds, over, k).over) - OpenHold(ds, k + 1, n) > bound
    ensures SyncFrom(ds, over, n) == Sync(Retained(ds[k], SyncFrom(ds, over, k).over) - OpenHold(ds, k + 1, n), false)
    decreases n
  {
    if n == k + 1 {
      CutLeaves(ds, over, k);
    } else {
      ClosesTail(ds, over, bound, k, n - 1);
    }
  }

  /** A surplus above the bound was left by the last cut, and the later orders were not enough for it. */
  lemma {:induction false} LastCut(ds: seq<Deal>, over: real, n: nat) returns (k: nat)
    requires n <= |ds| && over > 0.0 && !SyncFrom(ds, over, n).stopped
    requires SyncFrom(ds, over, n).over + TotalHold(ds, n) > over + n as real * AMT_DUST
    ensures k < n && IsCut(ds, over, k)
    ensures SyncFrom(ds, over, n).over == Retained(ds[k], SyncFrom(ds, over, k).over) - OpenHold(ds, k + 1, n)
  {
    if n > 0 && IsCut(ds, over, n - 1) {
      k := n - 1;
    } else if n > 0 {
      assert n as real == (n - 1) as real + 1.0;
      k := LastCut(ds, over, n - 1);
    }
  }

  /** The bound that holds when no exit is partly filled. */
  function DustBound(ds: seq<Deal>, over: real): real {
    MaxReal(over * 0.001, |ds| as real * 0.00000001)
  }

  function MaxFilled(ds: seq<Deal>, n: nat): (m: real)
    requires n <= |ds|
    ensures m >= 0.0 && forall k :: 0 <= k < n ==> ExitFilled(ds[k]) <= m
  {
    if n == 0 then 0.0 else MaxReal(MaxFilled(ds, n - 1), ExitFilled(ds[n - 1]))
  }

  lemma {:induction false} NoFillsNoMax(ds: seq<Deal>, n: nat)
    requires n <= |ds| && NoExitFills(ds)
    ensures MaxFilled(ds, n) == 0.0
  {
    if n > 0 {
      NoFillsNoMax(ds, n - 1);
    }
  }

  lemma {:induction false} StopsBelow(ds: seq<Deal>, over: real, n: nat)
    requires n <= |ds| && over > 0.0 && SyncFrom(ds, over, n).stopped
    ensures SyncFrom(ds, over, n).over < over * 0.001
  {
    if n > 0 && SyncFrom(ds, over, n - 1).stopped {
      StopsBelow(ds, over, n - 1);
    }
  }

  /** The loop cuts order `k`, and the rest of the surplus exceeds what the later orders hold by more than `bound`. */
  ghost predicate LeavesMore(ds: seq<Deal>, over: real, bound: real, k: nat)
    requires k < |ds|
  {
    IsCut(ds, over, k) && Retained(ds[k], SyncFrom(ds, over, k).over) - OpenHold(ds, k + 1, |ds|) > bound
  }

  lemma MoreFromCut(ds: seq<Deal>, over: real, bound: real) returns (k: nat)
    requires AllRegular(ds) && 0.0 < over <= TotalHold(ds, |ds|) && bound >= over * 0.001
    requires bound >= |ds| as real * AMT_DUST && SyncFrom(ds, over, |ds|).over > bound
    ensures k < |ds| && LeavesMore(ds, over, bound, k)
    ensures SyncFrom(ds, over, |ds|).over <= ExitFilled(ds[k])
  {
    if SyncFrom(ds, over, |ds|).stopped {
      StopsBelow(ds, over, |ds|);
    }
    k := LastCut(ds, over, |ds|);
  }

  /**
   * More than the bound is left, if and only if some cut leaves more than that of exit fills and the later orders
   * hold.
   */
  lemma LeavesMoreExactly(ds: seq<Deal>, position: real, over: real, bound: real)
    requires AllRegular(ds) && position >= 0.0 && over == TotalHold(ds, |ds|) - position > 0.0
    requires bound == DustBound(ds, over)
    ensures SyncFrom(ds, over, |ds|).over > bound <==> exists k :: 0 <= k < |ds| && LeavesMore(ds, over, bound, k)
  {
    if k :| 0 <= k < |ds| && LeavesMore(ds, over, bound, k) {
      ClosesTail(ds, over, bound, k, |ds|);
    }
    if SyncFrom(ds, over, |ds|).over > bound {
      var k := MoreFromCut(ds, over, bound);
    }
  }

  // ---------------------------------------------------------------- the first cut, by amounts and fills alone

  /** Order `k` is the first one that holds more than what is left of the surplus behind the orders before it. */
  ghost predicate FirstCut(ds: seq<Deal>, over: real, k: nat)
    requires k < |ds|
  {
    && over - OpenHold(ds, 0, k) >= over * 0.001 && Outweighs(ds, over, k)
    && forall j :: 0 <= j < k ==> !Outweighs(ds, over, j)
  }

  ghost predicate Outweighs(ds: seq<Deal>, over: real, k: nat)
    requires k < |ds|
  {
    HoldOf(ds[k]) >= AMT_DUST && HoldOf(ds[k]) > (over - OpenHold(ds, 0, k)) * 1.01
  }

  /** Before the first cut each order is closed whole or left as dust. */
  lemma {:induction false} UncutSurplus(ds: seq<Deal>, over: real, k: nat)
    requires k <= |ds| && over > 0.0 && forall j :: 0 <= j < k ==> !Outweighs(ds, over, j)
    requires over - OpenHold(ds, 0, k) >= over * 0.001
    ensures SyncFrom(ds, over, k) == Sync(over - OpenHold(ds, 0, k), false)
  {
    if k > 0 {
      UncutSurplus(ds, over, k - 1);
      assert !Outweighs(ds, over, k - 1);
    }
  }

  lemma {:induction false} UncutOutweighs(ds: seq<Deal>, over: real, k: nat)
    requires k <= |ds| && over > 0.0 && !SyncFrom(ds, over, k).stopped && forall j :: 0 <= j < k ==> !IsCut(ds, over, j)
    ensures SyncFrom(ds, over, k).over == over - OpenHold(ds, 0, k)
    ensures forall j :: 0 <= j < k ==> !Outweighs(ds, over, j)
  {
    if k > 0 {
      UncutOutweighs(ds, over, k - 1);
      assert !IsCut(ds, over, k - 1);
    }
  }

  /** The first order that is cut is determined by what the orders hold, and so is what it is cut by. */
  lemma FirstCutExactly(ds: seq<Deal>, over: real, k: nat)
    requires k < |ds| && over > 0.0
    ensures FirstCut(ds, over, k) <==> IsCut(ds, over, k) && forall j :: 0 <= j < k ==> !IsCut(ds, over, j)
    ensures FirstCut(ds, over, k) ==> SyncFrom(ds, over, k).over == over - OpenHold(ds, 0, k)
  {
    if FirstCut(ds, over, k) {
      UncutSurplus(ds, over, k);
      forall j | 0 <= j < k ensures !IsCut(ds, over, j) {
        OpenGrows(ds, j, k);
        UncutSurplus(ds, over, j);
        assert !Outweighs(ds, over, j);
      }
    }
    if IsCut(ds, over, k) && forall j :: 0 <= j < k ==> !IsCut(ds, over, j) {
      UncutOutweighs(ds, over, k);
    }
  }

  lemma {:induction false} OpenGrows(ds: seq<Deal>, j: nat, k: nat)
    requires j <= k <= |ds|
    ensures OpenHold(ds, 0, j) <= OpenHold(ds, 0, k)
    decreases k
  {
    if j < k {
      OpenGrows(ds, j, k - 1);
    }
  }

  /** A cut that retains nothing ends the loop, so that no other order is cut. */
  lemma CutEnds(ds: seq<Deal>, over: real, j: nat, k: nat)
    requires j < k < |ds| && over > 0.0 && IsCut(ds, over, j) && ExitFilled(ds[j]) == 0.0
    ensures !IsCut(ds, over, k)
  {
    CutLeaves(ds, over, j);
    if k > j + 1 {
      StaysStopped(ds, over, j + 2, k);
    }
  }

  /**
   * With one partly filled exit, more than the bound is left, if and only if its order is the first one that outweighs
   * the surplus, and its exit fills that go with the part exceed what the later orders hold by more than the bound.
   */
  lemma OneFilledExactly(ds: seq<Deal>, position: real, over: real, bound: real, k: nat)
    requires AllRegular(ds) && position >= 0.0 && over == TotalHold(ds, |ds|) - position > 0.0
    requires bound == DustBound(ds, over) && k < |ds|
    requires forall j :: 0 <= j < |ds| && j != k ==> ExitFilled(ds[j]) == 0.0
    ensures SyncFrom(ds, over, |ds|).over > bound <==>
      && FirstCut(ds, over, k)
      && Retained(ds[k], over - OpenHold(ds, 0, k)) - OpenHold(ds, k + 1, |ds|) > bound
  {
    LeavesMoreExactly(ds, position, over, bound);
    FirstCutExactly(ds, over, k);
    if SyncFrom(ds, over, |ds|).over > bound {
      var i :| 0 <= i < |ds| && LeavesMore(ds, over, bound, i);
      assert i == k;
      forall j | 0 <= j < k ensures !IsCut(ds, over, j) {
        if IsCut(ds, over, j) {
          CutEnds(ds, over, j, k);
        }
      }
    } else if FirstCut(ds, over, k) {
      assert !LeavesMore(ds, over, bound, k);
    }
  }

  /**
   * The surplus that is left, for orders of any sizes and fills: no less than -1% of the first one, and no more than
   * 0.1% of it, the dust of all orders or the largest fill of an exit; so without such fills no more than the first
   * two.
   */
  lemma SurplusBound(ds: seq<Deal>, position: real)
    requires AllRegular(ds) && position >= 0.0 && TotalHold(ds, |ds|) > position
    ensures var over := TotalHold(ds, |ds|) - position;
      var left := SyncFrom(ds, over, |ds|).over;
      && -0.01 * over <= left <= MaxReal(DustBound(ds, over), MaxFilled(ds, |ds|))
      && (NoExitFills(ds) ==> left <= DustBound(ds, over))
  {
    var over := TotalHold(ds, |ds|) - position;
    NeverFarBelow(ds, over, |ds|);
    if NoExitFills(ds) {
      NoFillsNoMax(ds, |ds|);
    }
    if SyncFrom(ds, over, |ds|).over > DustBound(ds, over) {
      var k := MoreFromCut(ds, over, DustBound(ds, over));
    }
  }

  /**
   * With a partly filled exit the upper bound fails: here the part that is cut off is the one that has already left.
   */
  lemma PartlyFilledExitStays(d: Deal)
    requires d == Deal(ExOrder(10.0, 10.0, 0.0, 0.0), Some(ExOrder(10.0, 5.0, 0.0, 0.0)), "")
    ensures Regular(d) && TotalHold([d], 1) == 5.0 && SyncFrom([d], 4.0, 1).over == 4.0
  {
    CutHold(d, 4.0);
    assert TotalHold([d], 0) == 0.0;
    assert SyncFrom([d], 4.0, 0) == Sync(4.0, false);
  }

  // ---------------------------------------------------------------- the orders themselves

  lemma {:induction false} HoldSame(ds: seq<Deal>, es: seq<Deal>, n: nat)
    requires n <= |ds| && n <= |es| && (forall k :: 0 <= k < n ==> HoldOf(ds[k]) == HoldOf(es[k]))
    ensures TotalHold(ds, n) == TotalHold(es, n)
  {
    if n > 0 {
      HoldSame(ds, es, n - 1);
    }
  }

  /** One order gains or loses what it holds; the others stay. */
  lemma {:induction false} HoldChange(ds: seq<Deal>, es: seq<Deal>, j: nat, n: nat)
    requires j < n <= |ds| && n <= |es| && (forall k :: 0 <= k < n && k != j ==> HoldOf(ds[k]) == HoldOf(es[k]))
    ensures TotalHold(es, n) == TotalHold(ds, n) - HoldOf(ds[j]) + HoldOf(es[j])
  {
    if j < n - 1 {
      HoldChange(ds, es, j, n - 1);
    } else {
      HoldSame(ds, es, j);
    }
  }

  method LocalAmount(ods: seq<InOutOrder>) returns (localAmt: real, maxEntMS: int)
    ensures localAmt == TotalHold(Deals(ods), |ods|)
    ensures maxEntMS >= 0 && (forall k :: 0 <= k < |ods| ==> ods[k].realEnterMS <= maxEntMS)
    ensures maxEntMS == 0 || exists k :: 0 <= k < |ods| && ods[k].realEnterMS == maxEntMS
  {
    localAmt, maxEntMS := 0.0, 0;
    for k := 0 to |ods|
      invariant localAmt == TotalHold(Deals(ods), k)
      invariant maxEntMS >= 0 && (forall j :: 0 <= j < k ==> ods[j].realEnterMS <= maxEntMS)
      invariant maxEntMS == 0 || exists j :: 0 <= j < k && ods[j].realEnterMS == maxEntMS
    {
      var amount := ods[k].HoldAmount();
      localAmt := localAmt + amount;
      maxEntMS := Max(maxEntMS, ods[k].realEnterMS);
    }
  }

  /** An order that is closed holds nothing any more; of one that holds clearly more, the rest of the cut is left. */
  ghost predicate ClosedDown(now: Deal, was: Deal, over: real) {
    if HoldOf(was) > over * 1.01 then CanCut(was) && now == RestDeal(was, over, 0.0)
    else
      && now.enter == was.enter && now.exit.Some? && HoldOf(now) == 0.0
      && (was.exit.Some? ==> ExitAmount(now) == ExitAmount(was))
  }

  /** How an order is left, with the surplus `s` at the time when the loop comes to it. */
  ghost predicate Treated(now: Deal, was: Deal, s: Sync, least: real) {
    if s.stopped || s.over < least || HoldOf(was) < AMT_DUST then now == was else ClosedDown(now, was, s.over)
  }

  /** How many of the first `n` orders are closed or cut. */
  function Closings(ds: seq<Deal>, over: real, n: nat): nat
    requires n <= |ds|
  {
    if n == 0 then 0
    else
      var s := SyncFrom(ds, over, n - 1);
      Closings(ds, over, n - 1)
      + if s.stopped || s.over < over * 0.001 || HoldOf(ds[n - 1]) < AMT_DUST then 0 else 1
  }

  ghost predicate TreatedAt(ds: seq<Deal>, es: seq<Deal>, over: real, k: nat)
    requires k < |ds| == |es|
  {
    Treated(es[k], ds[k], SyncFrom(ds, over, k), over * 0.001)
  }

  /** The first `n` orders are as the loop leaves them, and the other ones as they were. */
  ghost predicate AllTreated(ds: seq<Deal>, es: seq<Deal>, over: real, n: nat)
    requires n <= |ds| == |es|
  {
    && (forall k :: 0 <= k < n ==> TreatedAt(ds, es, over, k))
    && (forall k :: n <= k < |ds| ==> es[k] == ds[k])
  }

  lemma NoneTreated(ds: seq<Deal>, over: real)
    ensures AllTreated(ds, ds, over, 0)
  {
  }

  lemma OneTreated(ds: seq<Deal>, es: seq<Deal>, now: Deal, over: real, i: nat)
    requires i < |ds| == |es| && AllTreated(ds, es, over, i)
    requires Treated(now, ds[i], SyncFrom(ds, over, i), over * 0.001)
    ensures AllTreated(ds, es[i := now], over, i + 1)
  {
    hide Treated, SyncFrom;
    var fs := es[i := now];
    forall k | 0 <= k <= i ensures TreatedAt(ds, fs, over, k) {
      if k < i {
        assert TreatedAt(ds, es, over, k);
      }
    }
  }

  /** An order at which too little is left, or a later one, stays as it was. */
  lemma StaysUntreated(ds: seq<Deal>, es: seq<Deal>, over: real, i: nat, k: nat)
    requires i <= k < |ds| == |es| && es[k] == ds[k]
    requires !SyncFrom(ds, over, i).stopped && SyncFrom(ds, over, i).over < over * 0.001
    ensures TreatedAt(ds, es, over, k)
  {
    hide HoldOf, CloseAmount, ClosedDown;
    if k > i {
      StaysStopped(ds, over, i + 1, k);
    }
  }

  lemma {:induction false} NoMoreClosings(ds: seq<Deal>, over: real, i: nat, n: nat)
    requires i <= n <= |ds|
    requires i < n ==> !SyncFrom(ds, over, i).stopped && SyncFrom(ds, over, i).over < over * 0.001
    ensures Closings(ds, over, n) == Closings(ds, over, i)
    decreases n
  {
    hide HoldOf, CloseAmount;
    if i < n {
      NoMoreClosings(ds, over, i, n - 1);
      if i < n - 1 {
        StaysStopped(ds, over, i + 1, n - 1);
      }
    }
  }

  lemma RestTreated(ds: seq<Deal>, es: seq<Deal>, over: real, i: nat)
    requires i < |ds| == |es| && AllTreated(ds, es, over, i)
    requires !SyncFrom(ds, over, i).stopped && SyncFrom(ds, over, i).over < over * 0.001
    ensures AllTreated(ds, es, over, |ds|)
  {
    hide TreatedAt, SyncFrom;
    forall k | i <= k < |ds| ensures TreatedAt(ds, es, over, k) {
      StaysUntreated(ds, es, over, i, k);
    }
  }

  /** Closes an order, or the surplus cut off from it. */
  method CloseOne(od: InOutOrder, over: real, curMS: int) returns (part: InOutOrder, closeAmt: real)
    requires Regular(od.State()) && over > 0.0
    modifies od
    ensures part == od || fresh(part)
    ensures HoldOf(part.State()) == 0.0
    ensures closeAmt == CloseAmount(old(od.State()), over)
    ensures HoldOf(od.State()) == old(HoldOf(od.State())) - closeAmt
    ensures ClosedDown(od.State(), old(od.State()), over)
  {
    var odAmt := od.HoldAmount();
    part := od;
    if odAmt > over * 1.01 {
      CutHold(od.State(), over);
      part := od.CutPart(over, 0.0);
    }
    closeAmt := part.HoldAmount();
    part.LocalExit(curMS, EXIT_TAG_NO_MATCH);
  }

  /**
   * The orders are in the states `es`, from `i` on as in `ds`; none of those is closed yet, and closed orders hold
   * nothing.
   */
  ghost predicate Halfway(ods: seq<InOutOrder>, closed: seq<InOutOrder>, ds: seq<Deal>, es: seq<Deal>, i: nat)
    reads ods, closed
  {
    && |ds| == |es| == |ods|
    && (forall k :: 0 <= k < |ods| ==> ods[k].State() == es[k])
    && (forall k :: i <= k < |ods| ==> es[k] == ds[k])
    && (forall c :: c in closed ==> HoldOf(c.State()) == 0.0)
    && (forall c, k :: c in closed && i <= k < |ods| ==> ods[k] != c)
  }

  /** The same for one order of a list, which then holds less by what is closed. */
  method CloseAt(ods: seq<InOutOrder>, i: nat, over: real, curMS: int, ghost closed: seq<InOutOrder>,
      ghost ds: seq<Deal>, ghost es: seq<Deal>)
      returns (part: InOutOrder, closeAmt: real, ghost fs: seq<Deal>)
    requires i < |ods| && Distinct(ods) && Halfway(ods, closed, ds, es, i) && Regular(ds[i]) && over > 0.0
    modifies ods[i]
    ensures Halfway(ods, closed + [part], ds, fs, i + 1)
    ensures closeAmt == CloseAmount(ds[i], over)
    ensures TotalHold(fs, |fs|) == TotalHold(es, |es|) - closeAmt
    ensures fs == es[i := ods[i].State()] && ClosedDown(ods[i].State(), ds[i], over)
  {
    part, closeAmt := CloseOne(ods[i], over, curMS);
    fs := es[i := ods[i].State()];
    HoldChange(es, fs, i, |es|);
  }

  /** The loop below has come to order `i`, and goes on. */
  ghost predicate Syncing(ds: seq<Deal>, es: seq<Deal>, over: real, left: real, i: nat, position: real)
    requires i <= |ds|
  {
    SyncFrom(ds, over, i) == Sync(left, false) && TotalHold(es, |es|) == position + left
  }

  /** One turn of the loop below. */
  method SyncOne(ods: seq<InOutOrder>, i: nat, overAmt: real, curMS: int, closed: seq<InOutOrder>,
                 ghost ds: seq<Deal>, ghost es: seq<Deal>, ghost over: real, ghost position: real)
      returns (left: real, closed': seq<InOutOrder>, ghost fs: seq<Deal>)
    requires i < |ods| && Distinct(ods) && Halfway(ods, closed, ds, es, i) && Regular(ds[i])
    requires i < |ds| && overAmt >= over * 0.001 > 0.0 && Syncing(ds, es, over, overAmt, i, position)
    modifies ods[i]
    ensures Halfway(ods, closed', ds, fs, i + 1)
    ensures Syncing(ds, fs, over, left, i + 1, position)
    ensures |closed'| == |closed| + if HoldOf(ds[i]) < AMT_DUST then 0 else 1
    ensures fs == es[i := fs[i]] && Treated(fs[i], ds[i], Sync(overAmt, false), over * 0.001)
  {
    left, closed', fs := overAmt, closed, es;
    var odAmt := ods[i].HoldAmount();
    if odAmt >= AMT_DUST {
      var part, closeAmt;
      part, closeAmt, fs := CloseAt(ods, i, overAmt, curMS, closed, ds, es);
      left := overAmt - closeAmt;
      closed' := closed + [part];
    }
  }

  /** Closes local orders of one side of a symbol until they match the position. */
  method SyncLocalOrders(ods: seq<InOutOrder>, posAmt: real, curMS: int) returns (closed: seq<InOutOrder>)
    requires posAmt >= 0.0 && AllRegular(Deals(ods)) && Distinct(ods)
    modifies ods
    ensures var ds := old(Deals(ods));
      var local := TotalHold(ds, |ods|);
      var acts := local > posAmt * 1.02 && (curMS >= 20000 && forall k :: 0 <= k < |ods| ==>
        curMS - ods[k].realEnterMS >= 20000);
      && (acts ==> TotalHold(Deals(ods), |ods|) == posAmt + SyncFrom(ds, local - posAmt, |ods|).over)
      && (acts ==> AllTreated(ds, Deals(ods), local - posAmt, |ods|))
      && |closed| == (if acts then Closings(ds, local - posAmt, |ods|) else 0)
      && (!acts ==> Deals(ods) == ds && TotalHold(Deals(ods), |ods|) == local)
    ensures forall c :: c in closed ==> HoldOf(c.State()) == 0.0
  {
    hide AllTreated, Treated, ClosedDown, TotalHold, SyncFrom, HoldOf, Regular, Closings;
    closed := [];
    var localAmt, maxEntMS := LocalAmount(ods);
    if curMS - maxEntMS < SETTLE_MS || localAmt <= posAmt * 1.02 {
      return;
    }
    ghost var ds, es := Deals(ods), [];
    closed, es := CloseSurplus(ods, posAmt, localAmt, curMS, ds);
    assert Deals(ods) == es;
  }

  method CloseSurplus(ods: seq<InOutOrder>, posAmt: real, localAmt: real, curMS: int, ghost ds: seq<Deal>)
      returns (closed: seq<InOutOrder>, ghost es: seq<Deal>)
    requires Distinct(ods) && Halfway(ods, [], ds, ds, 0) && AllRegular(ds)
    requires localAmt == TotalHold(ds, |ds|) && localAmt > posAmt
    modifies ods
    ensures TotalHold(es, |es|) == posAmt + SyncFrom(ds, localAmt - posAmt, |ds|).over
    ensures Halfway(ods, closed, ds, es, |ods|) && AllTreated(ds, es, localAmt - posAmt, |ds|)
    ensures |closed| == Closings(ds, localAmt - posAmt, |ds|)
  {
    hide AllTreated, Treated, ClosedDown, HoldOf, TotalHold, CloseAmount;
    ghost var over := localAmt - posAmt;
    var overAmt := localAmt - posAmt;
    var dustAmt := overAmt * 0.001;
    closed, es := [], ds;
    NoneTreated(ds, over);
    for i := 0 to |ods|
      invariant Halfway(ods, closed, ds, es, i)
      invariant Syncing(ds, es, over, overAmt, i, posAmt)
      invariant AllTreated(ds, es, over, i) && |closed| == Closings(ds, over, i)
    {
      if overAmt < dustAmt {
        RestTreated(ds, es, over, i);
        NoMoreClosings(ds, over, i, |ds|);
        StaysStopped(ds, over, i + 1, |ods|);
        return;
      }
      ghost var before := es;
      overAmt, closed, es := SyncOne(ods, i, overAmt, curMS, closed, ds, es, over, posAmt);
      OneTreated(ds, before, es[i], over, i);
    }
  }

  lemma {:induction false} StaysStopped(ds: seq<Deal>, over: real, m: nat, n: nat)
    requires m <= n <= |ds| && SyncFrom(ds, over, m).stopped
    ensures SyncFrom(ds, over, n) == SyncFrom(ds, over, m)
    decreases n
  {
    if m < n {
      StaysStopped(ds, over, m, n - 1);
    }
  }
}
