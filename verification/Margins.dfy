/** The margins of all open contracts, renewed on every bar; unused profit is spent on them first. */
module Margins {
  import opened Bars
  import opened Wallet

  /** An open contract order with the current price; `minMargin` is missing when the exchange cannot compute it. */
  datatype Position = Position(key: string, profit: real, filled: real, price: real, average: real,
                               leverage: real, short: bool, minMargin: Option<real>)

  /** The least loss of a wallet, as a share of its total, at which it is liquidated. */
  const LIQUIDATION_RATIO: real := 0.99

  predicate Against(p: Position) {
    (p.price - p.average) * (if p.short then -1.0 else 1.0) < 0.0 && p.profit < 0.0
  }

  /** The exchange is asked only about a losing position whose price moved against it. */
  predicate Fails(p: Position) {
    p.filled != 0.0 && Against(p) && p.minMargin.None?
  }

  /** The margin a position needs; a loss that eats up the initial margin is added to it. */
  function Need(p: Position, addRate: real): real
    requires p.leverage != 0.0
  {
    var margin := p.filled * p.price / p.leverage;
    if Against(p) && p.minMargin.Some? && -p.profit >= (margin - p.minMargin.value) * addRate then
      margin - p.profit
    else margin
  }

  // ---------------------------------------------------------------- the margin in terms of the nominal value

  /** A loss, while the price is on the losing side of the average. */
  predicate Losing(p: Position) {
    p.profit < 0.0 && if p.short then p.price > p.average else p.price < p.average
  }

  /**
   * The loss times the leverage reaches the share `addRate` of what the nominal value exceeds the least margin times
   * the
   * leverage by.
   */
  predicate LossAdded(p: Position, addRate: real, value: real) {
    && Losing(p) && p.minMargin.Some?
    && -p.profit * p.leverage >= (value - p.minMargin.value * p.leverage) * addRate
  }

  lemma LosingIsAgainst(p: Position)
    ensures Against(p) <==> Losing(p)
  {
  }

  lemma ShareScales(margin: real, least: real, rate: real, loss: real, leverage: real, value: real)
    requires leverage > 0.0 && margin * leverage == value
    ensures loss >= (margin - least) * rate <==> loss * leverage >= (value - least * leverage) * rate
  {
    var x := (margin - least) * rate;
    assert x * leverage == (margin * leverage - least * leverage) * rate;
    if loss >= x {
      assert (loss - x) * leverage >= 0.0;
    } else {
      assert (x - loss) * leverage > 0.0;
    }
  }

  /** Times the leverage a margin is the nominal value, with exactly the loss added, if and only if that is due. */
  lemma NeedExactly(p: Position, addRate: real, value: real)
    requires p.leverage > 0.0 && value == p.filled * p.price
    ensures var need := Need(p, addRate);
      && (need * p.leverage == value <==> !LossAdded(p, addRate, value))
      && ((need + p.profit) * p.leverage == value <==> LossAdded(p, addRate, value) || p.profit == 0.0)
  {
    var margin := value / p.leverage;
    assert margin * p.leverage == value;
    LosingIsAgainst(p);
    if p.minMargin.Some? {
      ShareScales(margin, p.minMargin.value, addRate, -p.profit, p.leverage, value);
    }
    SamePoint(Need(p, addRate), margin, p.leverage);
    SamePoint(Need(p, addRate) + p.profit, margin, p.leverage);
  }

  lemma SamePoint(a: real, b: real, leverage: real)
    requires leverage > 0.0
    ensures a * leverage == b * leverage <==> a == b
  {
    if a * leverage == b * leverage {
      assert (a - b) * leverage == 0.0;
    }
  }

  /** What a position brings into the wallet's update: its profit, and the margin it needs if it holds anything. */
  datatype Claim = Claim(key: string, profit: real, holds: bool, need: real)

  function ClaimOf(p: Position, addRate: real): Claim
    requires p.leverage != 0.0
  {
    Claim(p.key, p.profit, p.filled != 0.0, if p.filled == 0.0 then 0.0 else Need(p, addRate))
  }

  ghost predicate Levered(ps: seq<Position>) {
    forall k :: 0 <= k < |ps| ==> ps[k].leverage != 0.0
  }

  function Claims(ps: seq<Position>, addRate: real): (cs: seq<Claim>)
    requires Levered(ps)
    ensures |cs| == |ps| && forall k :: 0 <= k < |ps| ==> cs[k] == ClaimOf(ps[k], addRate)
  {
    seq(|ps|, k requires 0 <= k < |ps| => ClaimOf(ps[k], addRate))
  }

  // ---------------------------------------------------------------- one update

  /** The figures that are summed over claims. */
  datatype Figure = Profit | Needed | Holds(frozens: map<string, real>)

  function Value(f: Figure, c: Claim): real {
    match f
    case Profit => c.profit
    case Needed => if c.holds then c.need else 0.0
    case Holds(frozens) => if c.holds then AmountAt(frozens, c.key) else 0.0
  }

  /** The sum of a figure over the first `n` claims. */
  function Tally(f: Figure, cs: seq<Claim>, n: nat): real
    requires n <= |cs|
  {
    if n == 0 then 0.0 else Tally(f, cs, n - 1) + Value(f, cs[n - 1])
  }

  /** The whole loss is compared with the wallet without profits; an empty wallet cannot bear any loss. */
  ghost predicate Liquidates(i: Item, profit: real) {
    profit < 0.0 && (TotalOf(i, false) == 0.0 || -profit / TotalOf(i, false) > LIQUIDATION_RATIO)
  }

  /** A wallet below zero is never liquidated. */
  lemma LiquidationBySign(i: Item, profit: real)
    requires profit < 0.0
    ensures TotalOf(i, false) > 0.0 ==> (Liquidates(i, profit) <==> -profit > LIQUIDATION_RATIO * TotalOf(i, false))
    ensures TotalOf(i, false) < 0.0 ==> !Liquidates(i, profit)
  {
    var t := TotalOf(i, false);
    if t != 0.0 {
      assert -profit / t * t == -profit;
    }
  }

  function Marked(i: Item, cs: seq<Claim>): Item {
    i.(upol := Tally(Profit, cs, |cs|), usedUpol := 0.0)
  }

  /** The wallet after the margins of the first `n` claims are set. */
  function After(i: Item, cs: seq<Claim>, n: nat): Item
    requires n <= |cs|
  {
    if n == 0 then i
    else
      var before := After(i, cs, n - 1);
      if cs[n - 1].holds then Margined(before, cs[n - 1].key, cs[n - 1].need) else before
  }

  // ---------------------------------------------------------------- the greedy use of profit in closed form

  ghost predicate DistinctKeys(cs: seq<Claim>) {
    forall j, k :: 0 <= j < k < |cs| && cs[j].holds && cs[k].holds ==> cs[j].key != cs[k].key
  }

  ghost predicate NoNegativeNeed(cs: seq<Claim>)
  {
    forall k :: 0 <= k < |cs| ==> Value(Needed, cs[k]) >= 0.0
  }

  /** None of the first `n` claims is refused its margin. */
  ghost predicate PaidFirst(i: Item, cs: seq<Claim>, n: nat)
    requires n <= |cs|
  {
    forall k :: 0 <= k < n && cs[k].holds ==> CanMargin(After(i, cs, k), cs[k].key, cs[k].need)
  }

  /** No claim is refused its margin. */
  ghost predicate AllPaid(i: Item, cs: seq<Claim>) {
    PaidFirst(i, cs, |cs|)
  }

  function Spent(need: real, profit: real): real {
    MinReal(need, MaxReal(0.0, profit))
  }

  lemma {:induction false} FrozenForOther(f: map<string, real>, g: map<string, real>, cs: seq<Claim>, n: nat)
    requires n <= |cs|
    requires forall k :: 0 <= k < n && cs[k].holds ==> AmountAt(f, cs[k].key) == AmountAt(g, cs[k].key)
    ensures Tally(Holds(f), cs, n) == Tally(Holds(g), cs, n)
  {
    if n > 0 {
      FrozenForOther(f, g, cs, n - 1);
    }
  }

  lemma {:induction false} NeedGrows(cs: seq<Claim>, n: nat)
    requires n <= |cs| && NoNegativeNeed(cs)
    ensures Tally(Needed, cs, n) >= 0.0
  {
    if n > 0 {
      NeedGrows(cs, n - 1);
    }
  }

  /** Positions that come later do not touch what is frozen for this one. */
  lemma {:induction false} Untouched(i: Item, cs: seq<Claim>, n: nat, key: string)
    requires n <= |cs|
    requires forall k :: 0 <= k < n && cs[k].holds ==> cs[k].key != key
    ensures AmountAt(After(i, cs, n).frozens, key) == AmountAt(i.frozens, key)
  {
    if n > 0 {
      Untouched(i, cs, n - 1, key);
    }
  }

  /** `s` is the wallet `i` after margins `need` were paid for positions that had `held` frozen. */
  ghost predicate Pays(i: Item, s: Item, need: real, held: real) {
    && s.upol == i.upol
    && s.usedUpol == Spent(need, i.upol)
    && s.available == i.available + held - (need - Spent(need, i.upol))
    && s.pendings == i.pendings && s.withdraw == i.withdraw
  }

  lemma PayMore(i: Item, s: Item, key: string, amount: real, need: real, held: real)
    requires need >= 0.0 && amount >= 0.0 && Pays(i, s, need, held) && CanMargin(s, key, amount)
    ensures Pays(i, Margined(s, key, amount), need + amount, held + AmountAt(s.frozens, key))
    ensures var own := amount - (Spent(need + amount, i.upol) - Spent(need, i.upol));
      Margined(s, key, amount).frozens == s.frozens[key := own]
  {
  }

  lemma {:induction false} GreedyPays(i: Item, cs: seq<Claim>, n: nat)
    requires n <= |cs| && DistinctKeys(cs) && i.usedUpol == 0.0
    requires NoNegativeNeed(cs) && PaidFirst(i, cs, n)
    ensures Pays(i, After(i, cs, n), Tally(Needed, cs, n), Tally(Holds(i.frozens), cs, n))
  {
    if n > 0 {
      GreedyPays(i, cs, n - 1);
      if cs[n - 1].holds {
        NeedGrows(cs, n - 1);
        Untouched(i, cs, n - 1, cs[n - 1].key);
        PayMore(i, After(i, cs, n - 1), cs[n - 1].key, Value(Needed, cs[n - 1]),
                Tally(Needed, cs, n - 1), Tally(Holds(i.frozens), cs, n - 1));
      }
    }
  }

  lemma {:induction false} GreedyFreezes(i: Item, cs: seq<Claim>, n: nat)
    requires n <= |cs| && DistinctKeys(cs) && i.usedUpol == 0.0
    requires NoNegativeNeed(cs) && PaidFirst(i, cs, n)
    ensures var need := Tally(Needed, cs, n);
      Tally(Holds(After(i, cs, n).frozens), cs, n) == need - Spent(need, i.upol)
  {
    if n > 0 {
      GreedyFreezes(i, cs, n - 1);
      if cs[n - 1].holds {
        GreedyPays(i, cs, n - 1);
        NeedGrows(cs, n - 1);
        PayMore(i, After(i, cs, n - 1), cs[n - 1].key, Value(Needed, cs[n - 1]),
                Tally(Needed, cs, n - 1), Tally(Holds(i.frozens), cs, n - 1));
        FrozenForOther(After(i, cs, n - 1).frozens, After(i, cs, n).frozens, cs, n - 1);
      }
    }
  }

  /** The sum over the positions tells everything: what profit pays, what stays frozen, and what is left available. */
  lemma GreedyClosedForm(i: Item, cs: seq<Claim>)
    requires DistinctKeys(cs) && NoNegativeNeed(cs) && AllPaid(Marked(i, cs), cs)
    ensures var s, n := After(Marked(i, cs), cs, |cs|), |cs|;
      var need, profit := Tally(Needed, cs, n), Tally(Profit, cs, n);
      && s.usedUpol == MinReal(need, MaxReal(0.0, profit))
      && Tally(Holds(s.frozens), cs, n) == need - s.usedUpol
      && s.available == i.available + Tally(Holds(i.frozens), cs, n) - (need - s.usedUpol)
      && s.upol == profit && s.pendings == i.pendings && s.withdraw == i.withdraw
  {
    GreedyPays(Marked(i, cs), cs, |cs|);
    GreedyFreezes(Marked(i, cs), cs, |cs|);
  }

  // ---------------------------------------------------------------- the order of the positions

  lemma {:induction false} TallyPrefix(f: Figure, cs: seq<Claim>, ds: seq<Claim>, n: nat)
    requires n <= |cs| && n <= |ds| && (forall j :: 0 <= j < n ==> cs[j] == ds[j])
    ensures Tally(f, cs, n) == Tally(f, ds, n)
  {
    if n > 0 {
      TallyPrefix(f, cs, ds, n - 1);
    }
  }

  /** Taking out one position takes out its share of a sum. */
  lemma {:induction false} TallyWithout(f: Figure, cs: seq<Claim>, k: nat, n: nat)
    requires k < n <= |cs|
    ensures var ds := cs[..k] + cs[k + 1..];
      |ds| == |cs| - 1 && Tally(f, cs, n) == Tally(f, ds, n - 1) + Value(f, cs[k])
  {
    if k < n - 1 {
      TallyWithout(f, cs, k, n - 1);
    } else {
      TallyPrefix(f, cs, cs[..k] + cs[k + 1..], k);
    }
  }

  lemma WithoutOne(cs: seq<Claim>, k: nat)
    requires k < |cs|
    ensures multiset(cs[..k] + cs[k + 1..]) == multiset(cs) - multiset{cs[k]}
  {
    assert cs == cs[..k] + [cs[k]] + cs[k + 1..];
  }

  lemma Find(p: Claim, cs: seq<Claim>) returns (k: nat)
    requires p in multiset(cs)
    ensures k < |cs| && cs[k] == p
  {
    k :| k < |cs| && cs[k] == p;
  }

  /** A sum over all positions does not depend on their order. */
  lemma {:induction false} TallyPermuted(f: Figure, cs: seq<Claim>, ds: seq<Claim>)
    requires multiset(cs) == multiset(ds)
    ensures |cs| == |ds| && Tally(f, cs, |cs|) == Tally(f, ds, |ds|)
    decreases |cs|
  {
    assert |cs| == |multiset(cs)| == |multiset(ds)| == |ds|;
    if |cs| > 0 {
      var n := |cs| - 1;
      assert cs[n] in multiset(cs);
      var k := Find(cs[n], ds);
      WithoutOne(cs, n);
      WithoutOne(ds, k);
      TallyPermuted(f, cs[..n] + cs[n + 1..], ds[..k] + ds[k + 1..]);
      TallyWithout(f, cs, n, |cs|);
      TallyWithout(f, ds, k, |ds|);
    }
  }

  /**
   * As long as no margin is refused, neither the profit spent nor the balance left depends on the order of the
   * positions.
   */
  lemma OrderIsIrrelevant(i: Item, cs: seq<Claim>, ds: seq<Claim>)
    requires multiset(cs) == multiset(ds)
    requires DistinctKeys(cs) && NoNegativeNeed(cs) && AllPaid(Marked(i, cs), cs)
    requires DistinctKeys(ds) && NoNegativeNeed(ds) && AllPaid(Marked(i, ds), ds)
    ensures var s, t := After(Marked(i, cs), cs, |cs|), After(Marked(i, ds), ds, |ds|);
      s.available == t.available && s.usedUpol == t.usedUpol && s.upol == t.upol
  {
    TallyPermuted(Profit, cs, ds);
    TallyPermuted(Needed, cs, ds);
    TallyPermuted(Holds(i.frozens), cs, ds);
    GreedyClosedForm(i, cs);
    GreedyClosedForm(i, ds);
  }

  ghost predicate NoNegativeHeld(i: Item, cs: seq<Claim>) {
    forall k :: 0 <= k < |cs| ==> Value(Holds(i.frozens), cs[k]) >= 0.0
  }

  /** The available balance alone covers what profit leaves of all margins. */
  ghost predicate Covers(i: Item, cs: seq<Claim>) {
    i.available >= Tally(Needed, cs, |cs|) - Spent(Tally(Needed, cs, |cs|), Tally(Profit, cs, |cs|))
  }

  lemma {:induction false} TallyOrdered(f: Figure, cs: seq<Claim>, m: nat, n: nat)
    requires m <= n <= |cs| && forall k :: 0 <= k < |cs| ==> Value(f, cs[k]) >= 0.0
    ensures Tally(f, cs, m) <= Tally(f, cs, n) && (m == 0 ==> Tally(f, cs, n) >= 0.0)
    decreases n
  {
    if m < n {
      TallyOrdered(f, cs, m, n - 1);
    }
  }

  lemma PaysNext(i: Item, s: Item, key: string, amount: real, need: real, held: real, total: real)
    requires need >= 0.0 && amount >= 0.0 && held >= 0.0 && Pays(i, s, need, held) && need + amount <= total
    requires AmountAt(s.frozens, key) >= 0.0 && i.available >= total - Spent(total, i.upol)
    ensures CanMargin(s, key, amount)
  {
  }

  /** Then no margin is refused, in whatever order. */
  lemma {:induction false} CoveredIsPaid(i: Item, cs: seq<Claim>, n: nat)
    requires n <= |cs| && DistinctKeys(cs) && NoNegativeNeed(cs) && NoNegativeHeld(i, cs) && Covers(i, cs)
    ensures PaidFirst(Marked(i, cs), cs, n)
  {
    if n > 0 {
      var marked := Marked(i, cs);
      CoveredIsPaid(i, cs, n - 1);
      GreedyPays(marked, cs, n - 1);
      TallyOrdered(Needed, cs, 0, n - 1);
      TallyOrdered(Needed, cs, n, |cs|);
      TallyOrdered(Holds(i.frozens), cs, 0, n - 1);
      if cs[n - 1].holds {
        Untouched(marked, cs, n - 1, cs[n - 1].key);
        assert Value(Holds(i.frozens), cs[n - 1]) >= 0.0 && Value(Needed, cs[n - 1]) >= 0.0;
        PaysNext(marked, After(marked, cs, n - 1), cs[n - 1].key, cs[n - 1].need, Tally(Needed, cs, n - 1),
                 Tally(Holds(i.frozens), cs, n - 1), Tally(Needed, cs, |cs|));
      }
    }
  }

  /**
   * A balance that covers the margins of the positions in one order covers them in every order, with the same result.
   */
  lemma CoveredInAnyOrder(i: Item, cs: seq<Claim>, ds: seq<Claim>)
    requires multiset(cs) == multiset(ds) && DistinctKeys(cs) && DistinctKeys(ds)
    requires NoNegativeNeed(cs) && NoNegativeHeld(i, cs) && Covers(i, cs)
    ensures AllPaid(Marked(i, cs), cs) && AllPaid(Marked(i, ds), ds)
    ensures var s, t := After(Marked(i, cs), cs, |cs|), After(Marked(i, ds), ds, |ds|);
      s.available == t.available && s.usedUpol == t.usedUpol && s.upol == t.upol
  {
    forall k | 0 <= k < |ds| ensures Value(Needed, ds[k]) >= 0.0 && Value(Holds(i.frozens), ds[k]) >= 0.0 {
      assert ds[k] in multiset(ds);
      var j := Find(ds[k], cs);
    }
    TallyPermuted(Profit, cs, ds);
    TallyPermuted(Needed, cs, ds);
    CoveredIsPaid(i, cs, |cs|);
    CoveredIsPaid(i, ds, |ds|);
    OrderIsIrrelevant(i, cs, ds);
  }

  /** When money is short, the order of the positions decides which of them is refused. */
  lemma ShortageDependsOnOrder(p: Claim, q: Claim, i: Item)
    requires p == Claim("a", 0.0, true, 5.0)
    requires q == Claim("b", 0.0, true, 5.0)
    requires i == Item(0.0, map[], map["a" := 10.0], 0.0, 0.0, 0.0)
    ensures multiset([p, q]) == multiset([q, p])
    ensures After(i, [p, q], 2).available == 0.0 && After(i, [q, p], 2).available == 5.0
  {
    assert After(i, [p, q], 1) == Item(5.0, map[], map["a" := 5.0], 0.0, 0.0, 0.0);
    assert After(i, [q, p], 1) == i;
  }

  /**
   * One update with one filled position, whose margin is `need`: profit pays first, and what it does not pay is frozen
   * if what was frozen before and the balance suffice; otherwise only profits are marked.
   */
  lemma OnePosition(i: Item, p: Position, addRate: real, value: real, need: real)
    requires p.leverage > 0.0 && p.filled != 0.0 && value == p.filled * p.price >= 0.0
    requires need * p.leverage == value + if LossAdded(p, addRate, value) then -p.profit * p.leverage else 0.0
    requires AmountAt(i.frozens, p.key) >= 0.0
    ensures var cs, own := [ClaimOf(p, addRate)], need - MinReal(need, MaxReal(0.0, p.profit));
      var s, held := After(Marked(i, cs), cs, 1), AmountAt(i.frozens, p.key);
      s == if own <= held + MaxReal(0.0, i.available) then
        i.(available := i.available + held - own, frozens := i.frozens[p.key := own], upol := p.profit,
           usedUpol := need - own)
      else i.(upol := p.profit, usedUpol := 0.0)
  {
    var cs := [ClaimOf(p, addRate)];
    NeedIs(p, addRate, value, need);
    assert Tally(Profit, cs, 0) == 0.0 && Tally(Profit, cs, 1) == p.profit;
    assert After(Marked(i, cs), cs, 0) == Marked(i, cs);
  }

  lemma NeedIs(p: Position, addRate: real, value: real, need: real)
    requires p.leverage > 0.0 && value == p.filled * p.price >= 0.0
    requires need * p.leverage == value + if LossAdded(p, addRate, value) then -p.profit * p.leverage else 0.0
    ensures need == Need(p, addRate) && need >= 0.0
  {
    NeedExactly(p, addRate, value);
    SamePoint(need, Need(p, addRate), p.leverage);
    if LossAdded(p, addRate, value) {
      SameSign(-p.profit, p.leverage);
    }
    SameSign(need, p.leverage);
  }

  lemma SameSign(a: real, leverage: real)
    requires leverage > 0.0
    ensures a >= 0.0 <==> a * leverage >= 0.0
  {
  }
}
