/** A withdrawal from all coins takes exactly the amount asked for, as far as there is that much. */
module Withdrawal {
  import opened Basics
  import opened Bars
  import opened Wallet
  import opened Wallets

  lemma {:induction false} DrawnOnce(s: map<string, Item>, coins: seq<string>, draws: seq<real>, n: nat)
    requires n <= |coins| == |draws| && (forall k :: 0 <= k < |coins| ==> coins[k] in s)
    requires forall j, k :: 0 <= j < k < |coins| ==> coins[j] != coins[k]
    ensures var t := AfterDraws(s, coins, draws, n);
      && (forall k :: 0 <= k < |coins| ==> t[coins[k]] == if k < n then Drawn(s[coins[k]], draws[k]) else s[coins[k]])
      && (forall c :: c in s && c !in coins ==> t[c] == s[c])
  {
    if n > 0 {
      DrawnOnce(s, coins, draws, n - 1);
    }
  }

  lemma ShareScales(available: real, price: real, total: real, amount: real)
    requires price > 0.0 && total > 0.0
    ensures available * price / total * amount / price == available * (amount / total)
  {
    var r := amount / total;
    assert r * total == amount;
    var v := available * price / total;
    assert v * total == available * price;
    var w := v * amount / price;
    assert w * price == v * amount;
    assert v * amount == (v * total) * r;
    assert w * price == (available * r) * price;
    SameFactor(w, available * r, price);
  }

  /** What is left of a coin is the same share for all of them. */
  lemma LeftShare(available: real, price: real, r: real)
    requires available >= 0.0 && r >= 0.0
    ensures var draw := MinReal(available * r, available);
      && draw == available * MinReal(r, 1.0)
      && 0.0 <= draw <= available
      && (available - draw) * price == available * price * (1.0 - MinReal(r, 1.0))
  {
    if r <= 1.0 {
      assert available * r <= available;
    } else {
      assert available * r >= available;
    }
  }

  ghost predicate Scaled(i: Item, j: Item, price: real, q: real) {
    j.available * price == i.available * price * q
  }

  /** Money moves from the balance to the withdrawals, and the balance stays above zero. */
  ghost predicate Draws(i: Item, j: Item) {
    j.available >= 0.0 && j.available + j.withdraw == i.available + i.withdraw && j.withdraw >= i.withdraw
  }

  lemma {:induction false} SumLeft(s: map<string, Item>, t: map<string, Item>, coins: seq<string>, prices: seq<real>,
      n: nat, q: real)
    requires n <= |coins| == |prices| && (forall k :: 0 <= k < n ==> coins[k] in s && coins[k] in t)
    requires forall k :: 0 <= k < n ==> Scaled(s[coins[k]], t[coins[k]], prices[k], q)
    ensures LegalSum(t, coins, prices, n) == LegalSum(s, coins, prices, n) * q
  {
    if n > 0 {
      SumLeft(s, t, coins, prices, n - 1, q);
    }
  }

  lemma CoinLeft(s: map<string, Item>, coins: seq<string>, prices: seq<real>, amount: real, k: nat, total: real,
      q: real)
    requires Priced(s, coins, prices) && k < |coins| && s[coins[k]].available >= 0.0
    requires total == LegalSum(s, coins, prices, |coins|) && total > 0.0 && amount >= 0.0
      && q == 1.0 - MinReal(amount / total, 1.0)
    ensures var i := s[coins[k]];
      var t := Drawn(i, Share(s, coins, prices, amount, k));
      Draws(i, t) && Scaled(i, t, prices[k], q)
  {
    ShareScales(s[coins[k]].available, prices[k], total, amount);
    RateNotNegative(amount, total);
    LeftShare(s[coins[k]].available, prices[k], amount / total);
  }

  lemma RateNotNegative(amount: real, total: real)
    requires amount >= 0.0 && total > 0.0
    ensures amount / total >= 0.0 && total * (1.0 - MinReal(amount / total, 1.0)) == total - MinReal(amount, total)
  {
    var r := amount / total;
    assert r * total == amount;
    if r > 1.0 {
      assert r * total > total;
    }
  }

  lemma LeftValue(total: real, amount: real, q: real, left: real)
    requires amount >= 0.0 && total > 0.0 && q == 1.0 - MinReal(amount / total, 1.0) && left == total * q
    ensures left == total - MinReal(amount, total)
  {
    RateNotNegative(amount, total);
  }

  lemma AllCoins(s: map<string, Item>, coins: seq<string>, prices: seq<real>, amount: real, total: real, q: real)
    requires Priced(s, coins, prices) && (forall k :: 0 <= k < |coins| ==> s[coins[k]].available >= 0.0)
    requires total == LegalSum(s, coins, prices, |coins|) && total > 0.0 && amount >= 0.0
      && q == 1.0 - MinReal(amount / total, 1.0)
    ensures var t := AfterDraws(s, coins, SharesOf(s, coins, prices, amount), |coins|);
      && (forall c :: c in s && c !in coins ==> t[c] == s[c])
      && (forall k :: 0 <= k < |coins| ==>
        Draws(s[coins[k]], t[coins[k]]) && Scaled(s[coins[k]], t[coins[k]], prices[k], q))
  {
    var draws := SharesOf(s, coins, prices, amount);
    DrawnOnce(s, coins, draws, |coins|);
    forall k | 0 <= k < |coins|
      ensures Draws(s[coins[k]], Drawn(s[coins[k]], draws[k]))
        && Scaled(s[coins[k]], Drawn(s[coins[k]], draws[k]), prices[k], q)
    {
      CoinLeft(s, coins, prices, amount, k, total, q);
    }
  }

  /**
   * The value of the coins falls by the amount, but not below zero, and every coin keeps its sum of balance and
   * withdrawal.
   */
  lemma WithdrawExact(s: map<string, Item>, coins: seq<string>, prices: seq<real>, amount: real)
    requires Priced(s, coins, prices) && (forall k :: 0 <= k < |coins| ==> s[coins[k]].available >= 0.0)
    requires LegalSum(s, coins, prices, |coins|) > 0.0 && amount >= 0.0
    ensures var t, total := AfterDraws(s, coins, SharesOf(s, coins, prices, amount), |coins|),
      LegalSum(s, coins, prices, |coins|);
      && LegalSum(t, coins, prices, |coins|) == total - MinReal(amount, total)
      && (forall c :: c in s && c !in coins ==> t[c] == s[c])
      && (forall k :: 0 <= k < |coins| ==> Draws(s[coins[k]], t[coins[k]]))
  {
    var t, total := AfterDraws(s, coins, SharesOf(s, coins, prices, amount), |coins|),
      LegalSum(s, coins, prices, |coins|);
    var q := 1.0 - MinReal(amount / total, 1.0);
    AllCoins(s, coins, prices, amount, total, q);
    SumLeft(s, t, coins, prices, |coins|, q);
    LeftValue(total, amount, q, LegalSum(t, coins, prices, |coins|));
  }
}
