/** The wallets of an account: one object for each coin, updated in place. */
module Wallets {
  import opened Basics
  import opened Bars
  import opened Wallet
  import opened Margins

  method SumOf(m: map<string, real>) returns (sum: real)
    ensures sum == Sum(m)
  {
    sum := 0.0;
    var left := m;
    while left.Keys != {}
      invariant sum + Sum(left) == Sum(m)
      decreases |left.Keys|
    {
      ghost var some := Element(left.Keys);
      var k :| k in left.Keys;
      SumWithout(left, k);
      SmallerWithout(left, k);
      sum := sum + left[k];
      left := left - {k};
    }
  }

  /** The same for what is reserved and for what is frozen. */
  method MoveShare(m: map<string, real>, srcKey: string, tgtKey: string, rate: real) returns (r: map<string, real>)
    ensures r == Moved(m, srcKey, tgtKey, rate)
  {
    r := m;
    if srcKey in m {
      var cutAmt := m[srcKey] * rate;
      r := r[tgtKey := (if tgtKey in r then r[tgtKey] else 0.0) + cutAmt];
      r := r[srcKey := r[srcKey] - cutAmt];
      assert r == MovedBy(m, srcKey, tgtKey, cutAmt);
    }
  }

  datatype Outcome = Updated | Liquidation | ExchangeFailed(at: nat)

  /** What an update reports: liquidation, or how many positions it got through. */
  ghost predicate Reports(i: Item, ps: seq<Position>, addRate: real, outcome: Outcome)
    requires Levered(ps)
  {
    var marked := Marked(i, Claims(ps, addRate));
    && outcome.Liquidation? == Liquidates(marked, marked.upol)
    && (outcome.Updated? ==> forall k :: 0 <= k < |ps| ==> !Fails(ps[k]))
    && (outcome.ExchangeFailed? ==>
          outcome.at < |ps| && Fails(ps[outcome.at]) && forall k :: 0 <= k < outcome.at ==> !Fails(ps[k]))
  }

  /** The wallet after an update with that report. */
  ghost function Renewed(i: Item, ps: seq<Position>, addRate: real, outcome: Outcome): Item
    requires Levered(ps) && Reports(i, ps, addRate, outcome)
  {
    var cs := Claims(ps, addRate);
    match outcome
    case Liquidation => EMPTY_ITEM.(withdraw := i.withdraw)
    case Updated => After(Marked(i, cs), cs, |ps|)
    case ExchangeFailed(n) => After(Marked(i, cs), cs, n)
  }

  /** The profits of the positions. */
  ghost function Profits(ps: seq<Position>): (xs: seq<real>)
    ensures |xs| == |ps| && forall k :: 0 <= k < |ps| ==> xs[k] == ps[k].profit
  {
    seq(|ps|, k requires 0 <= k < |ps| => ps[k].profit)
  }

  lemma {:induction false} ProfitIsSum(ps: seq<Position>, addRate: real, n: nat)
    requires Levered(ps) && n <= |ps|
    ensures Tally(Profit, Claims(ps, addRate), n) == SumReals(Profits(ps)[..n])
  {
    if n > 0 {
      ProfitIsSum(ps, addRate, n - 1);
      assert Profits(ps)[..n][..n - 1] == Profits(ps)[..n - 1];
    }
  }

  /** A filled position that loses, while the exchange does not say what its least margin is. */
  predicate Unknowable(p: Position) {
    p.filled != 0.0 && Losing(p) && p.minMargin.None?
  }

  predicate KnownBefore(ps: seq<Position>, n: nat)
    requires n <= |ps|
  {
    forall k :: 0 <= k < n ==> !Unknowable(ps[k])
  }

  /** The money that is not withdrawn is compared with the sum of the profits. */
  ghost predicate LosesAll(i: Item, ps: seq<Position>) {
    var money, profit := Ledger(i) - i.withdraw, SumReals(Profits(ps));
    profit < 0.0 && (money == 0.0 || (money > 0.0 && profit < -0.99 * money))
  }

  /**
   * An update liquidates the wallet if and only if the positions lose more than 99% of its money, or anything of an
   * empty one; otherwise it ends at the first position whose least margin it needs and is not told, if there is one.
   */
  lemma ReportsExactly(i: Item, ps: seq<Position>, addRate: real, outcome: Outcome)
    requires Levered(ps) && "*" !in i.pendings && "*" !in i.frozens
    ensures Reports(i, ps, addRate, outcome) <==>
      match outcome
      case Liquidation => LosesAll(i, ps)
      case Updated => !LosesAll(i, ps) && KnownBefore(ps, |ps|)
      case ExchangeFailed(n) => !LosesAll(i, ps) && n < |ps| && Unknowable(ps[n]) && KnownBefore(ps, n)
  {
    var cs := Claims(ps, addRate);
    var marked := Marked(i, cs);
    ProfitIsSum(ps, addRate, |ps|);
    assert Profits(ps)[..|ps|] == Profits(ps);
    TotalIsLedger(marked);
    if marked.upol < 0.0 {
      LiquidationBySign(marked, marked.upol);
    }
    forall k | 0 <= k < |ps| ensures Fails(ps[k]) <==> Unknowable(ps[k]) {
      LosingIsAgainst(ps[k]);
    }
  }

  /** Unless the wallet is liquidated, only the keys of filled positions change what is frozen. */
  lemma UnfilledStays(i: Item, ps: seq<Position>, addRate: real, outcome: Outcome, key: string)
    requires Levered(ps) && Reports(i, ps, addRate, outcome) && !outcome.Liquidation?
    requires forall k :: 0 <= k < |ps| && ps[k].filled != 0.0 ==> ps[k].key != key
    ensures AmountAt(Renewed(i, ps, addRate, outcome).frozens, key) == AmountAt(i.frozens, key)
  {
    var cs := Claims(ps, addRate);
    Untouched(Marked(i, cs), cs, if outcome.Updated? then |ps| else outcome.at, key);
  }

  /** A wallet forgets its profits as an update without positions would. */
  lemma ForgottenIsMarked(i: Item)
    ensures Forgotten(i) == Marked(i, []) && TotalOf(Forgotten(i), true) == TotalOf(i, false)
  {
  }

  class ItemWallet {
    const coin: string
    var available: real
    var pendings: map<string, real>
    var frozens: map<string, real>
    var upol: real
    var usedUpol: real
    var withdraw: real

    ghost function State(): Item
      reads this
    {
      Item(available, pendings, frozens, upol, usedUpol, withdraw)
    }

    constructor (code: string)
      ensures coin == code && State() == EMPTY_ITEM
    {
      coin := code;
      available, pendings, frozens, upol, usedUpol, withdraw := 0.0, map[], map[], 0.0, 0.0, 0.0;
    }

    method Used() returns (sum: real)
      ensures sum == Held(pendings) + Held(frozens)
    {
      sum := 0.0;
      if "*" in pendings {
        sum := sum + pendings["*"];
      } else {
        var part := SumOf(pendings);
        sum := sum + part;
      }
      if "*" in frozens {
        sum := sum + frozens["*"];
      } else {
        var part := SumOf(frozens);
        sum := sum + part;
      }
    }

    method Total(withUpol: bool) returns (sum: real)
      ensures sum == TotalOf(State(), withUpol)
    {
      sum := Used();
      sum := sum + available;
      if withUpol {
        sum := sum + upol;
      }
    }

    method SetMargin(key: string, required: real) returns (ok: bool)
      modifies this
      ensures ok == CanMargin(old(State()), key, required)
      ensures State() == Margined(old(State()), key, required)
    {
      var oldAmt := if key in frozens then frozens[key] else 0.0;
      var amount, avaUpol, upolCost := required, upol - usedUpol, 0.0;
      if avaUpol > 0.0 {
        usedUpol := usedUpol + amount;
        if usedUpol <= upol {
          if key in frozens {
            frozens := frozens - {key};
          }
          upolCost := amount;
          amount := 0.0;
        } else {
          var newAmount := usedUpol - upol;
          upolCost := amount - newAmount;
          amount := newAmount;
          usedUpol := upol;
        }
      }
      var addVal := amount - oldAmt;
      if addVal <= 0.0 {
        available := available - addVal;
      } else {
        if available < addVal {
          usedUpol := usedUpol - upolCost;
          MarginFailure(old(State()), key, required);
          return false;
        }
        available := available - addVal;
      }
      frozens := frozens[key := amount];
      assert frozens == old(frozens)[key := amount];
      return true;
    }

    method SetFrozen(key: string, amount: real, withAvailable: bool) returns (ok: bool)
      modifies this
      ensures ok == CanFreeze(old(State()), key, amount, withAvailable)
      ensures State() == Frozen(old(State()), key, amount, withAvailable)
    {
      var oldAmt := if key in frozens then frozens[key] else 0.0;
      var addVal := amount - oldAmt;
      if withAvailable {
        if addVal > 0.0 && available < addVal {
          return false;
        }
        available := available - addVal;
      } else {
        var pendVal := if key in pendings then pendings[key] else 0.0;
        if addVal > 0.0 && pendVal < addVal {
          return false;
        }
        pendings := pendings[key := pendVal - addVal];
      }
      frozens := frozens[key := amount];
      return true;
    }

    /** Empties the wallet; what was withdrawn stays. */
    method Reset()
      modifies this
      ensures State() == EMPTY_ITEM.(withdraw := old(withdraw))
    {
      available, upol, usedUpol := 0.0, 0.0, 0.0;
      frozens, pendings := map[], map[];
    }

    /** One update of all margins; it stops at the first position the exchange fails for. */
    method Update(ps: seq<Position>, addRate: real) returns (outcome: Outcome)
      requires Levered(ps)
      modifies this
      ensures Reports(old(State()), ps, addRate, outcome)
      ensures State() == Renewed(old(State()), ps, addRate, outcome)
    {
      ghost var cs := Claims(ps, addRate);
      var totProfit := 0.0;
      for k := 0 to |ps|
        invariant totProfit == Tally(Profit, cs, k)
      {
        totProfit := totProfit + ps[k].profit;
      }
      upol := totProfit;
      usedUpol := 0.0;
      ghost var marked := State();
      if totProfit < 0.0 {
        var total := Total(false);
        if total == 0.0 || -totProfit / total > LIQUIDATION_RATIO {
          Reset();
          return Liquidation;
        }
      }
      for k := 0 to |ps|
        invariant State() == After(marked, cs, k)
        invariant forall j :: 0 <= j < k ==> !Fails(ps[j])
      {
        if ps[k].filled != 0.0 {
          if Fails(ps[k]) {
            return ExchangeFailed(k);
          }
          var ok := SetMargin(ps[k].key, Need(ps[k], addRate));
        }
      }
      return Updated;
    }

    method Forget()
      modifies this
      ensures State() == Forgotten(old(State()))
    {
      upol := 0.0;
      usedUpol := 0.0;
    }

    method Draw(amount: real)
      modifies this
      ensures State() == Drawn(old(State()), amount)
    {
      var drawAmt := if available < amount then available else amount;
      withdraw := withdraw + drawAmt;
      available := available - drawAmt;
    }

    method CutPart(srcKey: string, tgtKey: string, rate: real)
      modifies this
      ensures State() == Split(old(State()), srcKey, tgtKey, rate)
    {
      pendings := MoveShare(pendings, srcKey, tgtKey, rate);
      frozens := MoveShare(frozens, srcKey, tgtKey, rate);
    }

    method Cost(key: string, amount: real, negative: bool, minRate: real) returns (cost: Option<real>)
      modifies this
      ensures cost == Affordable(old(State()), amount, negative, minRate)
      ensures State() == if cost.Some? then Reserved(old(State()), key, cost.value) else old(State())
    {
      var srcAmount := available;
      var realCost;
      if srcAmount >= amount || negative {
        realCost := amount;
      } else if amount != 0.0 && srcAmount / amount > minRate {
        realCost := srcAmount;
      } else {
        return None;
      }
      available := available - realCost;
      pendings := pendings[key := realCost];
      return Some(realCost);
    }

    method Take(key: string, srcAmount: real) returns (ok: bool)
      modifies this
      ensures ok == (key in old(pendings))
      ensures State() == if ok then Taken(old(State()), key, srcAmount) else old(State())
    {
      if key !in pendings {
        return false;
      }
      var leftPending := pendings[key] - srcAmount;
      pendings := pendings - {key};
      available := available + leftPending;
      return true;
    }

    method Give(key: string, tgtAmount: real, toFrozen: bool)
      modifies this
      ensures State() == Given(old(State()), key, tgtAmount, toFrozen)
    {
      if toFrozen {
        frozens := frozens[key := tgtAmount];
      } else {
        available := available + tgtAmount;
      }
    }

    method Release(key: string, addAmount: real, fromPending: bool)
      modifies this
      ensures State() == Released(old(State()), key, addAmount, fromPending)
    {
      var srcMap := if fromPending then pendings else frozens;
      var srcAmount := if key in srcMap then srcMap[key] else 0.0;
      if key in srcMap {
        if fromPending {
          pendings := pendings - {key};
        } else {
          frozens := frozens - {key};
        }
      }
      srcAmount := srcAmount + addAmount;
      available := available + srcAmount;
      assert key !in srcMap ==> srcMap == srcMap - {key};
    }
  }

  function EnterMargin(od: Contract, enterPrice: real): real
    requires od.leverage != 0.0
  {
    enterPrice * od.amount / od.leverage
  }

  function Lookup(s: map<string, Item>, code: string): Item {
    if code in s then s[code] else EMPTY_ITEM
  }

  /** A contract order as the wallet sees it. */
  datatype Contract = Contract(key: string, quote: string, leverage: real, amount: real, average: real,
      legalCost: real, fee: real)

  function EntryCost(od: Contract, marketPrice: real, quotePrice: real): real
    requires od.leverage != 0.0 && quotePrice != 0.0
  {
    LegalCost(od, marketPrice) / od.leverage / quotePrice
  }

  function LegalCost(od: Contract, marketPrice: real): real {
    if od.amount == 0.0 then od.legalCost
    else if od.average == 0.0 then od.amount * marketPrice
    else od.amount * od.average
  }

  method EntryAmount(od: Contract, marketPrice: real, quotePrice: real) returns (amount: real)
    requires od.leverage != 0.0 && quotePrice != 0.0
    ensures amount == EntryCost(od, marketPrice, quotePrice)
  {
    var legalCost;
    if od.amount != 0.0 {
      var price := od.average;
      if price == 0.0 {
        price := marketPrice;
      }
      legalCost := od.amount * price;
    } else {
      legalCost := od.legalCost;
    }
    assert legalCost == LegalCost(od, marketPrice);
    legalCost := legalCost / od.leverage;
    return legalCost / quotePrice;
  }

  /** The price an entry is expected at. */
  function ExpectedPrice(od: Contract, marketPrice: real): real {
    if od.average != 0.0 then od.average else marketPrice
  }

  /** What an entry reserves and what it costs when it is filled, in value and leverage. */
  lemma EntryInValue(od: Contract, marketPrice: real, quotePrice: real, enterPrice: real)
    requires od.leverage != 0.0 && quotePrice != 0.0
    ensures od.amount != 0.0 ==>
      EntryCost(od, marketPrice, quotePrice) * quotePrice * od.leverage == od.amount * ExpectedPrice(od, marketPrice)
    ensures od.amount == 0.0 ==> EntryCost(od, marketPrice, quotePrice) * quotePrice * od.leverage == od.legalCost
    ensures EnterMargin(od, enterPrice) * od.leverage == od.amount * enterPrice
  {
    var value, margin := LegalCost(od, marketPrice), LegalCost(od, marketPrice) / od.leverage;
    assert margin * od.leverage == value;
    assert EntryCost(od, marketPrice, quotePrice) * quotePrice == margin;
  }

  /** An order that has no amount gets what its reservation buys, so that its margin is what was reserved. */
  lemma CostBuysMargin(od: Contract, cost: real, enterPrice: real)
    requires od.leverage != 0.0 && enterPrice != 0.0 && od.amount == cost * od.leverage / enterPrice
    ensures EnterMargin(od, enterPrice) == cost
  {
    var value := cost * od.leverage;
    assert enterPrice * od.amount == value;
    assert value / od.leverage == cost;
  }

  /** An order that is reserved, filled, and closed, in a wallet that knows nothing of it. */
  ghost predicate Unknown(i: Item, key: string) {
    key !in i.pendings && key !in i.frozens
  }

  lemma ReservedThenOpened(i: Item, key: string, cost: real, margin: real, fee: real)
    requires Unknown(i, key)
    ensures Opened(Reserved(i, key, cost), key, margin, fee)
      == i.(available := i.available - margin, frozens := i.frozens[key := margin - fee])
  {
    assert i.pendings[key := cost] - {key} == i.pendings;
  }

  /**
   * Whatever was reserved for it, a filled entry takes its amount at the price it was filled at, divided by the
   * leverage, and all of it but the fee is frozen; closing it gives that back with the profit, and leaves no trace.
   */
  lemma EntryRoundTrip(i: Item, od: Contract, cost: real, enterPrice: real, profit: real)
    requires od.leverage != 0.0 && Unknown(i, od.key)
    ensures var filled := Opened(Reserved(i, od.key, cost), od.key, EnterMargin(od, enterPrice), od.fee);
      && (i.available - filled.available) * od.leverage == od.amount * enterPrice
      && filled.frozens == i.frozens[od.key := i.available - filled.available - od.fee]
      && Released(filled, od.key, profit + od.fee, false) == i.(available := i.available + profit)
  {
    var margin := EnterMargin(od, enterPrice);
    ReservedThenOpened(i, od.key, cost, margin, od.fee);
    EntryInValue(od, 0.0, 1.0, enterPrice);
    assert i.frozens[od.key := margin - od.fee] - {od.key} == i.frozens;
  }

  /** The coins whose balances are read: different ones, present, and with a price. */
  ghost predicate Priced(s: map<string, Item>, coins: seq<string>, prices: seq<real>) {
    && |coins| == |prices|
    && (forall k :: 0 <= k < |coins| ==> coins[k] in s && prices[k] > 0.0)
    && (forall j, k :: 0 <= j < k < |coins| ==> coins[j] != coins[k])
  }

  function LegalSum(s: map<string, Item>, coins: seq<string>, prices: seq<real>, n: nat): real
    requires n <= |coins| == |prices| && forall k :: 0 <= k < n ==> coins[k] in s
  {
    if n == 0 then 0.0 else LegalSum(s, coins, prices, n - 1) + s[coins[n - 1]].available * prices[n - 1]
  }

  ghost function Share(s: map<string, Item>, coins: seq<string>, prices: seq<real>, amount: real, k: nat): real
    requires Priced(s, coins, prices) && k < |coins| && LegalSum(s, coins, prices, |coins|) != 0.0
  {
    s[coins[k]].available * prices[k] / LegalSum(s, coins, prices, |coins|) * amount / prices[k]
  }

  ghost function SharesOf(s: map<string, Item>, coins: seq<string>, prices: seq<real>, amount: real): (draws: seq<real>)
    requires Priced(s, coins, prices) && LegalSum(s, coins, prices, |coins|) != 0.0
    ensures |draws| == |coins| && forall k :: 0 <= k < |coins| ==> draws[k] == Share(s, coins, prices, amount, k)
  {
    seq(|coins|, k requires 0 <= k < |coins| => Share(s, coins, prices, amount, k))
  }

  function AfterDraws(s: map<string, Item>, coins: seq<string>, draws: seq<real>, n: nat): (t: map<string, Item>)
    requires n <= |coins| == |draws| && forall k :: 0 <= k < |coins| ==> coins[k] in s
    ensures t.Keys == s.Keys
  {
    if n == 0 then s
    else
      var t := AfterDraws(s, coins, draws, n - 1);
      t[coins[n - 1] := Drawn(t[coins[n - 1]], draws[n - 1])]
  }

  /** The coins outside `left` have forgotten their profits. */
  ghost predicate Forgetting(was: map<string, Item>, now: map<string, Item>, left: set<string>) {
    && now.Keys == was.Keys
    && forall k :: k in now ==> now[k] == if k in left then was[k] else Forgotten(was[k])
  }

  lemma ForgetOne(was: map<string, Item>, now: map<string, Item>, left: set<string>, k: string)
    requires Forgetting(was, now, left) && k in left && k in now
    ensures Forgetting(was, now[k := Forgotten(now[k])], left - {k})
  {
  }

  lemma SetTwice(m: map<string, Item>, k: string, a: Item, b: Item)
    ensures m[k := a][k := b] == m[k := b]
  {
  }

  class BanWallets {
    var items: map<string, ItemWallet>

    /** Different coins have different wallet objects. */
    ghost predicate Valid()
      reads this
    {
      forall a, b :: a in items && b in items && items[a] == items[b] ==> a == b
    }

    ghost function State(): map<string, Item>
      reads this, items.Values
    {
      map k | k in items :: items[k].State()
    }

    constructor ()
      ensures Valid() && State() == map[]
    {
      items := map[];
    }

    method Get(code: string) returns (wallet: ItemWallet)
      requires Valid()
      modifies this
      ensures Valid() && code in items && items[code] == wallet
      ensures items == if code in old(items) then old(items) else old(items)[code := wallet]
      ensures code !in old(items) ==> fresh(wallet)
      ensures State() == old(State())[code := Lookup(old(State()), code)]
    {
      if code in items {
        wallet := items[code];
      } else {
        wallet := new ItemWallet(code);
        items := items[code := wallet];
      }
    }

    method CostIn(key: string, symbol: string, amount: real, negative: bool, minRate: real) returns (cost: Option<real>)
      requires Valid() && symbol in items
      modifies items[symbol]
      ensures cost == Affordable(old(State())[symbol], amount, negative, minRate)
      ensures State() == if cost.Some? then old(State())[symbol := Reserved(old(State())[symbol], key, cost.value)]
        else old(State())
    {
      cost := items[symbol].Cost(key, amount, negative, minRate);
    }

    method TakeIn(key: string, symbol: string, amount: real) returns (ok: bool)
      requires Valid() && symbol in items
      modifies items[symbol]
      ensures ok == (key in old(State())[symbol].pendings)
      ensures State() == if ok then old(State())[symbol := Taken(old(State())[symbol], key, amount)] else old(State())
    {
      ok := items[symbol].Take(key, amount);
    }

    method GiveIn(key: string, symbol: string, amount: real, toFrozen: bool)
      requires Valid() && symbol in items
      modifies items[symbol]
      ensures State() == old(State())[symbol := Given(old(State())[symbol], key, amount, toFrozen)]
    {
      items[symbol].Give(key, amount, toFrozen);
    }

    method CostAva(key: string, symbol: string, amount: real, negative: bool, minRate: real, minOpenRate: real)
        returns (cost: Option<real>)
      requires Valid()
      modifies this, items.Values
      ensures Valid() && fresh(items.Values - old(items.Values))
      ensures var i := Lookup(old(State()), symbol);
        && cost == Affordable(i, amount, negative, if minRate == 0.0 then minOpenRate else minRate)
        && State() == old(State())[symbol := if cost.Some? then Reserved(i, key, cost.value) else i]
    {
      var wallet := Get(symbol);
      cost := CostIn(key, symbol, amount, negative, if minRate == 0.0 then minOpenRate else minRate);
    }

    method ConfirmPending(key: string, srcKey: string, srcAmount: real, tgtKey: string, tgtAmount: real,
        toFrozen: bool) returns (ok: bool)
      requires Valid()
      modifies this, items.Values
      ensures Valid() && fresh(items.Values - old(items.Values))
      ensures ok == (srcKey in old(State()) && key in old(State())[srcKey].pendings)
      ensures ok ==>
        var s := old(State())[tgtKey := Lookup(old(State()), tgtKey)];
        var t := s[srcKey := Taken(s[srcKey], key, srcAmount)];
        State() == t[tgtKey := Given(t[tgtKey], key, tgtAmount, toFrozen)]
      ensures !ok ==> State() == if srcKey in old(State()) then old(State())[tgtKey := Lookup(old(State()), tgtKey)]
        else old(State())
    {
      if srcKey !in items {
        return false;
      }
      var tgt := Get(tgtKey);
      ok := TakeIn(key, srcKey, srcAmount);
      if ok {
        GiveIn(key, tgtKey, tgtAmount, toFrozen);
      }
    }

    method Cancel(key: string, symbol: string, addAmount: real, fromPending: bool)
      requires Valid()
      modifies items.Values
      ensures State() == if symbol !in old(State()) then old(State())
                         else old(State())[symbol := Released(old(State())[symbol], key, addAmount, fromPending)]
    {
      if symbol !in items {
        return;
      }
      items[symbol].Release(key, addAmount, fromPending);
    }

    method CutPart(srcKey: string, tgtKey: string, symbol: string, rate: real)
      requires Valid()
      modifies items.Values
      ensures State() == if symbol !in old(State()) then old(State())
                         else old(State())[symbol := Split(old(State())[symbol], srcKey, tgtKey, rate)]
    {
      if symbol !in items {
        return;
      }
      items[symbol].CutPart(srcKey, tgtKey, rate);
    }

    method ForgetIn(symbol: string)
      requires Valid() && symbol in items
      modifies items[symbol]
      ensures State() == old(State())[symbol := Forgotten(old(State())[symbol])]
    {
      items[symbol].Forget();
    }

    method UpdateAll()
      requires Valid()
      modifies items.Values
      ensures State().Keys == old(State()).Keys
      ensures forall k :: k in State() ==> State()[k] == Forgotten(old(State())[k])
    {
      var left := items.Keys;
      ghost var was := State();
      while left != {}
        invariant left <= items.Keys && Forgetting(was, State(), left)
        decreases left
      {
        ghost var some := Element(left);
        var k :| k in left;
        ForgetOne(was, State(), left, k);
        ForgetIn(k);
        left := left - {k};
      }
    }

    /** Renews the margins of the orders of one coin; without orders every coin forgets its profit. */
    method UpdateOds(ps: seq<Position>, currency: string, addRate: real) returns (outcome: Outcome)
      requires Valid() && Levered(ps)
      modifies this, items.Values
      ensures Valid() && fresh(items.Values - old(items.Values))
      ensures ps == [] ==> State().Keys == old(State()).Keys && forall k :: k in State() ==>
        State()[k] == Forgotten(old(State())[k])
      ensures ps != [] ==>
        var i := Lookup(old(State()), currency);
        Reports(i, ps, addRate, outcome) && State() == old(State())[currency := Renewed(i, ps, addRate, outcome)]
    {
      if |ps| == 0 {
        UpdateAll();
        outcome := Updated;
      } else {
        outcome := UpdateCoin(ps, currency, addRate);
      }
    }

    method UpdateCoin(ps: seq<Position>, currency: string, addRate: real) returns (outcome: Outcome)
      requires Valid() && Levered(ps)
      modifies this, items.Values
      ensures Valid() && fresh(items.Values - old(items.Values))
      ensures var i := Lookup(old(State()), currency);
        Reports(i, ps, addRate, outcome) && State() == old(State())[currency := Renewed(i, ps, addRate, outcome)]
    {
      ghost var was, i := State(), Lookup(State(), currency);
      var wallet := Get(currency);
      outcome := UpdateIn(ps, currency, addRate);
      SetTwice(was, currency, i, Renewed(i, ps, addRate, outcome));
    }

    method UpdateIn(ps: seq<Position>, symbol: string, addRate: real) returns (outcome: Outcome)
      requires Valid() && symbol in items && Levered(ps)
      modifies items[symbol]
      ensures var i := old(State())[symbol];
        Reports(i, ps, addRate, outcome) && State() == old(State())[symbol := Renewed(i, ps, addRate, outcome)]
    {
      outcome := items[symbol].Update(ps, addRate);
    }

    // -------------------------------------------------------------- the orders of contracts

    /** Reserves the margin of an entry in the coin the contract is settled in. */
    method EnterContract(od: Contract, marketPrice: real, quotePrice: real, minOpenRate: real)
        returns (cost: Option<real>)
      requires Valid() && od.leverage != 0.0 && quotePrice != 0.0
      modifies this, items.Values
      ensures Valid() && fresh(items.Values - old(items.Values))
      ensures var i := Lookup(old(State()), od.quote);
        && cost == Affordable(i, EntryCost(od, marketPrice, quotePrice), false, minOpenRate)
        && State() == old(State())[od.quote := if cost.Some? then Reserved(i, od.key, cost.value) else i]
    {
      var amount := EntryAmount(od, marketPrice, quotePrice);
      cost := CostAva(od.key, od.quote, amount, false, 0.0, minOpenRate);
    }

    /** Turns the reservation into the frozen margin less the fee. */
    method ConfirmContractEnter(od: Contract, enterPrice: real) returns (ok: bool)
      requires Valid() && od.leverage != 0.0
      modifies this, items.Values
      ensures Valid() && fresh(items.Values - old(items.Values))
      ensures ok == (od.quote in old(State()) && od.key in old(State())[od.quote].pendings)
      ensures State() == if !ok then old(State()) else
        old(State())[od.quote := Opened(old(State())[od.quote], od.key, EnterMargin(od, enterPrice), od.fee)]
    {
      var quoteAmount := EnterMargin(od, enterPrice);
      ok := ConfirmFrozen(od.key, od.quote, quoteAmount, od.fee);
    }

    method ConfirmFrozen(key: string, quote: string, quoteAmount: real, fee: real) returns (ok: bool)
      requires Valid()
      modifies this, items.Values
      ensures Valid() && fresh(items.Values - old(items.Values))
      ensures ok == (quote in old(State()) && key in old(State())[quote].pendings)
      ensures State() == if !ok then old(State())
        else old(State())[quote := Opened(old(State())[quote], key, quoteAmount, fee)]
    {
      if quote !in items {
        return false;
      }
      ok := ConfirmPending(key, quote, quoteAmount, quote, quoteAmount - fee, true);
    }

    /** The margin of a closed order is released together with its profit, to which the entry fee is added back. */
    method ConfirmContractExit(od: Contract, profit: real)
      requires Valid()
      modifies items.Values
      ensures State() == if od.quote !in old(State()) then old(State())
                         else old(State())[od.quote := Released(old(State())[od.quote], od.key, profit + od.fee, false)]
    {
      Cancel(od.key, od.quote, profit + od.fee, false);
    }

    // -------------------------------------------------------------- withdrawals

    method DrawIn(symbol: string, amount: real)
      requires Valid() && symbol in items
      modifies items[symbol]
      ensures State() == old(State())[symbol := Drawn(old(State())[symbol], amount)]
    {
      items[symbol].Draw(amount);
    }

    /** Withdraws a legal amount from all coins in proportion to their available value. */
    method WithdrawLegal(amount: real, coins: seq<string>, prices: seq<real>)
      requires Valid() && Priced(State(), coins, prices)
      requires LegalSum(State(), coins, prices, |coins|) != 0.0
      modifies items.Values
      ensures State() == AfterDraws(old(State()), coins, SharesOf(old(State()), coins, prices, amount), |coins|)
    {
      var draws := Shares(amount, coins, prices);
      DrawEach(coins, draws);
    }

    method DrawEach(coins: seq<string>, draws: seq<real>)
      requires Valid() && |draws| == |coins| && forall k :: 0 <= k < |coins| ==> coins[k] in State()
      modifies items.Values
      ensures State() == AfterDraws(old(State()), coins, draws, |coins|)
    {
      ghost var was := State();
      for k := 0 to |coins|
        invariant State() == AfterDraws(was, coins, draws, k)
      {
        DrawNext(was, coins, draws, k);
      }
    }

    method DrawNext(ghost was: map<string, Item>, coins: seq<string>, draws: seq<real>, k: nat)
      requires k < |coins| == |draws| && forall j :: 0 <= j < |coins| ==> coins[j] in was
      requires Valid() && State() == AfterDraws(was, coins, draws, k)
      modifies items.Values
      ensures State() == AfterDraws(was, coins, draws, k + 1)
    {
      assert coins[k] in State();
      DrawIn(coins[k], draws[k]);
    }

    method TotalLegal(coins: seq<string>, prices: seq<real>) returns (total: real)
      requires Valid() && Priced(State(), coins, prices)
      ensures total == LegalSum(State(), coins, prices, |coins|)
    {
      total := 0.0;
      for k := 0 to |coins|
        invariant total == LegalSum(State(), coins, prices, k)
      {
        total := total + items[coins[k]].available * prices[k];
      }
    }

    method Shares(amount: real, coins: seq<string>, prices: seq<real>) returns (draws: seq<real>)
      requires Valid() && Priced(State(), coins, prices)
      requires LegalSum(State(), coins, prices, |coins|) != 0.0
      ensures draws == SharesOf(State(), coins, prices, amount)
    {
      var total := TotalLegal(coins, prices);
      draws := [];
      for k := 0 to |coins|
        invariant |draws| == k && forall j :: 0 <= j < k ==> draws[j] == Share(State(), coins, prices, amount, j)
      {
        draws := draws + [items[coins[k]].available * prices[k] / total * amount / prices[k]];
      }
    }
  }
}
