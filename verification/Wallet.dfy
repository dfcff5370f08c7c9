/** The wallet of one coin: what is available, reserved for entries, frozen as margin, and withdrawn. */
module Wallet {
  import opened Basics
  import opened Bars

  datatype Item = Item(available: real, pendings: map<string, real>, frozens: map<string, real>,
                       upol: real, usedUpol: real, withdraw: real)

  const EMPTY_ITEM := Item(0.0, map[], map[], 0.0, 0.0, 0.0)

  /** An amount that is missing from a map counts as zero. */
  function AmountAt<K>(m: map<K, real>, key: K): real {
    if key in m then m[key] else 0.0
  }

  // ---------------------------------------------------------------- sums over a map

  ghost function Pick<K(!new)>(m: map<K, real>): (k: K)
    requires m != map[]
    ensures k in m
  {
    var k :| k in m; k
  }

  ghost function Sum<K(!new)>(m: map<K, real>): real
    decreases |m.Keys|
  {
    if m == map[] then 0.0
    else
      var k := Pick(m);
      SmallerWithout(m, k);
      m[k] + Sum(m - {k})
  }

  lemma SmallerWithout<K(!new)>(m: map<K, real>, k: K)
    requires k in m
    ensures (m - {k}).Keys == m.Keys - {k} && |(m - {k}).Keys| < |m.Keys|
  {
  }

  /** The sum does not depend on the key that is taken out first. */
  lemma {:induction false} SumPick<K(!new)>(m: map<K, real>, key: K)
    requires key in m
    ensures Sum(m) == m[key] + Sum(m - {key})
    decreases |m.Keys|
  {
    var k := Pick(m);
    if k != key {
      SmallerWithout(m, k);
      SumPick(m - {k}, key);
      SmallerWithout(m, key);
      SumPick(m - {key}, k);
      assert (m - {k}) - {key} == (m - {key}) - {k};
    }
  }

  lemma SumWithout<K(!new)>(m: map<K, real>, key: K)
    ensures Sum(m - {key}) == Sum(m) - AmountAt(m, key)
  {
    if key in m {
      SumPick(m, key);
    } else {
      assert m - {key} == m;
    }
  }

  lemma SumUpdate<K(!new)>(m: map<K, real>, key: K, value: real)
    ensures Sum(m[key := value]) == Sum(m) - AmountAt(m, key) + value
  {
    SumWithout(m, key);
    SumPick(m[key := value], key);
    assert m[key := value] - {key} == m - {key};
  }

  /** All the money that the wallet accounts for, withdrawn money included. */
  ghost function Ledger(i: Item): real {
    i.available + Sum(i.pendings) + Sum(i.frozens) + i.withdraw
  }

  /** What a map holds: the entry "*" alone, if there is one. */
  ghost function Held(m: map<string, real>): real {
    if "*" in m then m["*"] else Sum(m)
  }

  ghost function TotalOf(i: Item, withUpol: bool): real {
    Held(i.pendings) + Held(i.frozens) + i.available + if withUpol then i.upol else 0.0
  }

  // ---------------------------------------------------------------- the operations, as functions of the wallet

  /** The part of a margin that unused profit does not cover. */
  function Uncovered(i: Item, amount: real): real {
    if i.upol <= i.usedUpol then amount else MaxReal(0.0, i.usedUpol + amount - i.upol)
  }

  /** Whether the available balance can pay what a margin needs beyond what its order has frozen. */
  predicate CanMargin(i: Item, key: string, amount: real) {
    var add := Uncovered(i, amount) - AmountAt(i.frozens, key);
    add <= 0.0 || i.available >= add
  }

  /** The margin of an order is paid from unused profit first and from the available balance after that. */
  function Margined(i: Item, key: string, amount: real): Item {
    var own := Uncovered(i, amount);
    if CanMargin(i, key, amount) then
      i.(available := i.available - (own - AmountAt(i.frozens, key)),
         frozens := i.frozens[key := own],
         usedUpol := if i.upol <= i.usedUpol then i.usedUpol else MinReal(i.usedUpol + amount, i.upol))
    else if i.upol > i.usedUpol && i.usedUpol + amount <= i.upol then
      i.(frozens := i.frozens - {key})
    else i
  }

  /** A frozen amount can be set if the other side, the available balance or the reservation, can pay the difference. */
  predicate CanFreeze(i: Item, key: string, amount: real, withAvailable: bool) {
    var add := amount - AmountAt(i.frozens, key);
    add <= 0.0 || (if withAvailable then i.available else AmountAt(i.pendings, key)) >= add
  }

  function Frozen(i: Item, key: string, amount: real, withAvailable: bool): Item {
    var add := amount - AmountAt(i.frozens, key);
    if !CanFreeze(i, key, amount, withAvailable) then i
    else if withAvailable then i.(available := i.available - add, frozens := i.frozens[key := amount])
    else i.(pendings := i.pendings[key := AmountAt(i.pendings, key) - add], frozens := i.frozens[key := amount])
  }

  /** What an entry may reserve: all of it, or the whole balance if that is a large enough share of it. */
  function Affordable(i: Item, amount: real, negative: bool, minRate: real): Option<real> {
    if i.available >= amount || negative then Some(amount)
    else if amount != 0.0 && i.available / amount > minRate then Some(i.available)
    else None
  }

  function Reserved(i: Item, key: string, amount: real): Item {
    i.(available := i.available - amount, pendings := i.pendings[key := amount])
  }

  /** The reservation of an order is used up; what it exceeds the amount by goes back to the balance. */
  function Taken(i: Item, key: string, amount: real): Item {
    i.(available := i.available + AmountAt(i.pendings, key) - amount, pendings := i.pendings - {key})
  }

  function Given(i: Item, key: string, amount: real, toFrozen: bool): Item {
    if toFrozen then i.(frozens := i.frozens[key := amount]) else i.(available := i.available + amount)
  }

  /** An entry is filled: its reservation pays the margin, of which the fee is not frozen. */
  function Opened(i: Item, key: string, margin: real, fee: real): Item {
    Given(Taken(i, key, margin), key, margin - fee, true)
  }

  /** What is locked for an order goes back to the balance, with an amount on top. */
  function Released(i: Item, key: string, addAmount: real, fromPending: bool): Item {
    if fromPending then
      i.(available := i.available + (AmountAt(i.pendings, key) + addAmount), pendings := i.pendings - {key})
    else i.(available := i.available + (AmountAt(i.frozens, key) + addAmount), frozens := i.frozens - {key})
  }

  /** An amount moves from one key to another. */
  function MovedBy(m: map<string, real>, src: string, tgt: string, cut: real): map<string, real>
    requires src in m
  {
    var more := m[tgt := AmountAt(m, tgt) + cut];
    more[src := more[src] - cut]
  }

  /** A share of what one key locks moves to another key. */
  function Moved(m: map<string, real>, src: string, tgt: string, rate: real): map<string, real> {
    if src in m then MovedBy(m, src, tgt, m[src] * rate) else m
  }

  function Split(i: Item, src: string, tgt: string, rate: real): Item {
    i.(pendings := Moved(i.pendings, src, tgt, rate), frozens := Moved(i.frozens, src, tgt, rate))
  }

  function Forgotten(i: Item): Item {
    i.(upol := 0.0, usedUpol := 0.0)
  }

  function Drawn(i: Item, amount: real): Item {
    var draw := MinReal(amount, i.available);
    i.(withdraw := i.withdraw + draw, available := i.available - draw)
  }

  // ---------------------------------------------------------------- what each operation does to the ledger

  /**
   * A margin moves money inside the wallet, but a failing call loses a negative margin that profit would have
   * covered.
   */
  lemma MarginLedger(i: Item, key: string, amount: real)
    ensures Ledger(Margined(i, key, amount)) == Ledger(i) - MarginLoss(i, key, amount)
    ensures CanMargin(i, key, amount) && i.available >= 0.0 ==> Margined(i, key, amount).available >= 0.0
    ensures !CanMargin(i, key, amount) && AmountAt(i.frozens, key) >= 0.0 ==> Margined(i, key, amount) == i
    ensures Margined(i, key, amount).usedUpol <= MaxReal(i.usedUpol, i.upol)
  {
    SumUpdate(i.frozens, key, Uncovered(i, amount));
    SumWithout(i.frozens, key);
  }

  function MarginLoss(i: Item, key: string, amount: real): real {
    if !CanMargin(i, key, amount) && i.upol > i.usedUpol && i.usedUpol + amount <= i.upol then AmountAt(i.frozens, key)
    else 0.0
  }

  /** The one way in which a failing call changes the wallet. */
  lemma MarginFailure(i: Item, key: string, amount: real)
    requires !CanMargin(i, key, amount)
    ensures Margined(i, key, amount) == i <==>
      !(key in i.frozens && i.upol > i.usedUpol && i.usedUpol + amount <= i.upol)
    ensures Margined(i, key, amount) != i ==> i.frozens[key] < 0.0
  {
    if key !in i.frozens {
      assert i.frozens - {key} == i.frozens;
    } else {
      assert key !in i.frozens - {key};
    }
  }

  lemma FreezeLedger(i: Item, key: string, amount: real, withAvailable: bool)
    ensures Ledger(Frozen(i, key, amount, withAvailable)) == Ledger(i)
    ensures CanFreeze(i, key, amount, withAvailable) ==>
      AmountAt(Frozen(i, key, amount, withAvailable).frozens, key) == amount
    ensures i.available >= 0.0 ==> Frozen(i, key, amount, withAvailable).available >= 0.0
  {
    SumUpdate(i.frozens, key, amount);
    SumUpdate(i.pendings, key, AmountAt(i.pendings, key) - (amount - AmountAt(i.frozens, key)));
  }

  /**
   * An amount can be frozen if it is no more than what is frozen already, or if that and the paying side, the balance
   * or the reservation of the order, reach it together; else nothing happens.
   */
  lemma FreezeExactly(i: Item, key: string, amount: real, withAvailable: bool)
    ensures var held := AmountAt(i.frozens, key);
      CanFreeze(i, key, amount, withAvailable) <==>
        amount <= held || amount <= held + if withAvailable then i.available else AmountAt(i.pendings, key)
    ensures !CanFreeze(i, key, amount, withAvailable) ==> Frozen(i, key, amount, withAvailable) == i
    ensures CanFreeze(i, key, amount, false) && AmountAt(i.pendings, key) >= 0.0 ==>
      AmountAt(Frozen(i, key, amount, false).pendings, key) >= 0.0
  {
  }

  /** A second reservation under the same key forgets the first one. */
  lemma ReserveLedger(i: Item, key: string, amount: real)
    ensures Ledger(Reserved(i, key, amount)) == Ledger(i) - AmountAt(i.pendings, key)
  {
    SumUpdate(i.pendings, key, amount);
  }

  /**
   * An entry is paid if its amount is available, or may go negative, or if the balance is a large enough share of it;
   * it then gets what there is of the amount, and does not take the balance below zero unless it may.
   */
  lemma AffordableExactly(i: Item, key: string, amount: real, negative: bool, minRate: real)
    requires amount > 0.0
    ensures var cost := Affordable(i, amount, negative, minRate);
      && (cost.Some? <==> negative || i.available >= amount || i.available > minRate * amount)
      && (cost.Some? ==> cost.value == if negative then amount else MinReal(amount, i.available))
      && (cost.Some? && !negative ==> Reserved(i, key, cost.value).available == MaxReal(0.0, i.available - amount))
  {
    var r := i.available / amount;
    assert r * amount == i.available;
    if r > minRate {
      assert (r - minRate) * amount > 0.0;
    } else {
      assert (minRate - r) * amount >= 0.0;
    }
  }

  lemma TakeLedger(i: Item, key: string, amount: real)
    ensures Ledger(Taken(i, key, amount)) == Ledger(i) - amount
  {
    SumWithout(i.pendings, key);
  }

  /** A frozen amount replaces the one that was there. */
  lemma GiveLedger(i: Item, key: string, amount: real, toFrozen: bool)
    ensures Ledger(Given(i, key, amount, toFrozen))
      == Ledger(i) + amount - if toFrozen then AmountAt(i.frozens, key) else 0.0
  {
    SumUpdate(i.frozens, key, amount);
  }

  lemma ReleaseLedger(i: Item, key: string, addAmount: real, fromPending: bool)
    ensures Ledger(Released(i, key, addAmount, fromPending)) == Ledger(i) + addAmount
  {
    SumWithout(i.pendings, key);
    SumWithout(i.frozens, key);
  }

  lemma MovedSum(m: map<string, real>, src: string, tgt: string, rate: real)
    ensures Sum(Moved(m, src, tgt, rate)) == Sum(m)
    ensures src != tgt ==>
      var r := Moved(m, src, tgt, rate);
      AmountAt(r, src) + AmountAt(r, tgt) == AmountAt(m, src) + AmountAt(m, tgt)
    ensures src == tgt ==> Moved(m, src, tgt, rate) == m
  {
    if src in m {
      var cut := m[src] * rate;
      var more := m[tgt := AmountAt(m, tgt) + cut];
      SumUpdate(m, tgt, AmountAt(m, tgt) + cut);
      SumUpdate(more, src, more[src] - cut);
    }
  }

  lemma SplitLedger(i: Item, src: string, tgt: string, rate: real)
    ensures Ledger(Split(i, src, tgt, rate)) == Ledger(i)
  {
    MovedSum(i.pendings, src, tgt, rate);
    MovedSum(i.frozens, src, tgt, rate);
  }

  // ---------------------------------------------------------------- what the wallet is said to hold

  /** The entries that an entry "*" hides. */
  ghost function Hidden(m: map<string, real>): real {
    if "*" in m then Sum(m - {"*"}) else 0.0
  }

  /** The total is all the money but what was withdrawn, as long as no entry is hidden by a "*". */
  lemma TotalIsLedger(i: Item)
    ensures TotalOf(i, false) + i.withdraw + Hidden(i.pendings) + Hidden(i.frozens) == Ledger(i)
    ensures TotalOf(i, true) == TotalOf(i, false) + i.upol
  {
    SumWithout(i.pendings, "*");
    SumWithout(i.frozens, "*");
  }
}
