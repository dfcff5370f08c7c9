/** The books of a backtest over contracts: where the money of a wallet goes over a whole run. */
module WalletRuns {
  import opened Basics
  import opened Bars
  import opened Wallet
  import opened Margins

  /** An order with its wallet key and, once it is entered, the entry fee written on it. */
  datatype Order = Order(key: string, fee: real, entered: bool)

  /**
   * The wallet of the settlement coin, the open orders, and what the run added up: the profits of the closed orders,
   * the fees that were copied to a second order, and the amounts that the wallet forgot.
   */
  datatype Books = Books(item: Item, orders: map<nat, Order>, start: real, profits: real, copied: real, lost: real)

  datatype Step =
    | Open(id: nat, key: string)
    | Drop(id: nat)
    | Fill(id: nat, cost: real, minRate: real, margin: real, fee: real)
    | FillZero(id: nat, cost: real, minRate: real)
    | Update(cs: seq<Claim>, done: nat)
    | Cut(id: nat, partId: nat, newKey: string, enterRate: real)
    | Close(id: nat, profit: real)
    | Draw(amount: real)

  ghost predicate Enabled(b: Books, s: Step) {
    match s
    case Open(id, _) => id !in b.orders
    case Drop(id) => id in b.orders && !b.orders[id].entered
    case Fill(id, _, _, _, _) => id in b.orders && !b.orders[id].entered
    case FillZero(id, _, _) => id in b.orders && !b.orders[id].entered
    case Update(cs, done) => done <= |cs|
    case Cut(id, partId, _, _) => id in b.orders && partId !in b.orders
    case Close(id, _) => id in b.orders && b.orders[id].entered
    case Draw(_) => true
  }

  /** The margin of an entry is reserved and used up at once; without funds the order is given up. */
  function Filled(b: Books, id: nat, cost: real, minRate: real, margin: real, fee: real): Books
    requires id in b.orders
  {
    var key := b.orders[id].key;
    match Affordable(b.item, cost, false, minRate)
    case None => b.(orders := b.orders - {id})
    case Some(c) =>
      b.(item := Opened(Reserved(b.item, key, c), key, margin, fee),
         orders := b.orders[id := Order(key, fee, true)],
         lost := b.lost + AmountAt(b.item.pendings, key) + AmountAt(b.item.frozens, key))
  }

  /** An entry whose amount rounds to zero gets its reservation back and is given up. */
  function FilledZero(b: Books, id: nat, cost: real, minRate: real): Books
    requires id in b.orders
  {
    var key := b.orders[id].key;
    match Affordable(b.item, cost, false, minRate)
    case None => b.(orders := b.orders - {id})
    case Some(c) =>
      b.(item := Released(Reserved(b.item, key, c), key, 0.0, true),
         orders := b.orders - {id},
         lost := b.lost + AmountAt(b.item.pendings, key))
  }

  function MarginLosses(i: Item, cs: seq<Claim>, n: nat): real
    requires n <= |cs|
  {
    if n == 0 then 0.0
    else
      MarginLosses(i, cs, n - 1)
      + if cs[n - 1].holds then MarginLoss(After(i, cs, n - 1), cs[n - 1].key, cs[n - 1].need) else 0.0
  }

  ghost function Updated(b: Books, cs: seq<Claim>, done: nat): Books
    requires done <= |cs|
  {
    var marked := Marked(b.item, cs);
    if Liquidates(marked, marked.upol) then
      b.(item := EMPTY_ITEM.(withdraw := b.item.withdraw), lost := b.lost + Ledger(b.item) - b.item.withdraw)
    else
      b.(item := After(marked, cs, done), lost := b.lost + MarginLosses(marked, cs, done))
  }

  /** The part keeps the old key and gets a copy of the fee; the rest of the order continues under a new key. */
  function CutOff(b: Books, id: nat, partId: nat, newKey: string, enterRate: real): Books
    requires id in b.orders
  {
    var od := b.orders[id];
    b.(item := Split(b.item, od.key, newKey, 1.0 - enterRate),
       orders := b.orders[id := od.(key := newKey)][partId := od],
       copied := b.copied + if od.entered then od.fee else 0.0)
  }

  function Closed(b: Books, id: nat, profit: real): Books
    requires id in b.orders
  {
    var od := b.orders[id];
    b.(item := Released(b.item, od.key, profit + od.fee, false), orders := b.orders - {id},
      profits := b.profits + profit)
  }

  ghost function Next(b: Books, s: Step): Books
    requires Enabled(b, s)
  {
    match s
    case Open(id, key) => b.(orders := b.orders[id := Order(key, 0.0, false)])
    case Drop(id) => b.(orders := b.orders - {id})
    case Fill(id, cost, minRate, margin, fee) => Filled(b, id, cost, minRate, margin, fee)
    case FillZero(id, cost, minRate) => FilledZero(b, id, cost, minRate)
    case Update(cs, done) => Updated(b, cs, done)
    case Cut(id, partId, newKey, enterRate) => CutOff(b, id, partId, newKey, enterRate)
    case Close(id, profit) => Closed(b, id, profit)
    case Draw(amount) => b.(item := Drawn(b.item, amount))
  }

  // ---------------------------------------------------------------- the balance of the books

  function Fee(od: Order): real {
    if od.entered then od.fee else 0.0
  }

  ghost function FeeMap(orders: map<nat, Order>): map<nat, real> {
    map id | id in orders :: Fee(orders[id])
  }

  /** The entry fees of the orders that are open and entered. */
  ghost function Fees(orders: map<nat, Order>): real {
    Sum(FeeMap(orders))
  }

  lemma FeesUpdate(orders: map<nat, Order>, id: nat, od: Order)
    ensures Fees(orders[id := od]) == Fees(orders) + Fee(od) - if id in orders then Fee(orders[id]) else 0.0
  {
    assert FeeMap(orders[id := od]) == FeeMap(orders)[id := Fee(od)];
    SumUpdate(FeeMap(orders), id, Fee(od));
  }

  lemma FeesWithout(orders: map<nat, Order>, id: nat)
    ensures Fees(orders - {id}) == Fees(orders) - if id in orders then Fee(orders[id]) else 0.0
  {
    assert FeeMap(orders - {id}) == FeeMap(orders) - {id};
    SumWithout(FeeMap(orders), id);
  }

  /** The money of the wallet, explained. */
  ghost predicate Balanced(b: Books) {
    Ledger(b.item) == b.start + b.profits - Fees(b.orders) + b.copied - b.lost
  }

  lemma FillBalances(b: Books, id: nat, cost: real, minRate: real, margin: real, fee: real)
    requires Balanced(b) && id in b.orders && !b.orders[id].entered
    ensures Balanced(Filled(b, id, cost, minRate, margin, fee))
  {
    var key := b.orders[id].key;
    FeesWithout(b.orders, id);
    FeesUpdate(b.orders, id, Order(key, fee, true));
    match Affordable(b.item, cost, false, minRate)
    case None =>
    case Some(c) =>
      var r := Reserved(b.item, key, c);
      ReserveLedger(b.item, key, c);
      TakeLedger(r, key, margin);
      GiveLedger(Taken(r, key, margin), key, margin - fee, true);
  }

  lemma FillZeroBalances(b: Books, id: nat, cost: real, minRate: real)
    requires Balanced(b) && id in b.orders && !b.orders[id].entered
    ensures Balanced(FilledZero(b, id, cost, minRate))
  {
    var key := b.orders[id].key;
    FeesWithout(b.orders, id);
    match Affordable(b.item, cost, false, minRate)
    case None =>
    case Some(c) =>
      ReserveLedger(b.item, key, c);
      ReleaseLedger(Reserved(b.item, key, c), key, 0.0, true);
  }

  lemma {:induction false} AfterLedger(i: Item, cs: seq<Claim>, n: nat)
    requires n <= |cs|
    ensures Ledger(After(i, cs, n)) == Ledger(i) - MarginLosses(i, cs, n)
    ensures After(i, cs, n).pendings == i.pendings && After(i, cs, n).withdraw == i.withdraw
  {
    if n > 0 {
      AfterLedger(i, cs, n - 1);
      MarginLedger(After(i, cs, n - 1), cs[n - 1].key, cs[n - 1].need);
    }
  }

  lemma UpdateBalances(b: Books, cs: seq<Claim>, done: nat)
    requires Balanced(b) && done <= |cs|
    ensures Balanced(Updated(b, cs, done))
  {
    AfterLedger(Marked(b.item, cs), cs, done);
  }

  lemma CutBalances(b: Books, id: nat, partId: nat, newKey: string, enterRate: real)
    requires Balanced(b) && id in b.orders && partId !in b.orders
    ensures Balanced(CutOff(b, id, partId, newKey, enterRate))
  {
    var od := b.orders[id];
    SplitLedger(b.item, od.key, newKey, 1.0 - enterRate);
    FeesUpdate(b.orders, id, od.(key := newKey));
    FeesUpdate(b.orders[id := od.(key := newKey)], partId, od);
  }

  lemma CloseBalances(b: Books, id: nat, profit: real)
    requires Balanced(b) && id in b.orders && b.orders[id].entered
    ensures Balanced(Closed(b, id, profit))
  {
    ReleaseLedger(b.item, b.orders[id].key, profit + b.orders[id].fee, false);
    FeesWithout(b.orders, id);
  }

  /** Every step keeps the books balanced, whatever it copies or forgets. */
  lemma StepBalances(b: Books, s: Step)
    requires Balanced(b) && Enabled(b, s)
    ensures Balanced(Next(b, s))
  {
    match s
    case Open(id, key) => FeesUpdate(b.orders, id, Order(key, 0.0, false));
    case Drop(id) => FeesWithout(b.orders, id);
    case Fill(id, cost, minRate, margin, fee) => FillBalances(b, id, cost, minRate, margin, fee);
    case FillZero(id, cost, minRate) => FillZeroBalances(b, id, cost, minRate);
    case Update(cs, done) => UpdateBalances(b, cs, done);
    case Cut(id, partId, newKey, enterRate) => CutBalances(b, id, partId, newKey, enterRate);
    case Close(id, profit) => CloseBalances(b, id, profit);
    case Draw(_) =>
  }

  // ---------------------------------------------------------------- steps that forget nothing

  ghost predicate OwnedKey(orders: map<nat, Order>, key: string) {
    exists id :: id in orders && orders[id].entered && orders[id].key == key
  }

  /** Between steps nothing is reserved, and what is frozen belongs to entered orders. */
  ghost predicate Sound(b: Books) {
    && b.item.pendings == map[]
    && (forall k :: k in b.item.frozens ==> b.item.frozens[k] >= 0.0)
    && (forall k :: k in b.item.frozens ==> OwnedKey(b.orders, k))
  }

  /** Fresh keys, fees that fit into the margin, shares between zero and one, and no liquidation. */
  ghost predicate Careful(b: Books, s: Step)
    requires Enabled(b, s)
  {
    match s
    case Fill(id, _, _, margin, fee) => b.orders[id].key !in b.item.frozens && fee <= margin
    case Update(cs, done) =>
      && !Liquidates(Marked(b.item, cs), Tally(Profit, cs, |cs|))
      && (forall k :: 0 <= k < |cs| && cs[k].holds ==> cs[k].need >= 0.0 && OwnedKey(b.orders, cs[k].key))
    case Cut(id, _, _, enterRate) => 0.0 <= enterRate <= 1.0
      && (b.orders[id].entered || b.orders[id].key !in b.item.frozens)
    case _ => true
  }

  lemma StillOwned(orders: map<nat, Order>, id: nat, od: Order, key: string)
    requires OwnedKey(orders, key) && (id in orders && orders[id].entered ==> od.entered && od.key == orders[id].key)
    ensures OwnedKey(orders[id := od], key)
  {
    var o :| o in orders && orders[o].entered && orders[o].key == key;
    assert o in orders[id := od];
  }

  lemma OwnedWithout(orders: map<nat, Order>, id: nat, key: string)
    requires OwnedKey(orders, key) && id in orders && (orders[id].entered ==> orders[id].key != key)
    ensures OwnedKey(orders - {id}, key)
  {
    var o :| o in orders && orders[o].entered && orders[o].key == key;
    assert o in orders - {id};
  }

  lemma {:induction false} CarefulMargins(i: Item, cs: seq<Claim>, n: nat)
    requires n <= |cs| && (forall k :: k in i.frozens ==> i.frozens[k] >= 0.0)
    requires forall k :: 0 <= k < |cs| && cs[k].holds ==> cs[k].need >= 0.0
    ensures MarginLosses(i, cs, n) == 0.0
    ensures forall k :: k in After(i, cs, n).frozens ==> After(i, cs, n).frozens[k] >= 0.0
    ensures forall k :: k in After(i, cs, n).frozens ==>
      k in i.frozens || exists j :: 0 <= j < n && cs[j].holds && cs[j].key == k
  {
    if n > 0 {
      CarefulMargins(i, cs, n - 1);
      var before := After(i, cs, n - 1);
      if cs[n - 1].holds && !CanMargin(before, cs[n - 1].key, cs[n - 1].need) {
        MarginLedger(before, cs[n - 1].key, cs[n - 1].need);
      }
    }
  }

  lemma OpenSound(b: Books, id: nat, key: string)
    requires Sound(b) && id !in b.orders
    ensures Sound(b.(orders := b.orders[id := Order(key, 0.0, false)]))
  {
    forall k | k in b.item.frozens
      ensures OwnedKey(b.orders[id := Order(key, 0.0, false)], k)
    {
      StillOwned(b.orders, id, Order(key, 0.0, false), k);
    }
  }

  lemma DropSound(b: Books, id: nat)
    requires Sound(b) && id in b.orders && !b.orders[id].entered
    ensures Sound(b.(orders := b.orders - {id}))
  {
    forall k | k in b.item.frozens
      ensures OwnedKey(b.orders - {id}, k)
    {
      OwnedWithout(b.orders, id, k);
    }
  }

  lemma FillSound(b: Books, id: nat, cost: real, minRate: real, margin: real, fee: real)
    requires Sound(b) && id in b.orders && !b.orders[id].entered
    requires b.orders[id].key !in b.item.frozens && fee <= margin
    ensures Sound(Filled(b, id, cost, minRate, margin, fee)) && Filled(b, id, cost, minRate, margin, fee).lost == b.lost
  {
    var key := b.orders[id].key;
    match Affordable(b.item, cost, false, minRate)
    case None => DropSound(b, id);
    case Some(c) =>
      var t := Filled(b, id, cost, minRate, margin, fee);
      assert t.item.pendings == b.item.pendings;
      assert id in t.orders && t.orders[id] == Order(key, fee, true);
      forall k | k in t.item.frozens
        ensures OwnedKey(t.orders, k)
      {
        if k != key {
          StillOwned(b.orders, id, Order(key, fee, true), k);
        }
      }
  }

  lemma FillZeroSound(b: Books, id: nat, cost: real, minRate: real)
    requires Sound(b) && id in b.orders && !b.orders[id].entered
    ensures Sound(FilledZero(b, id, cost, minRate)) && FilledZero(b, id, cost, minRate).lost == b.lost
  {
    DropSound(b, id);
    match Affordable(b.item, cost, false, minRate)
    case None =>
    case Some(c) => assert FilledZero(b, id, cost, minRate).item.pendings == b.item.pendings;
  }

  lemma UpdateSound(b: Books, cs: seq<Claim>, done: nat)
    requires Sound(b) && Enabled(b, Update(cs, done)) && Careful(b, Update(cs, done))
    ensures Sound(Updated(b, cs, done)) && Updated(b, cs, done).lost == b.lost
  {
    var marked := Marked(b.item, cs);
    CarefulMargins(marked, cs, done);
    AfterLedger(marked, cs, done);
  }

  lemma Shared(amount: real, rate: real)
    requires amount >= 0.0 && 0.0 <= rate <= 1.0
    ensures 0.0 <= amount * (1.0 - rate) <= amount
  {
  }

  lemma MovedKeepsSign(m: map<string, real>, src: string, tgt: string, rate: real)
    requires src in m && (forall k :: k in m ==> m[k] >= 0.0) && 0.0 <= m[src] * rate <= m[src]
    ensures forall k :: k in Moved(m, src, tgt, rate) ==> Moved(m, src, tgt, rate)[k] >= 0.0
    ensures Moved(m, src, tgt, rate).Keys == m.Keys + {tgt}
  {
    MovedByKeepsSign(m, src, tgt, m[src] * rate);
  }

  lemma MovedByKeepsSign(m: map<string, real>, src: string, tgt: string, cut: real)
    requires src in m && (forall k :: k in m ==> m[k] >= 0.0) && 0.0 <= cut <= m[src]
    ensures forall k :: k in MovedBy(m, src, tgt, cut) ==> MovedBy(m, src, tgt, cut)[k] >= 0.0
    ensures MovedBy(m, src, tgt, cut).Keys == m.Keys + {tgt}
  {
  }

  lemma CutOwned(orders: map<nat, Order>, id: nat, partId: nat, newKey: string, key: string)
    requires id in orders && partId !in orders && OwnedKey(orders, key)
    ensures OwnedKey(orders[id := orders[id].(key := newKey)][partId := orders[id]], key)
  {
    var cut := orders[id := orders[id].(key := newKey)][partId := orders[id]];
    var o :| o in orders && orders[o].entered && orders[o].key == key;
    if o == id {
      assert partId in cut;
    } else {
      assert o in cut && cut[o] == orders[o];
    }
  }

  lemma CutSound(b: Books, id: nat, partId: nat, newKey: string, enterRate: real)
    requires Sound(b) && Enabled(b, Cut(id, partId, newKey, enterRate))
      && Careful(b, Cut(id, partId, newKey, enterRate))
    ensures Sound(CutOff(b, id, partId, newKey, enterRate))
  {
    var od, t := b.orders[id], CutOff(b, id, partId, newKey, enterRate);
    if od.key in b.item.frozens {
      Shared(b.item.frozens[od.key], enterRate);
      assert id in t.orders && t.orders[id] == od.(key := newKey);
      MovedKeepsSign(b.item.frozens, od.key, newKey, 1.0 - enterRate);
    }
    forall k | k in t.item.frozens
      ensures OwnedKey(t.orders, k)
    {
      if k in b.item.frozens {
        CutOwned(b.orders, id, partId, newKey, k);
      }
    }
  }

  lemma CloseSound(b: Books, id: nat, profit: real)
    requires Sound(b) && id in b.orders && b.orders[id].entered
    ensures Sound(Closed(b, id, profit))
  {
    forall k | k in b.item.frozens && k != b.orders[id].key
      ensures OwnedKey(b.orders - {id}, k)
    {
      OwnedWithout(b.orders, id, k);
    }
  }

  /** A careful step forgets nothing, and it copies the entry fee of an order that it cuts. */
  lemma CarefulStep(b: Books, s: Step)
    requires Sound(b) && Enabled(b, s) && Careful(b, s)
    ensures Sound(Next(b, s)) && Next(b, s).lost == b.lost
  {
    match s
    case Open(id, key) => OpenSound(b, id, key);
    case Drop(id) => DropSound(b, id);
    case Fill(id, cost, minRate, margin, fee) => FillSound(b, id, cost, minRate, margin, fee);
    case FillZero(id, cost, minRate) => FillZeroSound(b, id, cost, minRate);
    case Update(cs, done) => UpdateSound(b, cs, done);
    case Cut(id, partId, newKey, enterRate) => CutSound(b, id, partId, newKey, enterRate);
    case Close(id, profit) => CloseSound(b, id, profit);
    case Draw(_) =>
  }

  // ---------------------------------------------------------------- whole runs

  function Begin(amount: real): Books {
    Books(EMPTY_ITEM.(available := amount), map[], amount, 0.0, 0.0, 0.0)
  }

  ghost predicate CanRun(b: Books, ss: seq<Step>, n: nat)
    requires n <= |ss|
    decreases n, 0
  {
    n == 0 || (CanRun(b, ss, n - 1) && Enabled(Run(b, ss, n - 1), ss[n - 1]))
  }

  /** The books after the first `n` steps. */
  ghost function Run(b: Books, ss: seq<Step>, n: nat): Books
    requires n <= |ss| && CanRun(b, ss, n)
    decreases n, 1
  {
    if n == 0 then b else Next(Run(b, ss, n - 1), ss[n - 1])
  }

  /** The entry fees of the entered orders that the first `n` steps cut. */
  ghost function CutFees(b: Books, ss: seq<Step>, n: nat): real
    requires n <= |ss| && CanRun(b, ss, n)
  {
    if n == 0 then 0.0
    else CutFees(b, ss, n - 1) + if ss[n - 1].Cut? then Fee(Run(b, ss, n - 1).orders[ss[n - 1].id]) else 0.0
  }

  ghost predicate AllCareful(b: Books, ss: seq<Step>, n: nat)
    requires n <= |ss| && CanRun(b, ss, n)
  {
    n == 0 || (AllCareful(b, ss, n - 1) && Careful(Run(b, ss, n - 1), ss[n - 1]))
  }

  /** Over any run at all the wallet's money is explained by profits, open fees, copied fees and forgotten amounts. */
  lemma {:induction false} RunBalances(amount: real, ss: seq<Step>, n: nat)
    requires n <= |ss| && CanRun(Begin(amount), ss, n)
    ensures Balanced(Run(Begin(amount), ss, n)) && Run(Begin(amount), ss, n).start == amount
    ensures Run(Begin(amount), ss, n).copied == CutFees(Begin(amount), ss, n)
  {
    if n == 0 {
      assert FeeMap(map[]) == map[];
    } else {
      RunBalances(amount, ss, n - 1);
      StepBalances(Run(Begin(amount), ss, n - 1), ss[n - 1]);
    }
  }

  lemma {:induction false} CarefulRun(amount: real, ss: seq<Step>, n: nat)
    requires n <= |ss| && CanRun(Begin(amount), ss, n) && AllCareful(Begin(amount), ss, n)
    ensures Sound(Run(Begin(amount), ss, n)) && Run(Begin(amount), ss, n).lost == 0.0
  {
    if n > 0 {
      CarefulRun(amount, ss, n - 1);
      CarefulStep(Run(Begin(amount), ss, n - 1), ss[n - 1]);
    }
  }

  /**
   * Over a careful run, all money is the initial amount with the profits of the closed orders and without the entry
   * fees of the open ones, if and only if the fees of the cut orders sum up to zero.
   */
  lemma LedgerIdentity(amount: real, ss: seq<Step>)
    requires CanRun(Begin(amount), ss, |ss|) && AllCareful(Begin(amount), ss, |ss|)
    ensures var b := Run(Begin(amount), ss, |ss|);
      && Ledger(b.item) == amount + b.profits - Fees(b.orders) + CutFees(Begin(amount), ss, |ss|)
      && (Ledger(b.item) == amount + b.profits - Fees(b.orders) <==> CutFees(Begin(amount), ss, |ss|) == 0.0)
  {
    RunBalances(amount, ss, |ss|);
    CarefulRun(amount, ss, |ss|);
  }

  lemma ShareOfStart(x: real, amount: real, y: real)
    requires amount > 0.0 && x == amount + y
    ensures x / amount - 1.0 == y / amount
  {
    var p, q := x / amount, y / amount;
    assert p * amount == x && q * amount == y;
    assert (q + 1.0) * amount == x;
    SameFactor(p, q + 1.0, amount);
  }

  /**
   * When every order is closed, nothing is locked, and the report's check is off by the copied fees less the
   * withdrawals.
   */
  lemma FinalBalance(amount: real, ss: seq<Step>)
    requires CanRun(Begin(amount), ss, |ss|) && AllCareful(Begin(amount), ss, |ss|)
    requires Run(Begin(amount), ss, |ss|).orders == map[] && amount > 0.0
    ensures var b := Run(Begin(amount), ss, |ss|);
      var fees := CutFees(Begin(amount), ss, |ss|);
      && b.item.pendings == map[] && b.item.frozens == map[]
      && b.item.available + b.item.withdraw == amount + b.profits + fees
      && (b.item.available - b.profits) / amount - 1.0 == (fees - b.item.withdraw) / amount
  {
    RunBalances(amount, ss, |ss|);
    CarefulRun(amount, ss, |ss|);
    var b, fees := Run(Begin(amount), ss, |ss|), CutFees(Begin(amount), ss, |ss|);
    assert FeeMap(map[]) == map[];
    assert forall k :: !OwnedKey(b.orders, k);
    assert forall k :: k !in b.item.frozens;
    assert b.item.frozens == map[];
    assert Ledger(b.item) == b.item.available + b.item.withdraw;
    assert Fees(b.orders) == 0.0;
    ShareOfStart(b.item.available - b.profits, amount, fees - b.item.withdraw);
  }

  // ---------------------------------------------------------------- a fee that is paid back twice

  /** One entry of margin 10 and fee 1 is cut in half, and both halves are closed without profit. */
  const CUT_RUN: seq<Step> :=
    [Open(0, "a"), Fill(0, 10.0, 0.5, 10.0, 1.0), Cut(0, 1, "b", 0.5), Close(0, 0.0), Close(1, 0.0)]

  lemma CutRunStart()
    ensures CanRun(Begin(100.0), CUT_RUN, 2) && AllCareful(Begin(100.0), CUT_RUN, 2)
    ensures CutFees(Begin(100.0), CUT_RUN, 2) == 0.0
    ensures Run(Begin(100.0), CUT_RUN, 2) == Books(Item(90.0, map[], map["a" := 9.0], 0.0, 0.0, 0.0),
                                                   map[0 := Order("a", 1.0, true)], 100.0, 0.0, 0.0, 0.0)
  {
    var placed := Begin(100.0).(orders := map[0 := Order("a", 0.0, false)]);
    assert CanRun(Begin(100.0), CUT_RUN, 0) && CanRun(Begin(100.0), CUT_RUN, 1);
    assert Run(Begin(100.0), CUT_RUN, 1) == placed;
    var paid := Opened(Reserved(placed.item, "a", 10.0), "a", 10.0, 1.0);
    assert paid.pendings == map[] && paid.frozens == map["a" := 9.0];
    assert Filled(placed, 0, 10.0, 0.5, 10.0, 1.0).orders == map[0 := Order("a", 1.0, true)];
  }

  lemma CutRunMiddle()
    ensures CanRun(Begin(100.0), CUT_RUN, 3) && AllCareful(Begin(100.0), CUT_RUN, 3)
    ensures CutFees(Begin(100.0), CUT_RUN, 3) == 1.0
    ensures Run(Begin(100.0), CUT_RUN, 3) == Books(Item(90.0, map[], map["a" := 4.5, "b" := 4.5], 0.0, 0.0, 0.0),
      map[0 := Order("b", 1.0, true), 1 := Order("a", 1.0, true)], 100.0, 0.0, 1.0, 0.0)
  {
    CutRunStart();
    var b := Run(Begin(100.0), CUT_RUN, 2);
    assert CutOff(b, 0, 1, "b", 0.5).item.frozens == map["a" := 4.5, "b" := 4.5];
    assert CutOff(b, 0, 1, "b", 0.5).orders == map[0 := Order("b", 1.0, true), 1 := Order("a", 1.0, true)];
  }

  /** The wallet ends with 101 although nothing was won: each half gets the whole entry fee back. */
  lemma CutFeeComesBackTwice()
    ensures CanRun(Begin(100.0), CUT_RUN, |CUT_RUN|) && AllCareful(Begin(100.0), CUT_RUN, |CUT_RUN|)
    ensures CutFees(Begin(100.0), CUT_RUN, |CUT_RUN|) == 1.0
    ensures var b := Run(Begin(100.0), CUT_RUN, |CUT_RUN|);
      b.orders == map[] && b.profits == 0.0 && b.item.available == 101.0 && Ledger(b.item) == 101.0
  {
    CutRunMiddle();
    var b := Run(Begin(100.0), CUT_RUN, 3);
    var one := Closed(b, 0, 0.0);
    assert CanRun(Begin(100.0), CUT_RUN, 4) && Run(Begin(100.0), CUT_RUN, 4) == one;
    assert one.orders == map[1 := Order("a", 1.0, true)] && one.item.frozens == map["a" := 4.5];
    var all := Closed(one, 1, 0.0);
    assert Run(Begin(100.0), CUT_RUN, 5) == all && all.orders == map[] && all.item.frozens == map[];
  }

  // ---------------------------------------------------------------- a margin that is lost

  /** An entry whose fee is more than its margin. */
  const SHORT_RUN: seq<Step> := [Open(0, "a"), Fill(0, 10.0, 0.5, 10.0, 12.0)]

  lemma ShortRunEnd()
    ensures CanRun(Begin(10.0), SHORT_RUN, 2)
    ensures Run(Begin(10.0), SHORT_RUN, 2).item == Item(0.0, map[], map["a" := -2.0], 0.0, 0.0, 0.0)
  {
    var placed := Begin(10.0).(orders := map[0 := Order("a", 0.0, false)]);
    assert CanRun(Begin(10.0), SHORT_RUN, 0) && CanRun(Begin(10.0), SHORT_RUN, 1);
    assert Run(Begin(10.0), SHORT_RUN, 1) == placed;
    var paid := Opened(Reserved(placed.item, "a", 10.0), "a", 10.0, 12.0);
    assert paid.pendings == map[] && paid.frozens == map["a" := -2.0];
  }

  lemma DebtIsForgotten(i: Item)
    requires i == Item(0.0, map[], map["a" := -2.0], 5.0, 0.0, 0.0)
    ensures !CanMargin(i, "a", 1.0) && Margined(i, "a", 1.0) == i.(frozens := map[])
    ensures Ledger(Margined(i, "a", 1.0)) == Ledger(i) + 2.0
  {
    assert i.frozens - {"a"} == map[];
    MarginLedger(i, "a", 1.0);
  }

  /**
   * A fee above the margin leaves a negative frozen amount. When profit covers the next margin but the balance does
   * not make up for that amount, the call fails and yet forgets it: the wallet is 2 richer.
   */
  lemma FailureForgetsDebt()
    ensures CanRun(Begin(10.0), SHORT_RUN, 2)
    ensures var marked := Marked(Run(Begin(10.0), SHORT_RUN, 2).item, [Claim("a", 5.0, true, 1.0)]);
      && marked.frozens == map["a" := -2.0] && !CanMargin(marked, "a", 1.0)
      && Margined(marked, "a", 1.0).frozens == map[]
      && Ledger(Margined(marked, "a", 1.0)) == Ledger(marked) + 2.0
  {
    ShortRunEnd();
    var cs := [Claim("a", 5.0, true, 1.0)];
    assert Tally(Profit, cs, 0) == 0.0 && Tally(Profit, cs, 1) == 5.0;
    DebtIsForgotten(Marked(Run(Begin(10.0), SHORT_RUN, 2).item, cs));
  }
}
