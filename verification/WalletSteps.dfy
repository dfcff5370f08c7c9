/** The wallet objects carry out the steps of the books. */
module WalletSteps {
  import opened Basics
  import opened Bars
  import opened Wallet
  import opened Margins
  import opened Wallets
  import Runs = WalletRuns

  /** The wallet of a coin is that of the books. */
  ghost predicate Keeps(w: BanWallets, coin: string, b: Runs.Books)
    reads w, w.items.Values
  {
    w.Valid() && coin in w.State() && w.State()[coin] == b.item
  }

  /** The order of the books that a contract order stands for. */
  predicate Books(b: Runs.Books, id: nat, od: Contract, entered: bool) {
    id in b.orders && b.orders[id].key == od.key && b.orders[id].entered == entered
  }

  /**
   * An entry is reserved and filled at once, as in the books, and given up when it cannot be paid; `filled` is the
   * order with the amount and the fee of the fill.
   */
  method FillEntry(w: BanWallets, od: Contract, marketPrice: real, quotePrice: real, minOpenRate: real,
      filled: Contract, enterPrice: real, ghost b: Runs.Books, ghost id: nat) returns (ok: bool)
    requires Keeps(w, od.quote, b) && Books(b, id, od, false) && od.leverage != 0.0 && quotePrice != 0.0
    requires filled.key == od.key && filled.quote == od.quote && filled.leverage == od.leverage
    modifies w, w.items.Values
    ensures var cost := EntryCost(od, marketPrice, quotePrice);
      && ok == Affordable(b.item, cost, false, minOpenRate).Some?
      && Keeps(w, od.quote,
           Runs.Next(b, Runs.Fill(id, cost, minOpenRate, EnterMargin(filled, enterPrice), filled.fee)))
  {
    var cost := w.EnterContract(od, marketPrice, quotePrice, minOpenRate);
    if cost.None? {
      return false;
    }
    ok := w.ConfirmContractEnter(filled, enterPrice);
  }

  method CloseOrder(w: BanWallets, od: Contract, profit: real, ghost b: Runs.Books, ghost id: nat)
    requires Keeps(w, od.quote, b) && Books(b, id, od, true) && b.orders[id].fee == od.fee
    modifies w.items.Values
    ensures Keeps(w, od.quote, Runs.Next(b, Runs.Close(id, profit)))
  {
    w.ConfirmContractExit(od, profit);
  }

  method CutOrder(w: BanWallets, od: Contract, newKey: string, enterRate: real, ghost b: Runs.Books, ghost id: nat,
      ghost partId: nat)
    requires Keeps(w, od.quote, b) && Books(b, id, od, true) && partId !in b.orders
    modifies w.items.Values
    ensures Keeps(w, od.quote, Runs.Next(b, Runs.Cut(id, partId, newKey, enterRate)))
  {
    w.CutPart(od.key, newKey, od.quote, 1.0 - enterRate);
  }

  /** How many positions an update got through. */
  function Through(ps: seq<Position>, outcome: Outcome): nat {
    match outcome
    case Liquidation => 0
    case Updated => |ps|
    case ExchangeFailed(n) => n
  }

  /** An update is the step of the books over as many positions as it got through. */
  lemma UpdateIsStep(b: Runs.Books, ps: seq<Position>, addRate: real, outcome: Outcome)
    requires Levered(ps) && Reports(b.item, ps, addRate, outcome)
    ensures Through(ps, outcome) <= |ps|
    ensures Renewed(b.item, ps, addRate, outcome) ==
      Runs.Next(b, Runs.Update(Claims(ps, addRate), Through(ps, outcome))).item
  {
    hide After;
  }

  method UpdateOrders(w: BanWallets, ps: seq<Position>, coin: string, addRate: real, ghost b: Runs.Books)
      returns (outcome: Outcome)
    requires Keeps(w, coin, b) && Levered(ps) && ps != []
    modifies w, w.items.Values
    ensures Reports(b.item, ps, addRate, outcome) && Through(ps, outcome) <= |ps|
    ensures Keeps(w, coin, Runs.Next(b, Runs.Update(Claims(ps, addRate), Through(ps, outcome))))
  {
    outcome := w.UpdateOds(ps, coin, addRate);
    UpdateIsStep(b, ps, addRate, outcome);
  }
}
