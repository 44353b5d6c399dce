/**
 Who gets what: not only the sums are right, but every account and every holder of points ends with
 exactly what its own orders, deposits and withdrawals are due, and nobody else is touched.
 */
module Payments {
  import opened Options
  import opened Ledger
  import opened PoolPoints
  import opened Arithmetic
  import opened Amm
  import opened Batches

  // ---------------------------------------------------------------------------------------------
  // What an address is due
  // ---------------------------------------------------------------------------------------------

  /** The receipts of an address's orders, from the i-th order on. */
  function Received(orders: seq<Order>, receipts: seq<nat>, i: nat, a: Address): nat
    requires i <= |orders| == |receipts|
    decreases |orders| - i
  {
    if i == |orders| then 0
    else (if orders[i].address == a then receipts[i] else 0) + Received(orders, receipts, i + 1, a)
  }

  /** The amounts of an address's orders that have failed, from the i-th order on. */
  function Returned(orders: seq<Order>, receipts: seq<nat>, i: nat, a: Address): nat
    requires i <= |orders| == |receipts|
    decreases |orders| - i
  {
    if i == |orders| then 0
    else (if orders[i].address == a && receipts[i] == 0 then orders[i].amountForSale else 0) + Returned(orders, receipts, i + 1, a)
  }

  function PaidOut(payouts: seq<Payout>, local: bool, a: Address): nat {
    if payouts == [] then 0
    else
      var p := payouts[|payouts| - 1];
      PaidOut(payouts[..|payouts| - 1], local, a) + if p.address != a then 0 else if local then p.x else p.y
  }

  function Ordered(orders: seq<Order>, a: Address): nat {
    if orders == [] then 0 else (if orders[0].address == a then orders[0].amountForSale else 0) + Ordered(orders[1..], a)
  }

  function Deposited(ds: seq<Deposit>, a: Address): nat {
    if ds == [] then 0 else (if ds[0].address == a then ds[0].amount else 0) + Deposited(ds[1..], a)
  }

  /** An address's floored shares of the minted points. */
  function Shares(ds: seq<Deposit>, minted: nat, totalDeposit: nat, a: Address): nat {
    if ds == [] then 0
    else (if ds[0].address == a then SafeMulDiv(minted, ds[0].amount, totalDeposit) else 0) + Shares(ds[1..], minted, totalDeposit, a)
  }

  // ---------------------------------------------------------------------------------------------
  // Accounts
  // ---------------------------------------------------------------------------------------------

  /** A credit or debit moves one balance by its amount, and no other. */
  lemma OneBalanceMoves(accounts: map<Address, nat>, b: Address, n: nat, a: Address)
    ensures AccountAdd(accounts, b, n).Some? ==>
      Balance(AccountAdd(accounts, b, n).value, a) == Balance(accounts, a) + if a == b then n else 0
    ensures AccountSub(accounts, b, n).Some? ==>
      Balance(AccountSub(accounts, b, n).value, a) + (if a == b then n else 0) == Balance(accounts, a)
  {
  }

  /** Executed orders: everyone receives exactly the receipts of their own orders. */
  lemma {:induction false} ReceiptsReachTheirOwners(c: Chain, orders: seq<Order>, receipts: seq<nat>, i: nat, a: Address)
    requires i <= |orders| == |receipts|
    requires PayReceipts(c, orders, receipts, i).Some?
    ensures Balance(PayReceipts(c, orders, receipts, i).value.accounts, a) == Balance(c.accounts, a) + Received(orders, receipts, i, a)
    decreases |orders| - i
  {
    if i < |orders| {
      if receipts[i] == 0 {
        ReceiptsReachTheirOwners(c, orders, receipts, i + 1, a);
      } else {
        var accounts := AccountAdd(c.accounts, orders[i].address, receipts[i]).value;
        OneBalanceMoves(c.accounts, orders[i].address, receipts[i], a);
        ReceiptsReachTheirOwners(c.(amount := c.amount - receipts[i], accounts := accounts), orders, receipts, i + 1, a);
      }
    }
  }

  /** Receipts for our own orders: everyone gets back exactly their failed orders. */
  lemma {:induction false} RefundsReachTheirOwners(c: Chain, orders: seq<Order>, receipts: seq<nat>, i: nat, x: nat, y: nat, a: Address)
    requires i <= |orders| == |receipts|
    requires OrderReceipts(c, orders, receipts, i, x, y).Some?
    ensures Balance(OrderReceipts(c, orders, receipts, i, x, y).value.chain.accounts, a) == Balance(c.accounts, a) + Returned(orders, receipts, i, a)
    decreases |orders| - i
  {
    if i < |orders| {
      var o := orders[i];
      var c1 := c.(holding := c.holding - o.amountForSale);
      if receipts[i] != 0 {
        RefundsReachTheirOwners(c1.(amount := Wrap(c1.amount + o.amountForSale)), orders, receipts, i + 1, Wrap(x + o.amountForSale), y - receipts[i], a);
      } else {
        OneBalanceMoves(c.accounts, o.address, o.amountForSale, a);
        RefundsReachTheirOwners(c1.(accounts := AccountAdd(c1.accounts, o.address, o.amountForSale).value), orders, receipts, i + 1, x, y, a);
      }
    }
  }

  lemma {:induction false} PayoutsReachTheirOwners(accounts: map<Address, nat>, payouts: seq<Payout>, local: bool, a: Address)
    requires PayAll(accounts, payouts, local).Some?
    ensures Balance(PayAll(accounts, payouts, local).value, a) == Balance(accounts, a) + PaidOut(payouts, local, a)
    decreases |payouts|
  {
    if payouts != [] {
      var p := payouts[|payouts| - 1];
      PayoutsReachTheirOwners(accounts, payouts[..|payouts| - 1], local, a);
      OneBalanceMoves(PayAll(accounts, payouts[..|payouts| - 1], local).value, p.address, if local then p.x else p.y, a);
    }
  }

  lemma {:induction false} OrdersAreRefunded(c: Chain, orders: seq<Order>, a: Address)
    requires RefundOrders(c, orders).Some?
    ensures Balance(RefundOrders(c, orders).value.accounts, a) == Balance(c.accounts, a) + Ordered(orders, a)
    decreases |orders|
  {
    if orders != [] {
      OneBalanceMoves(c.accounts, orders[0].address, orders[0].amountForSale, a);
      OrdersAreRefunded(Refund(c, orders[0].address, orders[0].amountForSale).value, orders[1..], a);
    }
  }

  lemma {:induction false} DepositsAreRefunded(c: Chain, ds: seq<Deposit>, a: Address)
    requires RefundDeposits(c, ds).Some?
    ensures Balance(RefundDeposits(c, ds).value.accounts, a) == Balance(c.accounts, a) + Deposited(ds, a)
    decreases |ds|
  {
    if ds != [] {
      OneBalanceMoves(c.accounts, ds[0].address, ds[0].amount, a);
      DepositsAreRefunded(Refund(c, ds[0].address, ds[0].amount).value, ds[1..], a);
    }
  }

  /** The fallback gives everyone back exactly their orders and deposits. */
  lemma FallbackRefundsOwners(c: Chain, ours: Batch, remote: Batch, a: Address)
    requires LivenessFallback(c, ours, remote).Some?
    ensures Balance(LivenessFallback(c, ours, remote).value.accounts, a) == Balance(c.accounts, a) + Ordered(ours.orders, a) + Deposited(ours.deposits, a)
  {
    OrdersAreRefunded(c, ours.orders, a);
    DepositsAreRefunded(RefundOrders(c, ours.orders).value, ours.deposits, a);
  }

  /** The payouts of a withdrawal stage: none if there is nothing to remove. */
  function PayoutsOf(points: Points, ws: seq<Withdrawal>, x: nat, y: nat): seq<Payout> {
    var w := Withdraw(Amm.Market(x, y, points), ws);
    if w.None? || !RemovesPoints(points, ws) then [] else w.value.payouts
  }

  /** Executing a remote batch pays everyone exactly their receipts and their withdrawals. */
  lemma ExecutionPaysOwners(c: Chain, remote: Batch, queue: seq<nat>, mirror: nat, a: Address)
    requires Queueable(queue, remote.orders)
    requires ExecuteRemote(c, remote, queue, mirror).Some?
    ensures var o := BatchOrders(c, remote.orders, queue, mirror, c.amount);
      && o.Some? && |o.value.receipts| == |remote.orders|
      && Balance(ExecuteRemote(c, remote, queue, mirror).value.chain.accounts, a) == Balance(c.accounts, a)
           + Received(remote.orders, o.value.receipts, 0, a)
           + PaidOut(PayoutsOf(c.points, remote.withdrawals, o.value.x, o.value.y), false, a)
  {
    var o := BatchOrders(c, remote.orders, queue, mirror, c.amount).value;
    var r := ExecuteOrders(remote.orders, queue, mirror, c.amount).value;
    ReceiptsPerOrder(remote.orders, queue, mirror, c.amount, NoReceipts(|remote.orders|));
    ReceiptsReachTheirOwners(c, remote.orders, r.receipts, 0, a);
    PointsOutliveOrders(c, remote.orders, r.receipts, 0);
    WithdrawalsPayOwners(o.chain, remote.withdrawals, o.x, o.y, false, a);
  }

  lemma {:induction false} PointsOutliveOrders(c: Chain, orders: seq<Order>, receipts: seq<nat>, i: nat)
    requires i <= |orders| == |receipts|
    requires PayReceipts(c, orders, receipts, i).Some?
    ensures PayReceipts(c, orders, receipts, i).value.points == c.points
    decreases |orders| - i
  {
    if i < |orders| {
      if receipts[i] == 0 {
        PointsOutliveOrders(c, orders, receipts, i + 1);
      } else {
        var accounts := AccountAdd(c.accounts, orders[i].address, receipts[i]).value;
        PointsOutliveOrders(c.(amount := c.amount - receipts[i], accounts := accounts), orders, receipts, i + 1);
      }
    }
  }

  lemma {:induction false} PointsOutliveReceipts(c: Chain, orders: seq<Order>, receipts: seq<nat>, i: nat, x: nat, y: nat)
    requires i <= |orders| == |receipts|
    requires OrderReceipts(c, orders, receipts, i, x, y).Some?
    ensures OrderReceipts(c, orders, receipts, i, x, y).value.chain.points == c.points
    decreases |orders| - i
  {
    if i < |orders| {
      var o := orders[i];
      var c1 := c.(holding := c.holding - o.amountForSale);
      if receipts[i] != 0 {
        PointsOutliveReceipts(c1.(amount := Wrap(c1.amount + o.amountForSale)), orders, receipts, i + 1, Wrap(x + o.amountForSale), y - receipts[i]);
      } else {
        PointsOutliveReceipts(c1.(accounts := AccountAdd(c1.accounts, o.address, o.amountForSale).value), orders, receipts, i + 1, x, y);
      }
    }
  }

  /** Applying the receipts of our own batch pays everyone exactly their refunds and their withdrawals. */
  lemma ReceiptsPayOwners(c: Chain, remote: Batch, mirror: nat, a: Address)
    requires !c.Locked().IsEmpty() && Answers(remote, c.Locked())
    requires ReceiptsForOurs(c, remote, mirror).Some?
    ensures var ours := c.Locked();
      var o := OrderReceipts(c, ours.orders, remote.receipts, 0, c.amount, mirror);
      && o.Some?
      && Balance(ReceiptsForOurs(c, remote, mirror).value.chain.accounts, a) == Balance(c.accounts, a)
           + Returned(ours.orders, remote.receipts, 0, a)
           + PaidOut(PayoutsOf(c.points, ours.withdrawals, o.value.x, o.value.y), true, a)
  {
    var ours := c.Locked();
    var o := OrderReceipts(c, ours.orders, remote.receipts, 0, c.amount, mirror).value;
    RefundsReachTheirOwners(c, ours.orders, remote.receipts, 0, c.amount, mirror, a);
    PointsOutliveReceipts(c, ours.orders, remote.receipts, 0, c.amount, mirror);
    WithdrawalsPayOwners(o.chain, ours.withdrawals, o.x, o.y, true, a);
  }

  lemma WithdrawalsPayOwners(c: Chain, ws: seq<Withdrawal>, x: nat, y: nat, local: bool, a: Address)
    requires BatchWithdraw(c, ws, x, y, local).Some?
    ensures Balance(BatchWithdraw(c, ws, x, y, local).value.chain.accounts, a) == Balance(c.accounts, a) + PaidOut(PayoutsOf(c.points, ws, x, y), local, a)
  {
    if RemovesPoints(c.points, ws) {
      PayoutsReachTheirOwners(c.accounts, Withdraw(Amm.Market(x, y, c.points), ws).value.payouts, local, a);
    }
  }

  // ---------------------------------------------------------------------------------------------
  // Orders
  // ---------------------------------------------------------------------------------------------

  /** Price limits hold: whatever the order of execution, an order gets nothing or at least what it asked for. */
  lemma {:induction false} RunRespectsLimits(orders: seq<Order>, queue: seq<nat>, x: nat, y: nat, receipts: seq<nat>)
    requires 0 < x && |receipts| == |orders|
    requires forall j :: 0 <= j < |queue| ==> queue[j] < |orders|
    requires forall k :: 0 <= k < |orders| ==> receipts[k] == 0 || orders[k].requestedAmount <= receipts[k]
    requires RunOrders(orders, queue, x, y, receipts).Some?
    ensures var r := RunOrders(orders, queue, x, y, receipts).value.receipts;
      |r| == |orders| && forall k :: 0 <= k < |orders| ==> r[k] == 0 || orders[k].requestedAmount <= r[k]
    decreases |queue|
  {
    if queue != [] {
      var k := queue[0];
      var dY := OrderOutput(orders[k], x, y);
      if dY == 0 {
        RunRespectsLimits(orders, queue[1..], x, y, receipts[k := 0]);
      } else {
        RunRespectsLimits(orders, queue[1..], x + orders[k].amountForSale, Wrap(y - dY), receipts[k := dY]);
      }
    }
  }

  lemma LimitsAreRespected(orders: seq<Order>, queue: seq<nat>, x: nat, y: nat)
    requires forall j :: 0 <= j < |queue| ==> queue[j] < |orders|
    requires ExecuteOrders(orders, queue, x, y).Some?
    ensures var r := ExecuteOrders(orders, queue, x, y).value.receipts;
      |r| == |orders| && forall k :: 0 <= k < |orders| ==> r[k] == 0 || orders[k].requestedAmount <= r[k]
  {
    RunRespectsLimits(orders, queue, x, y, NoReceipts(|orders|));
  }

  // ---------------------------------------------------------------------------------------------
  // Points
  // ---------------------------------------------------------------------------------------------

  lemma {:induction false} DepositsReachTheirOwners(ds: seq<Deposit>, minted: nat, totalDeposit: nat, r: DepositRun, a: Address)
    requires r.points.Valid()
    requires RunDeposits(ds, minted, totalDeposit, r).Some?
    ensures PointsOf(RunDeposits(ds, minted, totalDeposit, r).value.points, a) == PointsOf(r.points, a) + Shares(ds, minted, totalDeposit, a)
    decreases |ds|
  {
    if ds != [] {
      var share := SafeMulDiv(minted, ds[0].amount, totalDeposit);
      AddPointsKeepsValid(r.points, ds[0].address, share);
      var points := r.points.AddPoints(ds[0].address, share).value;
      DepositsReachTheirOwners(ds[1..], minted, totalDeposit, DepositRun(points, Wrap(r.distributed + share)), a);
    }
  }

  /** Minting gives everyone exactly the shares of their own deposits; only the dead address gets more, and nobody loses points. */
  lemma MintingReachesOwners(m: Market, ds: seq<Deposit>, a: Address)
    requires m.Valid() && Mints(m, ds) && a != DEAD_ADDRESS
    requires DepositAll(m, ds).Some?
    ensures PointsOf(DepositAll(m, ds).value.points, a) ==
      PointsOf(m.points, a) + Shares(ds, Minted(m, SumOfDeposits(ds)), SumOfDeposits(ds), a)
  {
    DepositDistributes(m, ds);
    InitializedIsValid(m);
    InitializingSparesOthers(m, a);
    MintedFits(m, SumOfDeposits(ds));
    DustIsSunk(ds, Minted(m, SumOfDeposits(ds)), SumOfDeposits(ds), Initialized(m).value, a);
  }

  lemma InitializingSparesOthers(m: Market, a: Address)
    requires m.Valid() && a != DEAD_ADDRESS && Initialized(m).Some?
    ensures PointsOf(Initialized(m).value, a) == PointsOf(m.points, a)
  {
    if m.points.total == 0 {
      AddPointsKeepsValid(m.points, DEAD_ADDRESS, SqrtProduct(m.x, m.y));
    }
  }

  lemma DustIsSunk(ds: seq<Deposit>, minted: nat, totalDeposit: nat, points: Points, a: Address)
    requires points.Valid() && a != DEAD_ADDRESS
    requires 0 < totalDeposit == SumOfDeposits(ds) && minted <= MAX_UINT64
    requires Distribute(ds, minted, totalDeposit, points).Some?
    ensures PointsOf(Distribute(ds, minted, totalDeposit, points).value, a) == PointsOf(points, a) + Shares(ds, minted, totalDeposit, a)
  {
    var r := RunDeposits(ds, minted, totalDeposit, DepositRun(points, 0)).value;
    DepositsReachTheirOwners(ds, minted, totalDeposit, DepositRun(points, 0), a);
    SharesFit(ds, minted, totalDeposit);
    RunDepositsExact(ds, minted, totalDeposit, DepositRun(points, 0));
    AddPointsKeepsValid(r.points, DEAD_ADDRESS, Wrap(minted - r.distributed));
  }

  /** Whoever withdraws nothing keeps all points and is paid nothing. */
  lemma {:induction false} StrangersAreUntouched(ws: seq<Withdrawal>, totalX: nat, totalY: nat, toRemove: nat, r: WithdrawRun, local: bool, a: Address)
    requires r.points.Valid()
    requires forall k :: 0 <= k < |ws| ==> ws[k].address != a
    requires RunWithdrawals(ws, totalX, totalY, toRemove, r).Some?
    ensures var q := RunWithdrawals(ws, totalX, totalY, toRemove, r).value;
      PointsOf(q.points, a) == PointsOf(r.points, a) && PaidOut(q.payouts, local, a) == PaidOut(r.payouts, local, a)
    decreases |ws|
  {
    if ws != [] {
      var next := WithdrawOne(ws[0], totalX, totalY, toRemove, r).value;
      OneWithdrawal(ws[0], totalX, totalY, toRemove, r, local, a);
      StrangersAreUntouched(ws[1..], totalX, totalY, toRemove, next, local, a);
    }
  }

  lemma PaidOutAppend(payouts: seq<Payout>, p: Payout, local: bool, a: Address)
    ensures PaidOut(payouts + [p], local, a) == PaidOut(payouts, local, a) + if p.address != a then 0 else if local then p.x else p.y
  {
    assert (payouts + [p])[..|payouts + [p]| - 1] == payouts;
  }

  lemma NothingOfNothing(a: nat, c: nat)
    ensures SafeMulDiv(0, a, c) == 0 && SafeMulDiv(a, 0, c) == 0
  {
  }

  /** A withdrawal takes its percentage of the owner's points, pays the owner alone, and touches nobody else. */
  lemma OneWithdrawal(w: Withdrawal, totalX: nat, totalY: nat, toRemove: nat, r: WithdrawRun, local: bool, a: Address)
    requires r.points.Valid()
    requires WithdrawOne(w, totalX, totalY, toRemove, r).Some?
    ensures var q := WithdrawOne(w, totalX, totalY, toRemove, r).value;
      var points := SafeMulDiv(PointsOf(r.points, w.address), w.percent, 100);
      && q.points.Valid()
      && PointsOf(q.points, a) + (if a == w.address then points else 0) == PointsOf(r.points, a)
      && PaidOut(q.payouts, local, a) == PaidOut(r.payouts, local, a)
           + if a == w.address then SafeMulDiv(if local then totalX else totalY, points, toRemove) else 0
  {
    OwnedIsReported(r.points.holders, w.address);
    match r.points.GetPointsFor(w.address)
    case None =>
      NothingOfNothing(w.percent, 100);
      NothingOfNothing(if local then totalX else totalY, toRemove);
    case Some(initial) =>
      var points := SafeMulDiv(initial, w.percent, 100);
      PercentOf(initial, w.percent);
      RemovePointsKeepsValid(r.points, w.address, points);
      PaidOutAppend(r.payouts, Payout(w.address, SafeMulDiv(totalX, points, toRemove), SafeMulDiv(totalY, points, toRemove)), local, a);
  }
}
