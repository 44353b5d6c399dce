/**
 One chain's exchange as the object that the handlers update in place. Each handler is proved to
 succeed exactly when its function on states does, and then to leave exactly that state.
 */
module Exchange {
  import opened Options
  import opened Ledger
  import opened PoolPoints
  import opened Arithmetic
  import opened Amm
  import opened Batches

  class StateMachine {
    var accounts: map<Address, nat>
    var holding: nat
    var amount: nat
    var points: Points
    var locked: Option<Batch>
    var next: Option<Batch>
    var height: nat

    ghost function State(): Chain
      reads this
    {
      Chain(accounts, holding, amount, points, locked, next, height)
    }

    constructor (accounts: map<Address, nat>, amount: nat)
      ensures State() == Chain(accounts, 0, amount, Points([], 0), None, None, 0)
    {
      this.accounts, this.holding, this.amount := accounts, 0, amount;
      this.points, this.locked, this.next, this.height := Points([], 0), None, None, 0;
    }

    method CreditAccount(a: Address, n: nat) returns (ok: bool)
      modifies this`accounts
      ensures ok <==> AccountAdd(old(accounts), a, n).Some?
      ensures accounts == if ok then AccountAdd(old(accounts), a, n).value else old(accounts)
    {
      var r := AccountAdd(accounts, a, n);
      if r.Some? {
        accounts := r.value;
      }
      return r.Some?;
    }

    /** One receipt of our own order: its amount goes to the pool, or back to its owner. */
    method HandleOrderReceipt(o: Order, dY: nat, x0: nat, y0: nat) returns (ok: bool, x: nat, y: nat)
      modifies this`accounts, this`holding, this`amount
      ensures ok <==> AfterReceipt(old(State()), o, dY, x0, y0).Some?
      ensures ok ==> AfterReceipt(old(State()), o, dY, x0, y0).value == Moved(State(), x, y)
    {
      ok, x, y := true, x0, y0;
      if holding < o.amountForSale {
        ok := false;
        return;
      }
      holding := holding - o.amountForSale;
      if dY != 0 {
        if y <= dY {
          ok := false;
          return;
        }
        x, y := Wrap(x + o.amountForSale), y - dY;
        amount := Wrap(amount + o.amountForSale);
      } else {
        ok := CreditAccount(o.address, o.amountForSale);
      }
    }

    method HandleOrderReceipts(orders: seq<Order>, receipts: seq<nat>, x0: nat, y0: nat) returns (ok: bool, x: nat, y: nat)
      requires |orders| == |receipts|
      modifies this`accounts, this`holding, this`amount
      ensures ok <==> OrderReceipts(old(State()), orders, receipts, 0, x0, y0).Some?
      ensures ok ==> OrderReceipts(old(State()), orders, receipts, 0, x0, y0).value == Moved(State(), x, y)
    {
      ok, x, y := true, x0, y0;
      for i := 0 to |orders|
        invariant ok
        invariant OrderReceipts(State(), orders, receipts, i, x, y) == OrderReceipts(old(State()), orders, receipts, 0, x0, y0)
      {
        ReceiptThenRest(State(), orders, receipts, i, x, y);
        ok, x, y := HandleOrderReceipt(orders[i], receipts[i], x, y);
        if !ok {
          return;
        }
      }
    }

    method HandleDexBatchOrders(orders: seq<Order>, queue: seq<nat>, x0: nat, y0: nat)
      returns (ok: bool, x: nat, y: nat, receipts: seq<nat>)
      requires Queueable(queue, orders)
      modifies this`accounts, this`amount
      ensures ok <==> BatchOrders(old(State()), orders, queue, x0, y0).Some?
      ensures ok ==> BatchOrders(old(State()), orders, queue, x0, y0).value == Executed(State(), x, y, receipts)
    {
      ok, x, y, receipts := true, x0, y0, NoReceipts(|orders|);
      if x == 0 || y == 0 {
        ok := false;
        return;
      }
      for j := 0 to |queue|
        invariant ok && 0 < x && |receipts| == |orders| && State() == old(State())
        invariant RunOrders(orders, queue[j..], x, y, receipts) == ExecuteOrders(orders, queue, x0, y0)
      {
        assert queue[j..][0] == queue[j] && queue[j..][1..] == queue[j + 1..];
        var order := orders[queue[j]];
        var dX := order.amountForSale;
        var dY := SafeComputeDY(x, y, dX);
        if dY < order.requestedAmount {
          dY := 0;
        }
        receipts := receipts[queue[j] := dY];
        if dY != 0 {
          if x + dX > MAX_UINT64 {
            ok := false;
            return;
          }
          x, y := x + dX, Wrap(y - dY);
        }
      }
      assert queue[|queue|..] == [];
      ghost var run := OrderRun(x, y, receipts);
      assert ExecuteOrders(orders, queue, x0, y0) == Some(run);
      for i := 0 to |orders|
        invariant ok && |receipts| == |orders| && run == OrderRun(x, y, receipts)
        invariant PayReceipts(State(), orders, receipts, i) == PayReceipts(old(State()), orders, receipts, 0)
      {
        var out := receipts[i];
        if out != 0 {
          if amount < out {
            ok := false;
            return;
          }
          amount := amount - out;
          ok := CreditAccount(orders[i].address, out);
          if !ok {
            return;
          }
        }
      }
    }

    /** One round of the loop over the withdrawals; paid lists the payouts so far. */
    method PayWithdrawal(w: Withdrawal, totalX: nat, totalY: nat, toRemove: nat, local: bool, p0: Points, paidX0: nat, paidY0: nat,
                         ghost paid: seq<Payout>)
      returns (ok: bool, p: Points, paidX: nat, paidY: nat)
      modifies this`accounts
      ensures var r := WithdrawOne(w, totalX, totalY, toRemove, WithdrawRun(p0, paidX0, paidY0, paid));
        && (ok ==> r.Some? && (p, paidX, paidY) == (r.value.points, r.value.paidX, r.value.paidY))
        && (r.None? ==> accounts == old(accounts))
        && forall before :: PayAll(before, paid, local) == Some(old(accounts)) && r.Some? ==>
             PayAll(before, r.value.payouts, local) == if ok then Some(accounts) else None
    {
      ok, p, paidX, paidY := true, p0, paidX0, paidY0;
      var initial := p.GetPointsFor(w.address);
      if initial.Some? {
        var taken := SafeMulDiv(initial.value, w.percent, 100);
        var yShare := SafeMulDiv(totalY, taken, toRemove);
        var xShare := SafeMulDiv(totalX, taken, toRemove);
        var left := p.RemovePoints(w.address, taken);
        if left.None? {
          ok := false;
          return;
        }
        p := left.value;
        paidY, paidX := Wrap(paidY + yShare), Wrap(paidX + xShare);
        assert (paid + [Payout(w.address, xShare, yShare)])[..|paid|] == paid;
        ok := CreditAccount(w.address, if local then xShare else yShare);
      }
    }

    /** The loop over the withdrawals: points leave the ledger, shares go to the accounts. */
    method PayWithdrawals(ws: seq<Withdrawal>, totalX: nat, totalY: nat, toRemove: nat, local: bool)
      returns (ok: bool, p: Points, paidX: nat, paidY: nat)
      modifies this`accounts
      ensures var r := RunWithdrawals(ws, totalX, totalY, toRemove, WithdrawRun(points, 0, 0, []));
        && (ok <==> r.Some? && PayAll(old(accounts), r.value.payouts, local).Some?)
        && (ok ==> p == r.value.points && paidX == r.value.paidX && paidY == r.value.paidY
                   && Some(accounts) == PayAll(old(accounts), r.value.payouts, local))
    {
      ghost var run := WithdrawRun(points, 0, 0, []);
      ok, p, paidX, paidY := true, points, 0, 0;
      for i := 0 to |ws|
        invariant ok && (p, paidX, paidY) == (run.points, run.paidX, run.paidY)
        invariant RunWithdrawals(ws[i..], totalX, totalY, toRemove, run)
               == RunWithdrawals(ws, totalX, totalY, toRemove, WithdrawRun(points, 0, 0, []))
        invariant PayAll(old(accounts), run.payouts, local) == Some(accounts)
      {
        assert ws[i..][0] == ws[i] && ws[i..][1..] == ws[i + 1..];
        ghost var paid := run.payouts;
        ghost var step := WithdrawOne(ws[i], totalX, totalY, toRemove, run);
        ok, p, paidX, paidY := PayWithdrawal(ws[i], totalX, totalY, toRemove, local, p, paidX, paidY, paid);
        if !ok {
          if step.Some? {
            PayAllFails(old(accounts), ws[i + 1..], totalX, totalY, toRemove, step.value, local);
          }
          return;
        }
        run := step.value;
      }
      assert ws[|ws|..] == [];
    }

    /** The first loop over the withdrawals: the points to remove, as if each were made from the present ledger. */
    method SumPoints(ws: seq<Withdrawal>) returns (ok: bool, toRemove: nat)
      ensures ok <==> PointsToRemove(points, ws, 0).Some?
      ensures ok ==> PointsToRemove(points, ws, 0) == Some(toRemove)
    {
      ok, toRemove := true, 0;
      for i := 0 to |ws|
        invariant ok && PointsToRemove(points, ws[i..], toRemove) == PointsToRemove(points, ws, 0)
      {
        assert ws[i..][0] == ws[i] && ws[i..][1..] == ws[i + 1..];
        var initial := points.GetPointsFor(ws[i].address);
        if initial.Some? {
          toRemove := toRemove + SafeMulDiv(initial.value, ws[i].percent, 100);
          if toRemove > MAX_UINT64 {
            ok := false;
            return;
          }
        }
      }
      assert ws[|ws|..] == [];
    }

    method HandleBatchWithdraw(ws: seq<Withdrawal>, x0: nat, y0: nat, local: bool) returns (ok: bool, x: nat, y: nat)
      modifies this`accounts, this`amount, this`points
      ensures ok <==> BatchWithdraw(old(State()), ws, x0, y0, local).Some?
      ensures ok ==> BatchWithdraw(old(State()), ws, x0, y0, local).value == Moved(State(), x, y)
    {
      ok, x, y := true, x0, y0;
      if |ws| == 0 {
        return;
      }
      var toRemove;
      ok, toRemove := SumPoints(ws);
      if !ok {
        return;
      }
      if toRemove == 0 || points.total == 0 {
        return;
      }
      assert RemovesPoints(points, ws);
      var totalY := SafeMulDiv(y, toRemove, points.total);
      var totalX := SafeMulDiv(x, toRemove, points.total);
      var p, paidX, paidY;
      ok, p, paidX, paidY := PayWithdrawals(ws, totalX, totalY, toRemove, local);
      if !ok {
        return;
      }
      y, x := Wrap(y - paidY), Wrap(x - paidX);
      amount := if local then x else y;
      points := p;
    }

    /** The loop over the deposits: shares to the ledger, and for a local batch the funds from the holding pool. */
    method CreditDeposits(ds: seq<Deposit>, totalDL: nat, totalDeposit: nat, p0: Points, x0: nat, local: bool)
      returns (ok: bool, p: Points, pAmount: nat, x: nat)
      requires ds != [] && totalDeposit == SumOfDeposits(ds)
      modifies this`holding
      ensures ok <==> Distribute(ds, totalDL, totalDeposit, p0).Some? &&
                      (local ==> totalDeposit <= old(holding) && amount + totalDeposit <= MAX_UINT64)
      ensures ok ==> Distribute(ds, totalDL, totalDeposit, p0) == Some(p) && x == x0 + totalDeposit
      ensures ok && local ==> holding == old(holding) - totalDeposit && pAmount == amount + totalDeposit
      ensures ok && !local ==> holding == old(holding) && pAmount == amount
    {
      ghost var start := DepositRun(p0, 0);
      var distributed := 0;
      ok, p, pAmount, x := true, p0, amount, x0;
      for i := 0 to |ds|
        invariant ok
        invariant RunDeposits(ds[i..], totalDL, totalDeposit, DepositRun(p, distributed)) == RunDeposits(ds, totalDL, totalDeposit, start)
        invariant x + SumOfDeposits(ds[i..]) == x0 + totalDeposit
        invariant !local ==> holding == old(holding) && pAmount == amount
        invariant local ==> holding + totalDeposit == old(holding) + SumOfDeposits(ds[i..])
        invariant local ==> pAmount + SumOfDeposits(ds[i..]) == amount + totalDeposit
        invariant local && i > 0 ==> pAmount <= MAX_UINT64
      {
        assert ds[i..][0] == ds[i] && ds[i..][1..] == ds[i + 1..];
        var d := ds[i];
        var share := SafeMulDiv(totalDL, d.amount, totalDeposit);
        distributed := Wrap(distributed + share);
        if share > 0 {
          if p.GetPointsFor(d.address).None? && |p.holders| >= MAX_LIQUIDITY_PROVIDERS {
            ok := false;
            return;
          }
        }
        var added := p.AddPoints(d.address, share);
        if added.None? {
          ok := false;
          return;
        }
        p := added.value;
        if local {
          if holding < d.amount {
            ok := false;
            return;
          }
          holding := holding - d.amount;
          pAmount := pAmount + d.amount;
          if pAmount > MAX_UINT64 {
            ok := false;
            return;
          }
        }
        x := x + d.amount;
      }
      assert ds[|ds|..] == [];
      var sunk := p.AddPoints(DEAD_ADDRESS, Wrap(totalDL - distributed));
      if sunk.None? {
        ok := false;
        return;
      }
      p := sunk.value;
    }

    method HandleBatchDeposit(ds: seq<Deposit>, x0: nat, y0: nat, local: bool) returns (ok: bool, x: nat, y: nat)
      modifies this`holding, this`amount, this`points
      ensures ok <==> BatchDeposit(old(State()), ds, x0, y0, local).Some?
      ensures ok ==> BatchDeposit(old(State()), ds, x0, y0, local).value == Moved(State(), x, y)
    {
      ok, x, y := true, x0, y0;
      if |ds| == 0 {
        return;
      }
      var totalDeposit := 0;
      for i := 0 to |ds|
        invariant ok && State() == old(State())
        invariant totalDeposit <= MAX_UINT64
        invariant totalDeposit + SumOfDeposits(ds[i..]) == SumOfDeposits(ds)
      {
        assert ds[i..][0] == ds[i] && ds[i..][1..] == ds[i + 1..];
        if totalDeposit + ds[i].amount > MAX_UINT64 {
          ok := false;
          return;
        }
        totalDeposit := totalDeposit + ds[i].amount;
      }
      assert ds[|ds|..] == [];
      if totalDeposit == 0 || x == 0 || y == 0 {
        return;
      }
      var p, pAmount, L := points, amount, points.total;
      if L == 0 {
        L := SqrtProduct(x, y);
        var initialized := p.AddPoints(DEAD_ADDRESS, L);
        if initialized.None? {
          ok := false;
          return;
        }
        p := initialized.value;
      }
      var oldK := SqrtProduct(x, y);
      if oldK == 0 {
        ok := false;
        return;
      }
      if x + totalDeposit > MAX_UINT64 {
        ok := false;
        return;
      }
      var newK := SqrtProduct(x + totalDeposit, y);
      if newK < oldK {
        ok := false;
        return;
      }
      var totalDL := SafeMulDiv(L, newK - oldK, oldK);
      assert totalDL == Minted(Market(x0, y0, points), totalDeposit);
      ok, p, pAmount, x := CreditDeposits(ds, totalDL, totalDeposit, p, x, local);
      if !ok {
        return;
      }
      amount, points := pAmount, p;
    }

    method HandleReceiptsForOurLockedBatch(remote: Batch, mirror0: nat) returns (ok: bool, waiting: bool, mirror: nat)
      modifies this
      ensures ok <==> ReceiptsForOurs(old(State()), remote, mirror0).Some?
      ensures ok ==> ReceiptsForOurs(old(State()), remote, mirror0).value == Receipted(waiting, State(), mirror)
    {
      ok, waiting, mirror := true, false, mirror0;
      var ours := if locked.None? then NewBatch(amount) else locked.value;
      if ours.IsEmpty() {
        return;
      }
      if remote.receiptHash != ours.Hashed() || |ours.orders| != |remote.receipts| {
        waiting := true;
        return;
      }
      var x := amount;
      ok, x, mirror := HandleOrderReceipts(ours.orders, remote.receipts, x, mirror);
      if !ok {
        return;
      }
      ok, x, mirror := HandleBatchWithdraw(ours.withdrawals, x, mirror, true);
      if !ok {
        return;
      }
      ok, x, mirror := HandleBatchDeposit(ours.deposits, x, mirror, true);
      if !ok {
        return;
      }
      locked := None;
    }

    method HandleRemoteChainLockedBatch(remote: Batch, queue: seq<nat>, mirror0: nat)
      returns (ok: bool, mirror: nat, ghost y: nat, receipts: seq<nat>)
      requires Queueable(queue, remote.orders)
      modifies this
      ensures ok <==> ExecuteRemote(old(State()), remote, queue, mirror0).Some?
      ensures ok ==> ExecuteRemote(old(State()), remote, queue, mirror0).value == Executed(State(), mirror, y, receipts)
    {
      mirror := mirror0;
      var localPool := amount;
      ok, mirror, localPool, receipts := HandleDexBatchOrders(remote.orders, queue, mirror, localPool);
      y := localPool;
      if !ok {
        return;
      }
      ok, mirror, localPool := HandleBatchWithdraw(remote.withdrawals, mirror, localPool, false);
      y := localPool;
      if !ok {
        return;
      }
      ok, mirror, localPool := HandleBatchDeposit(remote.deposits, mirror, localPool, false);
      y := localPool;
    }

    method RotateDexBatches(receiptHash: Hash, poolSize: nat, receipts: seq<nat>)
      modifies this`locked, this`next
      ensures State() == Rotate(old(State()), receiptHash, poolSize, receipts)
    {
      var current := if locked.None? then NewBatch(amount) else locked.value;
      if !current.IsEmpty() {
        return;
      }
      var batch := if next.None? then NewBatch(amount) else next.value;
      batch := batch.(poolSize := poolSize);
      batch := batch.(receiptHash := receiptHash);
      batch := batch.(lockedHeight := height);
      if |receipts| != 0 {
        batch := batch.(receipts := receipts);
      }
      next := None;
      locked := Some(batch);
    }

    method HandleRemoteDexBatch(remote: Batch, queue: seq<nat>) returns (ok: bool)
      requires Queueable(queue, remote.orders)
      modifies this
      ensures ok <==> HandleRemoteBatch(old(State()), remote, queue).Some?
      ensures ok ==> HandleRemoteBatch(old(State()), remote, queue).value == State()
    {
      ok := true;
      var receipts: seq<nat> := [];
      var midPoint := amount;
      if !remote.IsEmpty() {
        var waiting, mirror;
        ok, waiting, mirror := HandleReceiptsForOurLockedBatch(remote.Copy(), remote.poolSize);
        if !ok || waiting {
          return;
        }
        midPoint := amount;
        ghost var y;
        ok, mirror, y, receipts := HandleRemoteChainLockedBatch(remote.Copy(), queue, mirror);
        if !ok {
          return;
        }
      }
      RotateDexBatches(remote.LinkHash(), midPoint, receipts);
    }

    method RefundTo(a: Address, n: nat) returns (ok: bool)
      modifies this`accounts, this`holding
      ensures ok <==> Refund(old(State()), a, n).Some?
      ensures ok ==> Refund(old(State()), a, n).value == State()
    {
      if holding < n {
        return false;
      }
      holding := holding - n;
      ok := CreditAccount(a, n);
    }

    method HandleLivenessFallback(ours: Batch, remote: Batch) returns (ok: bool)
      modifies this
      ensures ok <==> LivenessFallback(old(State()), ours, remote).Some?
      ensures ok ==> LivenessFallback(old(State()), ours, remote).value == State()
    {
      ok := true;
      for i := 0 to |ours.orders|
        invariant ok
        invariant RefundOrders(State(), ours.orders[i..]) == RefundOrders(old(State()), ours.orders)
      {
        assert ours.orders[i..][0] == ours.orders[i] && ours.orders[i..][1..] == ours.orders[i + 1..];
        ok := RefundTo(ours.orders[i].address, ours.orders[i].amountForSale);
        if !ok {
          return;
        }
      }
      assert ours.orders[|ours.orders|..] == [];
      ghost var afterOrders := State();
      for i := 0 to |ours.deposits|
        invariant ok
        invariant RefundDeposits(State(), ours.deposits[i..]) == RefundDeposits(afterOrders, ours.deposits)
      {
        assert ours.deposits[i..][0] == ours.deposits[i] && ours.deposits[i..][1..] == ours.deposits[i + 1..];
        ok := RefundTo(ours.deposits[i].address, ours.deposits[i].amount);
        if !ok {
          return;
        }
      }
      assert ours.deposits[|ours.deposits|..] == [];
      points := if remote.poolPoints.Some? then remote.poolPoints.value else Points([], 0);
      locked := None;
    }

    method Handle(remote: Option<Batch>, queue: seq<nat>) returns (ok: bool)
      requires remote.Some? ==> Queueable(queue, remote.value.orders)
      modifies this
      ensures ok <==> HandleDexBatch(old(State()), remote, queue).Some?
      ensures ok ==> HandleDexBatch(old(State()), remote, queue).value == State()
    {
      if remote.None? || amount == 0 {
        return true;
      }
      var ours := if locked.None? then NewBatch(amount) else locked.value;
      if remote.value.livenessFallback {
        ok := HandleLivenessFallback(ours, remote.value);
        if !ok {
          return;
        }
      }
      ok := HandleRemoteDexBatch(remote.value, queue);
    }

    method IncludeSameBlockDex()
      modifies this`locked, this`next
      ensures State() == IncludeSameBlock(old(State()))
    {
      if locked.None? {
        return;
      }
      var batch := locked.value;
      if batch.lockedHeight != height {
        return;
      }
      var pending := if next.None? then NewBatch(amount) else next.value;
      var ordersToMove := CanMove(|batch.orders|, |pending.orders|, MAX_ORDERS);
      var depositsToMove := CanMove(|batch.deposits|, |pending.deposits|, MAX_DEPOSITS);
      var withdrawalsToMove := CanMove(|batch.withdrawals|, |pending.withdrawals|, MAX_WITHDRAWALS);
      if ordersToMove == 0 && depositsToMove == 0 && withdrawalsToMove == 0 {
        return;
      }
      assert batch.orders + pending.orders[..0] == batch.orders && pending.orders[0..] == pending.orders;
      assert batch.deposits + pending.deposits[..0] == batch.deposits && pending.deposits[0..] == pending.deposits;
      assert batch.withdrawals + pending.withdrawals[..0] == batch.withdrawals && pending.withdrawals[0..] == pending.withdrawals;
      if ordersToMove != 0 {
        batch := batch.(orders := batch.orders + pending.orders[..ordersToMove]);
        pending := pending.(orders := pending.orders[ordersToMove..]);
      }
      if depositsToMove != 0 {
        batch := batch.(deposits := batch.deposits + pending.deposits[..depositsToMove]);
        pending := pending.(deposits := pending.deposits[depositsToMove..]);
      }
      if withdrawalsToMove != 0 {
        batch := batch.(withdrawals := batch.withdrawals + pending.withdrawals[..withdrawalsToMove]);
        pending := pending.(withdrawals := pending.withdrawals[withdrawalsToMove..]);
      }
      locked := Some(batch);
      if pending.orders == [] && pending.deposits == [] && pending.withdrawals == [] {
        next := None;
      } else {
        next := Some(pending);
      }
    }

    method HandleMessageDexLimitOrder(o: Order) returns (ok: bool)
      modifies this`accounts, this`holding, this`next
      ensures ok <==> LimitOrder(old(State()), o).Some?
      ensures ok ==> LimitOrder(old(State()), o).value == State()
    {
      var batch := if next.None? then NewBatch(amount) else next.value;
      if batch.poolSize == 0 {
        return false;
      }
      if |batch.orders| >= MAX_ORDERS {
        return false;
      }
      var debited := AccountSub(accounts, o.address, o.amountForSale);
      if debited.None? {
        return false;
      }
      accounts := debited.value;
      holding := Wrap(holding + o.amountForSale);
      next := Some(batch.(orders := batch.orders + [o]));
      return true;
    }

    method HandleMessageDexLiquidityDeposit(d: Deposit) returns (ok: bool)
      modifies this`accounts, this`holding, this`next
      ensures ok <==> LiquidityDeposit(old(State()), d).Some?
      ensures ok ==> LiquidityDeposit(old(State()), d).value == State()
    {
      var batch := if next.None? then NewBatch(amount) else next.value;
      if amount == 0 || |points.holders| >= MAX_LIQUIDITY_PROVIDERS {
        return false;
      }
      if |batch.deposits| >= MAX_DEPOSITS {
        return false;
      }
      var debited := AccountSub(accounts, d.address, d.amount);
      if debited.None? {
        return false;
      }
      accounts := debited.value;
      holding := Wrap(holding + d.amount);
      next := Some(batch.(deposits := batch.deposits + [d]));
      return true;
    }

    method HandleMessageDexLiquidityWithdraw(w: Withdrawal) returns (ok: bool)
      modifies this`next
      ensures ok <==> LiquidityWithdraw(old(State()), w).Some?
      ensures ok ==> LiquidityWithdraw(old(State()), w).value == State()
    {
      var batch := if next.None? then NewBatch(amount) else next.value;
      if batch.poolSize == 0 {
        return false;
      }
      if |batch.withdrawals| >= MAX_WITHDRAWALS {
        return false;
      }
      if points.GetPointsFor(w.address).None? {
        return false;
      }
      next := Some(batch.(withdrawals := batch.withdrawals + [w]));
      return true;
    }
  }

  /** The state after one receipt for our own order. */
  function AfterReceipt(c: Chain, o: Order, dY: nat, x: nat, y: nat): Option<Moved> {
    if c.holding < o.amountForSale then None
    else
      var c1 := c.(holding := c.holding - o.amountForSale);
      if dY != 0 then
        if y <= dY then None else Some(Moved(c1.(amount := Wrap(c1.amount + o.amountForSale)), Wrap(x + o.amountForSale), y - dY))
      else
        var accounts :- AccountAdd(c1.accounts, o.address, o.amountForSale);
        Some(Moved(c1.(accounts := accounts), x, y))
  }

  lemma ReceiptThenRest(c: Chain, orders: seq<Order>, receipts: seq<nat>, i: nat, x: nat, y: nat)
    requires i < |orders| == |receipts|
    ensures var r := AfterReceipt(c, orders[i], receipts[i], x, y);
      OrderReceipts(c, orders, receipts, i, x, y) ==
        if r.None? then None else OrderReceipts(r.value.chain, orders, receipts, i + 1, r.value.x, r.value.y)
  {
  }

  lemma {:induction false} PayoutsExtend(ws: seq<Withdrawal>, totalX: nat, totalY: nat, toRemove: nat, r: WithdrawRun)
    requires RunWithdrawals(ws, totalX, totalY, toRemove, r).Some?
    ensures r.payouts <= RunWithdrawals(ws, totalX, totalY, toRemove, r).value.payouts
    decreases |ws|
  {
    if ws != [] {
      match r.points.GetPointsFor(ws[0].address)
      case None => PayoutsExtend(ws[1..], totalX, totalY, toRemove, r);
      case Some(initial) =>
        var taken := SafeMulDiv(initial, ws[0].percent, 100);
        var xShare, yShare := SafeMulDiv(totalX, taken, toRemove), SafeMulDiv(totalY, taken, toRemove);
        var left := r.points.RemovePoints(ws[0].address, taken).value;
        PayoutsExtend(ws[1..], totalX, totalY, toRemove,
                      WithdrawRun(left, Wrap(r.paidX + xShare), Wrap(r.paidY + yShare), r.payouts + [Payout(ws[0].address, xShare, yShare)]));
    }
  }

  lemma {:induction false} PrefixFails(accounts: map<Address, nat>, part: seq<Payout>, all: seq<Payout>, local: bool)
    requires part <= all
    requires PayAll(accounts, part, local).None?
    ensures PayAll(accounts, all, local).None?
    decreases |all|
  {
    if |part| < |all| {
      PrefixFails(accounts, part, all[..|all| - 1], local);
    } else {
      assert part == all;
    }
  }

  /** Once a payout cannot be credited, the whole stage fails. */
  lemma PayAllFails(accounts: map<Address, nat>, ws: seq<Withdrawal>, totalX: nat, totalY: nat, toRemove: nat, r: WithdrawRun, local: bool)
    requires PayAll(accounts, r.payouts, local).None?
    ensures RunWithdrawals(ws, totalX, totalY, toRemove, r).Some? ==>
      PayAll(accounts, RunWithdrawals(ws, totalX, totalY, toRemove, r).value.payouts, local).None?
  {
    if RunWithdrawals(ws, totalX, totalY, toRemove, r).Some? {
      PayoutsExtend(ws, totalX, totalY, toRemove, r);
      PrefixFails(accounts, r.payouts, RunWithdrawals(ws, totalX, totalY, toRemove, r).value.payouts, local);
    }
  }
}
