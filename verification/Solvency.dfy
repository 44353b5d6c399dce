/**
 One chain's exchange against a counter chain that may send anything: batches that nobody locked, receipts
 that nobody earned, fallbacks. As long as the points of its fallbacks cover their holders, no token is created, lost
 or stranded, whatever is handled.
 */
module Solvency {
  import opened Options
  import opened Ledger
  import opened PoolPoints
  import opened Amm
  import opened Batches
  import opened Conservation
  import opened Pipeline

  /** The holding pool covers the pending operations, the points cover their holders, and everything fits in 64 bits. */
  ghost predicate Accounted(c: Chain) {
    && 0 <= Surplus(c) && Funds(c) <= MAX_UINT64
    && c.points.Covers()
    && (c.locked.Some? ==> !c.locked.value.IsEmpty())
  }

  /** What any batch satisfies that can be encoded. */
  ghost predicate Encodable(b: Batch) {
    && b.poolSize <= MAX_UINT64
    && (b.poolPoints.Some? ==>
          && b.poolPoints.value.total <= MAX_UINT64
          && forall j :: 0 <= j < |b.poolPoints.value.holders| ==> b.poolPoints.value.holders[j].points <= MAX_UINT64)
  }

  /** The points that a fallback carries cover their holders; nothing checks this when they are taken over. */
  ghost predicate CoveringFallback(b: Batch) {
    b.livenessFallback && b.poolPoints.Some? ==> SumOf(b.poolPoints.value.holders) <= b.poolPoints.value.total
  }

  /** The points that a fallback carries are those of a ledger that adds up. */
  ghost predicate ValidFallback(b: Batch) {
    b.livenessFallback && b.poolPoints.Some? ==> b.poolPoints.value.Valid()
  }

  /** Tokens and surplus are the same, and points that added up still do. */
  ghost predicate Conserved(c: Chain, d: Chain) {
    Funds(d) == Funds(c) && Surplus(d) == Surplus(c) && (c.points.Valid() ==> d.points.Valid())
  }

  lemma {:induction false} ReplayLeavesSomething(orders: seq<Order>, receipts: seq<nat>, i: nat, x: nat, y: nat)
    requires i <= |orders| == |receipts|
    requires Replay(orders, receipts, i, x, y).Some?
    ensures Replay(orders, receipts, i, x, y).value.1 <= y
    ensures 0 < y ==> 0 < Replay(orders, receipts, i, x, y).value.1
    decreases |orders| - i
  {
    if i < |orders| {
      if receipts[i] == 0 {
        ReplayLeavesSomething(orders, receipts, i + 1, x, y);
      } else {
        ReplayLeavesSomething(orders, receipts, i + 1, Wrap(x + orders[i].amountForSale), y - receipts[i]);
      }
    }
  }

  /** Any receipts that are applied at all conserve tokens, and free exactly what was held for the answered batch. */
  lemma ReceiptsConserve(c: Chain, remote: Batch, mirror: nat)
    requires Accounted(c) && 0 < c.amount && mirror <= MAX_UINT64
    requires ReceiptsForOurs(c, remote, mirror).Some?
    ensures var r := ReceiptsForOurs(c, remote, mirror).value;
      && Funds(r.chain) == Funds(c)
      && r.mirror <= mirror
      && (0 < mirror ==> Accounted(r.chain) && Conserved(c, r.chain) && 0 < r.chain.amount && 0 < r.mirror)
      && (r.waiting ==> r.chain == c)
      && (!r.waiting ==> r.chain.locked.None? || r.chain.Locked().IsEmpty())
      && r.chain.next == c.next && r.chain.height == c.height
  {
    var ours := c.Locked();
    if !ours.IsEmpty() && Answers(remote, ours) {
      var o := OrderReceipts(c, ours.orders, remote.receipts, 0, c.amount, mirror).value;
      OrderReceiptsConserve(c, ours.orders, remote.receipts, mirror);
      LiquidityReceiptsConserve(o.chain, ours, o.x, o.y);
    }
  }

  lemma OrderReceiptsConserve(c: Chain, orders: seq<Order>, receipts: seq<nat>, mirror: nat)
    requires |orders| == |receipts|
    requires c.points.Covers() && Funds(c) <= MAX_UINT64 && mirror <= MAX_UINT64 && SumOfOrders(orders) <= c.holding
    requires OrderReceipts(c, orders, receipts, 0, c.amount, mirror).Some?
    ensures var o := OrderReceipts(c, orders, receipts, 0, c.amount, mirror).value;
      && Ready(o.chain, o.x, o.y, true) && Funds(o.chain) == Funds(c)
      && c.amount <= o.x && o.y <= mirror && (0 < mirror ==> 0 < o.y)
      && o.chain.holding + SumOfOrders(orders) == c.holding
      && o.chain.points == c.points && SameBatches(o.chain, c)
  {
    assert orders[0..] == orders;
    ReceiptsRefineReplay(c, orders, receipts, 0, mirror);
    ReplayLeavesSomething(orders, receipts, 0, c.amount, mirror);
    ReplayGrows(orders, receipts, 0, c, mirror);
  }

  lemma LiquidityReceiptsConserve(c: Chain, ours: Batch, x: nat, y: nat)
    requires Ready(c, x, y, true) && 0 < x && SumOfDeposits(ours.deposits) <= c.holding
    ensures var w := BatchWithdraw(c, ours.withdrawals, x, y, true);
      w.Some? ==>
        var d := BatchDeposit(w.value.chain, ours.deposits, w.value.x, w.value.y, true);
        d.Some? ==>
          && Ready(d.value.chain, d.value.x, d.value.y, true) && Funds(d.value.chain) == Funds(c)
          && (c.points.Valid() ==> d.value.chain.points.Valid())
          && 0 < d.value.x && d.value.y <= y && (0 < y ==> 0 < d.value.y)
          && (0 < y ==> d.value.chain.holding + SumOfDeposits(ours.deposits) == c.holding)
          && SameBatches(d.value.chain, c)
  {
    WithdrawRefinesMarket(c, ours.withdrawals, x, y, true);
    var w := BatchWithdraw(c, ours.withdrawals, x, y, true);
    if w.Some? {
      WithdrawNeverOverpays(Market(x, y, c.points), ours.withdrawals);
      DepositRefinesMarket(w.value.chain, ours.deposits, w.value.x, w.value.y, true);
      if BatchDeposit(w.value.chain, ours.deposits, w.value.x, w.value.y, true).Some? {
        DepositMintsExactly(Market(w.value.x, w.value.y, w.value.chain.points), ours.deposits);
      }
    }
  }

  /** Receipts only add to the liquidity pool. */
  lemma {:induction false} ReplayGrows(orders: seq<Order>, receipts: seq<nat>, i: nat, c: Chain, y: nat)
    requires i <= |orders| == |receipts|
    requires Funds(c) <= MAX_UINT64 && SumOfOrders(orders[i..]) <= c.holding
    requires OrderReceipts(c, orders, receipts, i, c.amount, y).Some?
    ensures c.amount <= OrderReceipts(c, orders, receipts, i, c.amount, y).value.chain.amount
    decreases |orders| - i
  {
    if i < |orders| {
      assert orders[i..][0] == orders[i] && orders[i..][1..] == orders[i + 1..];
      OneReceipt(c, orders[i]);
      if receipts[i] == 0 {
        ReplayGrows(orders, receipts, i + 1, Refunded(c, orders[i]), y);
      } else {
        ReplayGrows(orders, receipts, i + 1, Settled(c, orders[i]), y - receipts[i]);
      }
    }
  }

  lemma ExecutionConserves(c: Chain, remote: Batch, queue: seq<nat>, mirror: nat)
    requires Accounted(c) && mirror <= MAX_UINT64
    requires Permutation(queue, |remote.orders|)
    requires ExecuteRemote(c, remote, queue, mirror).Some?
    ensures var e := ExecuteRemote(c, remote, queue, mirror).value;
      && Accounted(e.chain) && Conserved(c, e.chain)
      && 0 < mirror && 0 < e.chain.amount
      && SameBatches(e.chain, c)
  {
    ExecuteRefinesMarket(c, remote, queue, mirror);
    OrdersKeepProduct(remote.orders, queue, mirror, c.amount);
    var o := ExecuteOrders(remote.orders, queue, mirror, c.amount).value;
    var w := Withdraw(Market(o.x, o.y, c.points), remote.withdrawals).value;
    WithdrawNeverOverpays(Market(o.x, o.y, c.points), remote.withdrawals);
    DepositMintsExactly(w.market, remote.deposits);
  }

  /** A locked batch always links to a hash. */
  lemma RotationKeepsAccounts(c: Chain, remote: Batch, poolSize: nat, receipts: seq<nat>)
    requires Accounted(c)
    ensures var d := Rotate(c, remote.LinkHash(), poolSize, receipts);
      Accounted(d) && Conserved(c, d) && d.amount == c.amount
  {
    RotateKeepsHolding(c, remote.LinkHash(), poolSize, receipts);
  }

  /** A batch that reports an empty pool can only be early: executing it is refused. */
  lemma EmptyMirrorIsRefused(c: Chain, remote: Batch, queue: seq<nat>)
    requires Accounted(c) && 0 < c.amount
    requires !remote.IsEmpty() && remote.poolSize == 0
    requires Permutation(queue, |remote.orders|)
    ensures HandleRemoteBatch(c, remote, queue).Some? ==> HandleRemoteBatch(c, remote, queue) == Some(c)
  {
    var r := ReceiptsForOurs(c, remote.Copy(), 0);
    if r.Some? {
      ReceiptsConserve(c, remote.Copy(), 0);
      assert ExecuteRemote(r.value.chain, remote.Copy(), queue, 0).None?;
    }
  }

  lemma RemoteBatchConserves(c: Chain, remote: Batch, queue: seq<nat>)
    requires Accounted(c) && 0 < c.amount
    requires Encodable(remote) && Permutation(queue, |remote.orders|)
    requires HandleRemoteBatch(c, remote, queue).Some?
    ensures var d := HandleRemoteBatch(c, remote, queue).value;
      Accounted(d) && Conserved(c, d) && 0 < d.amount
  {
    if remote.IsEmpty() {
      RotationKeepsAccounts(c, remote, c.amount, []);
    } else if remote.poolSize == 0 {
      EmptyMirrorIsRefused(c, remote, queue);
    } else {
      var r := ReceiptsForOurs(c, remote.Copy(), remote.poolSize).value;
      ReceiptsConserve(c, remote.Copy(), remote.poolSize);
      if !r.waiting {
        var e := ExecuteRemote(r.chain, remote.Copy(), queue, r.mirror).value;
        ExecutionConserves(r.chain, remote.Copy(), queue, r.mirror);
        RotationKeepsAccounts(e.chain, remote, r.chain.amount, e.receipts);
        assert HandleRemoteBatch(c, remote, queue) == Some(Rotate(e.chain, remote.LinkHash(), r.chain.amount, e.receipts));
      }
    }
  }

  /** The chain that handles a batch: a fallback has first refunded the locked one and taken over the points. */
  function Cleared(c: Chain, remote: Batch): Option<Chain> {
    if remote.livenessFallback then LivenessFallback(c, c.Locked(), remote) else Some(c)
  }

  lemma ClearingConserves(c: Chain, remote: Batch)
    requires Accounted(c) && Encodable(remote) && CoveringFallback(remote)
    ensures Cleared(c, remote).Some?
    ensures var d := Cleared(c, remote).value;
      && Accounted(d) && Funds(d) == Funds(c) && Surplus(d) == Surplus(c) && d.amount == c.amount
      && (c.points.Valid() && ValidFallback(remote) ==> d.points.Valid())
  {
    FallbackRefundsEverything(c, remote);
  }

  /**
   Every successful handling of any batch, fallbacks included, conserves tokens and leaves a positive pool positive,
   as long as the points that a fallback carries cover their holders.
   */
  lemma HandleDexBatchConserves(c: Chain, remote: Batch, queue: seq<nat>)
    requires Accounted(c)
    requires Encodable(remote) && CoveringFallback(remote) && Permutation(queue, |remote.orders|)
    requires HandleDexBatch(c, Some(remote), queue).Some?
    ensures var d := HandleDexBatch(c, Some(remote), queue).value;
      && Accounted(d) && Funds(d) == Funds(c) && Surplus(d) == Surplus(c) && (0 < d.amount <==> 0 < c.amount)
      && (c.points.Valid() && ValidFallback(remote) ==> d.points.Valid())
  {
    if 0 < c.amount {
      ClearingConserves(c, remote);
      RemoteBatchConserves(Cleared(c, remote).value, remote, queue);
    }
  }

  /** Without a pool, or without a batch from the counter chain, nothing happens, whatever that chain sends. */
  lemma WithoutPoolNothingHappens(c: Chain, remote: Option<Batch>, queue: seq<nat>)
    requires c.amount == 0 || remote.None?
    requires remote.Some? ==> Queueable(queue, remote.value.orders)
    ensures HandleDexBatch(c, remote, queue) == Some(c)
  {
  }

  // ---------------------------------------------------------------------------------------------
  // Liquidity providers
  // ---------------------------------------------------------------------------------------------

  /** The liquidity stages of a batch take nothing from those who neither withdraw nor deposit. */
  ghost predicate FairLiquidity(c: Chain, ws: seq<Withdrawal>, ds: seq<Deposit>, x: nat, y: nat, local: bool) {
    var w := BatchWithdraw(c, ws, x, y, local);
    w.Some? ==>
      && ValueKept(Market(x, y, c.points), Market(w.value.x, w.value.y, w.value.chain.points))
      && var d := BatchDeposit(w.value.chain, ds, w.value.x, w.value.y, local);
      d.Some? ==> MintedFairly(Market(w.value.x, w.value.y, w.value.chain.points), ds, Market(d.value.x, d.value.y, d.value.chain.points))
  }

  lemma LiquidityIsFair(c: Chain, ws: seq<Withdrawal>, ds: seq<Deposit>, x: nat, y: nat, local: bool)
    requires Ready(c, x, y, local)
    requires local ==> SumOfDeposits(ds) <= c.holding
    ensures FairLiquidity(c, ws, ds, x, y, local)
  {
    WithdrawRefinesMarket(c, ws, x, y, local);
    var w := BatchWithdraw(c, ws, x, y, local);
    if w.Some? {
      WithdrawNeverOverpays(Market(x, y, c.points), ws);
      DepositRefinesMarket(w.value.chain, ds, w.value.x, w.value.y, local);
      if BatchDeposit(w.value.chain, ds, w.value.x, w.value.y, local).Some? {
        DepositMintsExactly(Market(w.value.x, w.value.y, w.value.chain.points), ds);
      }
    }
  }

  /** Applying receipts is fair to the providers: the orders only add to the pool, and the liquidity stages are fair. */
  ghost predicate FairReceipts(c: Chain, remote: Batch, mirror: nat) {
    var ours := c.Locked();
    Answers(remote, ours) && OrderReceipts(c, ours.orders, remote.receipts, 0, c.amount, mirror).Some? ==>
      var o := OrderReceipts(c, ours.orders, remote.receipts, 0, c.amount, mirror).value;
      o.chain.points == c.points && FairLiquidity(o.chain, ours.withdrawals, ours.deposits, o.x, o.y, true)
  }

  /** Executing a batch is fair to the providers: its orders never shrink the product of the reserves. */
  ghost predicate FairExecution(c: Chain, remote: Batch, queue: seq<nat>, mirror: nat)
    requires Queueable(queue, remote.orders)
  {
    var o := BatchOrders(c, remote.orders, queue, mirror, c.amount);
    o.Some? ==>
      && o.value.chain.points == c.points && mirror * c.amount <= o.value.x * o.value.y
      && FairLiquidity(o.value.chain, remote.withdrawals, remote.deposits, o.value.x, o.value.y, false)
  }

  lemma ReceiptsAreFair(c: Chain, remote: Batch, mirror: nat)
    requires Accounted(c) && mirror <= MAX_UINT64
    ensures FairReceipts(c, remote, mirror)
  {
    var ours := c.Locked();
    if Answers(remote, ours) && OrderReceipts(c, ours.orders, remote.receipts, 0, c.amount, mirror).Some? {
      var o := OrderReceipts(c, ours.orders, remote.receipts, 0, c.amount, mirror).value;
      OrderReceiptsConserve(c, ours.orders, remote.receipts, mirror);
      assert ours.orders[0..] == ours.orders;
      ReceiptsRefineReplay(c, ours.orders, remote.receipts, 0, mirror);
      LiquidityIsFair(o.chain, ours.withdrawals, ours.deposits, o.x, o.y, true);
    }
  }

  lemma ExecutionIsFair(c: Chain, remote: Batch, queue: seq<nat>, mirror: nat)
    requires Accounted(c) && mirror <= MAX_UINT64
    requires Permutation(queue, |remote.orders|)
    ensures FairExecution(c, remote, queue, mirror)
  {
    OrdersRefineMarket(c, remote.orders, queue, mirror);
    var o := BatchOrders(c, remote.orders, queue, mirror, c.amount);
    if o.Some? {
      OrdersKeepProduct(remote.orders, queue, mirror, c.amount);
      LiquidityIsFair(o.value.chain, remote.withdrawals, remote.deposits, o.value.x, o.value.y, false);
    }
  }

  // ---------------------------------------------------------------------------------------------
  // Runs
  // ---------------------------------------------------------------------------------------------

  /** A step of the chain, with an arbitrary batch in place of a delivery from an honest counter chain. */
  ghost function Facing(c: Chain, e: Event): Chain
    requires e.Deliver? ==> Permutation(e.queue, |e.batch.orders|)
  {
    if e.Deliver? then Attempt(c, HandleDexBatch(c, Some(e.batch), e.queue)) else Local(c, e)
  }

  lemma FacingConserves(c: Chain, e: Event)
    requires Accounted(c) && !e.Outside?
    requires e.Deliver? ==> Encodable(e.batch) && CoveringFallback(e.batch) && Permutation(e.queue, |e.batch.orders|)
    ensures Accounted(Facing(c, e)) && Funds(Facing(c, e)) == Funds(c) && Surplus(Facing(c, e)) == Surplus(c)
    ensures 0 < Facing(c, e).amount <==> 0 < c.amount
    ensures c.points.Valid() && (e.Deliver? ==> ValidFallback(e.batch)) ==> Facing(c, e).points.Valid()
  {
    match e
    case Sell(_, o) => OrderKeepsHolding(c, o);
    case Provide(_, p) => DepositKeepsHolding(c, p);
    case EndBlock(_) => InclusionKeepsHolding(c);
    case Deliver(_, batch, queue) =>
      if HandleDexBatch(c, Some(batch), queue).Some? {
        HandleDexBatchConserves(c, batch, queue);
      }
    case _ =>
  }

  /** A run of one chain, whose events other than deliveries are its own. */
  ghost predicate LoneRun(chains: seq<Chain>, events: seq<Event>) {
    && |chains| == |events| + 1
    && Accounted(chains[0])
    && forall k :: 0 <= k < |events| ==>
         && !events[k].Outside?
         && (events[k].Deliver? ==> Encodable(events[k].batch) && Permutation(events[k].queue, |events[k].batch.orders|))
         && chains[k + 1] == Facing(chains[k], events[k])
  }

  /** Every fallback delivered before step k carries points that cover their holders. */
  ghost predicate CoveringRun(events: seq<Event>, k: nat)
    requires k <= |events|
  {
    forall j :: 0 <= j < k && events[j].Deliver? ==> CoveringFallback(events[j].batch)
  }

  /**
   In every run against any counter chain whose fallbacks carry points that cover their holders: all tokens stay, the holding
   pool is the pending operations and its first surplus, and no pool is emptied.
   */
  lemma {:induction false} NothingIsLost(chains: seq<Chain>, events: seq<Event>, k: nat)
    requires LoneRun(chains, events) && k <= |events| && CoveringRun(events, k)
    ensures Accounted(chains[k]) && Funds(chains[k]) == Funds(chains[0]) && Surplus(chains[k]) == Surplus(chains[0])
    ensures 0 < chains[k].amount <==> 0 < chains[0].amount
  {
    if k != 0 {
      NothingIsLost(chains, events, k - 1);
      FacingConserves(chains[k - 1], events[k - 1]);
    }
  }

  /** If the fallbacks carry points that add up, the points add up in every run. */
  lemma {:induction false} PointsAddUp(chains: seq<Chain>, events: seq<Event>, k: nat)
    requires LoneRun(chains, events) && k <= |events| && CoveringRun(events, k)
    requires chains[0].points.Valid()
    requires forall j :: 0 <= j < k && events[j].Deliver? ==> ValidFallback(events[j].batch)
    ensures chains[k].points.Valid()
  {
    if k != 0 {
      PointsAddUp(chains, events, k - 1);
      NothingIsLost(chains, events, k - 1);
      FacingConserves(chains[k - 1], events[k - 1]);
    }
  }

  /**
   In every such run, after any fallback and whether the points are backed or not: no batch that is received dilutes the
   liquidity providers, neither by its receipts nor by its execution.
   */
  lemma NobodyIsDiluted(chains: seq<Chain>, events: seq<Event>, k: nat)
    requires LoneRun(chains, events) && k < |events| && events[k].Deliver? && CoveringRun(events, k + 1)
    ensures var remote := events[k].batch.Copy();
      && Cleared(chains[k], events[k].batch).Some?
      && var c := Cleared(chains[k], events[k].batch).value;
      && FairReceipts(c, remote, remote.poolSize)
      && (ReceiptsForOurs(c, remote, remote.poolSize).Some? && 0 < c.amount && 0 < remote.poolSize ==>
            var r := ReceiptsForOurs(c, remote, remote.poolSize).value;
            FairExecution(r.chain, remote, events[k].queue, r.mirror))
  {
    NothingIsLost(chains, events, k);
    var batch := events[k].batch;
    ClearingConserves(chains[k], batch);
    var c := Cleared(chains[k], batch).value;
    ReceiptsAreFair(c, batch.Copy(), batch.poolSize);
    if ReceiptsForOurs(c, batch.Copy(), batch.poolSize).Some? && 0 < c.amount && 0 < batch.poolSize {
      ReceiptsConserve(c, batch.Copy(), batch.poolSize);
      var r := ReceiptsForOurs(c, batch.Copy(), batch.poolSize).value;
      ExecutionIsFair(r.chain, batch.Copy(), events[k].queue, r.mirror);
    }
  }
}
