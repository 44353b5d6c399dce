/**
 What every stage of a batch does to one chain's money, and that each stage is the market's own
 operation on the two reserves: tokens are conserved, the reserve ledger is the pool's stored amount,
 and the holding pool is drawn down by exactly the batch that it was held for.
 */
module Conservation {
  import opened Options
  import opened Ledger
  import opened PoolPoints
  import opened Amm
  import opened Batches

  /** All tokens that the exchange of one chain can touch. */
  ghost function Funds(c: Chain): nat {
    Total(c.accounts) + c.holding + c.amount
  }

  function SumOfOrders(orders: seq<Order>): nat {
    if orders == [] then 0 else orders[0].amountForSale + SumOfOrders(orders[1..])
  }

  /** What the holding pool keeps for a batch. */
  function Held(b: Batch): nat {
    SumOfOrders(b.orders) + SumOfDeposits(b.deposits)
  }

  function HeldFor(b: Option<Batch>): nat {
    if b.None? then 0 else Held(b.value)
  }

  /** What the holding pool has beyond its locked and collected operations. */
  ghost function Surplus(c: Chain): int {
    c.holding - HeldFor(c.locked) - HeldFor(c.next)
  }

  /** The holding pool is exactly what its locked and collected operations put there. */
  ghost predicate HoldingExact(c: Chain) {
    Surplus(c) == 0
  }

  /** Everything but the money and the points is the same. */
  predicate SameBatches(c: Chain, d: Chain) {
    c.locked == d.locked && c.next == d.next && c.height == d.height
  }

  // ---------------------------------------------------------------------------------------------
  // Sums
  // ---------------------------------------------------------------------------------------------

  lemma {:induction false} SumOfOrdersConcat(a: seq<Order>, b: seq<Order>)
    ensures SumOfOrders(a + b) == SumOfOrders(a) + SumOfOrders(b)
  {
    if a == [] {
      assert a + b == b;
    } else {
      assert (a + b)[1..] == a[1..] + b;
      SumOfOrdersConcat(a[1..], b);
    }
  }

  lemma {:induction false} SumOfDepositsConcat(a: seq<Deposit>, b: seq<Deposit>)
    ensures SumOfDeposits(a + b) == SumOfDeposits(a) + SumOfDeposits(b)
  {
    if a == [] {
      assert a + b == b;
    } else {
      assert (a + b)[1..] == a[1..] + b;
      SumOfDepositsConcat(a[1..], b);
    }
  }

  // ---------------------------------------------------------------------------------------------
  // Receipts for our orders
  // ---------------------------------------------------------------------------------------------

  /** The chain after a successful order's receipt. */
  function Settled(c: Chain, o: Order): Chain
    requires o.amountForSale <= c.holding
  {
    c.(holding := c.holding - o.amountForSale, amount := Wrap(c.amount + o.amountForSale))
  }

  /** The chain after a failed order's receipt. */
  function Refunded(c: Chain, o: Order): Chain
    requires o.amountForSale <= c.holding
    requires AccountAdd(c.accounts, o.address, o.amountForSale).Some?
  {
    c.(holding := c.holding - o.amountForSale, accounts := AccountAdd(c.accounts, o.address, o.amountForSale).value)
  }

  /** One order's receipt moves its amount out of the holding pool and loses nothing. */
  lemma OneReceipt(c: Chain, o: Order)
    requires Funds(c) <= MAX_UINT64
    requires o.amountForSale <= c.holding
    ensures AccountAdd(c.accounts, o.address, o.amountForSale).Some?
    ensures Funds(Settled(c, o)) == Funds(Refunded(c, o)) == Funds(c)
    ensures Settled(c, o).amount == c.amount + o.amountForSale
  {
    AccountAddTotal(c.accounts, o.address, o.amountForSale);
  }

  /** The receipts from position i on: a refund or a settlement, and the receipts from the next position on. */
  lemma NextReceipt(c: Chain, orders: seq<Order>, receipts: seq<nat>, i: nat, y: nat)
    requires i < |orders| == |receipts|
    requires Funds(c) <= MAX_UINT64 && orders[i].amountForSale <= c.holding
    ensures AccountAdd(c.accounts, orders[i].address, orders[i].amountForSale).Some?
    ensures OrderReceipts(c, orders, receipts, i, c.amount, y) ==
      if receipts[i] == 0 then OrderReceipts(Refunded(c, orders[i]), orders, receipts, i + 1, c.amount, y)
      else if y <= receipts[i] then None
      else OrderReceipts(Settled(c, orders[i]), orders, receipts, i + 1, Settled(c, orders[i]).amount, y - receipts[i])
  {
    OneReceipt(c, orders[i]);
  }

  /**
   The receipts of our own orders replay the execution on the counter chain: they fail only where the
   replay fails, reach its reserves, and move exactly the orders' amounts out of the holding pool.
   */
  lemma {:induction false} ReceiptsRefineReplay(c: Chain, orders: seq<Order>, receipts: seq<nat>, i: nat, y: nat)
    requires i <= |orders| == |receipts|
    requires Funds(c) <= MAX_UINT64
    requires SumOfOrders(orders[i..]) <= c.holding
    ensures OrderReceipts(c, orders, receipts, i, c.amount, y).Some? <==> Replay(orders, receipts, i, c.amount, y).Some?
    ensures OrderReceipts(c, orders, receipts, i, c.amount, y).Some? ==>
      var m := OrderReceipts(c, orders, receipts, i, c.amount, y).value;
      && (m.x, m.y) == Replay(orders, receipts, i, c.amount, y).value
      && m.x == m.chain.amount
      && Funds(m.chain) == Funds(c)
      && m.chain.holding + SumOfOrders(orders[i..]) == c.holding
      && m.chain.points == c.points && SameBatches(m.chain, c)
    decreases |orders| - i
  {
    if i < |orders| {
      var o := orders[i];
      assert orders[i..][0] == o && orders[i..][1..] == orders[i + 1..];
      OneReceipt(c, o);
      NextReceipt(c, orders, receipts, i, y);
      if receipts[i] == 0 {
        ReceiptsRefineReplay(Refunded(c, o), orders, receipts, i + 1, y);
      } else if receipts[i] < y {
        ReceiptsRefineReplay(Settled(c, o), orders, receipts, i + 1, y - receipts[i]);
      }
    } else {
      assert orders[i..] == [];
    }
  }

  // ---------------------------------------------------------------------------------------------
  // The counter chain's orders
  // ---------------------------------------------------------------------------------------------

  lemma {:induction false} PayReceiptsConserves(c: Chain, orders: seq<Order>, receipts: seq<nat>, i: nat)
    requires i <= |orders| == |receipts|
    requires Funds(c) <= MAX_UINT64
    requires Paid(receipts, |receipts|) <= c.amount + Paid(receipts, i)
    ensures PayReceipts(c, orders, receipts, i).Some?
    ensures var d := PayReceipts(c, orders, receipts, i).value;
      && Funds(d) == Funds(c)
      && d.amount + Paid(receipts, |receipts|) == c.amount + Paid(receipts, i)
      && d.holding == c.holding && d.points == c.points && SameBatches(d, c)
    decreases |orders| - i
  {
    if i < |orders| {
      SoldGrows(orders, receipts, i + 1, |orders|);
      if receipts[i] == 0 {
        PayReceiptsConserves(c, orders, receipts, i + 1);
      } else {
        AccountAddTotal(c.accounts, orders[i].address, receipts[i]);
        var accounts := AccountAdd(c.accounts, orders[i].address, receipts[i]).value;
        PayReceiptsConserves(c.(amount := c.amount - receipts[i], accounts := accounts), orders, receipts, i + 1);
      }
    }
  }

  lemma OrdersRefineMarket(c: Chain, orders: seq<Order>, queue: seq<nat>, x: nat)
    requires x <= MAX_UINT64 && Funds(c) <= MAX_UINT64
    requires Permutation(queue, |orders|)
    ensures BatchOrders(c, orders, queue, x, c.amount).Some? <==> ExecuteOrders(orders, queue, x, c.amount).Some?
    ensures BatchOrders(c, orders, queue, x, c.amount).Some? ==>
      var e, r := BatchOrders(c, orders, queue, x, c.amount).value, ExecuteOrders(orders, queue, x, c.amount).value;
      && (e.x, e.y, e.receipts) == (r.x, r.y, r.receipts)
      && e.chain.amount == e.y
      && Funds(e.chain) == Funds(c)
      && e.chain.holding == c.holding && e.chain.points == c.points && SameBatches(e.chain, c)
  {
    if ExecuteOrders(orders, queue, x, c.amount).Some? {
      OrdersKeepProduct(orders, queue, x, c.amount);
      PayReceiptsConserves(c, orders, ExecuteOrders(orders, queue, x, c.amount).value.receipts, 0);
    }
  }

  // ---------------------------------------------------------------------------------------------
  // Withdrawals and deposits
  // ---------------------------------------------------------------------------------------------

  lemma {:induction false} PayAllTotal(accounts: map<Address, nat>, payouts: seq<Payout>, local: bool)
    requires Total(accounts) + (if local then PayoutsX(payouts) else PayoutsY(payouts)) <= MAX_UINT64
    ensures PayAll(accounts, payouts, local).Some?
    ensures Total(PayAll(accounts, payouts, local).value) == Total(accounts) + if local then PayoutsX(payouts) else PayoutsY(payouts)
    decreases |payouts|
  {
    if payouts != [] {
      var last := payouts[|payouts| - 1];
      PayAllTotal(accounts, payouts[..|payouts| - 1], local);
      AccountAddTotal(PayAll(accounts, payouts[..|payouts| - 1], local).value, last.address, if local then last.x else last.y);
    }
  }

  /** The reserve ledger of the stage is the pool's stored amount. */
  ghost predicate Ready(c: Chain, x: nat, y: nat, local: bool) {
    && Market(x, y, c.points).Covers()
    && Funds(c) <= MAX_UINT64
    && c.amount == if local then x else y
  }

  lemma WithdrawRefinesMarket(c: Chain, ws: seq<Withdrawal>, x: nat, y: nat, local: bool)
    requires Ready(c, x, y, local)
    ensures BatchWithdraw(c, ws, x, y, local).Some? <==> Withdraw(Market(x, y, c.points), ws).Some?
    ensures BatchWithdraw(c, ws, x, y, local).Some? ==>
      var m, w := BatchWithdraw(c, ws, x, y, local).value, Withdraw(Market(x, y, c.points), ws).value;
      && Market(m.x, m.y, m.chain.points) == w.market && (c.points.Valid() ==> m.chain.points.Valid())
      && Ready(m.chain, m.x, m.y, local)
      && Funds(m.chain) == Funds(c)
      && (0 < x ==> 0 < m.x) && (0 < y ==> 0 < m.y)
      && m.chain.holding == c.holding && SameBatches(m.chain, c)
  {
    if Withdraw(Market(x, y, c.points), ws).Some? {
      WithdrawNeverOverpays(Market(x, y, c.points), ws);
      PayAllTotal(c.accounts, Withdraw(Market(x, y, c.points), ws).value.payouts, local);
    }
  }

  lemma DepositRefinesMarket(c: Chain, ds: seq<Deposit>, x: nat, y: nat, local: bool)
    requires Ready(c, x, y, local)
    requires local ==> SumOfDeposits(ds) <= c.holding
    ensures BatchDeposit(c, ds, x, y, local).Some? <==> DepositAll(Market(x, y, c.points), ds).Some?
    ensures BatchDeposit(c, ds, x, y, local).Some? ==>
      var m, d := BatchDeposit(c, ds, x, y, local).value, DepositAll(Market(x, y, c.points), ds).value;
      && Market(m.x, m.y, m.chain.points) == d && (c.points.Valid() ==> m.chain.points.Valid())
      && Ready(m.chain, m.x, m.y, local)
      && Funds(m.chain) == Funds(c)
      && m.chain.holding + (if local && 0 < x && 0 < y then SumOfDeposits(ds) else 0) == c.holding && SameBatches(m.chain, c)
  {
    if DepositAll(Market(x, y, c.points), ds).Some? {
      DepositMintsExactly(Market(x, y, c.points), ds);
    }
  }

  // ---------------------------------------------------------------------------------------------
  // A whole batch, seen from either side
  // ---------------------------------------------------------------------------------------------

  /**
   Executing the counter chain's batch is running it on the market, and fails only if the market
   rejects it. Tokens are conserved; the holding pool and the batches are untouched.
   */
  lemma ExecuteRefinesMarket(c: Chain, remote: Batch, queue: seq<nat>, mirror: nat)
    requires Ready(c, mirror, c.amount, false)
    requires Permutation(queue, |remote.orders|)
    ensures ExecuteRemote(c, remote, queue, mirror).Some? <==>
      RunBatch(Market(mirror, c.amount, c.points), remote.orders, remote.withdrawals, remote.deposits, queue).Some?
    ensures ExecuteRemote(c, remote, queue, mirror).Some? ==>
      var e := ExecuteRemote(c, remote, queue, mirror).value;
      var run := RunBatch(Market(mirror, c.amount, c.points), remote.orders, remote.withdrawals, remote.deposits, queue).value;
      && Market(e.x, e.y, e.chain.points) == run.market && e.receipts == run.receipts
      && Ready(e.chain, e.x, e.y, false)
      && Funds(e.chain) == Funds(c)
      && e.chain.holding == c.holding && SameBatches(e.chain, c)
  {
    OrdersRefineMarket(c, remote.orders, queue, mirror);
    var o := BatchOrders(c, remote.orders, queue, mirror, c.amount);
    if o.Some? {
      OrdersKeepProduct(remote.orders, queue, mirror, c.amount);
      var e := o.value;
      assert Ready(e.chain, e.x, e.y, false);
      WithdrawRefinesMarket(e.chain, remote.withdrawals, e.x, e.y, false);
      var w := BatchWithdraw(e.chain, remote.withdrawals, e.x, e.y, false);
      if w.Some? {
        DepositRefinesMarket(w.value.chain, remote.deposits, w.value.x, w.value.y, false);
      }
    }
  }

  /**
   Applying the receipts of our own batch, once the counter chain has executed it, never fails and
   reaches exactly the market that the counter chain has reached. The lock is lifted, tokens are
   conserved, and the holding pool gives up exactly what it kept for the batch.
   */
  lemma ReceiptsRefineMarket(c: Chain, remote: Batch, mirror: nat, queue: seq<nat>)
    requires c.locked.Some? && !c.Locked().IsEmpty() && Answers(remote, c.Locked())
    requires Ready(c, c.amount, mirror, true)
    requires Held(c.Locked()) <= c.holding
    requires Permutation(queue, |c.Locked().orders|)
    requires var run := RunBatch(Market(c.amount, mirror, c.points), c.Locked().orders, c.Locked().withdrawals, c.Locked().deposits, queue);
      run.Some? && run.value.receipts == remote.receipts
    ensures var run := RunBatch(Market(c.amount, mirror, c.points), c.Locked().orders, c.Locked().withdrawals, c.Locked().deposits, queue).value;
      && ReceiptsForOurs(c, remote, mirror).Some?
      && var r := ReceiptsForOurs(c, remote, mirror).value;
      && !r.waiting
      && Market(r.chain.amount, r.mirror, r.chain.points) == run.market
      && Ready(r.chain, r.chain.amount, r.mirror, true)
      && Funds(r.chain) == Funds(c)
      && r.chain.holding + Held(c.Locked()) == c.holding
      && r.chain.locked == None && r.chain.next == c.next && r.chain.height == c.height
  {
    var ours := c.Locked();
    ReplayMatchesExecution(ours.orders, queue, c.amount, mirror);
    OrdersKeepProduct(ours.orders, queue, c.amount, mirror);
    assert ours.orders[0..] == ours.orders;
    ReceiptsRefineReplay(c, ours.orders, remote.receipts, 0, mirror);
    var o := OrderReceipts(c, ours.orders, remote.receipts, 0, c.amount, mirror).value;
    assert Ready(o.chain, o.x, o.y, true);
    WithdrawRefinesMarket(o.chain, ours.withdrawals, o.x, o.y, true);
    var w := BatchWithdraw(o.chain, ours.withdrawals, o.x, o.y, true).value;
    DepositRefinesMarket(w.chain, ours.deposits, w.x, w.y, true);
  }

  // ---------------------------------------------------------------------------------------------
  // Rotation, users, refunds
  // ---------------------------------------------------------------------------------------------

  /** Rotation moves the collected operations under the lock and changes no money. */
  lemma RotateKeepsHolding(c: Chain, receiptHash: Hash, poolSize: nat, receipts: seq<nat>)
    requires c.locked.Some? ==> !c.Locked().IsEmpty()
    ensures var d := Rotate(c, receiptHash, poolSize, receipts);
      && Surplus(d) == Surplus(c) && Funds(d) == Funds(c)
      && d.amount == c.amount && d.points == c.points && d.height == c.height
  {
  }

  /** Rotation locks exactly the collected operations, as an answer of this block; while a batch is locked it does nothing. */
  lemma RotationLocksCollected(c: Chain, receiptHash: Hash, poolSize: nat, receipts: seq<nat>)
    ensures !c.Locked().IsEmpty() ==> Rotate(c, receiptHash, poolSize, receipts) == c
    ensures c.Locked().IsEmpty() ==>
      var d := Rotate(c, receiptHash, poolSize, receipts);
      && d.locked.Some? && d.next.None? && d == c.(locked := d.locked, next := None)
      && (d.Locked().receiptHash, d.Locked().poolSize, d.Locked().lockedHeight) == (receiptHash, poolSize, c.height)
      && (d.Locked().orders, d.Locked().deposits, d.Locked().withdrawals) == (c.Collected().orders, c.Collected().deposits, c.Collected().withdrawals)
      && (receipts != [] ==> d.Locked().receipts == receipts)
  {
  }

  /** What a batch says, without the local fallback mark and the points attached for a fallback. */
  function Content(b: Batch): Batch {
    b.(livenessFallback := false, poolPoints := None)
  }

  /** Two batches with something in them link to the same hash exactly if they say the same: neither mark nor points matter. */
  lemma LinksIdentify(a: Batch, b: Batch)
    requires !a.IsEmpty() && !b.IsEmpty()
    ensures a.LinkHash() == b.LinkHash() <==> Content(a) == Content(b)
    ensures a.LinkHash() == Content(a).Hashed()
  {
  }

  lemma InclusionKeepsHolding(c: Chain)
    ensures var d := IncludeSameBlock(c);
      && Surplus(d) == Surplus(c) && Funds(d) == Funds(c)
      && d == c.(locked := d.locked, next := d.next)
  {
    var d := IncludeSameBlock(c);
    if d != c {
      var locked, next := c.locked.value, c.Collected();
      var o := CanMove(|locked.orders|, |next.orders|, MAX_ORDERS);
      var p := CanMove(|locked.deposits|, |next.deposits|, MAX_DEPOSITS);
      SumOfOrdersConcat(locked.orders, next.orders[..o]);
      SumOfOrdersConcat(next.orders[..o], next.orders[o..]);
      SumOfDepositsConcat(locked.deposits, next.deposits[..p]);
      SumOfDepositsConcat(next.deposits[..p], next.deposits[p..]);
      assert next.orders[..o] + next.orders[o..] == next.orders;
      assert next.deposits[..p] + next.deposits[p..] == next.deposits;
    }
  }

  /** All pending operations: those under the lock, then those still being collected. */
  function Pending(c: Chain): (seq<Order>, seq<Deposit>, seq<Withdrawal>) {
    (c.Locked().orders + c.Collected().orders,
     c.Locked().deposits + c.Collected().deposits,
     c.Locked().withdrawals + c.Collected().withdrawals)
  }

  /** Rotation loses, repeats and reorders no operation. */
  lemma RotationKeepsOperations(c: Chain, receiptHash: Hash, poolSize: nat, receipts: seq<nat>)
    ensures Pending(Rotate(c, receiptHash, poolSize, receipts)) == Pending(c)
  {
    var d := Rotate(c, receiptHash, poolSize, receipts);
    assert Pending(d).0 == Pending(c).0 && Pending(d).1 == Pending(c).1 && Pending(d).2 == Pending(c).2;
  }

  lemma SplitKeepsOrder<T>(locked: seq<T>, next: seq<T>, max: nat)
    ensures var k := CanMove(|locked|, |next|, max);
      && k <= |next|
      && (locked + next[..k]) + next[k..] == locked + next
      && (|locked| <= max ==> |locked + next[..k]| <= max)
  {
    var k := CanMove(|locked|, |next|, max);
    assert next[..k] + next[k..] == next;
  }

  /** Same-block inclusion loses, repeats and reorders no operation, and never lets the lock outgrow the caps. */
  lemma InclusionKeepsOperations(c: Chain)
    ensures Pending(IncludeSameBlock(c)) == Pending(c)
    ensures var before, after := c.Locked(), IncludeSameBlock(c).Locked();
      && (|before.orders| <= MAX_ORDERS ==> |after.orders| <= MAX_ORDERS)
      && (|before.deposits| <= MAX_DEPOSITS ==> |after.deposits| <= MAX_DEPOSITS)
      && (|before.withdrawals| <= MAX_WITHDRAWALS ==> |after.withdrawals| <= MAX_WITHDRAWALS)
  {
    var d := IncludeSameBlock(c);
    if d != c {
      SplitKeepsOrder(c.Locked().orders, c.Collected().orders, MAX_ORDERS);
      SplitKeepsOrder(c.Locked().deposits, c.Collected().deposits, MAX_DEPOSITS);
      SplitKeepsOrder(c.Locked().withdrawals, c.Collected().withdrawals, MAX_WITHDRAWALS);
    }
  }

  /** A user's operation moves its amount into the holding pool and into the collected batch. */
  lemma OrderKeepsHolding(c: Chain, o: Order)
    requires Funds(c) <= MAX_UINT64
    ensures LimitOrder(c, o).Some? ==> Surplus(LimitOrder(c, o).value) == Surplus(c) && Funds(LimitOrder(c, o).value) == Funds(c)
  {
    AccountSubTotal(c.accounts, o.address, o.amountForSale);
    SumOfOrdersConcat(c.Collected().orders, [o]);
  }

  lemma DepositKeepsHolding(c: Chain, d: Deposit)
    requires Funds(c) <= MAX_UINT64
    ensures LiquidityDeposit(c, d).Some? ==> Surplus(LiquidityDeposit(c, d).value) == Surplus(c) && Funds(LiquidityDeposit(c, d).value) == Funds(c)
  {
    AccountSubTotal(c.accounts, d.address, d.amount);
    SumOfDepositsConcat(c.Collected().deposits, [d]);
  }

  /** What one more operation adds to the collected batch. */
  predicate Collects(c: Chain, d: Chain, orders: seq<Order>, deposits: seq<Deposit>, withdrawals: seq<Withdrawal>) {
    d.next == Some(c.Collected().(orders := c.Collected().orders + orders, deposits := c.Collected().deposits + deposits,
                                  withdrawals := c.Collected().withdrawals + withdrawals))
  }

  lemma NothingMore(b: Batch)
    ensures b.orders + [] == b.orders && b.deposits + [] == b.deposits && b.withdrawals + [] == b.withdrawals
  {
  }

  /** An order is refused exactly without liquidity, capacity or funds; else it is the last collected one, its seller alone pays, and nothing else changes. */
  lemma OrderIsCollected(c: Chain, o: Order)
    ensures LimitOrder(c, o).Some? <==> c.Collected().poolSize != 0 && |c.Collected().orders| < MAX_ORDERS && o.amountForSale <= Balance(c.accounts, o.address)
    ensures LimitOrder(c, o).Some? ==>
      var d := LimitOrder(c, o).value;
      && Collects(c, d, [o], [], []) && d == c.(accounts := d.accounts, holding := d.holding, next := d.next)
      && (c.holding + o.amountForSale <= MAX_UINT64 ==> d.holding == c.holding + o.amountForSale)
      && forall a :: Balance(d.accounts, a) + (if a == o.address then o.amountForSale else 0) == Balance(c.accounts, a)
  {
    NothingMore(c.Collected());
  }

  /** A deposit is refused exactly without a pool, capacity or funds; else it is the last collected one, and its owner alone pays. */
  lemma DepositIsCollected(c: Chain, p: Deposit)
    ensures LiquidityDeposit(c, p).Some? <==>
      && c.amount != 0 && |c.points.holders| < MAX_LIQUIDITY_PROVIDERS && |c.Collected().deposits| < MAX_DEPOSITS
      && p.amount <= Balance(c.accounts, p.address)
    ensures LiquidityDeposit(c, p).Some? ==>
      var d := LiquidityDeposit(c, p).value;
      && Collects(c, d, [], [p], []) && d == c.(accounts := d.accounts, holding := d.holding, next := d.next)
      && (c.holding + p.amount <= MAX_UINT64 ==> d.holding == c.holding + p.amount)
      && forall a :: Balance(d.accounts, a) + (if a == p.address then p.amount else 0) == Balance(c.accounts, a)
  {
    NothingMore(c.Collected());
  }

  /** A withdrawal is refused exactly without liquidity, capacity or points of its owner; else it is the last collected one, and nothing else changes. */
  lemma WithdrawalIsCollected(c: Chain, w: Withdrawal)
    ensures LiquidityWithdraw(c, w).Some? <==>
      c.Collected().poolSize != 0 && |c.Collected().withdrawals| < MAX_WITHDRAWALS && exists h :: h in c.points.holders && h.address == w.address
    ensures LiquidityWithdraw(c, w).Some? ==>
      var d := LiquidityWithdraw(c, w).value; Collects(c, d, [], [], [w]) && d == c.(next := d.next)
  {
    NothingMore(c.Collected());
    match IndexOf(c.points.holders, w.address)
    case None =>
    case Some(i) => assert c.points.holders[i] in c.points.holders;
  }

  /** At the end of the block in which a batch was locked, whatever was collected joins it, unless the batch is full. */
  lemma InclusionMovesAllThatFits(c: Chain)
    requires c.locked.Some? && c.locked.value.lockedHeight == c.height
    ensures var d := IncludeSameBlock(c);
      && d.locked.Some?
      && (d.next.Some? ==>
            && (d.next.value.orders == [] || MAX_ORDERS <= |d.locked.value.orders|)
            && (d.next.value.deposits == [] || MAX_DEPOSITS <= |d.locked.value.deposits|)
            && (d.next.value.withdrawals == [] || MAX_WITHDRAWALS <= |d.locked.value.withdrawals|))
  {
  }

  /** A batch that was locked in an earlier block is not touched any more. */
  lemma InclusionSparesOldLocks(c: Chain)
    requires c.locked.Some? ==> c.locked.value.lockedHeight != c.height
    ensures IncludeSameBlock(c) == c
  {
  }

  lemma RefundConserves(c: Chain, a: Address, amount: nat)
    requires Funds(c) <= MAX_UINT64 && amount <= c.holding
    ensures Refund(c, a, amount).Some?
    ensures var d := Refund(c, a, amount).value;
      Funds(d) == Funds(c) && d.holding + amount == c.holding && d.amount == c.amount && d.points == c.points && SameBatches(d, c)
  {
    AccountAddTotal(c.accounts, a, amount);
  }

  lemma {:induction false} RefundOrdersConserves(c: Chain, orders: seq<Order>)
    requires Funds(c) <= MAX_UINT64 && SumOfOrders(orders) <= c.holding
    ensures RefundOrders(c, orders).Some?
    ensures var d := RefundOrders(c, orders).value;
      && Funds(d) == Funds(c) && d.holding + SumOfOrders(orders) == c.holding
      && d.amount == c.amount && d.points == c.points && SameBatches(d, c)
    decreases |orders|
  {
    if orders != [] {
      RefundConserves(c, orders[0].address, orders[0].amountForSale);
      RefundOrdersConserves(Refund(c, orders[0].address, orders[0].amountForSale).value, orders[1..]);
    }
  }

  lemma {:induction false} RefundDepositsConserves(c: Chain, ds: seq<Deposit>)
    requires Funds(c) <= MAX_UINT64 && SumOfDeposits(ds) <= c.holding
    ensures RefundDeposits(c, ds).Some?
    ensures var d := RefundDeposits(c, ds).value;
      && Funds(d) == Funds(c) && d.holding + SumOfDeposits(ds) == c.holding
      && d.amount == c.amount && d.points == c.points && SameBatches(d, c)
    decreases |ds|
  {
    if ds != [] {
      RefundConserves(c, ds[0].address, ds[0].amount);
      RefundDepositsConserves(Refund(c, ds[0].address, ds[0].amount).value, ds[1..]);
    }
  }

  /** The fallback cannot fail: it refunds the whole locked batch, drops it, takes over the points sent along, and conserves all tokens. */
  lemma FallbackRefundsEverything(c: Chain, remote: Batch)
    requires 0 <= Surplus(c) && Funds(c) <= MAX_UINT64
    ensures LivenessFallback(c, c.Locked(), remote).Some?
    ensures var d := LivenessFallback(c, c.Locked(), remote).value;
      && Surplus(d) == Surplus(c) && Funds(d) == Funds(c)
      && d.locked == None && d.next == c.next && d.amount == c.amount && d.height == c.height
      && (remote.poolPoints.Some? ==> d.points == remote.poolPoints.value) && (remote.poolPoints.None? ==> d.points.holders == [] && d.points.total == 0)
      && d.holding + HeldFor(c.locked) == c.holding
  {
    RefundOrdersConserves(c, c.Locked().orders);
    RefundDepositsConserves(RefundOrders(c, c.Locked().orders).value, c.Locked().deposits);
  }
}
