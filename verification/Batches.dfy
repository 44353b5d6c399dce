/**
 The batches that two chains exchange, and one chain's side of the exchange as a value: accounts, the
 holding pool, the liquidity pool, the batch locked for the counter chain and the batch being collected.
 Every handler is a function from state to state; None means that it fails, and then its writes are discarded.
 */
module Batches {
  import opened Options
  import opened Ledger
  import opened PoolPoints
  import opened Amm

  const MAX_ORDERS: nat := 10_000
  const MAX_DEPOSITS: nat := 5_000
  const MAX_WITHDRAWALS: nat := 5_000

  /** A batch hash is a free constructor over the hashed batch; EmptyHash is the fixed filler of an empty batch. */
  datatype Hash = NoHash | EmptyHash | HashOf(batch: Batch)

  datatype Batch = Batch(
    receiptHash: Hash,
    orders: seq<Order>,
    deposits: seq<Deposit>,
    withdrawals: seq<Withdrawal>,
    poolSize: nat,
    receipts: seq<nat>,
    lockedHeight: nat,
    livenessFallback: bool,
    poolPoints: Option<Points>)
  {
    predicate IsEmpty() {
      receiptHash == NoHash && receipts == [] && orders == [] && withdrawals == [] && deposits == []
    }

    /** The hashed part omits the points that are attached for a fallback. */
    function Copy(): Batch {
      this.(poolPoints := None)
    }

    function Hashed(): Hash {
      if IsEmpty() then HashOf(this.(receiptHash := EmptyHash).Copy()) else HashOf(Copy())
    }

    /** The fallback mark is a local signal and does not enter the linkage of batches. */
    function LinkHash(): Hash {
      if livenessFallback then Copy().(livenessFallback := false).Hashed() else Hashed()
    }

  }

  function NewBatch(poolSize: nat): Batch {
    Batch(NoHash, [], [], [], poolSize, [], 0, false, None)
  }

  datatype Chain = Chain(
    accounts: map<Address, nat>,
    holding: nat,
    amount: nat,
    points: Points,
    locked: Option<Batch>,
    next: Option<Batch>,
    height: nat)
  {
    function Locked(): Batch {
      match locked
      case None => NewBatch(amount)
      case Some(b) => b
    }

    function Collected(): Batch {
      match next
      case None => NewBatch(amount)
      case Some(b) => b
    }
  }

  /** The state after a stage, with the two reserve ledgers that the stage has advanced. */
  datatype Moved = Moved(chain: Chain, x: nat, y: nat)

  // ---------------------------------------------------------------------------------------------
  // Receipts for our own batch
  // ---------------------------------------------------------------------------------------------

  /** Success moves the order's funds from the holding pool to the liquidity pool; failure refunds them. */
  function OrderReceipts(c: Chain, orders: seq<Order>, receipts: seq<nat>, i: nat, x: nat, y: nat): Option<Moved>
    requires i <= |orders| == |receipts|
    decreases |orders| - i
  {
    if i == |orders| then Some(Moved(c, x, y))
    else
      var o := orders[i];
      if c.holding < o.amountForSale then None
      else
        var c1 := c.(holding := c.holding - o.amountForSale);
        if receipts[i] != 0 then
          if y <= receipts[i] then None
          else OrderReceipts(c1.(amount := Wrap(c1.amount + o.amountForSale)), orders, receipts, i + 1, Wrap(x + o.amountForSale), y - receipts[i])
        else
          var accounts :- AccountAdd(c1.accounts, o.address, o.amountForSale);
          OrderReceipts(c1.(accounts := accounts), orders, receipts, i + 1, x, y)
  }

  // ---------------------------------------------------------------------------------------------
  // The counter chain's orders
  // ---------------------------------------------------------------------------------------------

  /** Pays the receipts from the liquidity pool, in the original order. */
  function PayReceipts(c: Chain, orders: seq<Order>, receipts: seq<nat>, i: nat): Option<Chain>
    requires i <= |orders| == |receipts|
    decreases |orders| - i
  {
    if i == |orders| then Some(c)
    else if receipts[i] == 0 then PayReceipts(c, orders, receipts, i + 1)
    else if c.amount < receipts[i] then None
    else
      var accounts :- AccountAdd(c.accounts, orders[i].address, receipts[i]);
      PayReceipts(c.(amount := c.amount - receipts[i], accounts := accounts), orders, receipts, i + 1)
  }

  datatype Executed = Executed(chain: Chain, x: nat, y: nat, receipts: seq<nat>)

  lemma {:induction false} ReceiptsPerOrder(orders: seq<Order>, queue: seq<nat>, x: nat, y: nat, receipts: seq<nat>)
    requires 0 < x && |receipts| == |orders|
    requires forall j :: 0 <= j < |queue| ==> queue[j] < |orders|
    requires RunOrders(orders, queue, x, y, receipts).Some?
    ensures |RunOrders(orders, queue, x, y, receipts).value.receipts| == |orders|
    decreases |queue|
  {
    if queue != [] {
      var k := queue[0];
      var dY := OrderOutput(orders[k], x, y);
      if dY == 0 {
        ReceiptsPerOrder(orders, queue[1..], x, y, receipts[k := 0]);
      } else {
        ReceiptsPerOrder(orders, queue[1..], x + orders[k].amountForSale, Wrap(y - dY), receipts[k := dY]);
      }
    }
  }

  /** x is the shadow of the counter chain's reserve, y the local reserve; queue is the pseudorandom order of execution. */
  function BatchOrders(c: Chain, orders: seq<Order>, queue: seq<nat>, x: nat, y: nat): Option<Executed>
    requires Queueable(queue, orders)
  {
    var r :- ExecuteOrders(orders, queue, x, y);
    ReceiptsPerOrder(orders, queue, x, y, NoReceipts(|orders|));
    var paid :- PayReceipts(c, orders, r.receipts, 0);
    Some(Executed(paid, r.x, r.y, r.receipts))
  }

  // ---------------------------------------------------------------------------------------------
  // Withdrawals and deposits of either chain
  // ---------------------------------------------------------------------------------------------

  function PayAll(accounts: map<Address, nat>, payouts: seq<Payout>, local: bool): Option<map<Address, nat>> {
    if payouts == [] then Some(accounts)
    else
      var before :- PayAll(accounts, payouts[..|payouts| - 1], local);
      var p := payouts[|payouts| - 1];
      AccountAdd(before, p.address, if local then p.x else p.y)
  }

  /** There is something to remove; otherwise the stage leaves the pool alone. */
  predicate RemovesPoints(points: Points, ws: seq<Withdrawal>) {
    ws != [] && points.total != 0 && PointsToRemove(points, ws, 0).Some? && PointsToRemove(points, ws, 0).value != 0
  }

  /** A local batch is paid from x, a remote one from y. */
  function BatchWithdraw(c: Chain, ws: seq<Withdrawal>, x: nat, y: nat, local: bool): Option<Moved> {
    var w :- Withdraw(Amm.Market(x, y, c.points), ws);
    if !RemovesPoints(c.points, ws) then Some(Moved(c, x, y))
    else
      var accounts :- PayAll(c.accounts, w.payouts, local);
      Some(Moved(c.(accounts := accounts, points := w.market.points, amount := if local then w.market.x else w.market.y), w.market.x, w.market.y))
  }

  /** Only a local batch moves tokens, from the holding pool to the liquidity pool. */
  function BatchDeposit(c: Chain, ds: seq<Deposit>, x: nat, y: nat, local: bool): Option<Moved> {
    var d :- DepositAll(Amm.Market(x, y, c.points), ds);
    var total := SumOfDeposits(ds);
    if total == 0 || x == 0 || y == 0 then Some(Moved(c, x, y))
    else if !local then Some(Moved(c.(points := d.points), d.x, d.y))
    else if c.holding < total || c.amount + total > MAX_UINT64 then None
    else Some(Moved(c.(points := d.points, holding := c.holding - total, amount := c.amount + total), d.x, d.y))
  }

  // ---------------------------------------------------------------------------------------------
  // The pipeline
  // ---------------------------------------------------------------------------------------------

  /** waiting: the counter chain has not answered our locked batch yet, so nothing happens. */
  datatype Receipted = Receipted(waiting: bool, chain: Chain, mirror: nat)

  predicate Answers(remote: Batch, ours: Batch) {
    remote.receiptHash == ours.Hashed() && |ours.orders| == |remote.receipts|
  }

  /** The receipts for our locked batch, if the counter chain's batch answers it; lifts the lock. */
  function ReceiptsForOurs(c: Chain, remote: Batch, mirror: nat): Option<Receipted> {
    var ours := c.Locked();
    if ours.IsEmpty() then Some(Receipted(false, c, mirror))
    else if !Answers(remote, ours) then Some(Receipted(true, c, mirror))
    else
      var o :- OrderReceipts(c, ours.orders, remote.receipts, 0, c.amount, mirror);
      var w :- BatchWithdraw(o.chain, ours.withdrawals, o.x, o.y, true);
      var d :- BatchDeposit(w.chain, ours.deposits, w.x, w.y, true);
      Some(Receipted(false, d.chain.(locked := None), d.y))
  }

  predicate Queueable(queue: seq<nat>, orders: seq<Order>) {
    forall j :: 0 <= j < |queue| ==> queue[j] < |orders|
  }

  /** Executes the counter chain's locked batch on our pool. */
  function ExecuteRemote(c: Chain, remote: Batch, queue: seq<nat>, mirror: nat): Option<Executed>
    requires Queueable(queue, remote.orders)
  {
    var o :- BatchOrders(c, remote.orders, queue, mirror, c.amount);
    var w :- BatchWithdraw(o.chain, remote.withdrawals, o.x, o.y, false);
    var d :- BatchDeposit(w.chain, remote.deposits, w.x, w.y, false);
    Some(Executed(d.chain, d.x, d.y, o.receipts))
  }

  /** Locks the collected batch, unless one is still locked. */
  function Rotate(c: Chain, receiptHash: Hash, poolSize: nat, receipts: seq<nat>): Chain {
    if !c.Locked().IsEmpty() then c
    else
      var next := c.Collected();
      var locked := next.(poolSize := poolSize, receiptHash := receiptHash, lockedHeight := c.height,
                          receipts := if |receipts| != 0 then receipts else next.receipts);
      c.(next := None, locked := Some(locked))
  }

  /** One delivery of the counter chain's locked batch. */
  function HandleRemoteBatch(c: Chain, remote: Batch, queue: seq<nat>): Option<Chain>
    requires Queueable(queue, remote.orders)
  {
    if remote.IsEmpty() then Some(Rotate(c, remote.LinkHash(), c.amount, []))
    else
      var r :- ReceiptsForOurs(c, remote.Copy(), remote.poolSize);
      if r.waiting then Some(r.chain)
      else
        var e :- ExecuteRemote(r.chain, remote.Copy(), queue, r.mirror);
        Some(Rotate(e.chain, remote.LinkHash(), r.chain.amount, e.receipts))
  }

  function Refund(c: Chain, a: Address, amount: nat): Option<Chain> {
    if c.holding < amount then None
    else
      var accounts :- AccountAdd(c.accounts, a, amount);
      Some(c.(holding := c.holding - amount, accounts := accounts))
  }

  function RefundOrders(c: Chain, orders: seq<Order>): Option<Chain>
    decreases |orders|
  {
    if orders == [] then Some(c)
    else
      var c1 :- Refund(c, orders[0].address, orders[0].amountForSale);
      RefundOrders(c1, orders[1..])
  }

  function RefundDeposits(c: Chain, ds: seq<Deposit>): Option<Chain>
    decreases |ds|
  {
    if ds == [] then Some(c)
    else
      var c1 :- Refund(c, ds[0].address, ds[0].amount);
      RefundDeposits(c1, ds[1..])
  }

  /** Refunds the locked batch, takes over the counter chain's points and drops the lock. */
  function LivenessFallback(c: Chain, ours: Batch, remote: Batch): Option<Chain> {
    var o :- RefundOrders(c, ours.orders);
    var d :- RefundDeposits(o, ours.deposits);
    Some(d.(points := if remote.poolPoints.Some? then remote.poolPoints.value else Points([], 0), locked := None))
  }

  function HandleDexBatch(c: Chain, remote: Option<Batch>, queue: seq<nat>): Option<Chain>
    requires remote.Some? ==> Queueable(queue, remote.value.orders)
  {
    if remote.None? || c.amount == 0 then Some(c)
    else if remote.value.livenessFallback then
      var c1 :- LivenessFallback(c, c.Locked(), remote.value);
      HandleRemoteBatch(c1, remote.value, queue)
    else HandleRemoteBatch(c, remote.value, queue)
  }

  // ---------------------------------------------------------------------------------------------
  // Users and blocks
  // ---------------------------------------------------------------------------------------------

  function LimitOrder(c: Chain, o: Order): Option<Chain> {
    var batch := c.Collected();
    if batch.poolSize == 0 || |batch.orders| >= MAX_ORDERS then None
    else
      var accounts :- AccountSub(c.accounts, o.address, o.amountForSale);
      Some(c.(accounts := accounts, holding := Wrap(c.holding + o.amountForSale), next := Some(batch.(orders := batch.orders + [o]))))
  }

  function LiquidityDeposit(c: Chain, d: Deposit): Option<Chain> {
    var batch := c.Collected();
    if c.amount == 0 || |c.points.holders| >= MAX_LIQUIDITY_PROVIDERS || |batch.deposits| >= MAX_DEPOSITS then None
    else
      var accounts :- AccountSub(c.accounts, d.address, d.amount);
      Some(c.(accounts := accounts, holding := Wrap(c.holding + d.amount), next := Some(batch.(deposits := batch.deposits + [d]))))
  }

  function LiquidityWithdraw(c: Chain, w: Withdrawal): Option<Chain> {
    var batch := c.Collected();
    if batch.poolSize == 0 || |batch.withdrawals| >= MAX_WITHDRAWALS || c.points.GetPointsFor(w.address).None? then None
    else Some(c.(next := Some(batch.(withdrawals := batch.withdrawals + [w]))))
  }

  /** How many operations of the collected batch still fit into the locked one. */
  function CanMove(lockedLen: nat, nextLen: nat, max: nat): nat {
    if nextLen == 0 || lockedLen >= max then 0
    else if nextLen < max - lockedLen then nextLen else max - lockedLen
  }

  /** At the end of a block, operations collected in it join the batch that was locked in it. */
  function IncludeSameBlock(c: Chain): Chain {
    if c.locked.None? || c.locked.value.lockedHeight != c.height then c
    else
      var locked, next := c.locked.value, c.Collected();
      var o := CanMove(|locked.orders|, |next.orders|, MAX_ORDERS);
      var d := CanMove(|locked.deposits|, |next.deposits|, MAX_DEPOSITS);
      var w := CanMove(|locked.withdrawals|, |next.withdrawals|, MAX_WITHDRAWALS);
      if o == 0 && d == 0 && w == 0 then c
      else
        var locked' := locked.(orders := locked.orders + next.orders[..o], deposits := locked.deposits + next.deposits[..d],
                               withdrawals := locked.withdrawals + next.withdrawals[..w]);
        var next' := next.(orders := next.orders[o..], deposits := next.deposits[d..], withdrawals := next.withdrawals[w..]);
        c.(locked := Some(locked'), next := if next'.orders == [] && next'.deposits == [] && next'.withdrawals == [] then None else Some(next'))
  }
}
