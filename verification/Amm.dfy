/**
 The exchange as one market maker: two reserves and the liquidity points over them, with the three
 kinds of batched operations. x is the reserve of the chain on which the batch was collected,
 y the reserve of the chain that executes its orders. None means that the batch is rejected.
 */
module Amm {
  import opened Options
  import opened Ledger
  import opened PoolPoints
  import opened Arithmetic

  const DEAD_ADDRESS: Address := 0xdead

  /** A withdrawal's percentage; anything else is refused when the batch is received. */
  type Percent = p: nat | p <= 100

  datatype Order = Order(amountForSale: nat, requestedAmount: nat, address: Address)
  datatype Deposit = Deposit(address: Address, amount: nat)
  datatype Withdrawal = Withdrawal(address: Address, percent: Percent)

  datatype Market = Market(x: nat, y: nat, points: Points) {

    /** Both reserves are 64-bit amounts and the points cover their holders. */
    ghost predicate Covers() {
      x <= MAX_UINT64 && y <= MAX_UINT64 && points.Covers()
    }

    /** Both reserves are 64-bit amounts and the ledger of points adds up. */
    ghost predicate Valid() {
      x <= MAX_UINT64 && y <= MAX_UINT64 && points.Valid()
    }

    /** Both reserves are positive, and the points are backed by the reserves. */
    ghost predicate Sound() {
      && Valid()
      && 0 < x && 0 < y
      && points.total * points.total <= x * y
    }

    /** The same market seen from the other chain. */
    function Mirrored(): Market {
      Market(y, x, points)
    }
  }

  // ---------------------------------------------------------------------------------------------
  // Orders
  // ---------------------------------------------------------------------------------------------

  datatype OrderRun = OrderRun(x: nat, y: nat, receipts: seq<nat>)

  /** What one order receives; 0 if that is less than it asked for. */
  function OrderOutput(o: Order, x: nat, y: nat): nat
    requires 0 < x
  {
    var dY := SafeComputeDY(x, y, o.amountForSale);
    if dY < o.requestedAmount then 0 else dY
  }

  ghost predicate Permutation(queue: seq<nat>, n: nat) {
    && |queue| == n
    && (forall j :: 0 <= j < |queue| ==> queue[j] < n)
    && forall j, k :: 0 <= j < k < |queue| ==> queue[j] != queue[k]
  }

  /** Executes the queued orders one by one, recording what each received under its original position. */
  function RunOrders(orders: seq<Order>, queue: seq<nat>, x: nat, y: nat, receipts: seq<nat>): Option<OrderRun>
    requires 0 < x && |receipts| == |orders|
    requires forall j :: 0 <= j < |queue| ==> queue[j] < |orders|
    decreases |queue|
  {
    if queue == [] then Some(OrderRun(x, y, receipts))
    else
      var k := queue[0];
      var dY := OrderOutput(orders[k], x, y);
      if dY == 0 then RunOrders(orders, queue[1..], x, y, receipts[k := 0])
      else if x + orders[k].amountForSale > MAX_UINT64 then None
      else RunOrders(orders, queue[1..], x + orders[k].amountForSale, Wrap(y - dY), receipts[k := dY])
  }

  function NoReceipts(n: nat): seq<nat> {
    seq(n, i => 0)
  }

  function ExecuteOrders(orders: seq<Order>, queue: seq<nat>, x: nat, y: nat): Option<OrderRun>
    requires forall j :: 0 <= j < |queue| ==> queue[j] < |orders|
  {
    if x == 0 || y == 0 then None else RunOrders(orders, queue, x, y, NoReceipts(|orders|))
  }

  /** The amounts sold by the first n orders that have a receipt. */
  function Sold(orders: seq<Order>, receipts: seq<nat>, n: nat): nat
    requires n <= |orders| && n <= |receipts|
  {
    if n == 0 then 0
    else Sold(orders, receipts, n - 1) + if receipts[n - 1] != 0 then orders[n - 1].amountForSale else 0
  }

  /** What the first n orders receive. */
  function Paid(receipts: seq<nat>, n: nat): nat
    requires n <= |receipts|
  {
    if n == 0 then 0 else Paid(receipts, n - 1) + receipts[n - 1]
  }

  lemma {:induction false} SoldAfterUpdate(orders: seq<Order>, receipts: seq<nat>, k: nat, dY: nat, n: nat)
    requires n <= |orders| == |receipts| && k < |receipts| && receipts[k] == 0
    ensures Sold(orders, receipts[k := dY], n) ==
      Sold(orders, receipts, n) + if k < n && dY != 0 then orders[k].amountForSale else 0
    ensures Paid(receipts[k := dY], n) == Paid(receipts, n) + if k < n then dY else 0
  {
    if n != 0 {
      SoldAfterUpdate(orders, receipts, k, dY, n - 1);
    }
  }

  lemma {:induction false} NothingSold(orders: seq<Order>, n: nat)
    requires n <= |orders|
    ensures Sold(orders, NoReceipts(|orders|), n) == 0
    ensures Paid(NoReceipts(|orders|), n) == 0
  {
    if n != 0 {
      NothingSold(orders, n - 1);
    }
  }

  /**
   Whatever the order of execution: the reserves move by exactly what was sold and paid, the product
   of the reserves does not shrink, and the paying reserve is not emptied.
   */
  lemma {:induction false} RunOrdersKeeps(orders: seq<Order>, queue: seq<nat>, x: nat, y: nat, receipts: seq<nat>)
    requires 0 < x <= MAX_UINT64 && 0 < y <= MAX_UINT64 && |receipts| == |orders|
    requires forall j :: 0 <= j < |queue| ==> queue[j] < |orders| && receipts[queue[j]] == 0
    requires forall j, k :: 0 <= j < k < |queue| ==> queue[j] != queue[k]
    requires RunOrders(orders, queue, x, y, receipts).Some?
    ensures var r := RunOrders(orders, queue, x, y, receipts).value;
      && |r.receipts| == |orders|
      && x <= r.x <= MAX_UINT64 && 0 < r.y <= y
      && r.x + Sold(orders, receipts, |orders|) == x + Sold(orders, r.receipts, |orders|)
      && r.y + Paid(r.receipts, |orders|) == y + Paid(receipts, |orders|)
      && x * y <= r.x * r.y
    decreases |queue|
  {
    if queue != [] {
      var k := queue[0];
      var dX, dY := orders[k].amountForSale, OrderOutput(orders[k], x, y);
      SwapLeavesSomething(x, y, dX);
      SwapKeepsProduct(x, y, dX);
      SoldAfterUpdate(orders, receipts, k, dY, |orders|);
      if dY == 0 {
        RunOrdersKeeps(orders, queue[1..], x, y, receipts[k := 0]);
      } else {
        RunOrdersKeeps(orders, queue[1..], x + dX, y - dY, receipts[k := dY]);
      }
    }
  }

  /** Batches of orders never shrink the product of the reserves and never empty the paying reserve. */
  lemma OrdersKeepProduct(orders: seq<Order>, queue: seq<nat>, x: nat, y: nat)
    requires x <= MAX_UINT64 && y <= MAX_UINT64
    requires Permutation(queue, |orders|)
    requires ExecuteOrders(orders, queue, x, y).Some?
    ensures var r := ExecuteOrders(orders, queue, x, y).value;
      && |r.receipts| == |orders|
      && 0 < x <= r.x <= MAX_UINT64 && 0 < r.y <= y
      && r.x == x + Sold(orders, r.receipts, |orders|)
      && r.y + Paid(r.receipts, |orders|) == y
      && x * y <= r.x * r.y
  {
    RunOrdersKeeps(orders, queue, x, y, NoReceipts(|orders|));
    NothingSold(orders, |orders|);
  }

  /** Replaying receipts in the original order, as the selling chain does; None is the remote debit error. */
  function Replay(orders: seq<Order>, receipts: seq<nat>, i: nat, x: nat, y: nat): Option<(nat, nat)>
    requires i <= |orders| == |receipts|
    decreases |orders| - i
  {
    if i == |orders| then Some((x, y))
    else if receipts[i] == 0 then Replay(orders, receipts, i + 1, x, y)
    else if y <= receipts[i] then None
    else Replay(orders, receipts, i + 1, Wrap(x + orders[i].amountForSale), y - receipts[i])
  }

  lemma {:induction false} SoldGrows(orders: seq<Order>, receipts: seq<nat>, i: nat, n: nat)
    requires i <= n <= |orders| == |receipts|
    ensures Sold(orders, receipts, i) <= Sold(orders, receipts, n)
    ensures Paid(receipts, i) <= Paid(receipts, n)
  {
    if i < n {
      SoldGrows(orders, receipts, i, n - 1);
    }
  }

  lemma {:induction false} ReplayFrom(orders: seq<Order>, receipts: seq<nat>, i: nat, x: nat, y: nat)
    requires i <= |orders| == |receipts|
    requires x + Sold(orders, receipts, |orders|) <= MAX_UINT64 + Sold(orders, receipts, i)
    requires Paid(receipts, |orders|) < y + Paid(receipts, i)
    ensures Replay(orders, receipts, i, x, y).Some?
    ensures var r := Replay(orders, receipts, i, x, y).value;
      && r.0 + Sold(orders, receipts, i) == x + Sold(orders, receipts, |orders|)
      && r.1 + Paid(receipts, |orders|) == y + Paid(receipts, i)
    decreases |orders| - i
  {
    if i < |orders| {
      SoldGrows(orders, receipts, i + 1, |orders|);
      ReplayFrom(orders, receipts, i + 1,
                 if receipts[i] == 0 then x else x + orders[i].amountForSale,
                 if receipts[i] == 0 then y else y - receipts[i]);
    }
  }

  /** The selling chain, replaying in the original order, reaches the reserves of the executing chain and never fails. */
  lemma ReplayMatchesExecution(orders: seq<Order>, queue: seq<nat>, x: nat, y: nat)
    requires x <= MAX_UINT64 && y <= MAX_UINT64
    requires Permutation(queue, |orders|)
    requires ExecuteOrders(orders, queue, x, y).Some?
    ensures var r := ExecuteOrders(orders, queue, x, y).value;
      |r.receipts| == |orders| && Replay(orders, r.receipts, 0, x, y) == Some((r.x, r.y))
  {
    OrdersKeepProduct(orders, queue, x, y);
    ReplayFrom(orders, ExecuteOrders(orders, queue, x, y).value.receipts, 0, x, y);
  }

  // ---------------------------------------------------------------------------------------------
  // Withdrawals
  // ---------------------------------------------------------------------------------------------

  /** The points to remove, as if every withdrawal were made from the initial ledger; None if the sum overflows. */
  function PointsToRemove(p: Points, ws: seq<Withdrawal>, sum: nat): Option<nat> {
    if ws == [] then Some(sum)
    else
      match p.GetPointsFor(ws[0].address)
      case None => PointsToRemove(p, ws[1..], sum)
      case Some(initial) =>
        var next := sum + SafeMulDiv(initial, ws[0].percent, 100);
        if next > MAX_UINT64 then None else PointsToRemove(p, ws[1..], next)
  }

  /** A withdrawal's share of the two reserves. */
  datatype Payout = Payout(address: Address, x: nat, y: nat)

  datatype WithdrawRun = WithdrawRun(points: Points, paidX: nat, paidY: nat, payouts: seq<Payout>)

  lemma PercentOf(initial: nat, percent: Percent)
    ensures SafeMulDiv(initial, percent, 100) <= initial
  {
    MulDivBound(initial, percent, 100);
    ScaleUp(percent, 100, initial);
  }

  /** Takes a withdrawal's points from the ledger as the earlier ones have left it; an address without points gets nothing. */
  function WithdrawOne(w: Withdrawal, totalX: nat, totalY: nat, toRemove: nat, r: WithdrawRun): Option<WithdrawRun> {
    match r.points.GetPointsFor(w.address)
    case None => Some(r)
    case Some(initial) =>
      var points := SafeMulDiv(initial, w.percent, 100);
      var xShare, yShare := SafeMulDiv(totalX, points, toRemove), SafeMulDiv(totalY, points, toRemove);
      var left :- r.points.RemovePoints(w.address, points);
      Some(WithdrawRun(left, Wrap(r.paidX + xShare), Wrap(r.paidY + yShare), r.payouts + [Payout(w.address, xShare, yShare)]))
  }

  function RunWithdrawals(ws: seq<Withdrawal>, totalX: nat, totalY: nat, toRemove: nat, r: WithdrawRun): Option<WithdrawRun> {
    if ws == [] then Some(r)
    else
      var next :- WithdrawOne(ws[0], totalX, totalY, toRemove, r);
      RunWithdrawals(ws[1..], totalX, totalY, toRemove, next)
  }

  datatype Withdrawn = Withdrawn(market: Market, payouts: seq<Payout>)

  function Withdraw(m: Market, ws: seq<Withdrawal>): Option<Withdrawn> {
    if ws == [] then Some(Withdrawn(m, []))
    else
      var toRemove :- PointsToRemove(m.points, ws, 0);
      if toRemove == 0 || m.points.total == 0 then Some(Withdrawn(m, []))
      else
        var totalY := SafeMulDiv(m.y, toRemove, m.points.total);
        var totalX := SafeMulDiv(m.x, toRemove, m.points.total);
        var r :- RunWithdrawals(ws, totalX, totalY, toRemove, WithdrawRun(m.points, 0, 0, []));
        Some(Withdrawn(Market(Wrap(m.x - r.paidX), Wrap(m.y - r.paidY), r.points), r.payouts))
  }

  function PayoutsX(payouts: seq<Payout>): nat {
    if payouts == [] then 0 else PayoutsX(payouts[..|payouts| - 1]) + payouts[|payouts| - 1].x
  }

  function PayoutsY(payouts: seq<Payout>): nat {
    if payouts == [] then 0 else PayoutsY(payouts[..|payouts| - 1]) + payouts[|payouts| - 1].y
  }

  lemma PayoutsAppend(payouts: seq<Payout>, p: Payout)
    ensures PayoutsX(payouts + [p]) == PayoutsX(payouts) + p.x
    ensures PayoutsY(payouts + [p]) == PayoutsY(payouts) + p.y
  {
    assert (payouts + [p])[..|payouts + [p]| - 1] == payouts;
  }

  /** What is paid from a reserve is at most the part of it that belongs to the points removed. */
  ghost predicate CoveredBy(paid: nat, reserve: nat, total: nat, left: nat) {
    left <= total && paid * total <= reserve * (total - left)
  }

  /** The payments add up. */
  ghost predicate AddsUp(payouts: seq<Payout>, x: nat, y: nat) {
    PayoutsX(payouts) == x && PayoutsY(payouts) == y
  }

  lemma StillAddsUp(payouts: seq<Payout>, x: nat, y: nat, p: Payout)
    requires AddsUp(payouts, x, y)
    ensures AddsUp(payouts + [p], x + p.x, y + p.y)
  {
    PayoutsAppend(payouts, p);
  }

  /** What has been paid so far is covered by the points that have been removed so far. */
  ghost predicate Covered(m: Market, r: WithdrawRun) {
    && InOrder(m, r.points)
    && AddsUp(r.payouts, r.paidX, r.paidY)
    && CoveredBy(r.paidX, m.x, m.points.total, r.points.total)
    && CoveredBy(r.paidY, m.y, m.points.total, r.points.total)
  }

  /** One more share, covered by the points taken for it, keeps what is paid from a reserve covered. */
  lemma CoveredStep(reserve: nat, total: nat, paid: nat, left: nat, share: nat, points: nat)
    requires points < left && CoveredBy(paid, reserve, total, left)
    requires share * total <= reserve * points
    ensures CoveredBy(paid + share, reserve, total, left - points) && paid + share <= reserve
  {
    var taken := total - left;
    assert (paid + share) * total == paid * total + share * total;
    assert reserve * (taken + points) == reserve * taken + reserve * points;
    ScaleUp(taken + points, total, reserve);
    Cancel(paid + share, reserve, total);
  }

  /** The share of one reserve that a withdrawal gets. */
  function ShareOf(reserve: nat, total: nat, toRemove: nat, points: nat): nat {
    SafeMulDiv(SafeMulDiv(reserve, toRemove, total), points, toRemove)
  }

  lemma CoveredShare(reserve: nat, total: nat, toRemove: nat, points: nat, paid: nat, left: nat)
    requires 0 < toRemove && points < left && CoveredBy(paid, reserve, total, left)
    ensures CoveredBy(paid + ShareOf(reserve, total, toRemove, points), reserve, total, left - points)
    ensures paid + ShareOf(reserve, total, toRemove, points) <= reserve
  {
    ShareBound(reserve, total, toRemove, points);
    CoveredStep(reserve, total, paid, left, ShareOf(reserve, total, toRemove, points), points);
  }

  /** The points that a run has left are a ledger in order. */
  ghost predicate InOrder(m: Market, left: Points) {
    left.Covers() && (m.points.Valid() ==> left.Valid()) && 0 < left.total
  }

  /** The withdrawal as a payout, once its points are known. */
  function PayoutOf(m: Market, w: Withdrawal, toRemove: nat, points: nat): Payout {
    Payout(w.address, ShareOf(m.x, m.points.total, toRemove, points), ShareOf(m.y, m.points.total, toRemove, points))
  }

  /** Removing points and paying the shares that they cover leaves the run covered. */
  lemma PayoutIsCovered(m: Market, w: Withdrawal, toRemove: nat, r: WithdrawRun, left: Points, points: nat)
    requires m.x <= MAX_UINT64 && m.y <= MAX_UINT64 && 0 < toRemove
    requires Covered(m, r) && InOrder(m, left) && left.total + points == r.points.total
    ensures var p := PayoutOf(m, w, toRemove, points);
      Covered(m, WithdrawRun(left, Wrap(r.paidX + p.x), Wrap(r.paidY + p.y), r.payouts + [p]))
  {
    var p := PayoutOf(m, w, toRemove, points);
    CoveredShare(m.x, m.points.total, toRemove, points, r.paidX, r.points.total);
    CoveredShare(m.y, m.points.total, toRemove, points, r.paidY, r.points.total);
    assert Wrap(r.paidX + p.x) == r.paidX + p.x && Wrap(r.paidY + p.y) == r.paidY + p.y;
    StillAddsUp(r.payouts, r.paidX, r.paidY, p);
  }

  /** What a withdrawal of a holder computes. */
  lemma WithdrawOnePays(w: Withdrawal, totalX: nat, totalY: nat, toRemove: nat, r: WithdrawRun) returns (points: nat, p: Payout)
    requires r.points.GetPointsFor(w.address).Some?
    ensures points <= r.points.GetPointsFor(w.address).value
    ensures p == Payout(w.address, SafeMulDiv(totalX, points, toRemove), SafeMulDiv(totalY, points, toRemove))
    ensures var left := r.points.RemovePoints(w.address, points);
      WithdrawOne(w, totalX, totalY, toRemove, r) ==
        if left.None? then None else Some(WithdrawRun(left.value, Wrap(r.paidX + p.x), Wrap(r.paidY + p.y), r.payouts + [p]))
  {
    PercentOf(r.points.GetPointsFor(w.address).value, w.percent);
    points := SafeMulDiv(r.points.GetPointsFor(w.address).value, w.percent, 100);
    p := Payout(w.address, SafeMulDiv(totalX, points, toRemove), SafeMulDiv(totalY, points, toRemove));
  }

  /** The totals that are paid out are the floored parts of the reserves. */
  ghost predicate Totals(m: Market, toRemove: nat, totalX: nat, totalY: nat) {
    && 0 < m.points.total && 0 < toRemove
    && totalX == SafeMulDiv(m.x, toRemove, m.points.total) && totalY == SafeMulDiv(m.y, toRemove, m.points.total)
  }

  lemma TotalsPay(m: Market, w: Withdrawal, toRemove: nat, totalX: nat, totalY: nat, points: nat)
    requires Totals(m, toRemove, totalX, totalY)
    ensures Payout(w.address, SafeMulDiv(totalX, points, toRemove), SafeMulDiv(totalY, points, toRemove)) == PayoutOf(m, w, toRemove, points)
  {
  }

  /** A withdrawal of a holder, if it is not refused, pays a share that its points cover. */
  lemma HolderIsCovered(m: Market, w: Withdrawal, toRemove: nat, totalX: nat, totalY: nat, r: WithdrawRun, q: WithdrawRun)
    requires m.x <= MAX_UINT64 && m.y <= MAX_UINT64 && Totals(m, toRemove, totalX, totalY) && Covered(m, r)
    requires r.points.GetPointsFor(w.address).Some? && WithdrawOne(w, totalX, totalY, toRemove, r) == Some(q)
    ensures Covered(m, q)
  {
    var points, p := WithdrawOnePays(w, totalX, totalY, toRemove, r);
    RemovedTotal(r.points, w.address, points);
    TotalsPay(m, w, toRemove, totalX, totalY, points);
    PayoutIsCovered(m, w, toRemove, r, r.points.RemovePoints(w.address, points).value, points);
  }

  lemma WithdrawOneCovered(m: Market, w: Withdrawal, toRemove: nat, totalX: nat, totalY: nat, r: WithdrawRun)
    requires m.x <= MAX_UINT64 && m.y <= MAX_UINT64 && Totals(m, toRemove, totalX, totalY)
    requires Covered(m, r)
    ensures WithdrawOne(w, totalX, totalY, toRemove, r).Some? ==> Covered(m, WithdrawOne(w, totalX, totalY, toRemove, r).value)
  {
    if r.points.GetPointsFor(w.address).Some? && WithdrawOne(w, totalX, totalY, toRemove, r).Some? {
      HolderIsCovered(m, w, toRemove, totalX, totalY, r, WithdrawOne(w, totalX, totalY, toRemove, r).value);
    }
  }

  lemma {:induction false} RunWithdrawalsCovered(m: Market, ws: seq<Withdrawal>, toRemove: nat, totalX: nat, totalY: nat, r: WithdrawRun)
    requires m.x <= MAX_UINT64 && m.y <= MAX_UINT64 && Totals(m, toRemove, totalX, totalY)
    requires Covered(m, r)
    requires RunWithdrawals(ws, totalX, totalY, toRemove, r).Some?
    ensures Covered(m, RunWithdrawals(ws, totalX, totalY, toRemove, r).value)
    decreases |ws|
  {
    if ws != [] {
      WithdrawOneCovered(m, ws[0], toRemove, totalX, totalY, r);
      RunWithdrawalsCovered(m, ws[1..], toRemove, totalX, totalY, WithdrawOne(ws[0], totalX, totalY, toRemove, r).value);
    }
  }

  lemma RemainderCovers(reserve: nat, paid: nat, total: nat, left: nat)
    requires 0 < left <= total
    requires paid * total <= reserve * (total - left)
    ensures paid <= reserve
    ensures reserve * left <= (reserve - paid) * total
    ensures 0 < reserve ==> paid < reserve
  {
    ScaleUp(total - left, total, reserve);
    Cancel(paid, reserve, total);
    assert reserve * (total - left) == reserve * total - reserve * left;
    assert (reserve - paid) * total == reserve * total - paid * total;
    if 0 < reserve && paid == reserve {
      Positive(reserve, left);
    }
  }

  /** Each reserve keeps at least its value per point. */
  ghost predicate ValueKept(m: Market, q: Market) {
    && m.x * q.points.total <= q.x * m.points.total
    && m.y * q.points.total <= q.y * m.points.total
  }

  /**
   Withdrawals never overpay, even when an address occurs several times: each reserve goes down by
   exactly the shares paid from it, stays positive if it was, and keeps at least its value per point.
   */
  lemma WithdrawNeverOverpays(m: Market, ws: seq<Withdrawal>)
    requires m.Covers()
    requires Withdraw(m, ws).Some?
    ensures var w := Withdraw(m, ws).value;
      && w.market.Covers() && (m.Valid() ==> w.market.Valid())
      && (0 < m.x ==> 0 < w.market.x) && (0 < m.y ==> 0 < w.market.y)
      && w.market.x + PayoutsX(w.payouts) == m.x && w.market.y + PayoutsY(w.payouts) == m.y
      && w.market.points.total <= m.points.total
      && ValueKept(m, w.market)
  {
    var w := Withdraw(m, ws).value;
    if ws != [] && PointsToRemove(m.points, ws, 0).value != 0 && m.points.total != 0 {
      var toRemove := PointsToRemove(m.points, ws, 0).value;
      var totalX, totalY := SafeMulDiv(m.x, toRemove, m.points.total), SafeMulDiv(m.y, toRemove, m.points.total);
      RunWithdrawalsCovered(m, ws, toRemove, totalX, totalY, WithdrawRun(m.points, 0, 0, []));
      var r := RunWithdrawals(ws, totalX, totalY, toRemove, WithdrawRun(m.points, 0, 0, [])).value;
      RemainderCovers(m.x, r.paidX, m.points.total, r.points.total);
      RemainderCovers(m.y, r.paidY, m.points.total, r.points.total);
    }
  }

  /** Withdrawals keep the points backed. */
  lemma WithdrawKeepsSound(m: Market, ws: seq<Withdrawal>)
    requires m.Sound()
    requires Withdraw(m, ws).Some?
    ensures Withdraw(m, ws).value.market.Sound()
  {
    var w := Withdraw(m, ws).value;
    WithdrawNeverOverpays(m, ws);
    if m.points.total != 0 {
      BackedAfterScaling(m.x, m.y, m.points.total, w.market.x, w.market.y, w.market.points.total);
    }
  }

  // ---------------------------------------------------------------------------------------------
  // Deposits
  // ---------------------------------------------------------------------------------------------

  function SumOfDeposits(ds: seq<Deposit>): nat {
    if ds == [] then 0 else ds[0].amount + SumOfDeposits(ds[1..])
  }

  datatype DepositRun = DepositRun(points: Points, distributed: nat)

  /** Gives each deposit its floored part of the newly minted points; None if the ledger is full or overflows. */
  function RunDeposits(ds: seq<Deposit>, minted: nat, totalDeposit: nat, r: DepositRun): Option<DepositRun> {
    if ds == [] then Some(r)
    else
      var share := SafeMulDiv(minted, ds[0].amount, totalDeposit);
      if share > 0 && r.points.GetPointsFor(ds[0].address).None? && |r.points.holders| >= MAX_LIQUIDITY_PROVIDERS then None
      else
        var points :- r.points.AddPoints(ds[0].address, share);
        RunDeposits(ds[1..], minted, totalDeposit, DepositRun(points, Wrap(r.distributed + share)))
  }

  /** The ledger to mint from: a pool without points first gives the root of its reserves to the dead address. */
  function Initialized(m: Market): Option<Points> {
    if m.points.total == 0 then m.points.AddPoints(DEAD_ADDRESS, SqrtProduct(m.x, m.y)) else Some(m.points)
  }

  /** The number of points before minting: all points, or the root that initializes the pool. */
  function PointsBeforeMint(m: Market): nat {
    if m.points.total == 0 then SqrtProduct(m.x, m.y) else m.points.total
  }

  /** The points minted for a total deposit, as if it were one deposit. */
  function Minted(m: Market, totalDeposit: nat): nat {
    MintedFor(PointsBeforeMint(m), SqrtProduct(m.x, m.y), SqrtProduct(m.x + totalDeposit, m.y))
  }

  function MintedFor(points: nat, oldK: nat, newK: nat): nat {
    SafeMulDiv(points, if newK < oldK then 0 else newK - oldK, oldK)
  }

  /** Gives out the minted points and sinks the dust to the dead address. */
  function Distribute(ds: seq<Deposit>, minted: nat, totalDeposit: nat, points: Points): Option<Points> {
    var r :- RunDeposits(ds, minted, totalDeposit, DepositRun(points, 0));
    r.points.AddPoints(DEAD_ADDRESS, Wrap(minted - r.distributed))
  }

  function DepositAll(m: Market, ds: seq<Deposit>): Option<Market> {
    if ds == [] then Some(m)
    else
      var totalDeposit := SumOfDeposits(ds);
      if totalDeposit > MAX_UINT64 then None
      else if totalDeposit == 0 || m.x == 0 || m.y == 0 then Some(m)
      else
        var points :- Initialized(m);
        var oldK, newK := SqrtProduct(m.x, m.y), SqrtProduct(m.x + totalDeposit, m.y);
        if oldK == 0 || m.x + totalDeposit > MAX_UINT64 || newK < oldK then None
        else
          var final :- Distribute(ds, Minted(m, totalDeposit), totalDeposit, points);
          Some(Market(m.x + totalDeposit, m.y, final))
  }

  /** What the deposits get together. */
  function ShareSum(ds: seq<Deposit>, minted: nat, totalDeposit: nat): nat {
    if ds == [] then 0 else SafeMulDiv(minted, ds[0].amount, totalDeposit) + ShareSum(ds[1..], minted, totalDeposit)
  }

  lemma AddBounds(a: nat, b: nat, d: nat, m: nat, p: nat, q: nat)
    requires a * d <= m * p && b * d <= m * q
    ensures (a + b) * d <= m * (p + q)
  {
    assert (a + b) * d == a * d + b * d;
    assert m * (p + q) == m * p + m * q;
  }

  /** The shares of some deposits are at most their part of what is minted. */
  lemma {:induction false} SharesAreCovered(ds: seq<Deposit>, minted: nat, totalDeposit: nat)
    requires 0 < totalDeposit
    ensures ShareSum(ds, minted, totalDeposit) * totalDeposit <= minted * SumOfDeposits(ds)
  {
    if ds != [] {
      var share := SafeMulDiv(minted, ds[0].amount, totalDeposit);
      SharesAreCovered(ds[1..], minted, totalDeposit);
      MulDivBound(minted, ds[0].amount, totalDeposit);
      AddBounds(share, ShareSum(ds[1..], minted, totalDeposit), totalDeposit, minted, ds[0].amount, SumOfDeposits(ds[1..]));
    }
  }

  /** Together the deposits get at most what is minted. */
  lemma SharesFit(ds: seq<Deposit>, minted: nat, totalDeposit: nat)
    requires 0 < totalDeposit == SumOfDeposits(ds)
    ensures ShareSum(ds, minted, totalDeposit) <= minted
  {
    SharesAreCovered(ds, minted, totalDeposit);
    Cancel(ShareSum(ds, minted, totalDeposit), minted, totalDeposit);
  }

  /** The ledger after one share. */
  function GiveShare(r: DepositRun, a: Address, share: nat): Option<DepositRun> {
    if share > 0 && r.points.GetPointsFor(a).None? && |r.points.holders| >= MAX_LIQUIDITY_PROVIDERS then None
    else
      var points :- r.points.AddPoints(a, share);
      Some(DepositRun(points, Wrap(r.distributed + share)))
  }

  lemma RunGives(ds: seq<Deposit>, minted: nat, totalDeposit: nat, r: DepositRun)
    requires ds != []
    ensures var q := GiveShare(r, ds[0].address, SafeMulDiv(minted, ds[0].amount, totalDeposit));
      RunDeposits(ds, minted, totalDeposit, r) == if q.None? then None else RunDeposits(ds[1..], minted, totalDeposit, q.value)
  {
  }

  lemma ShareAdds(r: DepositRun, a: Address, share: nat)
    requires r.points.Covers() && r.distributed + share <= MAX_UINT64
    requires GiveShare(r, a, share).Some?
    ensures var q := GiveShare(r, a, share).value;
      && q.points.Covers() && (r.points.Valid() ==> q.points.Valid())
      && q.points.total == r.points.total + share && q.distributed == r.distributed + share
  {
    AddedTotal(r.points, a, share);
  }

  /** The deposits get exactly their shares. */
  lemma {:induction false} RunDepositsExact(ds: seq<Deposit>, minted: nat, totalDeposit: nat, r: DepositRun)
    requires r.points.Covers() && r.distributed + ShareSum(ds, minted, totalDeposit) <= MAX_UINT64
    requires RunDeposits(ds, minted, totalDeposit, r).Some?
    ensures var q, given := RunDeposits(ds, minted, totalDeposit, r).value, ShareSum(ds, minted, totalDeposit);
      && q.points.Covers() && (r.points.Valid() ==> q.points.Valid())
      && q.points.total == r.points.total + given && q.distributed == r.distributed + given
    decreases |ds|
  {
    if ds != [] {
      var share := SafeMulDiv(minted, ds[0].amount, totalDeposit);
      RunGives(ds, minted, totalDeposit, r);
      ShareAdds(r, ds[0].address, share);
      RunDepositsExact(ds[1..], minted, totalDeposit, GiveShare(r, ds[0].address, share).value);
    }
  }

  /** The roots of the reserves before and after a deposit. */
  lemma RootsGrow(m: Market, totalDeposit: nat)
    requires m.x <= MAX_UINT64 && m.y <= MAX_UINT64 && 0 < m.x && 0 < m.y
    requires m.x + totalDeposit <= MAX_UINT64
    ensures 0 < SqrtProduct(m.x, m.y) <= SqrtProduct(m.x + totalDeposit, m.y) <= MAX_UINT64
  {
    SqrtProductGrows(m.x, totalDeposit, m.y, MAX_UINT64);
  }

  /** The minted points never dilute: each old point keeps its part of the root of the reserves. */
  ghost predicate NoDilution(points: nat, oldK: nat, newK: nat, minted: nat) {
    oldK * (points + minted) <= points * newK
  }

  /** Backed points are minted without being cut off to 64 bits, and stay backed. */
  ghost predicate ExactMint(points: nat, oldK: nat, newK: nat, minted: nat) {
    0 < oldK && minted == points * (newK - oldK) / oldK && points + minted <= newK
  }

  lemma MintNeverDilutes(points: nat, oldK: nat, newK: nat)
    requires 0 < oldK <= newK
    ensures NoDilution(points, oldK, newK, MintedFor(points, oldK, newK))
  {
    var minted, growth := MintedFor(points, oldK, newK), newK - oldK;
    MulDivBound(points, growth, oldK);
    assert oldK * (points + minted) == points * oldK + minted * oldK;
    assert points * growth == points * newK - points * oldK;
  }

  lemma MintStaysBacked(points: nat, oldK: nat, newK: nat)
    requires points <= oldK <= newK && 0 < oldK
    ensures points + MintedFor(points, oldK, newK) <= newK
  {
    MulDivBound(points, newK - oldK, oldK);
    BackedAfterMint(points, MintedFor(points, oldK, newK), oldK, newK);
  }

  lemma BackedMintIsExact(points: nat, oldK: nat, newK: nat)
    requires points <= oldK <= newK <= MAX_UINT64 && 0 < oldK
    ensures ExactMint(points, oldK, newK, MintedFor(points, oldK, newK))
  {
    ScaleUp(points, oldK, newK - oldK);
    MulDivFits(points, newK - oldK, oldK, newK - oldK);
    MintStaysBacked(points, oldK, newK);
  }

  /** No mint dilutes, whether the points are backed or not; of backed points every mint is exact. */
  lemma MintIsExact(m: Market, totalDeposit: nat)
    requires m.x <= MAX_UINT64 && m.y <= MAX_UINT64 && 0 < m.x && 0 < m.y
    requires m.x + totalDeposit <= MAX_UINT64
    ensures NoDilution(PointsBeforeMint(m), SqrtProduct(m.x, m.y), SqrtProduct(m.x + totalDeposit, m.y), Minted(m, totalDeposit))
    ensures m.Sound() ==> ExactMint(PointsBeforeMint(m), SqrtProduct(m.x, m.y), SqrtProduct(m.x + totalDeposit, m.y), Minted(m, totalDeposit))
  {
    var points, oldK, newK := PointsBeforeMint(m), SqrtProduct(m.x, m.y), SqrtProduct(m.x + totalDeposit, m.y);
    RootsGrow(m, totalDeposit);
    MintNeverDilutes(points, oldK, newK);
    if m.Sound() {
      BelowSqrtProduct(m.points.total, m.x, m.y);
      BackedMintIsExact(points, oldK, newK);
    }
  }

  lemma MintedFits(m: Market, totalDeposit: nat)
    ensures Minted(m, totalDeposit) <= MAX_UINT64
  {
  }

  /** The deposit stage takes effect: there is something to add, and both reserves are positive. */
  predicate Mints(m: Market, ds: seq<Deposit>) {
    SumOfDeposits(ds) != 0 && 0 < m.x && 0 < m.y
  }

  /** What a deposit stage that takes effect computes. */
  lemma DepositDistributes(m: Market, ds: seq<Deposit>)
    requires DepositAll(m, ds).Some? && Mints(m, ds)
    ensures var totalDeposit := SumOfDeposits(ds);
      && m.x + totalDeposit <= MAX_UINT64
      && Initialized(m).Some?
      && Distribute(ds, Minted(m, totalDeposit), totalDeposit, Initialized(m).value).Some?
      && DepositAll(m, ds).value ==
           Market(m.x + totalDeposit, m.y, Distribute(ds, Minted(m, totalDeposit), totalDeposit, Initialized(m).value).value)
  {
  }

  /** The deposit stage took m to q: it minted what one big deposit would have minted, and diluted nobody. */
  ghost predicate MintedFairly(m: Market, ds: seq<Deposit>, q: Market) {
    var totalDeposit := SumOfDeposits(ds);
    && q.x == (if Mints(m, ds) then m.x + totalDeposit else m.x) && q.y == m.y
    && q.points.total == (if Mints(m, ds) then PointsBeforeMint(m) + Minted(m, totalDeposit) else m.points.total)
    && (Mints(m, ds) ==> NoDilution(PointsBeforeMint(m), SqrtProduct(m.x, m.y), SqrtProduct(q.x, q.y), Minted(m, totalDeposit)))
  }

  /** What a successful deposit stage does to the reserves and to the number of points. */
  lemma DepositTotals(m: Market, ds: seq<Deposit>)
    requires m.Covers()
    requires DepositAll(m, ds).Some?
    ensures var q := DepositAll(m, ds).value;
      && q.Covers() && (m.Valid() ==> q.Valid())
      && q.x == (if Mints(m, ds) then m.x + SumOfDeposits(ds) else m.x) && q.y == m.y
      && q.points.total == (if Mints(m, ds) then PointsBeforeMint(m) + Minted(m, SumOfDeposits(ds)) else m.points.total)
  {
    var totalDeposit := SumOfDeposits(ds);
    if Mints(m, ds) {
      DepositDistributes(m, ds);
      InitializedIsValid(m);
      MintedFits(m, totalDeposit);
      DistributionIsExact(ds, Minted(m, totalDeposit), totalDeposit, Initialized(m).value);
    }
  }

  /**
   A successful deposit mints exactly, in any market whose points cover their holders: the reserve grows by the deposits,
   the ledger by what one big deposit would have minted, with the dust at the dead address, and nobody is diluted. Without
   positive reserves nothing moves.
   */
  lemma DepositMintsExactly(m: Market, ds: seq<Deposit>)
    requires m.Covers()
    requires DepositAll(m, ds).Some?
    ensures DepositAll(m, ds).value.Covers() && (m.Valid() ==> DepositAll(m, ds).value.Valid())
    ensures MintedFairly(m, ds, DepositAll(m, ds).value)
  {
    DepositTotals(m, ds);
    if Mints(m, ds) {
      MintIsExact(m, SumOfDeposits(ds));
    }
  }

  lemma BackedBelowRoot(m: Market)
    requires m.Valid() && 0 < m.x && 0 < m.y
    ensures m.Sound() <==> m.points.total <= SqrtProduct(m.x, m.y)
  {
    BelowSqrtProduct(m.points.total, m.x, m.y);
  }

  /** Minting for a deposit keeps backed points backed. */
  lemma MintKeepsSound(m: Market, totalDeposit: nat, q: Market)
    requires m.Sound() && q.Valid()
    requires q.x == m.x + totalDeposit && q.y == m.y
    requires q.points.total == PointsBeforeMint(m) + Minted(m, totalDeposit)
    ensures q.Sound()
  {
    var oldK, newK := SqrtProduct(m.x, m.y), SqrtProduct(q.x, q.y);
    RootsGrow(m, totalDeposit);
    BackedBelowRoot(m);
    MintStaysBacked(PointsBeforeMint(m), oldK, newK);
    BackedBelowRoot(q);
  }

  /** Deposits keep the points backed. */
  lemma DepositKeepsSound(m: Market, ds: seq<Deposit>)
    requires m.Sound()
    requires DepositAll(m, ds).Some?
    ensures DepositAll(m, ds).value.Sound()
  {
    DepositTotals(m, ds);
    if Mints(m, ds) {
      MintKeepsSound(m, SumOfDeposits(ds), DepositAll(m, ds).value);
    }
  }

  /** The dust is what has not been distributed. */
  lemma DustCompletes(r: DepositRun, minted: nat)
    requires r.points.Covers() && r.distributed <= minted <= MAX_UINT64
    ensures var q := r.points.AddPoints(DEAD_ADDRESS, Wrap(minted - r.distributed));
      q.Some? ==> q.value.Covers() && (r.points.Valid() ==> q.value.Valid()) && q.value.total + r.distributed == r.points.total + minted
  {
    var dust: nat := minted - r.distributed;
    assert Wrap(dust) == dust;
    if r.points.AddPoints(DEAD_ADDRESS, dust).Some? {
      AddedTotal(r.points, DEAD_ADDRESS, dust);
    }
  }

  /** The shares and the dust together are what was minted; the subtraction for the dust cannot underflow. */
  lemma DistributionIsExact(ds: seq<Deposit>, minted: nat, totalDeposit: nat, points: Points)
    requires points.Covers()
    requires 0 < totalDeposit == SumOfDeposits(ds) && minted <= MAX_UINT64
    ensures RunDeposits(ds, minted, totalDeposit, DepositRun(points, 0)).Some? ==>
      RunDeposits(ds, minted, totalDeposit, DepositRun(points, 0)).value.distributed <= minted
    ensures Distribute(ds, minted, totalDeposit, points).Some? ==>
      var q := Distribute(ds, minted, totalDeposit, points).value;
      q.Covers() && (points.Valid() ==> q.Valid()) && q.total == points.total + minted
  {
    var r := RunDeposits(ds, minted, totalDeposit, DepositRun(points, 0));
    if r.Some? {
      SharesFit(ds, minted, totalDeposit);
      RunDepositsExact(ds, minted, totalDeposit, DepositRun(points, 0));
      DustCompletes(r.value, minted);
    }
  }

  lemma InitializedIsValid(m: Market)
    requires m.Covers()
    requires Initialized(m).Some?
    ensures Initialized(m).value.Covers() && (m.Valid() ==> Initialized(m).value.Valid())
    ensures Initialized(m).value.total == PointsBeforeMint(m)
  {
    if m.points.total == 0 {
      AddedTotal(m.points, DEAD_ADDRESS, SqrtProduct(m.x, m.y));
    }
  }

  /** The total minted depends only on the sum of the deposits, not on how it is split or on who deposits. */
  lemma MintDependsOnSumOnly(m: Market, ds: seq<Deposit>, es: seq<Deposit>)
    requires m.Covers()
    requires DepositAll(m, ds).Some? && DepositAll(m, es).Some?
    requires SumOfDeposits(ds) == SumOfDeposits(es)
    ensures DepositAll(m, ds).value.points.total == DepositAll(m, es).value.points.total
    ensures DepositAll(m, ds).value.x == DepositAll(m, es).value.x
  {
    DepositTotals(m, ds);
    DepositTotals(m, es);
  }

  // ---------------------------------------------------------------------------------------------
  // A whole batch
  // ---------------------------------------------------------------------------------------------

  datatype BatchRun = BatchRun(market: Market, receipts: seq<nat>)

  /** Orders, then withdrawals, then deposits. */
  function RunBatch(m: Market, orders: seq<Order>, ws: seq<Withdrawal>, ds: seq<Deposit>, queue: seq<nat>): Option<BatchRun>
    requires forall j :: 0 <= j < |queue| ==> queue[j] < |orders|
  {
    var o :- ExecuteOrders(orders, queue, m.x, m.y);
    var w :- Withdraw(Market(o.x, o.y, m.points), ws);
    var d :- DepositAll(w.market, ds);
    Some(BatchRun(d, o.receipts))
  }

  /** The points stay backed by the reserves through every batch: a sound market stays sound. */
  lemma BatchKeepsSound(m: Market, orders: seq<Order>, ws: seq<Withdrawal>, ds: seq<Deposit>, queue: seq<nat>)
    requires m.Sound()
    requires Permutation(queue, |orders|)
    requires RunBatch(m, orders, ws, ds, queue).Some?
    ensures RunBatch(m, orders, ws, ds, queue).value.market.Sound()
  {
    OrdersKeepProduct(orders, queue, m.x, m.y);
    var o := ExecuteOrders(orders, queue, m.x, m.y).value;
    WithdrawKeepsSound(Market(o.x, o.y, m.points), ws);
    DepositKeepsSound(Withdraw(Market(o.x, o.y, m.points), ws).value.market, ds);
  }
}
