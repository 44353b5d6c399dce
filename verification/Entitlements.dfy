/**
 What a batch owes to whom, in inequalities that do not mention how it is computed: what every order is paid when its
 turn comes, what a withdrawing owner is paid and keeps, which points a deposit stage issues and who gets them.
 */
module Entitlements {
  import opened Options
  import opened Ledger
  import opened PoolPoints
  import opened Arithmetic
  import opened Amm
  import opened Batches
  import opened Conservation
  import opened Payments
  import opened Refusals

  // ---------------------------------------------------------------------------------------------
  // Orders
  // ---------------------------------------------------------------------------------------------

  /** With one percent of the input kept as a fee, d is the largest output that keeps the product of the reserves. */
  ghost predicate IsOutput(d: nat, o: Order, x: nat, y: nat) {
    IsQuotient(d, 990 * o.amountForSale * y, 1000 * x + 990 * o.amountForSale)
  }

  /** The order receives that output, and nothing exactly if that is nothing or less than it asked for. */
  ghost predicate Fills(o: Order, x: nat, y: nat, received: nat) {
    exists d: nat :: IsOutput(d, o, x, y) && received == if d < o.requestedAmount then 0 else d
  }

  /** xs and ys are the reserves before each order's turn and after the last: what is received decides how they move. */
  ghost predicate InTurn(orders: seq<Order>, queue: seq<nat>, xs: seq<nat>, ys: seq<nat>, receipts: seq<nat>)
    requires |receipts| == |orders|
    requires forall j :: 0 <= j < |queue| ==> queue[j] < |orders|
  {
    && |xs| == |ys| == |queue| + 1
    && forall j :: 0 <= j < |queue| ==>
         && Fills(orders[queue[j]], xs[j], ys[j], receipts[queue[j]])
         && xs[j + 1] == xs[j] + (if receipts[queue[j]] == 0 then 0 else orders[queue[j]].amountForSale)
         && ys[j + 1] + receipts[queue[j]] == ys[j]
  }

  lemma OutputFills(o: Order, x: nat, y: nat)
    requires 0 < x
    ensures Fills(o, x, y, OrderOutput(o, x, y))
  {
    SwapIsLargest(x, y, o.amountForSale);
    assert IsOutput(SafeComputeDY(x, y, o.amountForSale), o, x, y);
  }

  /** One turn: the order is filled at these reserves, and the rest of the queue finds what it leaves. */
  lemma NextTurn(orders: seq<Order>, queue: seq<nat>, x: nat, y: nat, receipts: seq<nat>) returns (x': nat, y': nat, received: nat)
    requires 0 < x && 0 < y <= MAX_UINT64 && |receipts| == |orders|
    requires queue != [] && forall j :: 0 <= j < |queue| ==> queue[j] < |orders|
    requires RunOrders(orders, queue, x, y, receipts).Some?
    ensures Fills(orders[queue[0]], x, y, received)
    ensures x' == x + (if received == 0 then 0 else orders[queue[0]].amountForSale)
    ensures y' + received == y && 0 < y'
    ensures RunOrders(orders, queue, x, y, receipts) == RunOrders(orders, queue[1..], x', y', receipts[queue[0] := received])
  {
    received := OrderOutput(orders[queue[0]], x, y);
    OutputFills(orders[queue[0]], x, y);
    SwapLeavesSomething(x, y, orders[queue[0]].amountForSale);
    x', y' := x + (if received == 0 then 0 else orders[queue[0]].amountForSale), y - received;
  }

  /** Executing the rest of the queue does not touch the receipts of other orders. */
  lemma {:induction false} OtherReceiptsStay(orders: seq<Order>, queue: seq<nat>, x: nat, y: nat, receipts: seq<nat>, k: nat)
    requires 0 < x && 0 < y <= MAX_UINT64 && |receipts| == |orders|
    requires forall j :: 0 <= j < |queue| ==> queue[j] < |orders|
    requires k < |orders| && k !in queue
    requires RunOrders(orders, queue, x, y, receipts).Some?
    ensures var r := RunOrders(orders, queue, x, y, receipts).value.receipts; |r| == |orders| && r[k] == receipts[k]
    decreases |queue|
  {
    if queue != [] {
      var x', y', received := NextTurn(orders, queue, x, y, receipts);
      OtherReceiptsStay(orders, queue[1..], x', y', receipts[queue[0] := received], k);
    }
  }

  /** The run follows these reserves. */
  ghost predicate Follows(orders: seq<Order>, queue: seq<nat>, xs: seq<nat>, ys: seq<nat>, x: nat, y: nat, r: OrderRun)
    requires forall j :: 0 <= j < |queue| ==> queue[j] < |orders|
  {
    && |r.receipts| == |orders|
    && InTurn(orders, queue, xs, ys, r.receipts)
    && xs[0] == x && ys[0] == y && xs[|queue|] == r.x && ys[|queue|] == r.y
  }

  lemma {:induction false} RunFillsInTurn(orders: seq<Order>, queue: seq<nat>, x: nat, y: nat, receipts: seq<nat>) returns (xs: seq<nat>, ys: seq<nat>)
    requires 0 < x && 0 < y <= MAX_UINT64 && |receipts| == |orders|
    requires forall j :: 0 <= j < |queue| ==> queue[j] < |orders|
    requires forall j, k :: 0 <= j < k < |queue| ==> queue[j] != queue[k]
    requires RunOrders(orders, queue, x, y, receipts).Some?
    ensures Follows(orders, queue, xs, ys, x, y, RunOrders(orders, queue, x, y, receipts).value)
    decreases |queue|
  {
    if queue == [] {
      xs, ys := [x], [y];
    } else {
      var rest := queue[1..];
      assert queue[0] !in rest;
      var x', y', received := NextTurn(orders, queue, x, y, receipts);
      var tailX, tailY := RunFillsInTurn(orders, rest, x', y', receipts[queue[0] := received]);
      OtherReceiptsStay(orders, rest, x', y', receipts[queue[0] := received], queue[0]);
      PrependTurn(orders, queue, x, y, tailX, tailY, RunOrders(orders, queue, x, y, receipts).value.receipts);
      xs, ys := [x] + tailX, [y] + tailY;
    }
  }

  lemma PrependTurn(orders: seq<Order>, queue: seq<nat>, x: nat, y: nat, xs: seq<nat>, ys: seq<nat>, receipts: seq<nat>)
    requires |receipts| == |orders| && queue != []
    requires forall j :: 0 <= j < |queue| ==> queue[j] < |orders|
    requires InTurn(orders, queue[1..], xs, ys, receipts)
    requires Fills(orders[queue[0]], x, y, receipts[queue[0]])
    requires xs[0] == x + (if receipts[queue[0]] == 0 then 0 else orders[queue[0]].amountForSale)
    requires ys[0] + receipts[queue[0]] == y
    ensures InTurn(orders, queue, [x] + xs, [y] + ys, receipts)
  {
    var xs', ys' := [x] + xs, [y] + ys;
    forall j | 0 <= j < |queue|
      ensures Fills(orders[queue[j]], xs'[j], ys'[j], receipts[queue[j]])
      ensures xs'[j + 1] == xs'[j] + (if receipts[queue[j]] == 0 then 0 else orders[queue[j]].amountForSale)
      ensures ys'[j + 1] + receipts[queue[j]] == ys'[j]
    {
      if j > 0 {
        assert queue[j] == queue[1..][j - 1];
      }
    }
  }

  /** For every order of execution: each order is paid the largest output at the reserves that it finds, or nothing if it asked for more. */
  lemma OrdersAreFilledInTurn(orders: seq<Order>, queue: seq<nat>, x: nat, y: nat) returns (xs: seq<nat>, ys: seq<nat>)
    requires y <= MAX_UINT64 && Permutation(queue, |orders|)
    requires ExecuteOrders(orders, queue, x, y).Some?
    ensures Follows(orders, queue, xs, ys, x, y, ExecuteOrders(orders, queue, x, y).value)
  {
    xs, ys := RunFillsInTurn(orders, queue, x, y, NoReceipts(|orders|));
  }

  /** What an order is paid is determined by the reserves that it finds. */
  lemma FillIsUnique(o: Order, x: nat, y: nat, r: nat, s: nat)
    requires Fills(o, x, y, r) && Fills(o, x, y, s)
    ensures r == s
  {
    var d: nat :| IsOutput(d, o, x, y) && r == if d < o.requestedAmount then 0 else d;
    var e: nat :| IsOutput(e, o, x, y) && s == if e < o.requestedAmount then 0 else e;
    QuotientIsUnique(d, e, 990 * o.amountForSale * y, 1000 * x + 990 * o.amountForSale);
  }

  // ---------------------------------------------------------------------------------------------
  // Withdrawals
  // ---------------------------------------------------------------------------------------------

  function PartOf(owned: nat, percent: nat): nat {
    owned * percent / 100
  }

  /** What an owner keeps: every one of its withdrawals takes its percentage of what the earlier ones have left. */
  function Kept(owned: nat, ws: seq<Withdrawal>, a: Address): nat
    decreases |ws|
  {
    if ws == [] then owned
    else if ws[0].address != a then Kept(owned, ws[1..], a)
    else Kept(if PartOf(owned, ws[0].percent) <= owned then owned - PartOf(owned, ws[0].percent) else 0, ws[1..], a)
  }

  /** What an owner is paid out of an amount that is shared in proportion to the points taken. */
  function Gets(owned: nat, ws: seq<Withdrawal>, a: Address, shared: nat, toRemove: nat): nat
    decreases |ws|
  {
    if ws == [] then 0
    else if ws[0].address != a then Gets(owned, ws[1..], a, shared, toRemove)
    else
      var taken := PartOf(owned, ws[0].percent);
      SafeMulDiv(shared, taken, toRemove) + Gets(if taken <= owned then owned - taken else 0, ws[1..], a, shared, toRemove)
  }

  /** The points to remove, each withdrawal taken from the ledger as it is before the batch. */
  function Nominal(p: Points, ws: seq<Withdrawal>): nat {
    if ws == [] then 0 else PartOf(PointsOf(p, ws[0].address), ws[0].percent) + Nominal(p, ws[1..])
  }

  /** What the withdrawals of a batch pay one owner out of one reserve. */
  function Exit(p: Points, ws: seq<Withdrawal>, a: Address, reserve: nat): nat {
    if Nominal(p, ws) == 0 then 0
    else Gets(PointsOf(p, a), ws, a, SafeMulDiv(reserve, Nominal(p, ws), p.total), Nominal(p, ws))
  }

  lemma PartFits(owned: nat, percent: nat)
    requires owned <= MAX_UINT64 && percent <= 100
    ensures SafeMulDiv(owned, percent, 100) == PartOf(owned, percent) <= owned
  {
    ScaleUp(percent, 100, owned);
    MulDivFits(owned, percent, 100, owned);
  }

  lemma {:induction false} OwnedFits(holders: seq<Holder>, a: Address)
    ensures Owned(holders, a) <= SumOf(holders)
  {
    if holders != [] {
      OwnedFits(holders[1..], a);
    }
  }

  lemma {:induction false} NominalIsReported(p: Points, ws: seq<Withdrawal>)
    requires p.Valid()
    ensures Nominal(p, ws) == NominalRemoval(p, ws)
    decreases |ws|
  {
    if ws != [] {
      OwnedIsReported(p.holders, ws[0].address);
      OwnedFits(p.holders, ws[0].address);
      PartFits(PointsOf(p, ws[0].address), ws[0].percent);
      NominalIsReported(p, ws[1..]);
    }
  }

  /** One withdrawal, seen by one owner. */
  lemma OnePaysOwner(w: Withdrawal, totalX: nat, totalY: nat, toRemove: nat, r: WithdrawRun, local: bool, a: Address)
    requires r.points.Valid() && WithdrawOne(w, totalX, totalY, toRemove, r).Some?
    ensures var q, owned := WithdrawOne(w, totalX, totalY, toRemove, r).value, PointsOf(r.points, w.address);
      && q.points.Valid() && PartOf(owned, w.percent) <= owned
      && PointsOf(q.points, a) == (if a == w.address then owned - PartOf(owned, w.percent) else PointsOf(r.points, a))
      && PaidOut(q.payouts, local, a) == PaidOut(r.payouts, local, a)
           + if a == w.address then SafeMulDiv(if local then totalX else totalY, PartOf(owned, w.percent), toRemove) else 0
  {
    OneWithdrawal(w, totalX, totalY, toRemove, r, local, a);
    OneWithdrawal(w, totalX, totalY, toRemove, r, local, w.address);
    OwnedFits(r.points.holders, w.address);
    PartFits(PointsOf(r.points, w.address), w.percent);
  }

  lemma {:induction false} RunLeavesOwner(ws: seq<Withdrawal>, totalX: nat, totalY: nat, toRemove: nat, r: WithdrawRun, a: Address)
    requires r.points.Valid()
    requires RunWithdrawals(ws, totalX, totalY, toRemove, r).Some?
    ensures PointsOf(RunWithdrawals(ws, totalX, totalY, toRemove, r).value.points, a) == Kept(PointsOf(r.points, a), ws, a)
    decreases |ws|
  {
    if ws != [] {
      OnePaysOwner(ws[0], totalX, totalY, toRemove, r, true, a);
      RunLeavesOwner(ws[1..], totalX, totalY, toRemove, WithdrawOne(ws[0], totalX, totalY, toRemove, r).value, a);
    }
  }

  lemma {:induction false} RunPaysOwner(ws: seq<Withdrawal>, totalX: nat, totalY: nat, toRemove: nat, r: WithdrawRun, local: bool, a: Address)
    requires r.points.Valid()
    requires RunWithdrawals(ws, totalX, totalY, toRemove, r).Some?
    ensures PaidOut(RunWithdrawals(ws, totalX, totalY, toRemove, r).value.payouts, local, a)
         == PaidOut(r.payouts, local, a) + Gets(PointsOf(r.points, a), ws, a, if local then totalX else totalY, toRemove)
    decreases |ws|
  {
    if ws != [] {
      OnePaysOwner(ws[0], totalX, totalY, toRemove, r, local, a);
      RunPaysOwner(ws[1..], totalX, totalY, toRemove, WithdrawOne(ws[0], totalX, totalY, toRemove, r).value, local, a);
    }
  }

  /** Every owner keeps and is paid what its own withdrawals come to, one after the other; without points to remove nothing happens. */
  lemma OwnersExit(m: Market, ws: seq<Withdrawal>, local: bool, a: Address)
    requires m.points.Valid() && Withdraw(m, ws).Some?
    ensures var w := Withdraw(m, ws).value;
      && PaidOut(w.payouts, local, a) == Exit(m.points, ws, a, if local then m.x else m.y)
      && PointsOf(w.market.points, a) == (if Nominal(m.points, ws) == 0 then PointsOf(m.points, a) else Kept(PointsOf(m.points, a), ws, a))
  {
    NominalIsReported(m.points, ws);
    RemovalSum(m.points, ws, 0);
    if ws != [] && Nominal(m.points, ws) != 0 {
      NothingWithoutPoints(m.points, ws);
      var toRemove := Nominal(m.points, ws);
      var totalX, totalY := SafeMulDiv(m.x, toRemove, m.points.total), SafeMulDiv(m.y, toRemove, m.points.total);
      RunPaysOwner(ws, totalX, totalY, toRemove, WithdrawRun(m.points, 0, 0, []), local, a);
      RunLeavesOwner(ws, totalX, totalY, toRemove, WithdrawRun(m.points, 0, 0, []), a);
    }
  }

  lemma {:induction false} NothingWithoutPoints(p: Points, ws: seq<Withdrawal>)
    requires p.Valid()
    ensures p.total == 0 ==> Nominal(p, ws) == 0
    decreases |ws|
  {
    if ws != [] {
      OwnedFits(p.holders, ws[0].address);
      NothingWithoutPoints(p, ws[1..]);
    }
  }

  // ---------------------------------------------------------------------------------------------
  // Deposits
  // ---------------------------------------------------------------------------------------------

  /** The points from which a deposit stage issues: all there are; in a pool without points, the root of its reserves. */
  ghost predicate IsBase(base: nat, m: Market) {
    if m.points.total == 0 then IsRootOf(base, m.x, m.y) else base == m.points.total
  }

  /** The base grows in proportion to the root of the reserves; rounded down, and only the low 64 bits are kept. */
  ghost predicate IsIssue(issued: nat, base: nat, m: Market, after: Market) {
    exists r: nat, s: nat, q: nat :: IsRootOf(r, m.x, m.y) && IsRootOf(s, after.x, after.y) && IsGrowth(q, base, r, s) && issued == q % (MAX_UINT64 + 1)
  }

  ghost predicate IsGrowth(q: nat, base: nat, r: nat, s: nat) {
    r <= s && IsQuotient(q, base * (s - r), r)
  }

  ghost predicate InProportion(m: Market, q: Market, base: nat, issued: nat) {
    IsBase(base, m) && IsIssue(issued, base, m, q)
  }

  lemma MintedIsGrowth(base: nat, r: nat, s: nat) returns (q: nat)
    requires 0 < r <= s
    ensures IsGrowth(q, base, r, s) && MintedFor(base, r, s) == q % (MAX_UINT64 + 1)
  {
    q := base * (s - r) / r;
    QuotientBounds(base * (s - r), r);
  }

  lemma MintedIsIssue(base: nat, m: Market, q: Market)
    requires 0 < SqrtProduct(m.x, m.y) <= SqrtProduct(q.x, q.y)
    ensures IsIssue(MintedFor(base, SqrtProduct(m.x, m.y), SqrtProduct(q.x, q.y)), base, m, q)
  {
    SqrtProductIsRoot(m.x, m.y);
    SqrtProductIsRoot(q.x, q.y);
    var n := MintedIsGrowth(base, SqrtProduct(m.x, m.y), SqrtProduct(q.x, q.y));
  }

  lemma EveryShareReachesItsOwner(ds: seq<Deposit>, minted: nat, totalDeposit: nat, points: Points, a: Address)
    requires points.Valid()
    requires 0 < totalDeposit == SumOfDeposits(ds) && minted <= MAX_UINT64
    requires Distribute(ds, minted, totalDeposit, points).Some?
    ensures ShareSum(ds, minted, totalDeposit) <= minted
    ensures PointsOf(Distribute(ds, minted, totalDeposit, points).value, a) ==
      PointsOf(points, a) + Shares(ds, minted, totalDeposit, a) + if a == DEAD_ADDRESS then minted - ShareSum(ds, minted, totalDeposit) else 0
  {
    var r := RunDeposits(ds, minted, totalDeposit, DepositRun(points, 0)).value;
    DepositsReachTheirOwners(ds, minted, totalDeposit, DepositRun(points, 0), a);
    SharesFit(ds, minted, totalDeposit);
    RunDepositsExact(ds, minted, totalDeposit, DepositRun(points, 0));
    var dust: nat := minted - r.distributed;
    assert Wrap(dust) == dust;
    AddPointsKeepsValid(r.points, DEAD_ADDRESS, dust);
  }

  /** The points after a deposit stage, holder by holder: the shares, with the base of a new pool and the dust at the dead address. */
  ghost predicate IssuedTo(m: Market, ds: seq<Deposit>, q: Market, base: nat, issued: nat) {
    var total := SumOfDeposits(ds);
    && m.points.total <= base && ShareSum(ds, issued, total) <= issued
    && q.points.total == base + issued
    && forall a :: PointsOf(q.points, a) == PointsOf(m.points, a) + Shares(ds, issued, total, a)
         + if a == DEAD_ADDRESS then base - m.points.total + (issued - ShareSum(ds, issued, total)) else 0
  }

  /** The deposits are in the reserve, and points are issued in proportion and to their owners. */
  ghost predicate Issues(m: Market, ds: seq<Deposit>, q: Market, base: nat, issued: nat) {
    && q.x == m.x + SumOfDeposits(ds) && q.y == m.y
    && InProportion(m, q, base, issued)
    && IssuedTo(m, ds, q, base, issued)
  }

  lemma BaseIsSunk(m: Market, a: Address)
    requires m.Valid() && Initialized(m).Some?
    ensures IsBase(PointsBeforeMint(m), m) && m.points.total <= PointsBeforeMint(m)
    ensures PointsOf(Initialized(m).value, a) == PointsOf(m.points, a) + if a == DEAD_ADDRESS then PointsBeforeMint(m) - m.points.total else 0
  {
    SqrtProductIsRoot(m.x, m.y);
    if m.points.total == 0 {
      AddPointsKeepsValid(m.points, DEAD_ADDRESS, SqrtProduct(m.x, m.y));
    }
  }

  lemma IssueReaches(m: Market, ds: seq<Deposit>, a: Address)
    requires m.Valid() && Mints(m, ds) && DepositAll(m, ds).Some?
    ensures var base, issued, total := PointsBeforeMint(m), Minted(m, SumOfDeposits(ds)), SumOfDeposits(ds);
      && m.points.total <= base && ShareSum(ds, issued, total) <= issued
      && PointsOf(DepositAll(m, ds).value.points, a) == PointsOf(m.points, a) + Shares(ds, issued, total, a)
           + if a == DEAD_ADDRESS then base - m.points.total + (issued - ShareSum(ds, issued, total)) else 0
  {
    var total := SumOfDeposits(ds);
    DepositDistributes(m, ds);
    InitializedIsValid(m);
    MintedFits(m, total);
    BaseIsSunk(m, a);
    EveryShareReachesItsOwner(ds, Minted(m, total), total, Initialized(m).value, a);
  }

  lemma BaseOf(m: Market)
    ensures IsBase(PointsBeforeMint(m), m)
  {
    SqrtProductIsRoot(m.x, m.y);
  }

  lemma MintedInProportion(m: Market, q: Market)
    requires m.x <= q.x <= MAX_UINT64 && q.y == m.y <= MAX_UINT64 && 0 < m.x && 0 < m.y
    ensures InProportion(m, q, PointsBeforeMint(m), Minted(m, q.x - m.x))
  {
    RootsGrow(m, q.x - m.x);
    MintedIsIssue(PointsBeforeMint(m), m, q);
    BaseOf(m);
  }

  lemma IssueIsInProportion(m: Market, ds: seq<Deposit>)
    requires m.Valid() && Mints(m, ds) && DepositAll(m, ds).Some?
    ensures InProportion(m, DepositAll(m, ds).value, PointsBeforeMint(m), Minted(m, SumOfDeposits(ds)))
  {
    DepositTotals(m, ds);
    MintedInProportion(m, DepositAll(m, ds).value);
  }

  lemma IssueReachesAll(m: Market, ds: seq<Deposit>)
    requires m.Valid() && Mints(m, ds) && DepositAll(m, ds).Some?
    ensures IssuedTo(m, ds, DepositAll(m, ds).value, PointsBeforeMint(m), Minted(m, SumOfDeposits(ds)))
  {
    DepositTotals(m, ds);
    IssueReaches(m, ds, DEAD_ADDRESS);
    forall a {
      IssueReaches(m, ds, a);
    }
  }

  /** A deposit stage that takes effect issues points in proportion to the root of the reserves, and gives every depositor its part of them. */
  lemma DepositIssues(m: Market, ds: seq<Deposit>) returns (base: nat, issued: nat)
    requires m.Valid() && Mints(m, ds) && DepositAll(m, ds).Some?
    ensures Issues(m, ds, DepositAll(m, ds).value, base, issued)
  {
    base, issued := PointsBeforeMint(m), Minted(m, SumOfDeposits(ds));
    DepositTotals(m, ds);
    IssueIsInProportion(m, ds);
    IssueReachesAll(m, ds);
  }

  /** While the points are backed nothing is cut off: the issue is exactly the base's growth, rounded down. */
  lemma BackedIssueIsExact(m: Market, q: Market, base: nat, issued: nat, r: nat, s: nat)
    requires m.Sound() && m.x <= q.x && q.y == m.y && q.x <= MAX_UINT64
    requires InProportion(m, q, base, issued)
    requires IsRootOf(r, m.x, m.y) && IsRootOf(s, q.x, q.y)
    ensures base <= r && IsGrowth(issued, base, r, s)
  {
    RootsGrow(m, q.x - m.x);
    SqrtProductIsRoot(m.x, m.y);
    SqrtProductIsRoot(q.x, q.y);
    RootOfIsUnique(r, SqrtProduct(m.x, m.y), m.x, m.y);
    RootOfIsUnique(s, SqrtProduct(q.x, q.y), q.x, q.y);
    if m.points.total == 0 {
      RootOfIsUnique(base, r, m.x, m.y);
    } else {
      BelowSqrtProduct(base, m.x, m.y);
    }
    ExactGrowth(base, issued, m, q, r, s);
  }

  lemma BackedGrowthFits(q: nat, base: nat, r: nat, s: nat)
    requires IsGrowth(q, base, r, s) && base <= r && 0 < r
    ensures q <= s
  {
    ScaleUp(base, r, s - r);
    Cancel(q, s - r, r);
  }

  lemma ExactGrowth(base: nat, issued: nat, m: Market, after: Market, r: nat, s: nat)
    requires IsIssue(issued, base, m, after) && IsRootOf(r, m.x, m.y) && IsRootOf(s, after.x, after.y)
    requires base <= r && 0 < r && s <= MAX_UINT64
    ensures IsGrowth(issued, base, r, s)
  {
    var r', s', q: nat :| IsRootOf(r', m.x, m.y) && IsRootOf(s', after.x, after.y) && IsGrowth(q, base, r', s') && issued == q % (MAX_UINT64 + 1);
    RootOfIsUnique(r, r', m.x, m.y);
    RootOfIsUnique(s, s', after.x, after.y);
    BackedGrowthFits(q, base, r, s);
    NothingCutOff(q, MAX_UINT64 + 1);
  }

  lemma FirstIssue(m: Market, q: Market, base: nat, issued: nat, r: nat)
    requires m.Sound() && m.points.total == 0 && m.x <= q.x <= MAX_UINT64 && q.y == m.y
    requires InProportion(m, q, base, issued) && IsRootOf(r, m.x, m.y)
    ensures base == r && IsRootOf(r + issued, q.x, q.y)
  {
    SqrtProductIsRoot(q.x, q.y);
    BackedIssueIsExact(m, q, base, issued, r, SqrtProduct(q.x, q.y));
    RootOfIsUnique(base, r, m.x, m.y);
    WholeGrowth(r, issued, SqrtProduct(q.x, q.y));
  }

  /** The points of q are r, which no depositor can withdraw, and the issue: the depositors' parts, and the dust. */
  ghost predicate Founded(ds: seq<Deposit>, q: Market, r: nat) {
    var total, issued := SumOfDeposits(ds), q.points.total - r;
    && 0 <= issued && ShareSum(ds, issued, total) <= issued
    && PointsOf(q.points, DEAD_ADDRESS) == r + (issued - ShareSum(ds, issued, total)) + Shares(ds, issued, total, DEAD_ADDRESS)
    && forall a :: a != DEAD_ADDRESS ==> PointsOf(q.points, a) == Shares(ds, issued, total, a)
  }

  /**
   The first deposits into a sound market found its points: together they are the root of the reserves after the deposits. The
   dead address owns the root of the reserves before, and the dust; the rest is the depositors'.
   */
  lemma FirstDepositFounds(m: Market, ds: seq<Deposit>, r: nat)
    requires m.Sound() && m.points.total == 0 && Mints(m, ds) && DepositAll(m, ds).Some?
    requires IsRootOf(r, m.x, m.y)
    ensures var q := DepositAll(m, ds).value; IsRootOf(q.points.total, q.x, q.y) && Founded(ds, q, r)
  {
    var base, issued := DepositIssues(m, ds);
    DepositTotals(m, ds);
    FirstIssue(m, DepositAll(m, ds).value, base, issued, r);
    NobodyOwns(m.points);
  }

  lemma NobodyOwns(p: Points)
    requires p.Valid() && p.total == 0
    ensures forall a :: PointsOf(p, a) == 0
  {
    forall a
      ensures PointsOf(p, a) == 0
    {
      OwnedFits(p.holders, a);
    }
  }

  lemma WholeGrowth(r: nat, issued: nat, s: nat)
    requires IsGrowth(issued, r, r, s)
    ensures r + issued == s
  {
    QuotientIsUnique(issued, s - r, r * (s - r), r);
  }

  // ---------------------------------------------------------------------------------------------
  // Whole batches
  // ---------------------------------------------------------------------------------------------

  /**
   Executing a remote batch, owner by owner: the orders are filled in turn from the two reserves, and every account is
   credited the receipts of its own orders and what its withdrawals come to from the reserve that the orders leave.
   */
  lemma ExecutionOwes(c: Chain, remote: Batch, queue: seq<nat>, mirror: nat, a: Address) returns (xs: seq<nat>, ys: seq<nat>)
    requires c.points.Valid() && Ready(c, mirror, c.amount, false) && Permutation(queue, |remote.orders|)
    requires ExecuteRemote(c, remote, queue, mirror).Some?
    ensures var e := ExecuteRemote(c, remote, queue, mirror).value;
      && |e.receipts| == |remote.orders|
      && InTurn(remote.orders, queue, xs, ys, e.receipts) && xs[0] == mirror && ys[0] == c.amount
      && Balance(e.chain.accounts, a) == Balance(c.accounts, a)
           + Received(remote.orders, e.receipts, 0, a) + Exit(c.points, remote.withdrawals, a, ys[|queue|])
  {
    var o := BatchOrders(c, remote.orders, queue, mirror, c.amount).value;
    OrdersRefineMarket(c, remote.orders, queue, mirror);
    xs, ys := OrdersAreFilledInTurn(remote.orders, queue, mirror, c.amount);
    ExecutionPaysOwners(c, remote, queue, mirror, a);
    PayoutsAreExits(c.points, remote.withdrawals, o.x, o.y, false, a);
  }

  lemma PayoutsAreExits(p: Points, ws: seq<Withdrawal>, x: nat, y: nat, local: bool, a: Address)
    requires p.Valid() && Withdraw(Market(x, y, p), ws).Some?
    ensures PaidOut(PayoutsOf(p, ws, x, y), local, a) == Exit(p, ws, a, if local then x else y)
  {
    OwnersExit(Market(x, y, p), ws, local, a);
    NominalIsReported(p, ws);
    RemovalSum(p, ws, 0);
    NothingWithoutPoints(p, ws);
  }

  /** Receipts take the reserve to the amounts of the successful orders. */
  lemma {:induction false} ReceiptsSell(c: Chain, orders: seq<Order>, receipts: seq<nat>, i: nat, y: nat)
    requires i <= |orders| == |receipts|
    requires Funds(c) <= MAX_UINT64 && SumOfOrders(orders[i..]) <= c.holding
    requires OrderReceipts(c, orders, receipts, i, c.amount, y).Some?
    ensures OrderReceipts(c, orders, receipts, i, c.amount, y).value.x + Sold(orders, receipts, i) == c.amount + Sold(orders, receipts, |orders|)
    decreases |orders| - i
  {
    if i < |orders| {
      assert orders[i..][0] == orders[i] && orders[i..][1..] == orders[i + 1..];
      OneReceipt(c, orders[i]);
      NextReceipt(c, orders, receipts, i, y);
      if receipts[i] == 0 {
        ReceiptsSell(Refunded(c, orders[i]), orders, receipts, i + 1, y);
      } else {
        ReceiptsSell(Settled(c, orders[i]), orders, receipts, i + 1, y - receipts[i]);
      }
    }
  }

  /** Whenever receipts are applied, the market has accepted the withdrawals. */
  lemma ReceiptsWithdraw(c: Chain, remote: Batch, mirror: nat)
    requires !c.Locked().IsEmpty() && Answers(remote, c.Locked())
    requires ReceiptsForOurs(c, remote, mirror).Some?
    ensures var o := OrderReceipts(c, c.Locked().orders, remote.receipts, 0, c.amount, mirror);
      o.Some? && Withdraw(Market(o.value.x, o.value.y, c.points), c.Locked().withdrawals).Some?
  {
    PointsOutliveReceipts(c, c.Locked().orders, remote.receipts, 0, c.amount, mirror);
  }

  /**
   Applying the receipts of our own batch, owner by owner: every account gets back its own failed orders, and is credited
   what its withdrawals come to from the reserve that the successful orders leave.
   */
  lemma ReceiptsOwe(c: Chain, ours: Batch, remote: Batch, mirror: nat, a: Address)
    requires c.points.Valid() && Funds(c) <= MAX_UINT64 && Held(ours) <= c.holding
    requires ours == c.Locked() && !ours.IsEmpty() && Answers(remote, ours)
    requires ReceiptsForOurs(c, remote, mirror).Some?
    ensures Balance(ReceiptsForOurs(c, remote, mirror).value.chain.accounts, a) == Balance(c.accounts, a)
        + Returned(ours.orders, remote.receipts, 0, a)
        + Exit(c.points, ours.withdrawals, a, c.amount + Sold(ours.orders, remote.receipts, |ours.orders|))
  {
    ReceiptsWithdraw(c, remote, mirror);
    ReceiptsPayOwners(c, remote, mirror, a);
    assert ours.orders[0..] == ours.orders;
    ReceiptsSell(c, ours.orders, remote.receipts, 0, mirror);
    var o := OrderReceipts(c, ours.orders, remote.receipts, 0, c.amount, mirror).value;
    PayoutsAreExits(c.points, ours.withdrawals, o.x, o.y, true, a);
  }
}
