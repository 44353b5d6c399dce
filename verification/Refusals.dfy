/** When the market refuses a batch, in terms of the batch: stage by stage, exactly. */
module Refusals {
  import opened Options
  import opened Ledger
  import opened PoolPoints
  import opened Arithmetic
  import opened Amm

  // ---------------------------------------------------------------------------------------------
  // Orders
  // ---------------------------------------------------------------------------------------------

  /** The selling reserve after the queued orders, if it could grow without a limit. */
  function UnlimitedReserve(orders: seq<Order>, queue: seq<nat>, x: nat, y: nat): nat
    requires 0 < x && 0 < y
    requires forall j :: 0 <= j < |queue| ==> queue[j] < |orders|
    decreases |queue|
  {
    if queue == [] then x
    else
      var o := orders[queue[0]];
      var dY := OrderOutput(o, x, y);
      if dY == 0 then UnlimitedReserve(orders, queue[1..], x, y)
      else
        SwapLeavesSomething(x, y, o.amountForSale);
        UnlimitedReserve(orders, queue[1..], x + o.amountForSale, y - dY)
  }

  lemma {:induction false} ReserveOnlyGrows(orders: seq<Order>, queue: seq<nat>, x: nat, y: nat)
    requires 0 < x && 0 < y
    requires forall j :: 0 <= j < |queue| ==> queue[j] < |orders|
    ensures x <= UnlimitedReserve(orders, queue, x, y)
    decreases |queue|
  {
    if queue != [] {
      var o := orders[queue[0]];
      var dY := OrderOutput(o, x, y);
      if dY == 0 {
        ReserveOnlyGrows(orders, queue[1..], x, y);
      } else {
        SwapLeavesSomething(x, y, o.amountForSale);
        ReserveOnlyGrows(orders, queue[1..], x + o.amountForSale, y - dY);
      }
    }
  }

  lemma {:induction false} RunRefusedExactlyWhen(orders: seq<Order>, queue: seq<nat>, x: nat, y: nat, receipts: seq<nat>)
    requires 0 < x <= MAX_UINT64 && 0 < y <= MAX_UINT64 && |receipts| == |orders|
    requires forall j :: 0 <= j < |queue| ==> queue[j] < |orders|
    ensures RunOrders(orders, queue, x, y, receipts).None? <==> UnlimitedReserve(orders, queue, x, y) > MAX_UINT64
    decreases |queue|
  {
    if queue != [] {
      var k := queue[0];
      var dX, dY := orders[k].amountForSale, OrderOutput(orders[k], x, y);
      SwapLeavesSomething(x, y, dX);
      if dY == 0 {
        RunRefusedExactlyWhen(orders, queue[1..], x, y, receipts[k := 0]);
      } else if x + dX > MAX_UINT64 {
        ReserveOnlyGrows(orders, queue[1..], x + dX, y - dY);
      } else {
        RunRefusedExactlyWhen(orders, queue[1..], x + dX, y - dY, receipts[k := dY]);
      }
    }
  }

  // ---------------------------------------------------------------------------------------------
  // Withdrawals
  // ---------------------------------------------------------------------------------------------

  /** The points to remove as if every withdrawal were made from the initial ledger. */
  function NominalRemoval(p: Points, ws: seq<Withdrawal>): nat {
    if ws == [] then 0
    else
      (match p.GetPointsFor(ws[0].address)
       case None => 0
       case Some(initial) => SafeMulDiv(initial, ws[0].percent, 100)) + NominalRemoval(p, ws[1..])
  }

  lemma {:induction false} RemovalSum(p: Points, ws: seq<Withdrawal>, sum: nat)
    requires sum <= MAX_UINT64
    ensures PointsToRemove(p, ws, sum) == if sum + NominalRemoval(p, ws) > MAX_UINT64 then None else Some(sum + NominalRemoval(p, ws))
    decreases |ws|
  {
    if ws != [] {
      match p.GetPointsFor(ws[0].address)
      case None => RemovalSum(p, ws[1..], sum);
      case Some(initial) =>
        if sum + SafeMulDiv(initial, ws[0].percent, 100) <= MAX_UINT64 {
          RemovalSum(p, ws[1..], sum + SafeMulDiv(initial, ws[0].percent, 100));
        }
    }
  }

  /** The address withdraws everything. */
  predicate Leaves(ws: seq<Withdrawal>, a: Address) {
    ws != [] && ((ws[0].address == a && ws[0].percent == 100) || Leaves(ws[1..], a))
  }

  /** Nobody is left behind. */
  ghost predicate EveryoneLeaves(holders: seq<Holder>, ws: seq<Withdrawal>) {
    forall j :: 0 <= j < |holders| ==> Leaves(ws, holders[j].address)
  }

  /** A part of something positive is all of it only if it is 100 percent. */
  lemma WholeOnlyAtHundred(n: nat, percent: Percent)
    requires 0 < n <= MAX_UINT64
    ensures SafeMulDiv(n, percent, 100) <= n
    ensures SafeMulDiv(n, percent, 100) == n <==> percent == 100
  {
    PercentOf(n, percent);
    var part := SafeMulDiv(n, percent, 100);
    MulDivBound(n, percent, 100);
    if percent == 100 {
      assert n * 100 / 100 == n;
    } else {
      ScaleUp(percent + 1, 100, n);
      assert n * (percent + 1) == n * percent + n;
    }
  }

  /** A holder that withdraws only a part stays. */
  lemma PartStays(p: Points, i: nat, n: nat, ws: seq<Withdrawal>)
    requires p.Valid() && i < |p.holders| && n < p.holders[i].points
    ensures EveryoneLeaves(Take(p.holders, i, n), ws) <==> EveryoneLeaves(p.holders, ws)
  {
    PartOfTotal(p.holders, i);
    assert Wrap(p.holders[i].points - n) == p.holders[i].points - n;
    var left := Take(p.holders, i, n);
    assert |left| == |p.holders| && forall j :: 0 <= j < |left| ==> left[j].address == p.holders[j].address;
  }

  /** A holder that withdraws everything is gone, and the others stay. */
  lemma WholeGoes(p: Points, i: nat, w: Withdrawal, ws: seq<Withdrawal>)
    requires p.Valid() && i < |p.holders| && w.address == p.holders[i].address && w.percent == 100
    ensures EveryoneLeaves(Take(p.holders, i, p.holders[i].points), ws) <==> EveryoneLeaves(p.holders, [w] + ws)
  {
    assert Wrap(0) == 0;
    var rest, all := p.holders[..i] + p.holders[i + 1..], [w] + ws;
    assert Take(p.holders, i, p.holders[i].points) == rest;
    assert all[0] == w && all[1..] == ws;
    forall j | 0 <= j < |p.holders|
      ensures Leaves(all, p.holders[j].address) <==> j == i || Leaves(ws, p.holders[j].address)
    {
    }
    if EveryoneLeaves(p.holders, all) {
      forall j | 0 <= j < |rest|
        ensures Leaves(ws, rest[j].address)
      {
        var k := if j < i then j else j + 1;
        assert rest[j] == p.holders[k];
      }
    }
    if EveryoneLeaves(rest, ws) {
      forall j | 0 <= j < |p.holders|
        ensures Leaves(all, p.holders[j].address)
      {
        if j != i {
          assert p.holders[j] == rest[if j < i then j else j - 1];
        }
      }
    }
  }

  /** The only holder has everything. */
  lemma AloneHasAll(p: Points, i: nat)
    requires p.Valid() && i < |p.holders|
    ensures p.holders[i].points == p.total <==> |p.holders| == 1
  {
    EvictHolder(p.holders, i);
    var rest := p.holders[..i] + p.holders[i + 1..];
    if |p.holders| > 1 {
      PartOfTotal(rest, 0);
      assert rest[0] == p.holders[if 0 < i then 0 else 1];
    } else {
      assert rest == [];
    }
  }

  /** One withdrawal is refused exactly if it takes the last points; otherwise the rest decides. */
  lemma OneRefusedExactlyWhen(r: WithdrawRun, w: Withdrawal, ws: seq<Withdrawal>, totalX: nat, totalY: nat, out: nat)
    requires r.points.Valid() && 0 < r.points.total
    ensures var q := WithdrawOne(w, totalX, totalY, out, r);
      && (q.None? ==> EveryoneLeaves(r.points.holders, [w] + ws))
      && (q.Some? ==> && q.value.points.Valid() && 0 < q.value.points.total
                      && (EveryoneLeaves(q.value.points.holders, ws) <==> EveryoneLeaves(r.points.holders, [w] + ws)))
  {
    var p, all := r.points, [w] + ws;
    assert all[0] == w && all[1..] == ws;
    match IndexOf(p.holders, w.address)
    case None =>
      assert forall j :: 0 <= j < |p.holders| ==> (Leaves(all, p.holders[j].address) <==> Leaves(ws, p.holders[j].address));
    case Some(i) =>
      var n := SafeMulDiv(p.holders[i].points, w.percent, 100);
      PartOfTotal(p.holders, i);
      WholeOnlyAtHundred(p.holders[i].points, w.percent);
      RemovedTotal(p, w.address, n);
      AloneHasAll(p, i);
      if w.percent == 100 {
        WholeGoes(p, i, w, ws);
        assert |p.holders| == 1 ==> i == 0;
      } else {
        PartStays(p, i, n, ws);
        assert forall j :: 0 <= j < |p.holders| ==> (Leaves(all, p.holders[j].address) <==> Leaves(ws, p.holders[j].address));
      }
  }

  lemma {:induction false} ExodusRefusedExactlyWhen(ws: seq<Withdrawal>, totalX: nat, totalY: nat, out: nat, r: WithdrawRun)
    requires r.points.Valid() && 0 < r.points.total
    ensures RunWithdrawals(ws, totalX, totalY, out, r).None? <==> EveryoneLeaves(r.points.holders, ws)
    decreases |ws|
  {
    if ws == [] {
      assert r.points.holders != [];
      assert !Leaves(ws, r.points.holders[0].address);
    } else {
      assert [ws[0]] + ws[1..] == ws;
      OneRefusedExactlyWhen(r, ws[0], ws[1..], totalX, totalY, out);
      var q := WithdrawOne(ws[0], totalX, totalY, out, r);
      if q.Some? {
        ExodusRefusedExactlyWhen(ws[1..], totalX, totalY, out, q.value);
      }
    }
  }

  /** Withdrawals are refused exactly if they nominally remove more points than 64 bits can count, or if every holder leaves. */
  lemma WithdrawRefusedExactlyWhen(m: Market, ws: seq<Withdrawal>)
    requires m.Valid()
    ensures Withdraw(m, ws).None? <==>
      || NominalRemoval(m.points, ws) > MAX_UINT64
      || (0 < NominalRemoval(m.points, ws) && 0 < m.points.total && EveryoneLeaves(m.points.holders, ws))
  {
    RemovalSum(m.points, ws, 0);
    var out := NominalRemoval(m.points, ws);
    if ws != [] && 0 < out <= MAX_UINT64 && 0 < m.points.total {
      ExodusRefusedExactlyWhen(ws, SafeMulDiv(m.x, out, m.points.total), SafeMulDiv(m.y, out, m.points.total), out, WithdrawRun(m.points, 0, 0, []));
    }
  }

  // ---------------------------------------------------------------------------------------------
  // Deposits
  // ---------------------------------------------------------------------------------------------

  function Addresses(holders: seq<Holder>): set<Address> {
    set j | 0 <= j < |holders| :: holders[j].address
  }

  /** The addresses that get points for their deposits. */
  function Recipients(ds: seq<Deposit>, minted: nat, totalDeposit: nat): set<Address> {
    if ds == [] then {}
    else
      (if 0 < SafeMulDiv(minted, ds[0].amount, totalDeposit) then {ds[0].address} else {}) + Recipients(ds[1..], minted, totalDeposit)
  }

  lemma {:induction false} AddressCount(holders: seq<Holder>)
    requires Distinct(holders)
    ensures |Addresses(holders)| == |holders|
  {
    if holders != [] {
      var rest := holders[1..];
      AddressCount(rest);
      assert forall j :: 0 <= j < |rest| ==> rest[j] == holders[j + 1];
      assert Addresses(holders) == {holders[0].address} + Addresses(rest);
      assert holders[0].address !in Addresses(rest);
    }
  }

  lemma AddressesAfterUpdate(holders: seq<Holder>, i: nat, n: nat)
    requires i < |holders|
    ensures Addresses(holders[i := Holder(holders[i].address, n)]) == Addresses(holders) == Addresses(holders) + {holders[i].address}
  {
    var after := holders[i := Holder(holders[i].address, n)];
    assert forall j :: 0 <= j < |after| ==> after[j].address == holders[j].address;
  }

  lemma AddressesAfterAppend(holders: seq<Holder>, h: Holder)
    ensures Addresses(holders + [h]) == Addresses(holders) + {h.address}
  {
    var after := holders + [h];
    assert after[|holders|] == h;
    assert forall j :: 0 <= j < |holders| ==> after[j] == holders[j];
  }

  lemma AddsAddress(p: Points, a: Address, n: nat)
    requires p.AddPoints(a, n).Some?
    ensures Addresses(p.AddPoints(a, n).value.holders) == Addresses(p.holders) + if 0 < n then {a} else {}
  {
    match IndexOf(p.holders, a)
    case Some(i) => AddressesAfterUpdate(p.holders, i, p.holders[i].points + n);
    case None => AddressesAfterAppend(p.holders, Holder(a, n));
  }

  /** Adding points that fit is refused exactly if a newcomer finds the ledger full. */
  lemma AddRefusedExactlyWhen(p: Points, a: Address, n: nat)
    requires p.Valid() && p.total + n <= MAX_UINT64
    ensures var q, joined := p.AddPoints(a, n), Addresses(p.holders) + if 0 < n then {a} else {};
      && (q.None? <==> |joined| > MAX_LIQUIDITY_PROVIDERS)
      && (q.Some? ==> q.value.Valid() && q.value.total == p.total + n && Addresses(q.value.holders) == joined)
  {
    if p.AddPoints(a, n).Some? {
      AddedTotal(p, a, n);
      AddsAddress(p, a, n);
      AddressCount(p.AddPoints(a, n).value.holders);
    } else {
      AddressCount(p.holders);
      match IndexOf(p.holders, a)
      case Some(i) => PartOfTotal(p.holders, i);
      case None => assert a !in Addresses(p.holders);
    }
  }

  lemma SubsetCount(a: set<Address>, b: set<Address>)
    requires a <= b
    ensures |a| <= |b|
  {
    var rest := b - a;
    assert b == a + rest;
  }

  /** The addresses once the first deposit has its share. */
  function Joined(ds: seq<Deposit>, minted: nat, totalDeposit: nat, known: set<Address>): set<Address>
    requires ds != []
  {
    known + if 0 < SafeMulDiv(minted, ds[0].amount, totalDeposit) then {ds[0].address} else {}
  }

  lemma JoinedFirst(ds: seq<Deposit>, minted: nat, totalDeposit: nat, known: set<Address>)
    requires ds != []
    ensures known + Recipients(ds, minted, totalDeposit) == Joined(ds, minted, totalDeposit, known) + Recipients(ds[1..], minted, totalDeposit)
    ensures |Joined(ds, minted, totalDeposit, known)| <= |known + Recipients(ds, minted, totalDeposit)|
  {
    SubsetCount(Joined(ds, minted, totalDeposit, known), known + Recipients(ds, minted, totalDeposit));
  }

  /** The ledger adds up, and has room in 64 bits for n more points. */
  ghost predicate RoomFor(r: DepositRun, n: nat) {
    r.points.Valid() && r.points.total + n <= MAX_UINT64 && r.distributed + n <= MAX_UINT64
  }

  /** One share: refused exactly if its newcomer finds the ledger full. */
  lemma ShareRefusedExactlyWhen(r: DepositRun, a: Address, share: nat)
    requires RoomFor(r, share)
    ensures var q, joined := GiveShare(r, a, share), Addresses(r.points.holders) + if 0 < share then {a} else {};
      && (q.None? <==> |joined| > MAX_LIQUIDITY_PROVIDERS)
      && (q.Some? ==>
            && q.value.points.Valid() && Addresses(q.value.points.holders) == joined
            && q.value.points.total == r.points.total + share && q.value.distributed == r.distributed + share)
  {
    AddRefusedExactlyWhen(r.points, a, share);
    AddressCount(r.points.holders);
    assert Wrap(r.distributed + share) == r.distributed + share;
  }

  lemma OneDeposit(ds: seq<Deposit>, minted: nat, totalDeposit: nat, r: DepositRun) returns (next: DepositRun)
    requires ds != [] && RoomFor(r, ShareSum(ds, minted, totalDeposit))
    ensures var joined := Joined(ds, minted, totalDeposit, Addresses(r.points.holders));
      && RunDeposits(ds, minted, totalDeposit, r) ==
           (if |joined| > MAX_LIQUIDITY_PROVIDERS then None else RunDeposits(ds[1..], minted, totalDeposit, next))
      && (|joined| <= MAX_LIQUIDITY_PROVIDERS ==>
            && RoomFor(next, ShareSum(ds[1..], minted, totalDeposit)) && Addresses(next.points.holders) == joined
            && next.distributed + ShareSum(ds[1..], minted, totalDeposit) == r.distributed + ShareSum(ds, minted, totalDeposit)
            && next.points.total + r.distributed == r.points.total + next.distributed)
  {
    var share := SafeMulDiv(minted, ds[0].amount, totalDeposit);
    RunGives(ds, minted, totalDeposit, r);
    ShareRefusedExactlyWhen(r, ds[0].address, share);
    var q := GiveShare(r, ds[0].address, share);
    next := if q.Some? then q.value else r;
  }

  /** The outcome of distributing to the deposits: whom the ledger names afterwards, and how much has been given out. */
  ghost predicate DistributesTo(r: DepositRun, q: Option<DepositRun>, joined: set<Address>, distributed: nat) {
    && (q.None? <==> |joined| > MAX_LIQUIDITY_PROVIDERS)
    && (q.Some? ==>
          && Addresses(q.value.points.holders) == joined && q.value.distributed == distributed
          && q.value.points.Valid() && q.value.points.total + r.distributed == r.points.total + distributed)
  }

  lemma {:induction false} DistributionRefusedExactlyWhen(ds: seq<Deposit>, minted: nat, totalDeposit: nat, r: DepositRun)
    requires RoomFor(r, ShareSum(ds, minted, totalDeposit))
    ensures DistributesTo(r, RunDeposits(ds, minted, totalDeposit, r), Addresses(r.points.holders) + Recipients(ds, minted, totalDeposit),
                          r.distributed + ShareSum(ds, minted, totalDeposit))
    decreases |ds|
  {
    var known := Addresses(r.points.holders);
    if ds == [] {
      AddressCount(r.points.holders);
      assert known + Recipients(ds, minted, totalDeposit) == known;
    } else {
      var next := OneDeposit(ds, minted, totalDeposit, r);
      JoinedFirst(ds, minted, totalDeposit, known);
      if |Joined(ds, minted, totalDeposit, known)| <= MAX_LIQUIDITY_PROVIDERS {
        DistributionRefusedExactlyWhen(ds[1..], minted, totalDeposit, next);
      }
    }
  }

  /** Everybody who is in the ledger after the deposits: its holders, the recipients, and the dead address if it gets dust. */
  function Members(points: Points, ds: seq<Deposit>, minted: nat, totalDeposit: nat): set<Address> {
    Addresses(points.holders) + Recipients(ds, minted, totalDeposit)
    + if ShareSum(ds, minted, totalDeposit) < minted then {DEAD_ADDRESS} else {}
  }

  lemma DustRefusedExactlyWhen(r: DepositRun, minted: nat)
    requires r.points.Valid() && r.distributed <= minted <= MAX_UINT64 && r.points.total + (minted - r.distributed) <= MAX_UINT64
    ensures r.points.AddPoints(DEAD_ADDRESS, Wrap(minted - r.distributed)).None?
      <==> |Addresses(r.points.holders) + if r.distributed < minted then {DEAD_ADDRESS} else {}| > MAX_LIQUIDITY_PROVIDERS
  {
    var dust: nat := minted - r.distributed;
    assert Wrap(dust) == dust;
    AddRefusedExactlyWhen(r.points, DEAD_ADDRESS, dust);
  }

  /** The dust decides once the shares are given. */
  lemma DustDecides(ds: seq<Deposit>, minted: nat, totalDeposit: nat, points: Points, r: DepositRun)
    requires RunDeposits(ds, minted, totalDeposit, DepositRun(points, 0)) == Some(r)
    ensures Distribute(ds, minted, totalDeposit, points) == r.points.AddPoints(DEAD_ADDRESS, Wrap(minted - r.distributed))
  {
  }

  lemma LedgerFullExactlyWhen(ds: seq<Deposit>, minted: nat, totalDeposit: nat, points: Points)
    requires points.Valid() && points.total + minted <= MAX_UINT64 && 0 < totalDeposit == SumOfDeposits(ds)
    ensures Distribute(ds, minted, totalDeposit, points).None? <==> |Members(points, ds, minted, totalDeposit)| > MAX_LIQUIDITY_PROVIDERS
  {
    var start, shares := DepositRun(points, 0), ShareSum(ds, minted, totalDeposit);
    var joined := Addresses(points.holders) + Recipients(ds, minted, totalDeposit);
    SharesFit(ds, minted, totalDeposit);
    assert RoomFor(start, shares);
    DistributionRefusedExactlyWhen(ds, minted, totalDeposit, start);
    SubsetCount(joined, Members(points, ds, minted, totalDeposit));
    var r := RunDeposits(ds, minted, totalDeposit, start);
    if r.Some? {
      assert r.value.distributed == shares && Addresses(r.value.points.holders) == joined;
      DustRefusedExactlyWhen(r.value, minted);
      DustDecides(ds, minted, totalDeposit, points, r.value);
    }
  }

  /** The ledger has no room for everybody who would be in it. */
  ghost predicate LedgerFull(m: Market, ds: seq<Deposit>) {
    Initialized(m).Some? &&
    |Members(Initialized(m).value, ds, Minted(m, SumOfDeposits(ds)), SumOfDeposits(ds))| > MAX_LIQUIDITY_PROVIDERS
  }

  lemma MintLeavesRoom(m: Market, totalDeposit: nat)
    requires m.Sound() && m.x + totalDeposit <= MAX_UINT64
    ensures PointsBeforeMint(m) + Minted(m, totalDeposit) <= MAX_UINT64
  {
    var oldK, newK := SqrtProduct(m.x, m.y), SqrtProduct(m.x + totalDeposit, m.y);
    RootsGrow(m, totalDeposit);
    BackedBelowRoot(m);
    MintStaysBacked(PointsBeforeMint(m), oldK, newK);
    assert Minted(m, totalDeposit) == MintedFor(PointsBeforeMint(m), oldK, newK);
  }

  /** A sound market can always be initialized: without points it has no holders. */
  lemma SoundInitializes(m: Market)
    requires m.Sound()
    ensures Initialized(m).Some?
  {
    if m.points.total == 0 {
      RootsGrow(m, 0);
      if m.points.holders != [] {
        PartOfTotal(m.points.holders, 0);
      }
    }
  }

  /** Deposits are refused exactly if their sum, or the reserve with it, leaves 64 bits, or if the ledger gets full. */
  lemma DepositRefusedExactlyWhen(m: Market, ds: seq<Deposit>)
    requires m.Sound()
    ensures DepositAll(m, ds).None? <==>
      || m.x + SumOfDeposits(ds) > MAX_UINT64
      || (0 < SumOfDeposits(ds) && LedgerFull(m, ds))
  {
    var totalDeposit := SumOfDeposits(ds);
    if 0 < totalDeposit && m.x + totalDeposit <= MAX_UINT64 {
      RootsGrow(m, totalDeposit);
      SoundInitializes(m);
      InitializedIsValid(m);
      MintLeavesRoom(m, totalDeposit);
      LedgerFullExactlyWhen(ds, Minted(m, totalDeposit), totalDeposit, Initialized(m).value);
    }
  }

  // ---------------------------------------------------------------------------------------------
  // The whole batch
  // ---------------------------------------------------------------------------------------------

  /** The market after a batch's orders and withdrawals. */
  function BeforeDeposits(m: Market, orders: seq<Order>, ws: seq<Withdrawal>, queue: seq<nat>): Option<Market>
    requires forall j :: 0 <= j < |queue| ==> queue[j] < |orders|
  {
    var o :- ExecuteOrders(orders, queue, m.x, m.y);
    var w :- Withdraw(Market(o.x, o.y, m.points), ws);
    Some(w.market)
  }

  /**
   A sound market refuses a batch exactly if its executed orders take the selling reserve past 64 bits, its withdrawals
   nominally remove more points than 64 bits can count, every holder leaves, its deposits take the reserve past 64 bits,
   or the ledger gets full.
   */
  lemma BatchRefusedExactlyWhen(m: Market, orders: seq<Order>, ws: seq<Withdrawal>, ds: seq<Deposit>, queue: seq<nat>)
    requires m.Sound() && Permutation(queue, |orders|)
    ensures RunBatch(m, orders, ws, ds, queue).None? <==>
      || UnlimitedReserve(orders, queue, m.x, m.y) > MAX_UINT64
      || NominalRemoval(m.points, ws) > MAX_UINT64
      || (0 < NominalRemoval(m.points, ws) && EveryoneLeaves(m.points.holders, ws))
      || (var q := BeforeDeposits(m, orders, ws, queue);
          q.Some? && (q.value.x + SumOfDeposits(ds) > MAX_UINT64 || (0 < SumOfDeposits(ds) && LedgerFull(q.value, ds))))
  {
    RunRefusedExactlyWhen(orders, queue, m.x, m.y, NoReceipts(|orders|));
    var o := ExecuteOrders(orders, queue, m.x, m.y);
    if o.Some? {
      OrdersKeepProduct(orders, queue, m.x, m.y);
      var after := Market(o.value.x, o.value.y, m.points);
      WithdrawRefusedExactlyWhen(after, ws);
      NothingToRemove(m.points, ws);
      if Withdraw(after, ws).Some? {
        WithdrawKeepsSound(after, ws);
        DepositRefusedExactlyWhen(Withdraw(after, ws).value.market, ds);
      }
    }
  }

  /** Without points there is nothing to remove. */
  lemma {:induction false} NothingToRemove(p: Points, ws: seq<Withdrawal>)
    requires p.Valid()
    ensures p.total == 0 ==> NominalRemoval(p, ws) == 0
    decreases |ws|
  {
    if ws != [] {
      NothingToRemove(p, ws[1..]);
      match IndexOf(p.holders, ws[0].address)
      case None =>
      case Some(i) => PartOfTotal(p.holders, i);
    }
  }
}
