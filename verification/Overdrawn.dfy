/**
 Why the points of a fallback must cover their holders: nothing checks them when they are taken over, and with holders
 who together own more than the total, withdrawals pay out more than the reserve, whose balance then wraps around.
 */
module Overdrawn {
  import opened Options
  import opened Ledger
  import opened PoolPoints
  import opened Arithmetic
  import opened Amm
  import opened Batches
  import opened Conservation
  import opened Solvency

  const TWO_TO_64: nat := MAX_UINT64 + 1

  // ---------------------------------------------------------------------------------------------
  // One input
  // ---------------------------------------------------------------------------------------------

  /** A chain with nothing but a liquidity pool of 1000. */
  function QuietChain(): Chain {
    Chain(map[], 0, 1000, Points([], 0), None, None, 0)
  }

  /** Two holders of 10 points each, of 5 in all; the first withdraws everything. */
  function OverdrawnFallback(): Batch {
    Batch(NoHash, [], [], [Withdrawal(7, 100)], 1000, [], 0, true, Some(OverdrawnPoints()))
  }

  function OverdrawnPoints(): Points {
    Points([Holder(7, 10), Holder(8, 10)], 5)
  }

  /** What is left of them: a total that has wrapped around. */
  function PointsLeft(): Points {
    Points([Holder(8, 10)], TWO_TO_64 - 5)
  }

  lemma OverdrawnRemoval()
    ensures OverdrawnPoints().GetPointsFor(7) == Some(10)
    ensures OverdrawnPoints().RemovePoints(7, 10) == Some(PointsLeft())
  {
    var holders := OverdrawnPoints().holders;
    assert IndexOf(holders, 7) == Some(0);
    assert Wrap(10 - 10) == 0 && Wrap(5 - 10) == TWO_TO_64 - 5;
    assert Take(holders, 0, 10) == [Holder(8, 10)];
  }

  lemma OverdrawnSum()
    ensures PointsToRemove(OverdrawnPoints(), [Withdrawal(7, 100)], 0) == Some(10)
  {
    OverdrawnRemoval();
    assert SafeMulDiv(10, 100, 100) == 10;
    assert [Withdrawal(7, 100)][1..] == [];
  }

  lemma OverdrawnRun()
    ensures RunWithdrawals([Withdrawal(7, 100)], 2000, 2000, 10, WithdrawRun(OverdrawnPoints(), 0, 0, []))
      == Some(WithdrawRun(PointsLeft(), 2000, 2000, [Payout(7, 2000, 2000)]))
  {
    var w, start := Withdrawal(7, 100), WithdrawRun(OverdrawnPoints(), 0, 0, []);
    var r := WithdrawRun(PointsLeft(), 2000, 2000, [Payout(7, 2000, 2000)]);
    OverdrawnRemoval();
    assert SafeMulDiv(10, 100, 100) == 10 && SafeMulDiv(2000, 10, 10) == 2000;
    assert [] + [Payout(7, 2000, 2000)] == [Payout(7, 2000, 2000)];
    assert WithdrawOne(w, 2000, 2000, 10, start) == Some(r);
    assert [w][1..] == [];
    assert RunWithdrawals([], 2000, 2000, 10, r) == Some(r);
  }

  lemma OneOverdrawnWithdrawal()
    ensures Withdraw(Market(1000, 1000, OverdrawnPoints()), [Withdrawal(7, 100)])
      == Some(Withdrawn(Market(TWO_TO_64 - 1000, TWO_TO_64 - 1000, PointsLeft()), [Payout(7, 2000, 2000)]))
  {
    OverdrawnSum();
    OverdrawnRun();
    assert SafeMulDiv(1000, 10, 5) == 2000;
    assert Wrap(1000 - 2000) == TWO_TO_64 - 1000;
  }

  lemma OverdrawnPayment()
    ensures PayAll(map[], [Payout(7, 2000, 2000)], false) == Some(map[7 := 2000])
  {
    var payouts := [Payout(7, 2000, 2000)];
    assert payouts[..0] == [];
    assert PayAll(map[], payouts[..0], false) == Some(map[]);
  }

  /** The chain once the fallback has replaced its points, and once the withdrawal is paid. */
  function TakenOver(): Chain {
    QuietChain().(points := OverdrawnPoints())
  }

  function PaidTwice(): Chain {
    QuietChain().(accounts := map[7 := 2000], points := PointsLeft(), amount := TWO_TO_64 - 1000)
  }

  lemma OverdrawnStage()
    ensures BatchWithdraw(TakenOver(), [Withdrawal(7, 100)], 1000, 1000, false) == Some(Moved(PaidTwice(), TWO_TO_64 - 1000, TWO_TO_64 - 1000))
  {
    OneOverdrawnWithdrawal();
    OverdrawnPayment();
    OverdrawnSum();
  }

  /** A fallback that passes every check creates tokens: 1000 in the pool become 2000 in an account and almost 2^64 in the pool. */
  lemma OverdrawnFallbackCreatesTokens()
    ensures Accounted(QuietChain()) && Encodable(OverdrawnFallback()) && !CoveringFallback(OverdrawnFallback())
    ensures HandleDexBatch(QuietChain(), Some(OverdrawnFallback()), []).Some?
    ensures var d := HandleDexBatch(QuietChain(), Some(OverdrawnFallback()), []).value;
      && d.accounts == map[7 := 2000] && d.amount == TWO_TO_64 - 1000
      && Funds(d) == Funds(QuietChain()) + TWO_TO_64
  {
    var c, b := QuietChain(), OverdrawnFallback();
    assert SumOf(OverdrawnPoints().holders) == 10 + SumOf(OverdrawnPoints().holders[1..]) == 20;
    assert LivenessFallback(c, c.Locked(), b) == Some(TakenOver());
    OverdrawnStage();
    ExecutesAlone(TakenOver(), b, 1000);
    TotalWithout(map[7 := 2000], 7);
    assert map[7 := 2000] - {7} == map[];
  }

  /** A batch of withdrawals alone, handled by a chain that has nothing locked. */
  lemma ExecutesAlone(c: Chain, b: Batch, mirror: nat)
    requires c.locked.None? && 0 < c.amount
    requires b.orders == [] && b.deposits == [] && b.withdrawals != [] && 0 < mirror == b.poolSize
    ensures var w := BatchWithdraw(c, b.withdrawals, mirror, c.amount, false);
      && (HandleRemoteBatch(c, b, []).Some? <==> w.Some?)
      && (w.Some? ==> HandleRemoteBatch(c, b, []) == Some(Rotate(w.value.chain, b.LinkHash(), c.amount, [])))
  {
    var remote := b.Copy();
    assert ReceiptsForOurs(c, remote, mirror) == Some(Receipted(false, c, mirror));
    assert NoReceipts(0) == [];
    assert ExecuteOrders([], [], mirror, c.amount) == Some(OrderRun(mirror, c.amount, []));
    assert BatchOrders(c, remote.orders, [], mirror, c.amount) == Some(Executed(c, mirror, c.amount, []));
    var w := BatchWithdraw(c, b.withdrawals, mirror, c.amount, false);
    if w.Some? {
      assert BatchDeposit(w.value.chain, [], w.value.x, w.value.y, false) == Some(Moved(w.value.chain, w.value.x, w.value.y));
    }
  }

  // ---------------------------------------------------------------------------------------------
  // Every such fallback
  // ---------------------------------------------------------------------------------------------

  /** Every holder withdraws everything, in the order of the list. */
  function FullExit(holders: seq<Holder>): seq<Withdrawal> {
    if holders == [] then [] else [Withdrawal(holders[0].address, 100)] + FullExit(holders[1..])
  }

  /** Some holder's exit leaves exactly nothing of what there still is. */
  predicate RunsDry(left: int, holders: seq<Holder>)
    decreases |holders|
  {
    holders != [] && (left == holders[0].points || RunsDry(left - holders[0].points, holders[1..]))
  }

  lemma Divides(n: nat, d: nat)
    requires 0 < d
    ensures n * d / d == n
  {
    var q := n * d / d;
    QuotientBounds(n * d, d);
    Cancel(q, n, d);
    if q < n {
      ScaleUp(q + 1, n, d);
    }
  }

  lemma WholeOf(n: nat, d: nat)
    requires n <= MAX_UINT64 && 0 < d
    ensures SafeMulDiv(n, d, d) == n
    ensures SafeMulDiv(d, n, d) == n
  {
    Divides(n, d);
    NothingCutOff(n, MAX_UINT64 + 1);
    Commute(d, n);
  }

  lemma Commute(a: nat, b: nat)
    ensures a * b == b * a
  {
  }

  lemma {:induction false} FoundAt(holders: seq<Holder>, i: nat)
    requires i < |holders| && Distinct(holders)
    ensures IndexOf(holders, holders[i].address) == Some(i)
  {
    if i > 0 {
      FoundAt(holders[1..], i - 1);
    }
  }

  /** The first exit of the holders from i on. */
  lemma NextExit(holders: seq<Holder>, i: nat)
    requires i < |holders|
    ensures FullExit(holders[i..]) != [] && FullExit(holders[i..])[0] == Withdrawal(holders[i].address, 100)
    ensures FullExit(holders[i..])[1..] == FullExit(holders[i + 1..])
    ensures SumOf(holders[i..]) == holders[i].points + SumOf(holders[i + 1..])
  {
    assert holders[i..][1..] == holders[i + 1..];
  }

  lemma ExitPoint(p: Points, i: nat)
    requires i < |p.holders| && Distinct(p.holders) && p.holders[i].points <= MAX_UINT64
    ensures p.GetPointsFor(p.holders[i].address) == Some(p.holders[i].points)
    ensures SafeMulDiv(p.holders[i].points, 100, 100) == p.holders[i].points
  {
    FoundAt(p.holders, i);
    WholeOf(p.holders[i].points, 100);
  }

  lemma {:induction false} ExitPoints(p: Points, i: nat, sum: nat)
    requires i <= |p.holders| && Distinct(p.holders)
    requires forall j :: 0 <= j < |p.holders| ==> p.holders[j].points <= MAX_UINT64
    ensures PointsToRemove(p, FullExit(p.holders[i..]), sum) ==
      if i < |p.holders| && sum + SumOf(p.holders[i..]) > MAX_UINT64 then None else Some(sum + SumOf(p.holders[i..]))
    decreases |p.holders| - i
  {
    if i < |p.holders| {
      NextExit(p.holders, i);
      ExitPoint(p, i);
      if sum + p.holders[i].points <= MAX_UINT64 {
        ExitPoints(p, i + 1, sum + p.holders[i].points);
      }
    }
  }

  lemma ExitRemoves(p: Points, left: int)
    requires p.holders != [] && p.total == Wrap(left)
    requires p.holders[0].points <= left + MAX_UINT64 && left <= MAX_UINT64
    ensures var h := p.holders[0];
      p.RemovePoints(h.address, h.points) == if left == h.points then None else Some(Points(p.holders[1..], Wrap(left - h.points)))
  {
    var h := p.holders[0];
    assert IndexOf(p.holders, h.address) == Some(0);
    assert Wrap(h.points - h.points) == 0;
    assert Take(p.holders, 0, h.points) == p.holders[1..];
    WrapDown(left, h.points);
  }

  /** One exit: the first holder's points leave the list, and are paid one for one. */
  lemma OneExit(r: WithdrawRun, left: int, totalX: nat, out: nat)
    requires r.points.holders != [] && r.points.total == Wrap(left)
    requires 0 < r.points.holders[0].points <= MAX_UINT64 && 0 < out
    requires r.points.holders[0].points <= left + MAX_UINT64 && left <= MAX_UINT64
    requires r.paidY + r.points.holders[0].points <= MAX_UINT64 && r.paidY == PayoutsY(r.payouts)
    ensures var h := r.points.holders[0];
      var q := WithdrawOne(Withdrawal(h.address, 100), totalX, out, out, r);
      && (q.None? <==> left == h.points)
      && (q.Some? ==> && q.value.points == Points(r.points.holders[1..], Wrap(left - h.points))
                      && q.value.paidY == r.paidY + h.points == PayoutsY(q.value.payouts))
  {
    var h := r.points.holders[0];
    assert r.points.GetPointsFor(h.address) == Some(h.points);
    WholeOf(h.points, 100);
    WholeOf(h.points, out);
    ExitRemoves(r.points, left);
    PayoutsAppend(r.payouts, Payout(h.address, SafeMulDiv(totalX, h.points, out), h.points));
  }

  lemma WrapDown(left: int, n: nat)
    requires n <= left + MAX_UINT64 && left <= MAX_UINT64
    ensures Wrap(Wrap(left) - n) == Wrap(left - n)
    ensures Wrap(left - n) == 0 <==> left == n
  {
  }

  lemma RunsOn(ws: seq<Withdrawal>, totalX: nat, totalY: nat, toRemove: nat, r: WithdrawRun)
    requires ws != []
    ensures var q := WithdrawOne(ws[0], totalX, totalY, toRemove, r);
      RunWithdrawals(ws, totalX, totalY, toRemove, r) == if q.None? then None else RunWithdrawals(ws[1..], totalX, totalY, toRemove, q.value)
  {
  }

  ghost predicate Exiting(r: WithdrawRun, left: int) {
    && r.points.total == Wrap(left) && left <= MAX_UINT64
    && SumOf(r.points.holders) <= left + MAX_UINT64
    && (forall j :: 0 <= j < |r.points.holders| ==> 0 < r.points.holders[j].points)
    && r.paidY + SumOf(r.points.holders) <= MAX_UINT64 && r.paidY == PayoutsY(r.payouts)
  }

  /** The run of an exit is its first withdrawal and the run of the rest; it stops if nothing is left. */
  lemma FirstExit(r: WithdrawRun, left: int, totalX: nat, out: nat) returns (next: WithdrawRun)
    requires Exiting(r, left) && r.points.holders != [] && 0 < out
    ensures var holders := r.points.holders;
      && RunWithdrawals(FullExit(holders), totalX, out, out, r) ==
           (if left == holders[0].points then None else RunWithdrawals(FullExit(holders[1..]), totalX, out, out, next))
      && (left != holders[0].points ==>
            && Exiting(next, left - holders[0].points) && next.points.holders == holders[1..]
            && next.paidY == r.paidY + holders[0].points)
  {
    var holders := r.points.holders;
    assert holders[0..] == holders;
    NextExit(holders, 0);
    OneExit(r, left, totalX, out);
    RunsOn(FullExit(holders), totalX, out, out, r);
    var q := WithdrawOne(Withdrawal(holders[0].address, 100), totalX, out, out, r);
    next := if q.Some? then q.value else r;
  }

  lemma {:induction false} ExitRun(left: int, totalX: nat, out: nat, r: WithdrawRun)
    requires Exiting(r, left) && 0 < out
    ensures var q := RunWithdrawals(FullExit(r.points.holders), totalX, out, out, r);
      && (q.None? <==> RunsDry(left, r.points.holders))
      && (q.Some? ==> q.value.paidY == r.paidY + SumOf(r.points.holders) == PayoutsY(q.value.payouts))
    decreases |r.points.holders|
  {
    if r.points.holders != [] {
      var next := FirstExit(r, left, totalX, out);
      if left != r.points.holders[0].points {
        ExitRun(left - r.points.holders[0].points, totalX, out, next);
      }
    }
  }

  /** What a withdrawal stage computes, once the points to remove are known. */
  lemma WithdrawalRuns(m: Market, ws: seq<Withdrawal>, out: nat, totalY: nat)
    requires ws != [] && PointsToRemove(m.points, ws, 0) == Some(out) && 0 < out && 0 < m.points.total
    requires totalY == SafeMulDiv(m.y, out, m.points.total)
    ensures var r, w := RunWithdrawals(ws, SafeMulDiv(m.x, out, m.points.total), totalY, out, WithdrawRun(m.points, 0, 0, [])), Withdraw(m, ws);
      && (w.None? <==> r.None?)
      && (w.Some? ==> w.value.market.y == Wrap(m.y - r.value.paidY) && w.value.payouts == r.value.payouts)
  {
  }

  lemma {:induction false} PayAllAdds(accounts: map<Address, nat>, payouts: seq<Payout>)
    requires PayAll(accounts, payouts, false).Some?
    ensures Total(PayAll(accounts, payouts, false).value) == Total(accounts) + PayoutsY(payouts)
    decreases |payouts|
  {
    if payouts != [] {
      var last := payouts[|payouts| - 1];
      PayAllAdds(accounts, payouts[..|payouts| - 1]);
      AccountAddTotal(PayAll(accounts, payouts[..|payouts| - 1], false).value, last.address, last.y);
    }
  }

  /** A list of distinct holders with something each, who are all withdrawing together. */
  ghost predicate Exits(b: Batch) {
    && b.livenessFallback && b.poolPoints.Some? && b.orders == [] && b.deposits == []
    && var p := b.poolPoints.value;
    && Distinct(p.holders) && p.holders != [] && (forall j :: 0 <= j < |p.holders| ==> 0 < p.holders[j].points)
    && b.withdrawals == FullExit(p.holders)
  }

  lemma EveryPointBelowSum(holders: seq<Holder>)
    ensures forall j :: 0 <= j < |holders| ==> holders[j].points <= SumOf(holders)
  {
    forall j | 0 <= j < |holders|
      ensures holders[j].points <= SumOf(holders)
    {
      PartOfTotal(holders, j);
    }
  }

  lemma Overdraft(balance: nat, n: nat)
    requires balance <= MAX_UINT64 && n <= MAX_UINT64
    ensures Wrap(balance - n) == balance - n + if n <= balance then 0 else TWO_TO_64
  {
  }

  /** A list of distinct holders with something each, whose points together fit in 64 bits. */
  ghost predicate Listed(p: Points) {
    && p.holders != [] && Distinct(p.holders) && SumOf(p.holders) <= MAX_UINT64
    && (forall j :: 0 <= j < |p.holders| ==> 0 < p.holders[j].points)
    && 0 < p.total <= MAX_UINT64
  }

  lemma ExitSum(p: Points)
    requires Listed(p)
    ensures PointsToRemove(p, FullExit(p.holders), 0) == Some(SumOf(p.holders))
    ensures FullExit(p.holders) != [] && 0 < SumOf(p.holders)
  {
    EveryPointBelowSum(p.holders);
    assert p.holders[0..] == p.holders;
    NextExit(p.holders, 0);
    ExitPoints(p, 0, 0);
  }

  /** The exit of all holders from a market whose reserve equals their total: every point is paid one for one. */
  lemma ExitWithdraws(p: Points, mirror: nat)
    requires Listed(p)
    ensures var w := Withdraw(Market(mirror, p.total, p), FullExit(p.holders));
      && RemovesPoints(p, FullExit(p.holders))
      && (w.None? <==> RunsDry(p.total, p.holders))
      && (w.Some? ==> w.value.market.y == Wrap(p.total - SumOf(p.holders)) && PayoutsY(w.value.payouts) == SumOf(p.holders))
  {
    var out, ws := SumOf(p.holders), FullExit(p.holders);
    ExitSum(p);
    WholeOf(out, p.total);
    WithdrawalRuns(Market(mirror, p.total, p), ws, out, out);
    ExitRun(p.total, SafeMulDiv(mirror, out, p.total), out, WithdrawRun(p, 0, 0, []));
  }

  lemma ExitPaysPoints(c: Chain, mirror: nat)
    requires Listed(c.points) && c.amount == c.points.total
    ensures var w, out := BatchWithdraw(c, FullExit(c.points.holders), mirror, c.amount, false), SumOf(c.points.holders);
      && (RunsDry(c.amount, c.points.holders) ==> w.None?)
      && (w.Some? ==> Funds(w.value.chain) == Funds(c) + if out <= c.amount then 0 else TWO_TO_64)
      && (w.Some? ==> w.value.chain.locked == c.locked)
  {
    ExitWithdraws(c.points, mirror);
    var w := Withdraw(Market(mirror, c.amount, c.points), FullExit(c.points.holders));
    if w.Some? && PayAll(c.accounts, w.value.payouts, false).Some? {
      Overdraft(c.amount, SumOf(c.points.holders));
      PayAllAdds(c.accounts, w.value.payouts);
    }
  }

  /** An exit whose points together leave 64 bits is refused. */
  lemma HandledExitFits(c: Chain, b: Batch)
    requires Exits(b) && c.points == b.poolPoints.value
    requires BatchWithdraw(c, b.withdrawals, b.poolSize, c.amount, false).Some?
    requires forall j :: 0 <= j < |c.points.holders| ==> c.points.holders[j].points <= MAX_UINT64
    ensures SumOf(c.points.holders) <= MAX_UINT64
  {
    assert c.points.holders[0..] == c.points.holders;
    ExitPoints(c.points, 0, 0);
  }

  /** The exit, once the fallback has taken over the points. */
  lemma TakenOverExit(c: Chain, b: Batch)
    requires Encodable(b) && Exits(b) && c.locked.None? && c.points == b.poolPoints.value
    requires 0 < b.poolSize && 0 < c.amount == c.points.total
    requires HandleRemoteBatch(c, b, []).Some?
    ensures Funds(HandleRemoteBatch(c, b, []).value) == Funds(c) + if SumOf(c.points.holders) <= c.points.total then 0 else TWO_TO_64
  {
    ExecutesAlone(c, b, b.poolSize);
    HandledExitFits(c, b);
    ExitPaysPoints(c, b.poolSize);
    var paid := BatchWithdraw(c, b.withdrawals, b.poolSize, c.amount, false).value.chain;
    RotateKeepsHolding(paid, b.LinkHash(), c.amount, []);
  }

  /**
   For every fallback whose holders all withdraw, on a chain whose reserve equals the total of its points: if it is handled at
   all, tokens are conserved if and only if the points cover their holders, and otherwise exactly 2^64 are created.
   */
  lemma ExitConservesExactlyWhen(c: Chain, b: Batch)
    requires Accounted(c) && Encodable(b) && Exits(b) && 0 < b.poolSize
    requires 0 < c.amount == b.poolPoints.value.total
    requires HandleDexBatch(c, Some(b), []).Some?
    ensures var d := HandleDexBatch(c, Some(b), []).value;
      && Funds(d) == Funds(c) + (if CoveringFallback(b) then 0 else TWO_TO_64)
      && (Funds(d) == Funds(c) <==> CoveringFallback(b))
  {
    FallbackRefundsEverything(c, b);
    TakenOverExit(LivenessFallback(c, c.Locked(), b).value, b);
  }
}
