/** Accounts with a vesting tranche: what is locked at a height, and what additions and subtractions keep. */
module Vesting {
  import opened Options
  import opened Ledger
  import opened Arithmetic

  datatype Schedule = Schedule(start: nat, cliff: nat, end: nat)

  datatype Account = Account(amount: nat, vesting: nat, schedule: Schedule) {

    /** The vested part of the tranche; the product is computed in 64 bits. */
    function Vested(height: nat): nat {
      if height < schedule.start || height < schedule.cliff then 0
      else if height >= schedule.end then vesting
      else Wrap(vesting * (height - schedule.start)) / (schedule.end - schedule.start)
    }

    function Locked(height: nat): nat {
      if Vested(height) >= vesting then 0 else vesting - Vested(height)
    }

    function Spendable(height: nat): nat {
      if Locked(height) >= amount then 0 else amount - Locked(height)
    }

    /** A fully vested tranche is forgotten when the account is stored. */
    function Cleared(height: nat): Account {
      if vesting == 0 || Locked(height) != 0 then this else Account(amount, 0, NO_SCHEDULE)
    }

    /** The balance covers what is locked of it; no schedule without a tranche, and no tranche without a balance. */
    predicate Covered(height: nat) {
      && Locked(height) <= amount
      && (vesting == 0 ==> schedule == NO_SCHEDULE)
      && (amount == 0 ==> vesting == 0)
    }

    /** The products that vesting computes, up to the last block of the schedule, do not leave 64 bits. */
    predicate Fits() {
      schedule.start < schedule.end ==> vesting * (schedule.end - 1 - schedule.start) <= MAX_UINT64
    }
  }

  const NO_SCHEDULE: Schedule := Schedule(0, 0, 0)

  /** What is read for an address that is not stored. */
  const EMPTY_ACCOUNT: Account := Account(0, 0, NO_SCHEDULE)

  function Add(acc: Account, n: nat): Option<Account> {
    if acc.amount + n > MAX_UINT64 then None else Some(acc.(amount := acc.amount + n))
  }

  function Sub(acc: Account, n: nat, height: nat): Option<Account> {
    if acc.Spendable(height) < n then None else Some(acc.(amount := acc.amount - n))
  }

  /** While a tranche is locked only its own schedule is accepted; otherwise the schedule is replaced. */
  function AddWithVesting(acc: Account, n: nat, schedule: Schedule, height: nat): Option<Account> {
    if acc.amount + n > MAX_UINT64 || acc.vesting + n > MAX_UINT64 then None
    else if acc.vesting != 0 && acc.Locked(height) != 0 then
      if acc.schedule != schedule then None
      else Some(Account(acc.amount + n, acc.vesting + n, schedule))
    else Some(Account(acc.amount + n, n, schedule))
  }

  // ---------------------------------------------------------------------------------------------
  // Locks only shrink
  // ---------------------------------------------------------------------------------------------

  lemma ProductFits(acc: Account, elapsed: nat)
    requires acc.Fits() && elapsed <= acc.schedule.end - 1 - acc.schedule.start
    ensures Wrap(acc.vesting * elapsed) == acc.vesting * elapsed
  {
    ScaleUp(elapsed, acc.schedule.end - 1 - acc.schedule.start, acc.vesting);
  }

  lemma QuotientGrows(a: nat, b: nat, c: nat)
    requires a <= b && 0 < c
    ensures a / c <= b / c
  {
    QuotientBounds(a, c);
    QuotientBounds(b, c);
    if b / c < a / c {
      ScaleUp(b / c + 1, a / c, c);
    }
  }

  lemma PartialQuotient(vesting: nat, elapsed: nat, duration: nat)
    requires elapsed < duration && 0 < vesting
    ensures Wrap(vesting * elapsed) / duration < vesting
  {
    var n, full := Wrap(vesting * elapsed), vesting * duration;
    RemainderBelow(vesting * elapsed, MAX_UINT64 + 1);
    ScaleUp(elapsed, duration - 1, vesting);
    assert vesting * (duration - 1) == full - vesting;
    QuotientBelow(n, full - n, duration, vesting);
  }

  /** Never more than the tranche is vested, whether products fit or not. */
  lemma VestedIsPart(acc: Account, h: nat)
    ensures acc.Vested(h) <= acc.vesting
  {
    var s := acc.schedule;
    if s.start <= h && s.cliff <= h && h < s.end && 0 < acc.vesting {
      PartialQuotient(acc.vesting, h - s.start, s.end - s.start);
    }
  }

  /** The largest part of the tranche within the part of the duration that has passed. */
  predicate VestsInProportion(acc: Account, h: nat)
    requires acc.schedule.start <= h < acc.schedule.end
  {
    IsQuotient(acc.Vested(h), acc.vesting * (h - acc.schedule.start), acc.schedule.end - acc.schedule.start)
  }

  lemma PartVestsInProportion(acc: Account, h: nat)
    requires acc.Fits() && acc.schedule.start <= h && acc.schedule.cliff <= h < acc.schedule.end
    ensures VestsInProportion(acc, h)
  {
    ProductFits(acc, h - acc.schedule.start);
    QuotientBounds(acc.vesting * (h - acc.schedule.start), acc.schedule.end - acc.schedule.start);
  }

  /**
   As long as products fit: nothing is vested before start and cliff, everything from the end on, and in between the largest
   part within the share of the time that has passed; the rest is locked, and what is not locked can be spent.
   */
  lemma VestedExactly(acc: Account, h: nat)
    requires acc.Fits()
    ensures h < acc.schedule.start || h < acc.schedule.cliff ==> acc.Vested(h) == 0
    ensures acc.schedule.start <= h && acc.schedule.cliff <= h && acc.schedule.end <= h ==> acc.Vested(h) == acc.vesting
    ensures acc.schedule.start <= h && acc.schedule.cliff <= h < acc.schedule.end ==> VestsInProportion(acc, h)
    ensures acc.Locked(h) + acc.Vested(h) == acc.vesting
    ensures acc.Locked(h) <= acc.amount ==> acc.Locked(h) + acc.Spendable(h) == acc.amount
    ensures acc.amount < acc.Locked(h) ==> acc.Spendable(h) == 0
  {
    var s := acc.schedule;
    VestedIsPart(acc, h);
    if s.start <= h && s.cliff <= h < s.end {
      PartVestsInProportion(acc, h);
    }
  }

  /** Without room for the product a lock can grow again: a quarter of this tranche is vested at height 1, nothing at height 2. */
  lemma LockCanGrowWhenTheProductDoesNotFit()
    ensures var acc := Account(0x8000_0000_0000_0000, 0x8000_0000_0000_0000, Schedule(0, 0, 4));
      !acc.Fits() && acc.Locked(1) < acc.Locked(2)
  {
  }

  const TWO_TO_64: nat := MAX_UINT64 + 1

  /** The lock never grows again, at any height. */
  ghost predicate NeverRelocks(acc: Account) {
    forall h, k :: h <= k ==> acc.Locked(k) <= acc.Locked(h)
  }

  /** The first height at which a product is computed. */
  function FirstVesting(s: Schedule): nat {
    if s.start <= s.cliff then s.cliff else s.start
  }

  /** No product wraps around between the first and the last height at which one is computed. */
  predicate NoWrapWithin(acc: Account) {
    var s := acc.schedule;
    FirstVesting(s) < s.end ==>
      acc.vesting * (s.end - 1 - s.start) / TWO_TO_64 == acc.vesting * (FirstVesting(s) - s.start) / TWO_TO_64
  }

  lemma WrapIs(n: nat)
    ensures Wrap(n) == n - n / TWO_TO_64 * TWO_TO_64
  {
  }

  lemma QuotientOfNext(n: nat, step: nat)
    requires step < TWO_TO_64
    ensures (n + step) / TWO_TO_64 == n / TWO_TO_64 || (n + step) / TWO_TO_64 == n / TWO_TO_64 + 1
  {
  }

  /** Where the product wraps around, the vested part strictly falls. */
  lemma WrapFalls(vesting: nat, elapsed: nat, duration: nat)
    requires 0 < duration && vesting + duration <= TWO_TO_64
    requires vesting * elapsed / TWO_TO_64 != vesting * (elapsed + 1) / TWO_TO_64
    ensures Wrap(vesting * (elapsed + 1)) / duration < Wrap(vesting * elapsed) / duration
  {
    var n := vesting * elapsed;
    assert vesting * (elapsed + 1) == n + vesting;
    QuotientOfNext(n, vesting);
    WrapIs(n);
    WrapIs(n + vesting);
    FallsByOne(Wrap(n), Wrap(n + vesting), duration);
  }

  lemma FallsByOne(a: nat, b: nat, d: nat)
    requires 0 < d && b + d <= a
    ensures b / d < a / d
  {
    QuotientBounds(a, d);
    QuotientBounds(b, d);
    assert (b / d + 1) * d == b / d * d + d;
    if a / d <= b / d {
      ScaleUp(a / d + 1, b / d + 1, d);
    }
  }

  /** If the number of wraps differs between two elapsed times, some step in between wraps. */
  lemma {:induction false} SomeWrap(vesting: nat, lo: nat, hi: nat) returns (e: nat)
    requires lo <= hi && vesting * lo / TWO_TO_64 != vesting * hi / TWO_TO_64
    ensures lo <= e < hi && vesting * e / TWO_TO_64 != vesting * (e + 1) / TWO_TO_64
    decreases hi
  {
    if vesting * (hi - 1) / TWO_TO_64 != vesting * hi / TWO_TO_64 {
      e := hi - 1;
    } else {
      e := SomeWrap(vesting, lo, hi - 1);
    }
  }

  /** Between its first and last product an account's wrapped product grows, and stays below the full product. */
  lemma WrappedProductGrows(acc: Account, e: nat, f: nat)
    requires NoWrapWithin(acc)
    requires FirstVesting(acc.schedule) - acc.schedule.start <= e <= f < acc.schedule.end - acc.schedule.start
    ensures Wrap(acc.vesting * e) <= Wrap(acc.vesting * f)
  {
    var s, v := acc.schedule, acc.vesting;
    var lo, hi := FirstVesting(s) - s.start, s.end - 1 - s.start;
    ScaleUp(lo, e, v);
    ScaleUp(e, f, v);
    ScaleUp(f, hi, v);
    QuotientGrows(v * lo, v * e, TWO_TO_64);
    QuotientGrows(v * e, v * f, TWO_TO_64);
    QuotientGrows(v * f, v * hi, TWO_TO_64);
    WrapIs(v * e);
    WrapIs(v * f);
  }

  /** Vesting runs forward: without a wrap the vested part never shrinks, so the locked part never grows. */
  lemma VestedGrows(acc: Account, h: nat, k: nat)
    requires NoWrapWithin(acc) && h <= k
    ensures acc.Vested(h) <= acc.Vested(k) <= acc.vesting
    ensures acc.Locked(k) <= acc.Locked(h)
  {
    var s := acc.schedule;
    VestedIsPart(acc, h);
    VestedIsPart(acc, k);
    if FirstVesting(s) <= h && k < s.end {
      WrappedProductGrows(acc, h - s.start, k - s.start);
      QuotientGrows(Wrap(acc.vesting * (h - s.start)), Wrap(acc.vesting * (k - s.start)), s.end - s.start);
    }
  }

  lemma BelowDivisor(n: nat, d: nat)
    requires 0 < d
    ensures n / d == 0 <==> n < d
  {
  }

  /** Products that fit do not wrap; with no cliff beyond the start nothing else avoids a wrap. */
  lemma FitsIsNoWrap(acc: Account)
    ensures acc.Fits() ==> NoWrapWithin(acc)
    ensures acc.schedule.cliff <= acc.schedule.start && NoWrapWithin(acc) ==> acc.Fits()
  {
    var s := acc.schedule;
    if FirstVesting(s) < s.end {
      var lo, hi := FirstVesting(s) - s.start, s.end - 1 - s.start;
      ScaleUp(lo, hi, acc.vesting);
      BelowDivisor(acc.vesting * lo, TWO_TO_64);
      BelowDivisor(acc.vesting * hi, TWO_TO_64);
      assert s.cliff <= s.start ==> lo == 0 && acc.vesting * lo == 0;
    }
  }

  /** If the products fit, the vested part never shrinks and the locked part never grows. */
  lemma LockedNeverGrows(acc: Account, h: nat, k: nat)
    requires acc.Fits() && h <= k
    ensures acc.Vested(h) <= acc.Vested(k) <= acc.vesting
    ensures acc.Locked(k) <= acc.Locked(h)
  {
    FitsIsNoWrap(acc);
    VestedGrows(acc, h, k);
  }

  lemma WrapRelocks(acc: Account)
    requires acc.vesting + (acc.schedule.end - acc.schedule.start) <= TWO_TO_64
    requires !NoWrapWithin(acc)
    ensures !NeverRelocks(acc)
  {
    var s := acc.schedule;
    var e := SomeWrap(acc.vesting, FirstVesting(s) - s.start, s.end - 1 - s.start);
    WrapFalls(acc.vesting, e, s.end - s.start);
    PartialQuotient(acc.vesting, e, s.end - s.start);
    PartialQuotient(acc.vesting, e + 1, s.end - s.start);
    assert acc.Locked(s.start + e) < acc.Locked(s.start + e + 1);
  }

  /**
   Exactly when vesting never takes back: no product may wrap around between the first and the last height at
   which one is computed. With no cliff beyond the start that is the same as all computed products fitting.
   The tranche and the duration must leave room for each other in 64 bits.
   */
  lemma NeverRelocksExactlyWhen(acc: Account)
    requires acc.vesting + (acc.schedule.end - acc.schedule.start) <= TWO_TO_64
    ensures NeverRelocks(acc) <==> NoWrapWithin(acc)
    ensures acc.schedule.cliff <= acc.schedule.start ==> (NeverRelocks(acc) <==> acc.Fits())
  {
    if NoWrapWithin(acc) {
      forall h, k | h <= k
        ensures acc.Locked(k) <= acc.Locked(h)
      {
        VestedGrows(acc, h, k);
      }
    } else {
      WrapRelocks(acc);
    }
    FitsIsNoWrap(acc);
  }

  /** Adding to a running tranche locks at most the added amount more. */
  lemma TopUpLocksAtMost(acc: Account, n: nat, height: nat)
    requires acc.Fits() && acc.(vesting := acc.vesting + n).Fits()
    ensures acc.(vesting := acc.vesting + n).Locked(height) <= acc.Locked(height) + n
  {
    var more := acc.(vesting := acc.vesting + n);
    var s := acc.schedule;
    VestedIsPart(acc, height);
    VestedIsPart(more, height);
    if s.start <= height && s.cliff <= height && height < s.end {
      ProductFits(acc, height - s.start);
      ProductFits(more, height - s.start);
      ScaleUp(acc.vesting, acc.vesting + n, height - s.start);
      QuotientGrows(acc.vesting * (height - s.start), (acc.vesting + n) * (height - s.start), s.end - s.start);
    }
  }

  // ---------------------------------------------------------------------------------------------
  // Every sequence of operations
  // ---------------------------------------------------------------------------------------------

  datatype Operation =
    | Receive(amount: nat)
    | Spend(amount: nat)
    | ReceiveVesting(amount: nat, schedule: Schedule)

  function Attempt(acc: Account, op: Operation, height: nat): Option<Account> {
    match op
    case Receive(n) => Add(acc, n)
    case Spend(n) => Sub(acc, n, height)
    case ReceiveVesting(n, s) => if n == 0 then None else AddWithVesting(acc, n, s, height)
  }

  /** A running tranche is topped up; one that is vested, or none, is replaced. */
  predicate Running(acc: Account, height: nat) {
    acc.vesting != 0 && acc.Locked(height) != 0
  }

  /** When an operation is accepted, and what it does to balance, tranche and schedule. */
  lemma OperationsExactly(acc: Account, op: Operation, height: nat)
    requires acc.Locked(height) <= acc.amount
    ensures op.Receive? ==>
      && (Attempt(acc, op, height).Some? <==> acc.amount + op.amount <= MAX_UINT64)
      && (Attempt(acc, op, height).Some? ==> Attempt(acc, op, height).value == Account(acc.amount + op.amount, acc.vesting, acc.schedule))
    ensures op.Spend? ==>
      && (Attempt(acc, op, height).Some? <==> op.amount + acc.Locked(height) <= acc.amount)
      && (Attempt(acc, op, height).Some? ==> Attempt(acc, op, height).value == Account(acc.amount - op.amount, acc.vesting, acc.schedule))
    ensures op.ReceiveVesting? ==>
      && (Attempt(acc, op, height).Some? <==>
            && 0 < op.amount && acc.amount + op.amount <= MAX_UINT64 && acc.vesting + op.amount <= MAX_UINT64
            && (Running(acc, height) ==> op.schedule == acc.schedule))
      && (Attempt(acc, op, height).Some? ==>
            Attempt(acc, op, height).value == Account(acc.amount + op.amount, op.amount + (if Running(acc, height) then acc.vesting else 0), op.schedule))
  {
  }

  /** The stored account after an operation at a height; a failed operation leaves it alone. */
  function Stored(acc: Account, op: Operation, height: nat): Account {
    match Attempt(acc, op, height)
    case None => acc
    case Some(r) => r.Cleared(height)
  }

  /** Forgetting a fully vested tranche leaves the default account where nothing is left. */
  lemma ClearedIsCovered(acc: Account, height: nat)
    requires acc.Locked(height) <= acc.amount && acc.Fits()
    requires acc.vesting == 0 ==> acc.schedule == NO_SCHEDULE
    ensures acc.Cleared(height).Covered(height) && acc.Cleared(height).Fits()
  {
  }

  lemma ReceivedVestingIsCovered(acc: Account, n: nat, schedule: Schedule, height: nat)
    requires acc.Covered(height) && acc.Fits() && 0 < n
    requires AddWithVesting(acc, n, schedule, height).Some? && AddWithVesting(acc, n, schedule, height).value.Fits()
    ensures var r := AddWithVesting(acc, n, schedule, height).value;
      r.Locked(height) <= r.amount && r.vesting != 0
  {
    var r := AddWithVesting(acc, n, schedule, height).value;
    VestedIsPart(r, height);
    if acc.vesting != 0 && acc.Locked(height) != 0 {
      TopUpLocksAtMost(acc, n, height);
      assert r == acc.(amount := acc.amount + n, vesting := acc.vesting + n);
      SameLock(r, acc.(vesting := acc.vesting + n), height);
    }
  }

  lemma SameLock(a: Account, b: Account, height: nat)
    requires (a.vesting, a.schedule) == (b.vesting, b.schedule)
    ensures a.Locked(height) == b.Locked(height)
  {
  }

  lemma StoredStaysCovered(acc: Account, op: Operation, before: nat, height: nat)
    requires before <= height
    requires acc.Covered(before) && acc.Fits()
    requires Attempt(acc, op, height).Some? ==> Attempt(acc, op, height).value.Fits()
    ensures Stored(acc, op, height).Covered(height) && Stored(acc, op, height).Fits()
  {
    LockedNeverGrows(acc, before, height);
    var r := Attempt(acc, op, height);
    if r.Some? {
      match op {
        case Receive(n) =>
          SameLock(acc, r.value, height);
        case Spend(n) =>
          SameLock(acc, r.value, height);
        case ReceiveVesting(n, s) =>
          ReceivedVestingIsCovered(acc, n, s, height);
      }
      ClearedIsCovered(r.value, height);
    }
  }

  /** A history of one account: operations at heights that never go back. */
  ghost predicate History(accounts: seq<Account>, ops: seq<Operation>, heights: seq<nat>) {
    && |accounts| == |ops| + 1 == |heights|
    && accounts[0] == EMPTY_ACCOUNT
    && (forall j, k :: 0 <= j <= k < |heights| ==> heights[j] <= heights[k])
    && forall k :: 0 <= k < |ops| ==>
         && accounts[k + 1] == Stored(accounts[k], ops[k], heights[k + 1])
         && (Attempt(accounts[k], ops[k], heights[k + 1]).Some? ==> Attempt(accounts[k], ops[k], heights[k + 1]).value.Fits())
  }

  /** Vesting safety: in every history the balance covers what is locked, and an account with nothing in it is the default account. */
  lemma {:induction false} BalanceCoversLock(accounts: seq<Account>, ops: seq<Operation>, heights: seq<nat>, k: nat)
    requires History(accounts, ops, heights) && k <= |ops|
    ensures accounts[k].Covered(heights[k]) && accounts[k].Fits()
    ensures accounts[k].amount == 0 ==> accounts[k] == EMPTY_ACCOUNT
  {
    if k != 0 {
      BalanceCoversLock(accounts, ops, heights, k - 1);
      StoredStaysCovered(accounts[k - 1], ops[k - 1], heights[k - 1], heights[k]);
    }
  }

  /** Whoever spends all that is spendable at some height still covers the lock at every later one. */
  ghost predicate SpendingIsSafe(acc: Account) {
    forall h, k :: h <= k ==> acc.Locked(k) <= acc.amount - acc.Spendable(h)
  }

  /**
   Without the premise that products fit: a balance that holds its whole tranche covers the lock after any spending if and
   only if no product wraps around. Otherwise some debit that is allowed leaves less than is locked later.
   */
  lemma SpendingIsSafeExactlyWhen(acc: Account)
    requires acc.vesting <= acc.amount && acc.vesting + (acc.schedule.end - acc.schedule.start) <= TWO_TO_64
    ensures SpendingIsSafe(acc) <==> NoWrapWithin(acc)
  {
    NeverRelocksExactlyWhen(acc);
    forall h
      ensures acc.amount - acc.Spendable(h) == acc.Locked(h)
    {
      VestedIsPart(acc, h);
    }
    if NeverRelocks(acc) {
      assert forall h, k :: h <= k ==> acc.Locked(k) <= acc.Locked(h);
    }
    if SpendingIsSafe(acc) {
      forall h, k | h <= k
        ensures acc.Locked(k) <= acc.Locked(h)
      {
        assert acc.Locked(k) <= acc.amount - acc.Spendable(h);
      }
    }
  }
}
