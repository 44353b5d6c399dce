/** Slashes of one validator within a block: the cap per committee, ejection, and what is left of the stake. */
module Slashing {
  import opened Options
  import opened Ledger
  import opened Arithmetic

  /** A validator without stake is deleted. */
  datatype Staked = Staked(stake: nat, committees: seq<nat>, tracker: map<nat, nat>)

  function Tracked(tracker: map<nat, nat>, chain: nat): nat {
    if chain in tracker then tracker[chain] else 0
  }

  /** The committees without the first occurrence of one. */
  function Without(committees: seq<nat>, chain: nat): seq<nat> {
    if committees == [] then [] else if committees[0] == chain then committees[1..] else [committees[0]] + Without(committees[1..], chain)
  }

  /** The validator is in the committee, and the committee has not reached the cap. */
  predicate WithinReach(v: Staked, chain: nat, max: nat) {
    chain in v.committees && Tracked(v.tracker, chain) < max
  }

  /** The slash takes effect: the validator exists and is within reach. */
  predicate Effective(v: Staked, chain: nat, max: nat) {
    v.stake > 0 && WithinReach(v, chain, max)
  }

  predicate ReachesCap(v: Staked, chain: nat, percent: nat, max: nat) {
    Wrap(Tracked(v.tracker, chain) + percent) >= max
  }

  /** The percent that is really slashed. */
  function Capped(v: Staked, chain: nat, percent: nat, max: nat): nat
    requires WithinReach(v, chain, max)
  {
    if ReachesCap(v, chain, percent, max) then max - Tracked(v.tracker, chain) else percent
  }

  function StakeAfter(stake: nat, percent: nat): nat {
    if percent >= 100 || stake == 0 then 0 else if percent == 0 then stake else SafeMulDiv(stake, 100 - percent, 100)
  }

  /** The validator after a charge that is within reach: slashed, tracked, and ejected on reaching the cap. */
  function Charged(v: Staked, chain: nat, percent: nat, max: nat): Staked
    requires WithinReach(v, chain, max)
  {
    var p := Capped(v, chain, percent, max);
    Staked(StakeAfter(v.stake, p),
           if ReachesCap(v, chain, percent, max) then Without(v.committees, chain) else v.committees,
           v.tracker[chain := Wrap(Tracked(v.tracker, chain) + p)])
  }

  function Slash(v: Staked, chain: nat, percent: nat, max: nat): Staked {
    if !Effective(v, chain, max) then v else Charged(v, chain, percent, max)
  }

  lemma {:induction false} WithoutFirst(committees: seq<nat>, chain: nat, i: nat)
    requires i < |committees| && committees[i] == chain
    requires forall j :: 0 <= j < i ==> committees[j] != chain
    ensures Without(committees, chain) == committees[..i] + committees[i + 1..]
  {
    if i > 0 {
      WithoutFirst(committees[1..], chain, i - 1);
      assert committees[..i] == [committees[0]] + committees[1..][..i - 1];
    }
  }

  lemma {:induction false} WithoutNone(committees: seq<nat>, chain: nat)
    requires forall j :: 0 <= j < |committees| ==> committees[j] != chain
    ensures Without(committees, chain) == committees
  {
    if committees != [] {
      WithoutNone(committees[1..], chain);
      assert committees == [committees[0]] + committees[1..];
    }
  }

  ghost predicate Distinct(committees: seq<nat>) {
    forall j, k :: 0 <= j < k < |committees| ==> committees[j] != committees[k]
  }

  lemma {:induction false} WithoutContains(committees: seq<nat>, chain: nat, c: nat)
    requires Distinct(committees)
    ensures c in Without(committees, chain) <==> c in committees && c != chain
  {
    if committees != [] {
      assert committees == [committees[0]] + committees[1..];
      if committees[0] == chain {
        assert forall k :: 0 <= k < |committees[1..]| ==> committees[1..][k] == committees[k + 1];
      } else {
        WithoutContains(committees[1..], chain, c);
      }
    }
  }

  lemma {:induction false} WithoutStaysDistinct(committees: seq<nat>, chain: nat)
    requires Distinct(committees)
    ensures Distinct(Without(committees, chain))
  {
    if committees != [] && committees[0] != chain {
      var rest := Without(committees[1..], chain);
      WithoutStaysDistinct(committees[1..], chain);
      forall k | 0 <= k < |rest|
        ensures rest[k] != committees[0]
      {
        WithoutContains(committees[1..], chain, rest[k]);
      }
    }
  }

  lemma WithoutRemoves(committees: seq<nat>, chain: nat)
    requires Distinct(committees)
    ensures Distinct(Without(committees, chain))
    ensures forall c :: c in Without(committees, chain) <==> c in committees && c != chain
  {
    WithoutStaysDistinct(committees, chain);
    forall c
      ensures c in Without(committees, chain) <==> c in committees && c != chain
    {
      WithoutContains(committees, chain, c);
    }
  }

  // ---------------------------------------------------------------------------------------------
  // Every sequence of slashes in one block
  // ---------------------------------------------------------------------------------------------

  /** A committee demands a slash. */
  datatype Charge = Charge(chain: nat, percent: nat)

  function SlashAll(v: Staked, charges: seq<Charge>, max: nat): Staked
    decreases |charges|
  {
    if charges == [] then v
    else
      var last := charges[|charges| - 1];
      Slash(SlashAll(v, charges[..|charges| - 1], max), last.chain, last.percent, max)
  }

  /** The sum of the percents that were really slashed, by any committee. */
  function SlashedPercent(v: Staked, charges: seq<Charge>, max: nat): nat
    decreases |charges|
  {
    if charges == [] then 0
    else
      var prefix, last := charges[..|charges| - 1], charges[|charges| - 1];
      var before := SlashAll(v, prefix, max);
      SlashedPercent(v, prefix, max) + if Effective(before, last.chain, max) then Capped(before, last.chain, last.percent, max) else 0
  }

  /** A validator at the start of the block: distinct committees and nothing tracked. */
  ghost predicate Unslashed(v: Staked) {
    v.tracker == map[] && Distinct(v.committees)
  }

  /** No committee has slashed more than the maximum, and exactly those that have reached it have lost the validator. */
  ghost predicate WithinCap(v: Staked, w: Staked, max: nat) {
    && Distinct(w.committees)
    && (forall c :: Tracked(w.tracker, c) <= max)
    && (forall c :: c in w.committees <==> c in v.committees && Tracked(w.tracker, c) < max)
  }

  lemma SlashStaysWithinCap(v: Staked, w: Staked, chain: nat, percent: nat, max: nat)
    requires 0 < max <= MAX_UINT64
    requires WithinCap(v, w, max)
    ensures WithinCap(v, Slash(w, chain, percent, max), max)
  {
    if Effective(w, chain, max) {
      var after := Slash(w, chain, percent, max);
      WithoutRemoves(w.committees, chain);
      assert forall c :: c != chain ==> Tracked(after.tracker, c) == Tracked(w.tracker, c);
    }
  }

  /** The sum of the percents that one committee has really slashed. */
  function SlashedBy(v: Staked, charges: seq<Charge>, max: nat, chain: nat): nat
    decreases |charges|
  {
    if charges == [] then 0
    else
      var prefix, last := charges[..|charges| - 1], charges[|charges| - 1];
      var before := SlashAll(v, prefix, max);
      SlashedBy(v, prefix, max, chain)
      + if last.chain == chain && Effective(before, chain, max) then Capped(before, chain, last.percent, max) else 0
  }

  /** The tracker never wraps around: a charge is at most 100 percent, and the maximum leaves room for one. */
  ghost predicate Chargeable(charges: seq<Charge>, max: nat) {
    max + 100 <= MAX_UINT64 && forall j :: 0 <= j < |charges| ==> charges[j].percent <= 100
  }

  /**
   The cap, after any slashes by any committees in one block; a maximum of 0 forbids every slash. With percents up to 100
   the tracker is what a committee has really slashed, so that this is never more than the maximum.
   */
  lemma {:induction false} CapHolds(v: Staked, charges: seq<Charge>, max: nat)
    requires Unslashed(v) && max <= MAX_UINT64
    ensures 0 < max ==> WithinCap(v, SlashAll(v, charges, max), max)
    ensures max == 0 ==> SlashAll(v, charges, max) == v
    ensures Chargeable(charges, max) ==> forall chain :: SlashedBy(v, charges, max, chain) == Tracked(SlashAll(v, charges, max).tracker, chain) <= max
    decreases |charges|
  {
    if charges != [] {
      var prefix, last := charges[..|charges| - 1], charges[|charges| - 1];
      CapHolds(v, prefix, max);
      if 0 < max {
        SlashStaysWithinCap(v, SlashAll(v, prefix, max), last.chain, last.percent, max);
      }
      if Chargeable(charges, max) {
        assert Chargeable(prefix, max);
        forall chain
          ensures SlashedBy(v, charges, max, chain) == Tracked(SlashAll(v, charges, max).tracker, chain)
        {
          ChargeIsTracked(SlashAll(v, prefix, max), last, max, chain);
        }
      }
    }
  }

  lemma ChargeIsTracked(v: Staked, c: Charge, max: nat, chain: nat)
    requires c.percent <= 100 && max + 100 <= MAX_UINT64
    ensures Tracked(Slash(v, c.chain, c.percent, max).tracker, chain) == Tracked(v.tracker, chain) +
      if c.chain == chain && Effective(v, chain, max) then Capped(v, chain, c.percent, max) else 0
  {
  }

  /** A percent near 2^64 wraps the tracker around: the whole stake is taken, and the committee could slash on. */
  lemma HugePercentEscapesCap()
    ensures var v := Staked(1000, [1], map[1 := 5]);
      var w := Slash(v, 1, MAX_UINT64, 15);
      w.stake == 0 && Tracked(w.tracker, 1) == 4 && 1 in w.committees
  {
  }

  /** What is left is the largest stake within what the percentage leaves: no more than it is taken, and less than one token more. */
  lemma StakeAfterExactly(stake: nat, percent: nat)
    requires stake <= MAX_UINT64
    ensures IsQuotient(StakeAfter(stake, percent), stake * Rest(percent), 100)
  {
    PercentIsQuotient(stake, Rest(percent));
  }

  /** Within the maximum, exactly the percent that is asked for or still allowed, whichever is less. */
  lemma CappedExactly(v: Staked, chain: nat, percent: nat, max: nat)
    requires WithinReach(v, chain, max) && Tracked(v.tracker, chain) + percent <= MAX_UINT64
    ensures Capped(v, chain, percent, max) <= percent
    ensures Tracked(v.tracker, chain) + Capped(v, chain, percent, max) <= max
    ensures Capped(v, chain, percent, max) == percent || Tracked(v.tracker, chain) + Capped(v, chain, percent, max) == max
  {
  }

  lemma SlashedStake(stake: nat, percent: nat)
    requires stake <= MAX_UINT64
    ensures StakeAfter(stake, percent) <= stake
    ensures stake * 100 <= 100 * StakeAfter(stake, percent) + stake * percent + 100
  {
    StakeAfterExactly(stake, percent);
    if percent <= 100 {
      assert stake * Rest(percent) == stake * 100 - stake * percent;
    } else {
      ScaleUp(100, percent, stake);
    }
  }

  lemma ChargedStake(v: Staked, chain: nat, percent: nat, max: nat)
    requires WithinReach(v, chain, max) && v.stake <= MAX_UINT64
    ensures Charged(v, chain, percent, max).stake <= v.stake
  {
    SlashedStake(v.stake, Capped(v, chain, percent, max));
  }

  /** Rounding costs the validator less than one token for each slash, whoever slashes and however often. */
  lemma {:induction false} SlashesTakeAtMost(v: Staked, charges: seq<Charge>, max: nat)
    requires v.stake <= MAX_UINT64
    ensures SlashAll(v, charges, max).stake <= v.stake
    ensures v.stake * 100 <= 100 * SlashAll(v, charges, max).stake + v.stake * SlashedPercent(v, charges, max) + 100 * |charges|
    decreases |charges|
  {
    if charges != [] {
      var prefix, last := charges[..|charges| - 1], charges[|charges| - 1];
      var before := SlashAll(v, prefix, max);
      SlashesTakeAtMost(v, prefix, max);
      if Effective(before, last.chain, max) {
        var p := Capped(before, last.chain, last.percent, max);
        SlashedStake(before.stake, p);
        AddSlash(v.stake, before.stake, StakeAfter(before.stake, p), SlashedPercent(v, prefix, max), p, |prefix|);
      }
    }
  }

  lemma AddSlash(start: nat, before: nat, after: nat, slashed: nat, percent: nat, n: nat)
    requires before <= start
    requires start * 100 <= 100 * before + start * slashed + 100 * n
    requires before * 100 <= 100 * after + before * percent + 100
    ensures start * 100 <= 100 * after + start * (slashed + percent) + 100 * (n + 1)
  {
    ScaleUp(before, start, percent);
    assert start * (slashed + percent) == start * slashed + start * percent;
  }

  // ---------------------------------------------------------------------------------------------
  // At least what is due
  // ---------------------------------------------------------------------------------------------

  /** What one charge takes: what it asks for or what is left up to the maximum, whichever is less; nothing out of reach. */
  function TakenBy(v: Staked, c: Charge, max: nat): nat {
    if !Effective(v, c.chain, max) then 0
    else if c.percent <= max - Tracked(v.tracker, c.chain) then c.percent
    else max - Tracked(v.tracker, c.chain)
  }

  /** 100 for each charge. */
  function Whole(n: nat): nat {
    if n == 0 then 1 else 100 * Whole(n - 1)
  }

  function Times(a: nat, b: nat): nat {
    a * b
  }

  /** What the percents that are really taken leave of the whole, each of what the ones before have left. */
  function Left(v: Staked, charges: seq<Charge>, max: nat): nat
    decreases |charges|
  {
    if charges == [] then 1
    else
      var prefix, last := charges[..|charges| - 1], charges[|charges| - 1];
      Times(Left(v, prefix, max), Rest(TakenBy(SlashAll(v, prefix, max), last, max)))
  }

  /** What one charge leaves of a stake. */
  lemma OneCharge(v: Staked, c: Charge, max: nat)
    requires v.stake <= MAX_UINT64 && c.percent <= 100 && max + 100 <= MAX_UINT64
    ensures Slash(v, c.chain, c.percent, max).stake == StakeAfter(v.stake, TakenBy(v, c, max))
  {
  }

  lemma ShrinkFurther(after: nat, before: nat, start: nat, whole: nat, left: nat, rest: nat)
    requires before * whole <= start * left && after * 100 <= before * rest
    ensures after * (100 * whole) <= start * (left * rest)
  {
    ScaleUp(after * 100, before * rest, whole);
    ScaleUp(before * whole, start * left, rest);
    assert after * (100 * whole) == after * 100 * whole;
    assert before * rest * whole == before * whole * rest;
    assert start * (left * rest) == start * left * rest;
  }

  /** One more charge keeps the stake within what the percents leave. */
  lemma ShrinksOnce(v: Staked, c: Charge, max: nat, start: nat, whole: nat, left: nat)
    requires v.stake <= MAX_UINT64 && c.percent <= 100 && max + 100 <= MAX_UINT64
    requires v.stake * whole <= start * left
    ensures Slash(v, c.chain, c.percent, max).stake * (100 * whole) <= start * (left * Rest(TakenBy(v, c, max)))
  {
    OneCharge(v, c, max);
    StakeAfterExactly(v.stake, TakenBy(v, c, max));
    ShrinkFurther(StakeAfter(v.stake, TakenBy(v, c, max)), v.stake, start, whole, left, Rest(TakenBy(v, c, max)));
  }

  lemma SlashesOnlyTake(v: Staked, charges: seq<Charge>, max: nat)
    requires v.stake <= MAX_UINT64
    ensures SlashAll(v, charges, max).stake <= v.stake
  {
    SlashesTakeAtMost(v, charges, max);
  }

  /**
   Every slash takes at least its percent of what the ones before have left, whoever slashes and however often: the stake is
   never more than the percents leave of it. With SlashesTakeAtMost this fixes the loss up to one token for each slash.
   */
  lemma {:induction false} SlashesTakeAtLeast(v: Staked, charges: seq<Charge>, max: nat)
    requires v.stake <= MAX_UINT64 && Chargeable(charges, max)
    ensures SlashAll(v, charges, max).stake * Whole(|charges|) <= v.stake * Left(v, charges, max)
    decreases |charges|
  {
    if charges != [] {
      var prefix, last := charges[..|charges| - 1], charges[|charges| - 1];
      SlashesTakeAtLeast(v, prefix, max);
      SlashesOnlyTake(v, prefix, max);
      ShrinksOnce(SlashAll(v, prefix, max), last, max, v.stake, Whole(|prefix|), Left(v, prefix, max));
    }
  }
}
