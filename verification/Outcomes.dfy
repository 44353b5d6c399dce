/**
 What a block does beside its transactions, against tables of transfers: the results of certificates with their orders and
 slashes, the minting and the distribution of rewards, and finished unstakings. None of these fails for lack of tokens, and over
 every run nobody's balance falls but by their own spending.
 */
module Outcomes {
  import opened Options
  import opened Ledger
  import opened Arithmetic
  import opened Books
  import opened Supply
  import opened Transfers
  import Amm
  import Batches
  import Payments
  import Pipeline
  import Rewards
  import Slashing
  import Solvency

  // ---------------------------------------------------------------------------------------------
  // Sell orders in certificates
  // ---------------------------------------------------------------------------------------------

  /** One instruction for a sell order: what it asks of the order, what it moves, and what it leaves. A failing one changes nothing. */
  ghost predicate Swapped(s: State, swap: Swap, chain: ChainId, t: State) {
    match swap
    case Lock(id, buyer) =>
      if Open(s, id, chain) then t == s.(orders := s.orders[id := SellOrder(chain, s.orders[id].amount, s.orders[id].seller, Some(buyer))])
      else t == s
    case Reset(id) =>
      if id in s.orders && s.orders[id].chain == chain then t == s.(orders := s.orders[id := SellOrder(chain, s.orders[id].amount, s.orders[id].seller, None)])
      else t == s
    case Close(id) =>
      if id in s.orders && s.orders[id].chain == chain && s.orders[id].buyer.Some? then
        && Moved(s, t, [Transfer(Vault(EscrowPool(chain)), Purse(s.orders[id].buyer.value), s.orders[id].amount)])
        && t == s.(accounts := t.accounts, pools := t.pools, orders := s.orders - {id})
      else t == s
  }

  lemma CloseMoves(s: State, id: nat, chain: ChainId, gifts: map<nat, nat>)
    requires Inv(s, gifts) && CloseOrder(s, id, chain).Some?
    ensures Swapped(s, Close(id), chain, CloseOrder(s, id, chain).value)
  {
    CloseKeeps(s, id, chain, gifts);
    var o := s.orders[id];
    VaultToPurse(s, EscrowPool(chain), o.buyer.value, o.amount);
    SameTokens(s, PoolToAccount(s, EscrowPool(chain), o.buyer.value, o.amount).value, CloseOrder(s, id, chain).value,
               [Transfer(Vault(EscrowPool(chain)), Purse(o.buyer.value), o.amount)]);
  }

  lemma SwapMoves(s: State, swap: Swap, chain: ChainId, gifts: map<nat, nat>)
    requires Inv(s, gifts)
    ensures Swapped(s, swap, chain, match HandleSwap(s, swap, chain) case None => s case Some(t) => t)
  {
    match swap
    case Close(id) =>
      CloseKeeps(s, id, chain, gifts);
      if CloseOrder(s, id, chain).Some? {
        CloseMoves(s, id, chain, gifts);
      }
    case _ =>
  }

  /** states are the books before each instruction and after the last. */
  ghost predicate SwapsFollow(states: seq<State>, swaps: seq<Swap>, chain: ChainId) {
    |states| == |swaps| + 1 && forall j :: 0 <= j < |swaps| ==> Swapped(states[j], swaps[j], chain, states[j + 1])
  }

  lemma OneMoreSwap(states: seq<State>, swaps: seq<Swap>, chain: ChainId, t: State)
    requires swaps != [] && SwapsFollow(states, swaps[..|swaps| - 1], chain)
    requires Swapped(states[|swaps| - 1], swaps[|swaps| - 1], chain, t)
    ensures SwapsFollow(states + [t], swaps, chain)
  {
    forall j | 0 <= j < |swaps|
      ensures Swapped((states + [t])[j], swaps[j], chain, (states + [t])[j + 1])
    {
      if j < |swaps| - 1 {
        assert swaps[j] == swaps[..|swaps| - 1][j];
      }
    }
  }

  /** The instructions of a certificate take effect one by one, exactly as the orders are when their turn comes. */
  lemma {:induction false} SwapsMoveInTurn(s: State, swaps: seq<Swap>, chain: ChainId, gifts: map<nat, nat>) returns (states: seq<State>)
    requires Inv(s, gifts)
    ensures SwapsFollow(states, swaps, chain) && states[0] == s && states[|swaps|] == HandleSwaps(s, swaps, chain)
    decreases |swaps|
  {
    if swaps == [] {
      states := [s];
    } else {
      var prefix, last := swaps[..|swaps| - 1], swaps[|swaps| - 1];
      var before := SwapsMoveInTurn(s, prefix, chain, gifts);
      SwapsKeep(s, prefix, chain, gifts);
      SwapMoves(HandleSwaps(s, prefix, chain), last, chain, gifts);
      OneMoreSwap(before, swaps, chain, HandleSwaps(s, swaps, chain));
      states := before + [HandleSwaps(s, swaps, chain)];
    }
  }

  // ---------------------------------------------------------------------------------------------
  // Slashes
  // ---------------------------------------------------------------------------------------------

  /** The percent that a committee may still slash of what it asks for. */
  function Allowed(s: State, a: Address, chain: nat, percent: nat): nat {
    var tracked := Slashing.Tracked(s.Slashed(a), chain);
    if s.params.maxSlash <= tracked then 0 else if percent <= s.params.maxSlash - tracked then percent else s.params.maxSlash - tracked
  }

  /** The committee may slash the validator. */
  predicate Reaches(s: State, a: Address, chain: nat) {
    a in s.validators && chain in s.validators[a].committees && Slashing.Tracked(s.Slashed(a), chain) < s.params.maxSlash
  }

  /** What a slash leaves of a validator: less stake, no committee that has reached the maximum, and an unstaking if that is too little to go on. */
  ghost predicate Weakened(s: State, v: Validator, chain: nat, ejected: bool, left: nat, w: Validator) {
    && w.stake == left && (w.output, w.delegate, w.compound) == (v.output, v.delegate, v.compound)
    && w.committees == (if ejected then Slashing.Without(v.committees, chain) else v.committees)
    && w.unstakingHeight ==
         if v.unstakingHeight == 0 && left < (if v.delegate then s.params.minimumDelegation else s.params.minimumStake)
         then s.height + (if v.delegate then s.params.delegateUnstakingBlocks else s.params.unstakingBlocks)
         else v.unstakingHeight
  }

  /** The slash takes effect: of the stake is left the largest part that the percent allows, and the rest is burned from stake and counters. */
  ghost predicate Takes(s: State, a: Address, chain: nat, percent: nat, left: nat, t: State)
    requires a in s.validators
  {
    var v, tracked := s.validators[a], Slashing.Tracked(s.Slashed(a), chain);
    && IsQuotient(left, v.stake * Rest(percent), 100) && left <= v.stake
    && Moved(s, t, [Transfer(Bond(a), Nowhere, v.stake - left)])
    && t.total + (v.stake - left) == s.total && t.staked + (v.stake - left) == s.staked
    && t == s.(validators := t.validators, total := t.total, staked := t.staked, slashes := s.slashes[a := s.Slashed(a)[chain := tracked + percent]])
    && (left == 0 ==> t.validators == s.validators - {a})
    && (0 < left ==> a in t.validators && t.validators == s.validators[a := t.validators[a]]
                     && Weakened(s, v, chain, tracked + percent >= s.params.maxSlash, left, t.validators[a]))
  }

  /** One slash: it takes the percent that is still allowed, and does nothing to a validator out of reach. */
  ghost predicate SlashedOnce(s: State, a: Address, chain: nat, percent: nat, t: State) {
    if Reaches(s, a, chain) then exists left: nat :: Takes(s, a, chain, Allowed(s, a, chain, percent), left, t) else t == s
  }

  /** No parameter lets a committee's tracker leave 64 bits. */
  ghost predicate Slashable(s: State, percent: nat) {
    s.params.maxSlash + percent <= MAX_UINT64
  }

  lemma AllowedIsCapped(s: State, a: Address, chain: nat, percent: nat)
    requires Reaches(s, a, chain) && Slashable(s, percent)
    ensures Slashing.WithinReach(Staked(s, a), chain, s.params.maxSlash)
    ensures Slashing.Capped(Staked(s, a), chain, percent, s.params.maxSlash) == Allowed(s, a, chain, percent)
    ensures Slashing.ReachesCap(Staked(s, a), chain, percent, s.params.maxSlash) <==>
      Slashing.Tracked(s.Slashed(a), chain) + Allowed(s, a, chain, percent) >= s.params.maxSlash
  {
  }

  /** What `Slashing` leaves is what the allowed percent demands. */
  ghost predicate Leaves(s: State, a: Address, chain: nat, allowed: nat, left: Slashing.Staked)
    requires a in s.validators
  {
    var v, tracked := s.validators[a], Slashing.Tracked(s.Slashed(a), chain) + allowed;
    && IsQuotient(left.stake, v.stake * Rest(allowed), 100)
    && left.tracker == s.Slashed(a)[chain := tracked]
    && left.committees == (if tracked >= s.params.maxSlash then Slashing.Without(v.committees, chain) else v.committees)
  }

  lemma ChargedLeaves(s: State, a: Address, chain: nat, percent: nat)
    requires Reaches(s, a, chain) && Slashable(s, percent) && s.validators[a].stake <= MAX_UINT64
    ensures Slashing.WithinReach(Staked(s, a), chain, s.params.maxSlash)
    ensures Leaves(s, a, chain, Allowed(s, a, chain, percent), Slashing.Charged(Staked(s, a), chain, percent, s.params.maxSlash))
  {
    AllowedIsCapped(s, a, chain, percent);
    Slashing.StakeAfterExactly(s.validators[a].stake, Allowed(s, a, chain, percent));
  }

  lemma BondBurns(s: State, a: Address, w: Validator, t: State)
    requires a in s.validators && w.stake <= s.validators[a].stake
    requires t.validators == (if w.stake == 0 then s.validators - {a} else s.validators[a := w])
    requires t.accounts == s.accounts && t.pools == s.pools
    ensures Moved(s, t, [Transfer(Bond(a), Nowhere, s.validators[a].stake - w.stake)])
  {
    Single(Bond(a), Nowhere, s.validators[a].stake - w.stake);
  }

  lemma AfterSlashIsWeakened(s: State, a: Address, chain: nat, left: Slashing.Staked, ejected: bool)
    requires a in s.validators
    requires left.committees == if ejected then Slashing.Without(s.validators[a].committees, chain) else s.validators[a].committees
    ensures Weakened(s, s.validators[a], chain, ejected, left.stake, AfterSlash(s, a, left))
  {
  }

  lemma SlashTakesAllowed(s: State, a: Address, chain: nat, allowed: nat, left: Slashing.Staked, t: State)
    requires a in s.validators && Leaves(s, a, chain, allowed, left) && left.stake <= s.validators[a].stake
    requires t == s.(validators := t.validators, total := t.total, staked := t.staked, slashes := s.slashes[a := left.tracker])
    requires t.total + s.validators[a].stake == s.total + left.stake && t.staked + s.validators[a].stake == s.staked + left.stake
    requires t.validators == (if left.stake == 0 then s.validators - {a} else s.validators[a := AfterSlash(s, a, left)])
    ensures Takes(s, a, chain, allowed, left.stake, t)
  {
    BondBurns(s, a, AfterSlash(s, a, left), t);
    AfterSlashIsWeakened(s, a, chain, left, Slashing.Tracked(s.Slashed(a), chain) + allowed >= s.params.maxSlash);
  }

  /**
   A slash never fails, and takes from stake, staked and total supply exactly what the percent demands that the committee may
   still slash: the largest stake within the rest of 100 percent is left. A validator out of reach is left alone.
   */
  lemma SlashTakes(s: State, a: Address, chain: nat, percent: nat, gifts: map<nat, nat>)
    requires Inv(s, gifts) && Slashable(s, percent)
    ensures SlashValidator(s, a, chain, percent).Some?
    ensures SlashedOnce(s, a, chain, percent, SlashValidator(s, a, chain, percent).value)
  {
    if Reaches(s, a, chain) {
      var left := Slashing.Charged(Staked(s, a), chain, percent, s.params.maxSlash);
      StakeFits(s, a);
      ChargedLeaves(s, a, chain, percent);
      SlashKeeps(s, a, chain, percent, gifts);
      SlashComputes(s, a, chain, percent, gifts);
      SlashTakesAllowed(s, a, chain, Allowed(s, a, chain, percent), left, SlashValidator(s, a, chain, percent).value);
    }
  }

  lemma BurnsPercent(stake: nat, percent: nat, left: nat)
    requires percent <= 100 && IsQuotient(left, stake * Rest(percent), 100) && left <= stake
    ensures stake * percent <= 100 * (stake - left) < stake * percent + 100
  {
    assert stake * (100 - percent) == stake * 100 - stake * percent;
  }

  /** Stake, staked and total supply go down by the same amount: at least the allowed percent of the stake, and less than one token more. */
  lemma SlashBurnsItsPercent(s: State, a: Address, chain: nat, percent: nat, gifts: map<nat, nat>)
    requires Inv(s, gifts) && Slashable(s, percent) && percent <= 100 && Reaches(s, a, chain)
    ensures SlashValidator(s, a, chain, percent).Some?
    ensures var t, due := SlashValidator(s, a, chain, percent).value, s.validators[a].stake * Allowed(s, a, chain, percent);
      && s.total - t.total == s.staked - t.staked == At(s, Bond(a)) - At(t, Bond(a))
      && due <= 100 * (s.total - t.total) < due + 100
  {
    SlashTakes(s, a, chain, percent, gifts);
    var t := SlashValidator(s, a, chain, percent).value;
    var left: nat :| Takes(s, a, chain, Allowed(s, a, chain, percent), left, t);
    Single(Bond(a), Nowhere, s.validators[a].stake - left);
    assert At(t, Bond(a)) + Out([Transfer(Bond(a), Nowhere, s.validators[a].stake - left)], Bond(a)) == At(s, Bond(a)) + In([Transfer(Bond(a), Nowhere, s.validators[a].stake - left)], Bond(a));
    BurnsPercent(s.validators[a].stake, Allowed(s, a, chain, percent), left);
  }

  lemma SlashComputes(s: State, a: Address, chain: nat, percent: nat, gifts: map<nat, nat>)
    requires Inv(s, gifts) && a in s.validators && Slashing.WithinReach(Staked(s, a), chain, s.params.maxSlash)
    ensures SlashValidator(s, a, chain, percent).Some?
    ensures var t, left := SlashValidator(s, a, chain, percent).value, Slashing.Charged(Staked(s, a), chain, percent, s.params.maxSlash);
      && left.stake <= s.validators[a].stake
      && t == s.(validators := t.validators, total := t.total, staked := t.staked, slashes := s.slashes[a := left.tracker])
      && t.staked + (s.validators[a].stake - left.stake) == s.staked
  {
    SlashKeeps(s, a, chain, percent, gifts);
    var left := Slashing.Charged(Staked(s, a), chain, percent, s.params.maxSlash);
    SlashesSpareInv(s, s.slashes[a := left.tracker], gifts);
    BurnStakeKeeps(s.(slashes := s.slashes[a := left.tracker]), a, AfterSlash(s, a, left), gifts);
    StakesWithout(s.validators, a);
  }

  ghost predicate SlashesFollow(states: seq<State>, addresses: seq<Address>, chain: nat, percent: nat) {
    |states| == |addresses| + 1 && forall j :: 0 <= j < |addresses| ==> SlashedOnce(states[j], addresses[j], chain, percent, states[j + 1])
  }

  lemma OneMoreSlash(states: seq<State>, addresses: seq<Address>, chain: nat, percent: nat, t: State)
    requires addresses != [] && SlashesFollow(states, addresses[..|addresses| - 1], chain, percent)
    requires SlashedOnce(states[|addresses| - 1], addresses[|addresses| - 1], chain, percent, t)
    ensures SlashesFollow(states + [t], addresses, chain, percent)
  {
    forall j | 0 <= j < |addresses|
      ensures SlashedOnce((states + [t])[j], addresses[j], chain, percent, (states + [t])[j + 1])
    {
      if j < |addresses| - 1 {
        assert addresses[j] == addresses[..|addresses| - 1][j];
      }
    }
  }

  /** A list of validators is slashed one by one, each as it is when its turn comes. */
  lemma {:induction false} SlashesTakeInTurn(s: State, addresses: seq<Address>, chain: nat, percent: nat, gifts: map<nat, nat>) returns (states: seq<State>)
    requires Inv(s, gifts) && Slashable(s, percent)
    ensures SlashValidators(s, addresses, chain, percent).Some?
    ensures SlashesFollow(states, addresses, chain, percent) && states[0] == s && states[|addresses|] == SlashValidators(s, addresses, chain, percent).value
    decreases |addresses|
  {
    if addresses == [] {
      states := [s];
    } else {
      var prefix, last := addresses[..|addresses| - 1], addresses[|addresses| - 1];
      var before := SlashesTakeInTurn(s, prefix, chain, percent, gifts);
      SlashAllKeeps(s, prefix, chain, percent, gifts);
      var s1 := SlashValidators(s, prefix, chain, percent).value;
      SlashTakes(s1, last, chain, percent, gifts);
      var t := SlashValidator(s1, last, chain, percent).value;
      OneMoreSlash(before, addresses, chain, percent, t);
      states := before + [t];
    }
  }

  // ---------------------------------------------------------------------------------------------
  // Certificate results
  // ---------------------------------------------------------------------------------------------

  /** What is collected for a committee; nothing before its first certificate. */
  function DataOf(committees: seq<Committee>, chain: ChainId): Rewards.CommitteeData {
    if committees == [] then Rewards.CommitteeData([], 0)
    else if committees[0].chain == chain then committees[0].data
    else DataOf(committees[1..], chain)
  }

  /** One more sample for the committee: everybody's percents on this chain are added, and no other committee's data changes. */
  ghost predicate Sampled(s: State, chain: ChainId, stubs: seq<Rewards.Stub>, t: State) {
    var before, after := DataOf(s.committees, chain), DataOf(t.committees, chain);
    && after.samples == before.samples + 1
    && (forall a, c :: Rewards.PercentFor(after.stubs, a, c) ==
          Rewards.PercentFor(before.stubs, a, c) + if c == s.selfChain then Rewards.PercentFor(stubs, a, c) else 0)
    && (forall other: ChainId :: other != chain ==> DataOf(t.committees, other) == DataOf(s.committees, other))
    && t == s.(committees := t.committees)
  }

  lemma {:induction false} DataIsAtIndex(committees: seq<Committee>, chain: ChainId)
    ensures DataOf(committees, chain) ==
      if Index(committees, chain) < |committees| then committees[Index(committees, chain)].data else Rewards.CommitteeData([], 0)
  {
    if committees != [] && committees[0].chain != chain {
      DataIsAtIndex(committees[1..], chain);
    }
  }

  lemma {:induction false} DataAfterUpdate(committees: seq<Committee>, chain: ChainId, data: Rewards.CommitteeData, other: ChainId)
    requires Index(committees, chain) < |committees|
    ensures DataOf(committees[Index(committees, chain) := Committee(chain, data)], other) == if other == chain then data else DataOf(committees, other)
  {
    var i := Index(committees, chain);
    var after := committees[i := Committee(chain, data)];
    if committees[0].chain == chain {
      assert after[1..] == committees[1..];
    } else {
      assert after[1..] == committees[1..][i - 1 := Committee(chain, data)];
      DataAfterUpdate(committees[1..], chain, data, other);
    }
  }

  lemma {:induction false} DataAfterAppend(committees: seq<Committee>, chain: ChainId, data: Rewards.CommitteeData, other: ChainId)
    requires Index(committees, chain) == |committees|
    ensures DataOf(committees + [Committee(chain, data)], other) == if other == chain then data else DataOf(committees, other)
  {
    if committees != [] {
      assert (committees + [Committee(chain, data)])[1..] == committees[1..] + [Committee(chain, data)];
      DataAfterAppend(committees[1..], chain, data, other);
    } else {
      assert (committees + [Committee(chain, data)])[1..] == [];
    }
  }

  lemma UpsertStores(s: State, chain: ChainId, stubs: seq<Rewards.Stub>, other: ChainId)
    ensures var combined := Rewards.Combine(DataOf(s.committees, chain), stubs, s.selfChain);
      && (UpsertCommitteeData(s, chain, stubs).Some? <==> combined.Some?)
      && (combined.Some? ==>
            var t := UpsertCommitteeData(s, chain, stubs).value;
            && t == s.(committees := t.committees)
            && DataOf(t.committees, other) == if other == chain then combined.value else DataOf(s.committees, other))
  {
    var i, combined := Index(s.committees, chain), Rewards.Combine(DataOf(s.committees, chain), stubs, s.selfChain);
    DataIsAtIndex(s.committees, chain);
    if combined.Some? {
      if i < |s.committees| {
        DataAfterUpdate(s.committees, chain, combined.value, other);
      } else {
        DataAfterAppend(s.committees, chain, combined.value, other);
        assert (s.committees + [Committee(chain, Rewards.CommitteeData([], 0))])[i := Committee(chain, combined.value)]
            == s.committees + [Committee(chain, combined.value)];
      }
    }
  }

  lemma UpsertSamples(s: State, chain: ChainId, stubs: seq<Rewards.Stub>)
    requires UpsertCommitteeData(s, chain, stubs).Some?
    ensures Sampled(s, chain, stubs, UpsertCommitteeData(s, chain, stubs).value)
  {
    var before := DataOf(s.committees, chain);
    UpsertStores(s, chain, stubs, chain);
    var t := UpsertCommitteeData(s, chain, stubs).value;
    forall other: ChainId | other != chain
      ensures DataOf(t.committees, other) == DataOf(s.committees, other)
    {
      UpsertStores(s, chain, stubs, other);
    }
    forall a, c
      ensures Rewards.PercentFor(DataOf(t.committees, chain).stubs, a, c) ==
        Rewards.PercentFor(before.stubs, a, c) + if c == s.selfChain then Rewards.PercentFor(stubs, a, c) else 0
    {
      Rewards.CombinedIsFor(before.stubs, stubs, s.selfChain, a, c);
    }
  }

  /** The percents cannot be added: one sample too many, or somebody's percents leave 64 bits. */
  ghost predicate CannotSample(data: Rewards.CommitteeData, stubs: seq<Rewards.Stub>, chain: ChainId) {
    data.samples == MAX_UINT64 || exists a :: Rewards.Overflows(data.stubs, stubs, chain, a)
  }

  /**
   The results of a certificate, in the order of the source: the orders, then the non-signers, then the double signers, each
   one by one, then the reward percents, reduced for the power that did not sign. They are refused exactly if they allocate
   more than 100 percent on this chain or the percents cannot be added; swaps and slashes never make them fail.
   */
  lemma ResultsMoveInTurn(s: State, r: Results, gifts: map<nat, nat>) returns (swapped: seq<State>, absent: seq<State>, double: seq<State>)
    requires Inv(s, gifts) && Slashable(s, s.params.nonSignSlash) && Slashable(s, s.params.doubleSignSlash)
    ensures SwapsFollow(swapped, r.swaps, r.chain) && swapped[0] == s
    ensures SlashesFollow(absent, r.nonSigners, r.chain, s.params.nonSignSlash) && absent[0] == swapped[|r.swaps|]
    ensures SlashesFollow(double, r.doubleSigners, r.chain, s.params.doubleSignSlash) && double[0] == absent[|r.nonSigners|]
    ensures var t, stubs, data := HandleCertificateResults(s, r), Rewards.Reduced(r.certificate.stubs, r.certificate.nonSignerPercent), DataOf(s.committees, r.chain);
      && (t.Some? ==> Sampled(double[|r.doubleSigners|], r.chain, stubs, t.value))
      && (Rewards.SumFor(r.certificate.stubs, s.selfChain) > 100 ==> t.None?)
      && (Rewards.SumFor(r.certificate.stubs, s.selfChain) <= 100 && Rewards.Tidy(data.stubs) ==> (t.None? <==> CannotSample(data, stubs, s.selfChain)))
  {
    swapped := SwapsMoveInTurn(s, r.swaps, r.chain, gifts);
    SwapsKeep(s, r.swaps, r.chain, gifts);
    SwapsSpareCommittees(s, r.swaps, r.chain);
    var s0 := HandleSwaps(s, r.swaps, r.chain);
    absent := SlashesTakeInTurn(s0, r.nonSigners, r.chain, s.params.nonSignSlash, gifts);
    SlashAllKeeps(s0, r.nonSigners, r.chain, s.params.nonSignSlash, gifts);
    var s1 := SlashValidators(s0, r.nonSigners, r.chain, s.params.nonSignSlash).value;
    SlashesSpareCommittees(s0, r.nonSigners, r.chain, s.params.nonSignSlash);
    double := SlashesTakeInTurn(s1, r.doubleSigners, r.chain, s.params.doubleSignSlash, gifts);
    SlashAllKeeps(s1, r.doubleSigners, r.chain, s.params.doubleSignSlash, gifts);
    SlashesSpareCommittees(s1, r.doubleSigners, r.chain, s.params.doubleSignSlash);
    var s2 := SlashValidators(s1, r.doubleSigners, r.chain, s.params.doubleSignSlash).value;
    SamplingDecides(s2, r);
  }

  lemma SamplingDecides(s: State, r: Results)
    ensures var stubs, data := Rewards.Reduced(r.certificate.stubs, r.certificate.nonSignerPercent), DataOf(s.committees, r.chain);
      var t := UpsertCommitteeData(s, r.chain, stubs);
      && (t.Some? ==> Sampled(s, r.chain, stubs, t.value))
      && (Rewards.Tidy(data.stubs) ==> (t.None? <==> CannotSample(data, stubs, s.selfChain)))
  {
    var stubs, data := Rewards.Reduced(r.certificate.stubs, r.certificate.nonSignerPercent), DataOf(s.committees, r.chain);
    UpsertStores(s, r.chain, stubs, r.chain);
    if UpsertCommitteeData(s, r.chain, stubs).Some? {
      UpsertSamples(s, r.chain, stubs);
    }
    if Rewards.Tidy(data.stubs) {
      Rewards.CombinedFailsExactlyWhen(data.stubs, stubs, s.selfChain);
    }
  }

  lemma {:induction false} SwapsSpareCommittees(s: State, swaps: seq<Swap>, chain: ChainId)
    ensures HandleSwaps(s, swaps, chain).committees == s.committees
    decreases |swaps|
  {
    if swaps != [] {
      SwapsSpareCommittees(s, swaps[..|swaps| - 1], chain);
    }
  }

  lemma {:induction false} SlashesSpareCommittees(s: State, addresses: seq<Address>, chain: nat, percent: nat)
    requires SlashValidators(s, addresses, chain, percent).Some?
    ensures SlashValidators(s, addresses, chain, percent).value.committees == s.committees
    decreases |addresses|
  {
    if addresses != [] {
      SlashesSpareCommittees(s, addresses[..|addresses| - 1], chain, percent);
    }
  }

  // ---------------------------------------------------------------------------------------------
  // Block rewards
  // ---------------------------------------------------------------------------------------------

  /** What a block mints: the DAO's cut, and one part for every paid committee, as often as it is listed. */
  function Mints(dao: nat, part: nat, paid: seq<ChainId>): seq<Transfer> {
    if paid == [] then [Transfer(Nowhere, Vault(DAO_POOL), dao)]
    else Mints(dao, part, paid[..|paid| - 1]) + [Transfer(Nowhere, Vault(paid[|paid| - 1]), part)]
  }

  /** What the DAO and n committees get together. */
  function Together(dao: nat, part: nat, n: nat): nat {
    dao + n * part
  }

  lemma PartIsMinted(s: State, id: nat, n: nat, gifts: map<nat, nat>)
    requires Inv(s, gifts) && s.total + n <= MAX_UINT64 && Free(id)
    ensures var t := MintToPool(s, id, n);
      Inv(t, gifts) && Moved(s, t, [Transfer(Nowhere, Vault(id), n)]) && t == s.(pools := t.pools, total := s.total + n)
  {
    MintToPoolKeeps(s, id, n);
    BesideKeepsInv(s, MintToPool(s, id, n), gifts);
    MintToVault(s, id, n);
  }

  lemma {:induction false} PartsAreMinted(s: State, dao: nat, part: nat, paid: seq<ChainId>, gifts: map<nat, nat>)
    requires Inv(s, gifts) && s.total + Together(dao, part, |paid|) <= MAX_UINT64
    ensures var t := MintToPools(MintToPool(s, DAO_POOL, dao), paid, part);
      && Inv(t, gifts) && Moved(s, t, Mints(dao, part, paid)) && t == s.(pools := t.pools, total := s.total + Together(dao, part, |paid|))
    decreases |paid|
  {
    if paid == [] {
      PartIsMinted(s, DAO_POOL, dao, gifts);
    } else {
      var prefix, last := paid[..|paid| - 1], paid[|paid| - 1];
      OneMore(|prefix|, part);
      PartsAreMinted(s, dao, part, prefix, gifts);
      var before := MintToPools(MintToPool(s, DAO_POOL, dao), prefix, part);
      PartIsMinted(before, last, part, gifts);
      MovedInTurn(s, before, MintToPool(before, last, part), Mints(dao, part, prefix), [Transfer(Nowhere, Vault(last), part)]);
    }
  }

  /** The committees together get the largest part that the DAO's percentage leaves, the DAO the rest; every committee gets an equal part, rounded down. */
  ghost predicate Splits(amount: nat, percentage: nat, n: nat, dao: nat, part: nat) {
    dao <= amount && IsQuotient(amount - dao, amount * Rest(percentage), 100) && IsQuotient(part, amount - dao, n)
  }

  lemma StatsSplit(amount: nat, paid: seq<ChainId>, percentage: nat)
    requires 0 < amount <= MAX_UINT64 && paid != []
    ensures BlockMintStats(amount, paid, percentage).Some?
    ensures var m := BlockMintStats(amount, paid, percentage).value; Splits(amount, percentage, |paid|, m.daoCut, m.perCommittee)
  {
    var rest := SafeMulDiv(amount, Rest(percentage), 100);
    PercentIsQuotient(amount, Rest(percentage));
    ScaleUp(Rest(percentage), 100, amount);
    Cancel(rest, amount, 100);
    QuotientBounds(rest, |paid|);
    var dao: nat := amount - rest;
    assert Wrap(dao) == dao;
    WholeAmount(amount);
  }

  lemma WholeAmount(amount: nat)
    requires amount <= MAX_UINT64
    ensures SafeMulDiv(amount, 100, 100) == amount && SafeMulDiv(amount, 0, 100) == 0
  {
    MulDivFits(amount, 100, 100, amount);
    MulDivFits(amount, 0, 100, 0);
  }

  /** A block's tokens go to the DAO and to the paid committees, in the parts that its percentage says; without tokens or committees nothing happens. */
  lemma FundingMoves(s: State, amount: nat, paid: seq<ChainId>, gifts: map<nat, nat>) returns (dao: nat, part: nat)
    requires Inv(s, gifts) && amount <= MAX_UINT64 && s.total + BlockMinted(s, amount, paid) <= MAX_UINT64
    ensures amount == 0 || paid == [] ==> FundCommitteeRewardPools(s, amount, paid) == s
    ensures amount != 0 && paid != [] ==>
      var t := FundCommitteeRewardPools(s, amount, paid);
      && Splits(amount, s.params.daoPercentage, |paid|, dao, part)
      && Moved(s, t, Mints(dao, part, paid)) && t == s.(pools := t.pools, total := s.total + Together(dao, part, |paid|))
  {
    dao, part := 0, 0;
    if amount != 0 && paid != [] {
      StatsSplit(amount, paid, s.params.daoPercentage);
      var m := BlockMintStats(amount, paid, s.params.daoPercentage).value;
      dao, part := m.daoCut, m.perCommittee;
      PartsAreMinted(s, dao, part, paid, gifts);
    }
  }

  // ---------------------------------------------------------------------------------------------
  // Unstaking
  // ---------------------------------------------------------------------------------------------

  function ReturnOf(validators: map<Address, Validator>, a: Address): seq<Transfer> {
    if a in validators then [Transfer(Bond(a), Purse(validators[a].output), validators[a].stake)] else []
  }

  /** Every stake goes back to its validator's output. */
  function Returns(validators: map<Address, Validator>, due: seq<Address>): seq<Transfer> {
    if due == [] then [] else ReturnOf(validators, due[0]) + Returns(validators, due[1..])
  }

  lemma {:induction false} ReturnsOfOthers(validators: map<Address, Validator>, a: Address, due: seq<Address>)
    requires a !in due
    ensures Returns(validators - {a}, due) == Returns(validators, due)
  {
    if due != [] {
      ReturnsOfOthers(validators, a, due[1..]);
    }
  }

  lemma ReturnMoves(s: State, a: Address, gifts: map<nat, nat>)
    requires Inv(s, gifts) && a in s.validators
    ensures FinishUnstaking(s, a).Some?
    ensures var t := FinishUnstaking(s, a).value;
      && Moved(s, t, [Transfer(Bond(a), Purse(s.validators[a].output), s.validators[a].stake)])
      && t == s.(accounts := t.accounts, validators := s.validators - {a}, staked := t.staked)
  {
    FinishUnstakingKeeps(s, a, gifts);
    Single(Bond(a), Purse(s.validators[a].output), s.validators[a].stake);
  }

  /** Finished unstakings return every stake to its validator's output, delete the validators, and change nothing else. */
  lemma {:induction false} UnstakingsReturn(s: State, due: seq<Address>, gifts: map<nat, nat>)
    requires Inv(s, gifts) && AllThere(s, due)
    ensures DeleteFinishedUnstaking(s, due).Some?
    ensures var t := DeleteFinishedUnstaking(s, due).value;
      && Moved(s, t, Returns(s.validators, due))
      && (forall a :: a in t.validators <==> a in s.validators && a !in due)
      && (forall a :: a in t.validators ==> t.validators[a] == s.validators[a])
      && t == s.(accounts := t.accounts, validators := t.validators, staked := t.staked)
    decreases |due|
  {
    if due != [] {
      var a := due[0];
      ReturnMoves(s, a, gifts);
      FinishUnstakingKeeps(s, a, gifts);
      var s1 := FinishUnstaking(s, a).value;
      RestIsThere(s, s1, due);
      UnstakingsReturn(s1, due[1..], gifts);
      assert a !in due[1..];
      ReturnsOfOthers(s.validators, a, due[1..]);
      MovedInTurn(s, s1, DeleteFinishedUnstaking(s, due).value,
                  [Transfer(Bond(a), Purse(s.validators[a].output), s.validators[a].stake)], Returns(s.validators, due[1..]));
    }
  }

  // ---------------------------------------------------------------------------------------------
  // Distribution of rewards
  // ---------------------------------------------------------------------------------------------

  /** Where a stub's reward goes: the stake of a compounding validator that is not unstaking, another validator's output, or the address. */
  function PlaceOf(validators: map<Address, Validator>, stub: Rewards.Stub): Place {
    if stub.address !in validators then Purse(stub.address)
    else if validators[stub.address].compound && validators[stub.address].unstakingHeight == 0 then Bond(stub.address)
    else Purse(validators[stub.address].output)
  }

  function RewardOf(s: State, stub: Rewards.Stub, pool: nat, samples: nat): nat {
    Rewards.Reward(stub, pool, samples, s.params.earlyWithdrawalPenalty, Compounding(s.validators))
  }

  /** Every stub's reward, paid from one place. */
  function Payouts(s: State, stubs: seq<Rewards.Stub>, pool: nat, samples: nat, from: Place): seq<Transfer> {
    if stubs == [] then []
    else
      var last := stubs[|stubs| - 1];
      Payouts(s, stubs[..|stubs| - 1], pool, samples, from) + [Transfer(from, PlaceOf(s.validators, last), RewardOf(s, last, pool, samples))]
  }

  lemma StubMoves(s: State, stub: Rewards.Stub, pool: nat, samples: nat)
    requires s.staked == StakeSum(s) && PayStub(s, stub, pool, samples).Some?
    ensures Moved(s, PayStub(s, stub, pool, samples).value, [Transfer(Nowhere, PlaceOf(s.validators, stub), RewardOf(s, stub, pool, samples))])
  {
    var t, to, n := PayStub(s, stub, pool, samples).value, PlaceOf(s.validators, stub), RewardOf(s, stub, pool, samples);
    Single(Nowhere, to, n);
    forall p: Place | p != Nowhere
      ensures At(t, p) == At(s, p) + if p == to then n else 0
    {
      match p
      case Purse(a) => StubReachesItsOwner(s, stub, pool, samples, Recipient.Account(a));
      case Bond(a) => StubReachesItsOwner(s, stub, pool, samples, Recipient.Stake(a));
      case Vault(id) => PayStubSum(s, stub, pool, samples);
    }
  }

  lemma SamePlace(s: State, t: State, stub: Rewards.Stub, pool: nat, samples: nat)
    requires SameRoles(s.validators, t.validators) && t.params == s.params
    ensures PlaceOf(t.validators, stub) == PlaceOf(s.validators, stub) && RewardOf(t, stub, pool, samples) == RewardOf(s, stub, pool, samples)
  {
    assert Compounding(t.validators) == Compounding(s.validators);
  }

  lemma {:induction false} StubsMove(s: State, stubs: seq<Rewards.Stub>, pool: nat, samples: nat)
    requires s.staked == StakeSum(s) && PayStubs(s, stubs, pool, samples).Some?
    ensures Moved(s, PayStubs(s, stubs, pool, samples).value, Payouts(s, stubs, pool, samples, Nowhere))
    decreases |stubs|
  {
    if stubs != [] {
      var prefix, last := stubs[..|stubs| - 1], stubs[|stubs| - 1];
      var s1 := PayStubs(s, prefix, pool, samples).value;
      StubsMove(s, prefix, pool, samples);
      PayStubsSum(s, prefix, pool, samples);
      RewardsReachTheirOwners(s, prefix, pool, samples, Recipient.Account(0));
      SamePlace(s, s1, last, pool, samples);
      StubMoves(s1, last, pool, samples);
      MovedInTurn(s, s1, PayStubs(s, stubs, pool, samples).value, Payouts(s, prefix, pool, samples, Nowhere),
                  [Transfer(Nowhere, PlaceOf(s.validators, last), RewardOf(s, last, pool, samples))]);
    }
  }

  /** Who pays does not matter to those who are paid. */
  lemma {:induction false} PayoutFlows(s: State, stubs: seq<Rewards.Stub>, pool: nat, samples: nat, from: Place, p: Place)
    ensures In(Payouts(s, stubs, pool, samples, from), p) == In(Payouts(s, stubs, pool, samples, Nowhere), p)
    ensures Out(Payouts(s, stubs, pool, samples, from), p) ==
      if p == from then Rewards.Distributed(stubs, pool, samples, s.params.earlyWithdrawalPenalty, Compounding(s.validators)) else 0
    decreases |stubs|
  {
    if stubs != [] {
      var prefix, last := stubs[..|stubs| - 1], stubs[|stubs| - 1];
      var to, n := PlaceOf(s.validators, last), RewardOf(s, last, pool, samples);
      PayoutFlows(s, prefix, pool, samples, from, p);
      Single(from, to, n);
      Single(Nowhere, to, n);
      FlowsAdd(Payouts(s, prefix, pool, samples, from), [Transfer(from, to, n)], p);
      FlowsAdd(Payouts(s, prefix, pool, samples, Nowhere), [Transfer(Nowhere, to, n)], p);
    }
  }

  /** A committee's pool pays every stub; what rounding and penalties leave in it is burned. */
  function Rewarding(s: State, c: Committee): seq<Transfer> {
    var pool := s.Pool(c.chain);
    var burned := if Distributed(s, c) <= pool then pool - Distributed(s, c) else 0;
    Payouts(s, c.data.stubs, pool, c.data.samples, Vault(c.chain)) + [Transfer(Vault(c.chain), Nowhere, burned)]
  }

  lemma {:induction false} PaymentsFit(s: State, stubs: seq<Rewards.Stub>, pool: nat, samples: nat)
    requires s.staked == StakeSum(s)
    requires Total(s.accounts) + s.staked + Rewards.Distributed(stubs, pool, samples, s.params.earlyWithdrawalPenalty, Compounding(s.validators)) <= MAX_UINT64
    ensures PayStubs(s, stubs, pool, samples).Some?
    decreases |stubs|
  {
    if stubs != [] {
      var prefix, last := stubs[..|stubs| - 1], stubs[|stubs| - 1];
      PaymentsFit(s, prefix, pool, samples);
      PayStubsSum(s, prefix, pool, samples);
      PaymentFits(PayStubs(s, prefix, pool, samples).value, last, pool, samples);
    }
  }

  lemma PaymentFits(s: State, stub: Rewards.Stub, pool: nat, samples: nat)
    requires Total(s.accounts) + s.staked + RewardOf(s, stub, pool, samples) <= MAX_UINT64
    ensures PayStub(s, stub, pool, samples).Some?
  {
    var n := RewardOf(s, stub, pool, samples);
    AccountAddTotal(s.accounts, stub.address, n);
    if stub.address in s.validators {
      AccountAddTotal(s.accounts, s.validators[stub.address].output, n);
    }
  }

  /** Distributing a committee's rewards never fails; its pool pays every stub, burns what is left, and is empty. */
  lemma DistributionMoves(s: State, c: Committee, gifts: map<nat, nat>)
    requires Inv(s, gifts) && Rewards.FairData(c.data, s.selfChain)
    ensures DistributeCommittee(s, c).Some?
    ensures c.data.stubs == [] ==> DistributeCommittee(s, c).value == s
    ensures c.data.stubs != [] ==> Moved(s, DistributeCommittee(s, c).value, Rewarding(s, c)) && Distributed(s, c) <= s.Pool(c.chain)
  {
    DistributionFits(s, c, gifts);
    if c.data.stubs != [] {
      var pool := s.Pool(c.chain);
      BalanceBelowTotal(s.pools, c.chain);
      PaymentsFit(s, c.data.stubs, pool, c.data.samples);
      var paid := PayStubs(s, c.data.stubs, pool, c.data.samples).value;
      StubsMove(s, c.data.stubs, pool, c.data.samples);
      PayStubsSum(s, c.data.stubs, pool, c.data.samples);
      BurnRestKeeps(s, paid, c.chain, Distributed(s, c), gifts);
      DistributeEmpties(s, c, paid);
      EmptyingMoves(s, c, paid);
    }
  }

  /** The table from the pool, against the table from nowhere by which the stubs were paid. */
  lemma RewardingFlows(s: State, c: Committee, p: Place)
    requires Distributed(s, c) <= s.Pool(c.chain) && p != Nowhere
    ensures In(Rewarding(s, c), p) == In(Payouts(s, c.data.stubs, s.Pool(c.chain), c.data.samples, Nowhere), p)
    ensures Out(Rewarding(s, c), p) == if p == Vault(c.chain) then s.Pool(c.chain) else 0
    ensures Out(Payouts(s, c.data.stubs, s.Pool(c.chain), c.data.samples, Nowhere), p) == 0
    ensures p == Vault(c.chain) ==> In(Rewarding(s, c), p) == 0
  {
    var stubs, pool, samples, from, burned: nat := c.data.stubs, s.Pool(c.chain), c.data.samples, Vault(c.chain), s.Pool(c.chain) - Distributed(s, c);
    Single(from, Nowhere, burned);
    PayoutFlows(s, stubs, pool, samples, from, p);
    PayoutFlows(s, stubs, pool, samples, Nowhere, p);
    FlowsAdd(Payouts(s, stubs, pool, samples, from), [Transfer(from, Nowhere, burned)], p);
    if p == from {
      NothingToVaults(s, stubs, pool, samples, Nowhere, c.chain);
    }
  }

  lemma EmptyingMovesAt(s: State, c: Committee, paid: State, p: Place)
    requires Moved(s, paid, Payouts(s, c.data.stubs, s.Pool(c.chain), c.data.samples, Nowhere)) && paid.pools == s.pools && p != Nowhere
    requires Distributed(s, c) <= s.Pool(c.chain) && s.Pool(c.chain) - Distributed(s, c) <= paid.total
    ensures At(Emptied(paid, c.chain, s.Pool(c.chain) - Distributed(s, c)), p) + Out(Rewarding(s, c), p) == At(s, p) + In(Rewarding(s, c), p)
  {
    RewardingFlows(s, c, p);
    var before := Payouts(s, c.data.stubs, s.Pool(c.chain), c.data.samples, Nowhere);
    assert At(paid, p) + Out(before, p) == At(s, p) + In(before, p);
  }

  lemma EmptyingMoves(s: State, c: Committee, paid: State)
    requires Moved(s, paid, Payouts(s, c.data.stubs, s.Pool(c.chain), c.data.samples, Nowhere)) && paid.pools == s.pools
    requires Distributed(s, c) <= s.Pool(c.chain) && s.Pool(c.chain) - Distributed(s, c) <= paid.total
    ensures Moved(s, Emptied(paid, c.chain, s.Pool(c.chain) - Distributed(s, c)), Rewarding(s, c))
  {
    forall p: Place | p != Nowhere
      ensures At(Emptied(paid, c.chain, s.Pool(c.chain) - Distributed(s, c)), p) + Out(Rewarding(s, c), p) == At(s, p) + In(Rewarding(s, c), p)
    {
      EmptyingMovesAt(s, c, paid, p);
    }
  }

  lemma {:induction false} NothingToVaults(s: State, stubs: seq<Rewards.Stub>, pool: nat, samples: nat, from: Place, id: nat)
    ensures In(Payouts(s, stubs, pool, samples, from), Vault(id)) == 0
    decreases |stubs|
  {
    if stubs != [] {
      var prefix, last := stubs[..|stubs| - 1], stubs[|stubs| - 1];
      NothingToVaults(s, prefix, pool, samples, from, id);
      Single(from, PlaceOf(s.validators, last), RewardOf(s, last, pool, samples));
      FlowsAdd(Payouts(s, prefix, pool, samples, from), [Transfer(from, PlaceOf(s.validators, last), RewardOf(s, last, pool, samples))], Vault(id));
    }
  }

  lemma {:induction false} DistributionNeverFailsFrom(s: State, i: nat, gifts: map<nat, nat>)
    requires Inv(s, gifts) && i <= |s.committees|
    ensures DistributeFrom(s, i).Some?
    decreases |s.committees| - i
  {
    if i < |s.committees| {
      DistributionMoves(s, s.committees[i], gifts);
      DistributeKeeps(s, s.committees[i], gifts);
      var s1 := DistributeCommittee(s, s.committees[i]).value;
      var s2 := s1.(committees := s.committees[i := Cleared(s.committees[i])]);
      CommitteesSpareRest(s1, s2, gifts);
      DistributionNeverFailsFrom(s2, i + 1, gifts);
    }
  }

  /** In every state with right books the distribution to all committees succeeds. */
  lemma DistributionNeverFails(s: State, gifts: map<nat, nat>)
    requires Inv(s, gifts)
    ensures DistributeCommitteeRewards(s).Some?
  {
    DistributionNeverFailsFrom(s, 0, gifts);
  }

  /** One committee's turn: its stubs are paid, its pool is emptied and its data is forgotten. */
  ghost predicate Rewarded(s: State, i: nat, t: State) {
    && i < |s.committees|
    && var c := s.committees[i];
    && (c.data.stubs == [] ==> t == s)
    && (c.data.stubs != [] ==>
          && Moved(s, t, Rewarding(s, c))
          && t.committees == s.committees[i := Committee(c.chain, Rewards.CommitteeData([], 0))]
          && SameRoles(s.validators, t.validators)
          && t == s.(accounts := t.accounts, pools := t.pools, validators := t.validators, committees := t.committees, total := t.total, staked := t.staked))
  }

  lemma CommitteeIsRewarded(s: State, i: nat, gifts: map<nat, nat>)
    requires Inv(s, gifts) && i < |s.committees|
    ensures DistributeCommittee(s, s.committees[i]).Some?
    ensures var t := DistributeCommittee(s, s.committees[i]).value.(committees := s.committees[i := Cleared(s.committees[i])]);
      Inv(t, gifts) && Rewarded(s, i, t)
  {
    var c := s.committees[i];
    DistributionMoves(s, c, gifts);
    DistributeKeeps(s, c, gifts);
    var t := DistributeCommittee(s, c).value;
    CommitteesSpareRest(t, t.(committees := s.committees[i := Cleared(c)]), gifts);
    if c.data.stubs == [] {
      assert s.committees[i := c] == s.committees;
    } else {
      DistributionSparesRest(s, c);
      assert forall p: Place :: At(t.(committees := s.committees[i := Cleared(c)]), p) == At(t, p);
    }
  }

  lemma DistributionSparesRest(s: State, c: Committee)
    requires s.staked == StakeSum(s) && DistributeCommittee(s, c).Some?
    ensures var t := DistributeCommittee(s, c).value;
      && SameRoles(s.validators, t.validators)
      && t == s.(accounts := t.accounts, pools := t.pools, validators := t.validators, total := t.total, staked := t.staked)
  {
    if c.data.stubs != [] {
      PayStubsSum(s, c.data.stubs, s.Pool(c.chain), c.data.samples);
      RewardsReachTheirOwners(s, c.data.stubs, s.Pool(c.chain), c.data.samples, Recipient.Account(0));
    }
  }

  /** states are the books before each committee's turn, from the i-th on, and after the last. */
  ghost predicate RewardsFollow(states: seq<State>, i: nat) {
    |states| != 0 && forall k :: 0 <= k < |states| - 1 ==> Rewarded(states[k], i + k, states[k + 1])
  }

  lemma OneMoreReward(s: State, states: seq<State>, i: nat)
    requires RewardsFollow(states, i + 1) && Rewarded(s, i, states[0])
    ensures RewardsFollow([s] + states, i)
  {
    var all := [s] + states;
    forall k | 0 <= k < |all| - 1
      ensures Rewarded(all[k], i + k, all[k + 1])
    {
      if k > 0 {
        assert Rewarded(states[k - 1], i + 1 + (k - 1), states[k - 1 + 1]);
      }
    }
  }

  /** The committees from the i-th on are rewarded one by one, each from the books that the ones before have left. */
  lemma {:induction false} CommitteesAreRewardedInTurn(s: State, i: nat, gifts: map<nat, nat>) returns (states: seq<State>)
    requires Inv(s, gifts) && i <= |s.committees|
    ensures |states| == |s.committees| - i + 1 && RewardsFollow(states, i)
    ensures states[0] == s && DistributeFrom(s, i) == Some(states[|s.committees| - i])
    decreases |s.committees| - i
  {
    states := [s];
    if i < |s.committees| {
      CommitteeIsRewarded(s, i, gifts);
      var t := DistributeCommittee(s, s.committees[i]).value.(committees := s.committees[i := Cleared(s.committees[i])]);
      var rest := CommitteesAreRewardedInTurn(t, i + 1, gifts);
      OneMoreReward(s, rest, i);
      states := [s] + rest;
    }
  }

  // ---------------------------------------------------------------------------------------------
  // Nobody pays for others
  // ---------------------------------------------------------------------------------------------

  /** The step spends from the account: its holder sends the transaction or pays its message, or sells or provides in the exchange. */
  predicate Spends(s: State, step: Step, a: Address) {
    match step
    case Deliver(t) => t.sender == a || 0 < Out(Moves(s, t.message), Purse(a))
    case Trade(_, e) => (e.Sell? && e.order.address == a) || (e.Provide? && e.deposit.address == a)
    case _ => false
  }

  ghost predicate Grows(s: State, t: State, a: Address) {
    Balance(s.accounts, a) <= Balance(t.accounts, a)
  }

  lemma {:induction false} SwapsOnlyPay(s: State, swaps: seq<Swap>, chain: ChainId, a: Address)
    ensures Grows(s, HandleSwaps(s, swaps, chain), a)
    decreases |swaps|
  {
    if swaps != [] {
      SwapsOnlyPay(s, swaps[..|swaps| - 1], chain, a);
    }
  }

  lemma {:induction false} SlashesSpareAccounts(s: State, addresses: seq<Address>, chain: nat, percent: nat)
    requires SlashValidators(s, addresses, chain, percent).Some?
    ensures SlashValidators(s, addresses, chain, percent).value.accounts == s.accounts
    decreases |addresses|
  {
    if addresses != [] {
      SlashesSpareAccounts(s, addresses[..|addresses| - 1], chain, percent);
    }
  }

  lemma ResultsOnlyPay(s: State, r: Results, a: Address)
    requires HandleCertificateResults(s, r).Some?
    ensures Grows(s, HandleCertificateResults(s, r).value, a)
  {
    var s0 := HandleSwaps(s, r.swaps, r.chain);
    SwapsOnlyPay(s, r.swaps, r.chain, a);
    SlashesSpareAccounts(s0, r.nonSigners, r.chain, s.params.nonSignSlash);
    var s1 := SlashValidators(s0, r.nonSigners, r.chain, s.params.nonSignSlash).value;
    SlashesSpareAccounts(s1, r.doubleSigners, r.chain, s.params.doubleSignSlash);
  }

  lemma ChargesOnlyTheSender(s: State, u: State, t: Transaction, a: Address)
    requires Charged(s, t, u) && t.sender != a
    ensures Balance(u.accounts, a) == Balance(s.accounts, a)
  {
    Single(Nowhere, Purse(t.sender), TopUp(s, t));
    Single(Purse(t.sender), Vault(s.selfChain), t.fee);
    FlowsAdd([Transfer(Nowhere, Purse(t.sender), TopUp(s, t))], [Transfer(Purse(t.sender), Vault(s.selfChain), t.fee)], Purse(a));
    assert Charges(s, t) == [Transfer(Nowhere, Purse(t.sender), TopUp(s, t))] + [Transfer(Purse(t.sender), Vault(s.selfChain), t.fee)];
    assert At(u, Purse(a)) + Out(Charges(s, t), Purse(a)) == At(s, Purse(a)) + In(Charges(s, t), Purse(a));
  }

  lemma TransactionsOnlyTakeFromPayers(s: State, t: Transaction, a: Address, gifts: map<nat, nat>)
    requires Inv(s, gifts) && s.total + TopUp(s, t) + MessageMints(t.message) <= MAX_UINT64
    requires ApplyTransaction(s, t).Some? && t.sender != a && Out(Moves(s, t.message), Purse(a)) == 0
    ensures Grows(s, ApplyTransaction(s, t).value, a)
  {
    ChargesMove(s, t, gifts);
    ApplyCharges(s, t);
    var u := AccountToPool(MintToAccount(s, t.sender, TopUp(s, t)).value, t.sender, RewardPool(s.selfChain), t.fee).value;
    ChargesOnlyTheSender(s, u, t, a);
    if t.message.CertificateResults? {
      ResultsOnlyPay(u, t.message.results, a);
    } else {
      MessagesMoveExactly(u, t.message, gifts);
      SameTable(s, u, t.message);
      assert At(HandleMessage(u, t.message).value, Purse(a)) + Out(Moves(s, t.message), Purse(a)) == At(u, Purse(a)) + In(Moves(s, t.message), Purse(a));
    }
  }

  lemma {:induction false} MintingSparesAccounts(s: State, paid: seq<ChainId>, n: nat)
    ensures MintToPools(s, paid, n).accounts == s.accounts
    decreases |paid|
  {
    if paid != [] {
      MintingSparesAccounts(s, paid[..|paid| - 1], n);
    }
  }

  lemma {:induction false} UnstakingsOnlyPay(s: State, due: seq<Address>, a: Address)
    requires DeleteFinishedUnstaking(s, due).Some?
    ensures Grows(s, DeleteFinishedUnstaking(s, due).value, a)
    decreases |due|
  {
    if due != [] {
      UnstakingsOnlyPay(FinishUnstaking(s, due[0]).value, due[1..], a);
    }
  }

  lemma {:induction false} DistributionsOnlyPay(s: State, i: nat, a: Address, gifts: map<nat, nat>)
    requires Inv(s, gifts) && i <= |s.committees| && DistributeFrom(s, i).Some?
    ensures Grows(s, DistributeFrom(s, i).value, a)
    decreases |s.committees| - i
  {
    if i < |s.committees| {
      var c := s.committees[i];
      CommitteeIsRewarded(s, i, gifts);
      DistributionOnlyPays(s, c, a);
      DistributionsOnlyPay(DistributeCommittee(s, c).value.(committees := s.committees[i := Cleared(c)]), i + 1, a, gifts);
    }
  }

  lemma DistributionOnlyPays(s: State, c: Committee, a: Address)
    requires s.staked == StakeSum(s) && DistributeCommittee(s, c).Some?
    ensures Grows(s, DistributeCommittee(s, c).value, a)
  {
    if c.data.stubs != [] {
      RewardsReachTheirOwners(s, c.data.stubs, s.Pool(c.chain), c.data.samples, Recipient.Account(a));
    }
  }

  /** Whatever batch is handled, only its sellers and depositors have paid, and that was when they ordered. */
  lemma BatchesOnlyPay(c: Batches.Chain, remote: Batches.Batch, queue: seq<nat>, a: Address)
    requires Batches.Queueable(queue, remote.orders) && Batches.HandleDexBatch(c, Some(remote), queue).Some?
    ensures Balance(c.accounts, a) <= Balance(Batches.HandleDexBatch(c, Some(remote), queue).value.accounts, a)
  {
    if c.amount != 0 {
      var c1 := if remote.livenessFallback then Batches.LivenessFallback(c, c.Locked(), remote).value else c;
      if remote.livenessFallback {
        Payments.FallbackRefundsOwners(c, c.Locked(), remote, a);
      }
      DeliveriesOnlyPay(c1, remote, queue, a);
    }
  }

  lemma DeliveriesOnlyPay(c: Batches.Chain, remote: Batches.Batch, queue: seq<nat>, a: Address)
    requires Batches.Queueable(queue, remote.orders) && Batches.HandleRemoteBatch(c, remote, queue).Some?
    ensures Balance(c.accounts, a) <= Balance(Batches.HandleRemoteBatch(c, remote, queue).value.accounts, a)
  {
    if !remote.IsEmpty() {
      var r := Batches.ReceiptsForOurs(c, remote.Copy(), remote.poolSize).value;
      if !c.Locked().IsEmpty() && Batches.Answers(remote.Copy(), c.Locked()) {
        Payments.ReceiptsPayOwners(c, remote.Copy(), remote.poolSize, a);
      }
      if !r.waiting {
        Payments.ExecutionPaysOwners(r.chain, remote.Copy(), queue, r.mirror, a);
      }
    }
  }

  lemma TradesOnlyTakeFromPayers(c: Batches.Chain, e: Pipeline.Event, a: Address)
    requires !e.Outside? && (e.Deliver? ==> Amm.Permutation(e.queue, |e.batch.orders|))
    requires !(e.Sell? && e.order.address == a) && !(e.Provide? && e.deposit.address == a)
    ensures Balance(c.accounts, a) <= Balance(Solvency.Facing(c, e).accounts, a)
  {
    if e.Deliver? && Batches.HandleDexBatch(c, Some(e.batch), e.queue).Some? {
      BatchesOnlyPay(c, e.batch, e.queue, a);
    }
  }

  lemma StepsOnlyTakeFromPayers(s: State, step: Step, a: Address, gifts: map<nat, nat>)
    requires Inv(s, gifts) && MintFits(s, step) && !Spends(s, step, a)
    ensures Grows(s, Next(s, step), a)
  {
    if Apply(s, step).Some? {
      match step
      case Deliver(t) => TransactionsOnlyTakeFromPayers(s, t, a, gifts);
      case Fund(amount, paid) =>
        var m := BlockMintStats(amount, paid, s.params.daoPercentage);
        if m.Some? {
          MintingSparesAccounts(MintToPool(s, DAO_POOL, m.value.daoCut), paid, m.value.perCommittee);
        }
      case Certify(r) => ResultsOnlyPay(s, r, a);
      case Distribute => DistributionsOnlyPay(s, 0, a, gifts);
      case Finish(due) => UnstakingsOnlyPay(s, due, a);
      case Trade(chain, event) => TradesOnlyTakeFromPayers(ChainOf(s, chain), event, a);
      case NextBlock(_) =>
    }
  }

  lemma RunStepsOnlyTakeFromPayers(states: seq<State>, steps: seq<Step>, k: nat, a: Address, gifts: map<nat, nat>)
    requires Run(states, steps) && Inv(states[0], gifts) && CoveringRun(steps) && k < |steps|
    requires forall i :: 0 <= i < |steps| ==> MintFits(states[i], steps[i])
    requires !Spends(states[k], steps[k], a)
    ensures Grows(states[k], states[k + 1], a)
  {
    RunKeepsInv(states, steps, k, gifts);
    StepsOnlyTakeFromPayers(states[k], steps[k], a, Gifts(states, steps, k, gifts));
  }

  lemma {:induction false} GrowthAddsUp(states: seq<State>, j: nat, k: nat, a: Address)
    requires j <= k < |states|
    requires forall i :: j <= i < k ==> Grows(states[i], states[i + 1], a)
    ensures Grows(states[j], states[k], a)
  {
    if j < k {
      GrowthAddsUp(states, j, k - 1, a);
      assert Grows(states[k - 1], states[k - 1 + 1], a);
    }
  }

  /**
   Nobody pays for others. In every run, between any two of its states, the balance of an account that neither sends nor pays a
   transaction nor sells or provides in the exchange never falls, whatever is slashed, minted, distributed, swapped or sent by
   a counter chain.
   */
  lemma BalancesFallOnlyBySpending(states: seq<State>, steps: seq<Step>, j: nat, k: nat, a: Address, gifts: map<nat, nat>)
    requires Run(states, steps) && Inv(states[0], gifts) && CoveringRun(steps) && j <= k <= |steps|
    requires forall i :: 0 <= i < |steps| ==> MintFits(states[i], steps[i])
    requires forall i :: j <= i < k ==> !Spends(states[i], steps[i], a)
    ensures Balance(states[j].accounts, a) <= Balance(states[k].accounts, a)
  {
    forall i | j <= i < k
      ensures Grows(states[i], states[i + 1], a)
    {
      RunStepsOnlyTakeFromPayers(states, steps, i, a, gifts);
    }
    GrowthAddsUp(states, j, k, a);
  }
}
