/**
 The supply counters against the tokens themselves. Over every run of transactions, certificate results, block
 rewards, unstaking and exchange with any number of counter chains: the total supply is the sum of all accounts,
 pools and stakes, and the staked supply the sum of all stakes, exactly as long as every mint fits in 64 bits. The
 escrows are the open orders and the holding pools the pending operations, plus what subsidies put there.
 */
module Supply {
  import opened Options
  import opened Ledger
  import opened Arithmetic
  import opened Batches
  import opened Conservation
  import opened Books
  import Amm
  import Pipeline
  import Rewards
  import Slashing
  import Solvency

  // ---------------------------------------------------------------------------------------------
  // Sums
  // ---------------------------------------------------------------------------------------------

  function Stakes(validators: map<Address, Validator>): map<Address, nat> {
    map a | a in validators :: validators[a].stake
  }

  /** The amounts of the open orders on one chain. */
  function Escrowed(orders: map<nat, SellOrder>, chain: ChainId): map<nat, nat> {
    map id | id in orders && orders[id].chain == chain :: orders[id].amount
  }

  ghost function StakeSum(s: State): nat {
    Total(Stakes(s.validators))
  }

  /** All tokens there are. */
  ghost function Sum(s: State): nat {
    Total(s.accounts) + Total(s.pools) + StakeSum(s)
  }

  lemma StakesSet(validators: map<Address, Validator>, a: Address, v: Validator)
    ensures Total(Stakes(validators[a := v])) + Balance(Stakes(validators), a) == Total(Stakes(validators)) + v.stake
    ensures Balance(Stakes(validators), a) <= Total(Stakes(validators))
  {
    var before, after := Stakes(validators), Stakes(validators[a := v]);
    TotalWithout(after, a);
    assert after - {a} == before - {a};
    if a in before {
      TotalWithout(before, a);
    } else {
      assert before - {a} == before;
    }
  }

  lemma StakesWithout(validators: map<Address, Validator>, a: Address)
    requires a in validators
    ensures Total(Stakes(validators - {a})) + validators[a].stake == Total(Stakes(validators))
  {
    TotalWithout(Stakes(validators), a);
    assert Stakes(validators - {a}) == Stakes(validators) - {a};
  }

  lemma EscrowedAfter(orders: map<nat, SellOrder>, id: nat, o: SellOrder, chain: ChainId)
    ensures Total(Escrowed(orders[id := o], chain)) + Balance(Escrowed(orders, chain), id)
         == Total(Escrowed(orders, chain)) + if o.chain == chain then o.amount else 0
  {
    var before, after := Escrowed(orders, chain), Escrowed(orders[id := o], chain);
    assert before - {id} == after - {id};
    TotalApart(before, id);
    TotalApart(after, id);
  }

  lemma EscrowedWithout(orders: map<nat, SellOrder>, id: nat, chain: ChainId)
    ensures Total(Escrowed(orders - {id}, chain)) + Balance(Escrowed(orders, chain), id) == Total(Escrowed(orders, chain))
  {
    assert Escrowed(orders - {id}, chain) == Escrowed(orders, chain) - {id};
    TotalApart(Escrowed(orders, chain), id);
  }

  lemma TotalApart(m: map<nat, nat>, k: nat)
    ensures Total(m) == Balance(m, k) + Total(m - {k})
  {
    if k in m {
      TotalWithout(m, k);
    } else {
      assert m - {k} == m;
    }
  }

  lemma TwoBelowTotal(m: map<nat, nat>, j: nat, k: nat)
    requires j != k
    ensures Balance(m, j) + Balance(m, k) <= Total(m)
  {
    TotalApart(m, j);
    TotalApart(m - {j}, k);
  }

  // ---------------------------------------------------------------------------------------------
  // The invariant
  // ---------------------------------------------------------------------------------------------

  /** The counters are right and all tokens fit in 64 bits. */
  ghost predicate Counted(s: State) {
    s.total == Sum(s) <= MAX_UINT64 && s.staked == StakeSum(s)
  }

  ghost predicate FairCommittees(s: State) {
    forall i :: 0 <= i < |s.committees| ==> Rewards.FairData(s.committees[i].data, s.selfChain)
  }

  /** The escrow of every chain is what its open orders offer and what subsidies have put there. */
  ghost predicate EscrowExact(s: State, gifts: map<nat, nat>) {
    forall chain: ChainId :: s.Pool(EscrowPool(chain)) == Total(Escrowed(s.orders, chain)) + Balance(gifts, EscrowPool(chain))
  }

  /** One side of the exchange with a counter chain: its books, with the accounts and the two pools of this chain. */
  function ChainOf(s: State, id: ChainId): Chain
    requires id in s.dex
  {
    Chain(s.accounts, s.Pool(HoldingPool(id)), s.Pool(LiquidityPool(id)), s.dex[id].points, s.dex[id].locked, s.dex[id].next, s.dex[id].height)
  }

  /** What the exchange with a chain keeps for its pending operations. */
  function HeldIn(s: State, chain: ChainId): nat {
    if chain in s.dex then HeldFor(s.dex[chain].locked) + HeldFor(s.dex[chain].next) else 0
  }

  /** Every holding pool is what its pending operations and subsidies have put there. */
  ghost predicate HoldingsExact(s: State, gifts: map<nat, nat>) {
    forall chain: ChainId :: s.Pool(HoldingPool(chain)) == HeldIn(s, chain) + Balance(gifts, HoldingPool(chain))
  }

  /** The points cover their holders, and a lock is never empty. */
  ghost predicate Booked(d: Dex) {
    d.points.Covers() && (d.locked.Some? ==> !d.locked.value.IsEmpty())
  }

  ghost predicate DexBooked(s: State) {
    forall id :: id in s.dex ==> Booked(s.dex[id])
  }

  /** gifts: what subsidies have put into each pool. */
  ghost predicate Inv(s: State, gifts: map<nat, nat>) {
    Counted(s) && FairCommittees(s) && EscrowExact(s, gifts) && HoldingsExact(s, gifts) && DexBooked(s)
  }

  /** Only accounts, stakes, counters and pools without orders or exchange behind them differ. */
  ghost predicate Beside(s: State, t: State) {
    && t.selfChain == s.selfChain && t.committees == s.committees && t.orders == s.orders && t.dex == s.dex
    && (forall id :: !Free(id) ==> t.Pool(id) == s.Pool(id))
  }

  /** A pool without orders or exchange behind it. */
  predicate Free(id: nat) {
    && !(ESCROW_ADDEND < id <= ESCROW_ADDEND + MAX_CHAIN_ID)
    && !(HOLDING_ADDEND < id <= HOLDING_ADDEND + MAX_CHAIN_ID)
  }

  lemma BesideKeepsInv(s: State, t: State, gifts: map<nat, nat>)
    requires Inv(s, gifts) && Beside(s, t) && Counted(t)
    ensures Inv(t, gifts)
  {
    assert forall chain: ChainId :: !Free(EscrowPool(chain)) && !Free(HoldingPool(chain));
  }

  lemma CommitteesSpareRest(s: State, t: State, gifts: map<nat, nat>)
    requires Inv(s, gifts) && FairCommittees(t) && t == s.(committees := t.committees)
    ensures Inv(t, gifts) && Sum(t) == Sum(s)
  {
  }

  // ---------------------------------------------------------------------------------------------
  // Moving tokens
  // ---------------------------------------------------------------------------------------------

  lemma PoolAddSum(s: State, id: nat, n: nat)
    requires Sum(s) + n <= MAX_UINT64
    ensures Sum(s.PoolAdd(id, n)) == Sum(s) + n
    ensures s.PoolAdd(id, n).Pool(id) == s.Pool(id) + n
    ensures forall other :: other != id ==> s.PoolAdd(id, n).Pool(other) == s.Pool(other)
  {
    BalanceBelowTotal(s.pools, id);
    TotalOfSet(s.pools, id, s.Pool(id) + n);
  }

  lemma PoolSubSum(s: State, id: nat, n: nat)
    requires s.PoolSub(id, n).Some?
    ensures Sum(s.PoolSub(id, n).value) + n == Sum(s)
    ensures s.PoolSub(id, n).value.Pool(id) + n == s.Pool(id)
    ensures forall other :: other != id ==> s.PoolSub(id, n).value.Pool(other) == s.Pool(other)
  {
    TotalOfSet(s.pools, id, s.Pool(id) - n);
  }

  lemma CreditSum(s: State, a: Address, n: nat)
    ensures s.Credit(a, n).Some? ==> Sum(s.Credit(a, n).value) == Sum(s) + n
    ensures Sum(s) + n <= MAX_UINT64 ==> s.Credit(a, n).Some?
  {
    AccountAddTotal(s.accounts, a, n);
  }

  lemma DebitSum(s: State, a: Address, n: nat)
    ensures s.Debit(a, n).Some? ==> Sum(s.Debit(a, n).value) + n == Sum(s)
  {
    AccountSubTotal(s.accounts, a, n);
  }

  /** Paying from an account into a pool loses nothing, and the unchecked addition to the pool cannot overflow. */
  lemma AccountToPoolKeeps(s: State, a: Address, id: nat, n: nat)
    requires Counted(s) && AccountToPool(s, a, id, n).Some?
    ensures var t := AccountToPool(s, a, id, n).value;
      && Counted(t) && Sum(t) == Sum(s)
      && t == s.(accounts := t.accounts, pools := t.pools)
      && t.Pool(id) == s.Pool(id) + n && forall other :: other != id ==> t.Pool(other) == s.Pool(other)
  {
    DebitSum(s, a, n);
    PoolAddSum(s.Debit(a, n).value, id, n);
  }

  /** Paying from a pool into an account loses nothing, and fails exactly if the pool does not have the amount. */
  lemma PoolToAccountKeeps(s: State, id: nat, a: Address, n: nat)
    requires Counted(s)
    ensures PoolToAccount(s, id, a, n).Some? <==> n <= s.Pool(id)
    ensures PoolToAccount(s, id, a, n).Some? ==>
      var t := PoolToAccount(s, id, a, n).value;
      && Counted(t) && Sum(t) == Sum(s)
      && t == s.(accounts := t.accounts, pools := t.pools)
      && t.Pool(id) + n == s.Pool(id) && forall other :: other != id ==> t.Pool(other) == s.Pool(other)
  {
    if n <= s.Pool(id) {
      PoolSubSum(s, id, n);
      CreditSum(s.PoolSub(id, n).value, a, n);
    }
  }

  lemma MintToPoolKeeps(s: State, id: nat, n: nat)
    requires Counted(s) && s.total + n <= MAX_UINT64
    ensures var t := MintToPool(s, id, n);
      && Counted(t) && Sum(t) == Sum(s) + n
      && t == s.(pools := t.pools, total := s.total + n)
      && t.Pool(id) == s.Pool(id) + n && forall other :: other != id ==> t.Pool(other) == s.Pool(other)
  {
    PoolAddSum(s.AddToTotalSupply(n), id, n);
  }

  lemma MintToAccountKeeps(s: State, a: Address, n: nat)
    requires Counted(s) && s.total + n <= MAX_UINT64
    ensures MintToAccount(s, a, n).Some?
    ensures var t := MintToAccount(s, a, n).value;
      Counted(t) && Sum(t) == Sum(s) + n && t == s.(accounts := t.accounts, total := s.total + n)
  {
    CreditSum(s.AddToTotalSupply(n), a, n);
  }

  // ---------------------------------------------------------------------------------------------
  // Stakes
  // ---------------------------------------------------------------------------------------------

  /** The unchecked addition to the stake cannot overflow, because the checked one to the staked supply has not. */
  lemma UpdateStakeSum(s: State, a: Address, v: Validator, n: nat)
    requires s.staked == StakeSum(s)
    requires a in s.validators && v.stake == s.validators[a].stake
    requires UpdateValidatorStake(s, a, v, n).Some?
    ensures var t := UpdateValidatorStake(s, a, v, n).value;
      && t.staked == StakeSum(t) && Sum(t) == Sum(s) + n
      && t == s.(validators := s.validators[a := v.(stake := v.stake + n)], staked := s.staked + n)
  {
    StakesSet(s.validators, a, v.(stake := v.stake + n));
    assert Balance(Stakes(s.validators), a) == v.stake;
    assert Wrap(v.stake + n) == v.stake + n;
  }

  lemma DeleteValidatorSum(s: State, a: Address)
    requires s.staked == StakeSum(s) && a in s.validators
    ensures DeleteValidator(s, a).Some?
    ensures var t := DeleteValidator(s, a).value;
      && t.staked == StakeSum(t) && Sum(t) + s.validators[a].stake == Sum(s)
      && t == s.(validators := s.validators - {a}, staked := t.staked)
  {
    StakesWithout(s.validators, a);
  }

  /** Returning a stake never fails for a validator that exists. */
  lemma FinishUnstakingKeeps(s: State, a: Address, gifts: map<nat, nat>)
    requires Inv(s, gifts)
    ensures FinishUnstaking(s, a).Some? <==> a in s.validators
    ensures FinishUnstaking(s, a).Some? ==> Inv(FinishUnstaking(s, a).value, gifts) && Sum(FinishUnstaking(s, a).value) == Sum(s)
  {
    if a in s.validators {
      var v := s.validators[a];
      DeleteValidatorSum(s, a);
      AccountAddTotal(s.accounts, v.output, v.stake);
      var s1 := s.Credit(v.output, v.stake).value;
      DeleteValidatorSum(s1, a);
      BesideKeepsInv(s, DeleteValidator(s1, a).value, gifts);
    }
  }

  lemma {:induction false} FinishAllKeeps(s: State, due: seq<Address>, gifts: map<nat, nat>)
    requires Inv(s, gifts) && DeleteFinishedUnstaking(s, due).Some?
    ensures Inv(DeleteFinishedUnstaking(s, due).value, gifts) && Sum(DeleteFinishedUnstaking(s, due).value) == Sum(s)
    decreases |due|
  {
    if due != [] {
      FinishUnstakingKeeps(s, due[0], gifts);
      FinishAllKeeps(FinishUnstaking(s, due[0]).value, due[1..], gifts);
    }
  }

  /** The state after n of a stake has been burned; neither counter goes below zero. */
  function AfterBurn(s: State, validators: map<Address, Validator>, n: nat): State {
    s.(validators := validators, total := if n <= s.total then s.total - n else 0, staked := if n <= s.staked then s.staked - n else 0)
  }

  lemma BurnedKeepsInv(s: State, validators: map<Address, Validator>, n: nat, gifts: map<nat, nat>)
    requires Inv(s, gifts) && Total(Stakes(validators)) + n == StakeSum(s)
    ensures n <= s.total && n <= s.staked && Inv(AfterBurn(s, validators, n), gifts)
  {
    BesideKeepsInv(s, AfterBurn(s, validators, n), gifts);
  }

  /** Every address under the unstaking keys belongs to a validator, and occurs once. */
  ghost predicate AllThere(s: State, due: seq<Address>) {
    && (forall i :: 0 <= i < |due| ==> due[i] in s.validators)
    && (forall i, j :: 0 <= i < j < |due| ==> due[i] != due[j])
  }

  /** Finishing the unstakings of a height fails exactly if an address is repeated or has no validator any more. */
  lemma {:induction false} FinishFailsExactlyWhen(s: State, due: seq<Address>, gifts: map<nat, nat>)
    requires Inv(s, gifts)
    ensures DeleteFinishedUnstaking(s, due).None? <==> !AllThere(s, due)
    decreases |due|
  {
    if due != [] {
      FinishUnstakingKeeps(s, due[0], gifts);
      if due[0] in s.validators {
        var s1 := FinishUnstaking(s, due[0]).value;
        assert s1.validators == s.validators - {due[0]};
        FinishFailsExactlyWhen(s1, due[1..], gifts);
        RestIsThere(s, s1, due);
      }
    }
  }

  lemma RestIsThere(s: State, s1: State, due: seq<Address>)
    requires due != [] && due[0] in s.validators && s1.validators == s.validators - {due[0]}
    ensures AllThere(s1, due[1..]) <==> AllThere(s, due)
  {
    assert forall i :: 0 <= i < |due[1..]| ==> due[1..][i] == due[i + 1];
    if AllThere(s1, due[1..]) {
      forall i | 0 <= i < |due|
        ensures due[i] in s.validators && (0 < i ==> due[i] != due[0])
      {
        if 0 < i {
          assert due[i] == due[1..][i - 1];
        }
      }
      forall i, j | 0 <= i < j < |due|
        ensures due[i] != due[j]
      {
        if 0 < i {
          assert due[i] == due[1..][i - 1] && due[j] == due[1..][j - 1];
        }
      }
    }
  }

  /** The validators after a stake is lowered. */
  function Lowered(s: State, a: Address, w: Validator): map<Address, Validator> {
    if w.stake == 0 then s.validators - {a} else s.validators[a := w]
  }

  lemma LoweredSum(s: State, a: Address, w: Validator)
    requires a in s.validators
    ensures Total(Stakes(Lowered(s, a, w))) + s.validators[a].stake == StakeSum(s) + w.stake
    ensures s.validators[a].stake <= StakeSum(s)
  {
    StakesWithout(s.validators, a);
    StakesSet(s.validators, a, w);
  }

  lemma BurnStakeComputes(s: State, a: Address, w: Validator, n: nat)
    requires a in s.validators && w.stake + n == s.validators[a].stake <= s.staked <= MAX_UINT64
    requires n <= s.total
    ensures BurnStake(s, a, w) == Some(AfterBurn(s, Lowered(s, a, w), n))
  {
    assert Wrap(s.validators[a].stake - w.stake) == n;
  }

  /** Exactly what is taken from the stake leaves the total and the staked supply. */
  lemma BurnStakeKeeps(s: State, a: Address, w: Validator, gifts: map<nat, nat>)
    requires Inv(s, gifts) && a in s.validators && w.stake <= s.validators[a].stake
    ensures BurnStake(s, a, w) == Some(AfterBurn(s, Lowered(s, a, w), s.validators[a].stake - w.stake))
    ensures Inv(BurnStake(s, a, w).value, gifts)
  {
    var n: nat := s.validators[a].stake - w.stake;
    LoweredSum(s, a, w);
    BurnedKeepsInv(s, Lowered(s, a, w), n, gifts);
    BurnStakeComputes(s, a, w, n);
  }

  lemma StakeFits(s: State, a: Address)
    requires Counted(s) && a in s.validators
    ensures s.validators[a].stake <= MAX_UINT64
  {
    StakesWithout(s.validators, a);
  }

  lemma SlashesSpareInv(s: State, slashes: map<Address, map<nat, nat>>, gifts: map<nat, nat>)
    requires Inv(s, gifts)
    ensures Inv(s.(slashes := slashes), gifts) && Sum(s.(slashes := slashes)) == Sum(s)
  {
    BesideKeepsInv(s, s.(slashes := slashes), gifts);
  }

  /**
   A slash never fails. It burns exactly what the capped slash of `Slashing` takes from the stake, and the validator that
   is left is what `Slashing` leaves; it is deleted exactly if nothing is left.
   */
  lemma SlashKeeps(s: State, a: Address, chain: nat, percent: nat, gifts: map<nat, nat>)
    requires Inv(s, gifts) && a in s.validators && Slashing.WithinReach(Staked(s, a), chain, s.params.maxSlash)
    ensures SlashValidator(s, a, chain, percent).Some?
    ensures var t, left := SlashValidator(s, a, chain, percent).value, Slashing.Charged(Staked(s, a), chain, percent, s.params.maxSlash);
      && Inv(t, gifts)
      && left.stake <= s.validators[a].stake
      && t.total + s.validators[a].stake == s.total + left.stake
      && t.slashes == s.slashes[a := left.tracker]
      && t.validators == (if left.stake == 0 then s.validators - {a} else s.validators[a := AfterSlash(s, a, left)])
      && t.params == s.params && t.selfChain == s.selfChain
  {
    var left := Slashing.Charged(Staked(s, a), chain, percent, s.params.maxSlash);
    StakeFits(s, a);
    Slashing.ChargedStake(Staked(s, a), chain, percent, s.params.maxSlash);
    SlashesSpareInv(s, s.slashes[a := left.tracker], gifts);
    BurnStakeKeeps(s.(slashes := s.slashes[a := left.tracker]), a, AfterSlash(s, a, left), gifts);
  }

  /** The unstaking key of a validator outlives it: if it is slashed to nothing, the unstakings of its height cannot finish. */
  lemma SlashedAwayBlocksUnstaking(s: State, a: Address, chain: nat, percent: nat, due: seq<Address>, gifts: map<nat, nat>)
    requires Inv(s, gifts) && a in s.validators && a in due
    requires Slashing.WithinReach(Staked(s, a), chain, s.params.maxSlash)
    requires Slashing.Charged(Staked(s, a), chain, percent, s.params.maxSlash).stake == 0
    ensures SlashValidator(s, a, chain, percent).Some?
    ensures DeleteFinishedUnstaking(SlashValidator(s, a, chain, percent).value, due).None?
  {
    SlashKeeps(s, a, chain, percent, gifts);
    var t := SlashValidator(s, a, chain, percent).value;
    FinishFailsExactlyWhen(t, due, gifts);
    assert a !in t.validators;
  }

  /** What one slash burns. */
  function SlashBurns(s: State, a: Address, chain: nat, percent: nat): nat {
    if a !in s.validators || !Slashing.WithinReach(Staked(s, a), chain, s.params.maxSlash) then 0
    else
      var left := Slashing.Charged(Staked(s, a), chain, percent, s.params.maxSlash).stake;
      if s.validators[a].stake <= left then 0 else s.validators[a].stake - left
  }

  function SlashesBurn(s: State, addresses: seq<Address>, chain: nat, percent: nat): nat
    decreases |addresses|
  {
    if addresses == [] then 0
    else
      var prefix := addresses[..|addresses| - 1];
      SlashesBurn(s, prefix, chain, percent) +
      match SlashValidators(s, prefix, chain, percent)
      case None => 0
      case Some(s1) => SlashBurns(s1, addresses[|addresses| - 1], chain, percent)
  }

  lemma {:induction false} SlashAllKeeps(s: State, addresses: seq<Address>, chain: nat, percent: nat, gifts: map<nat, nat>)
    requires Inv(s, gifts)
    ensures SlashValidators(s, addresses, chain, percent).Some?
    ensures var t := SlashValidators(s, addresses, chain, percent).value;
      && Inv(t, gifts) && Sum(t) + SlashesBurn(s, addresses, chain, percent) == Sum(s)
      && t.params == s.params && t.selfChain == s.selfChain
    decreases |addresses|
  {
    if addresses != [] {
      var prefix := addresses[..|addresses| - 1];
      SlashAllKeeps(s, prefix, chain, percent, gifts);
      var s1, a := SlashValidators(s, prefix, chain, percent).value, addresses[|addresses| - 1];
      if a in s1.validators && Slashing.WithinReach(Staked(s1, a), chain, s1.params.maxSlash) {
        SlashKeeps(s1, a, chain, percent, gifts);
      }
    }
  }

  // ---------------------------------------------------------------------------------------------
  // Block rewards
  // ---------------------------------------------------------------------------------------------

  lemma MintToRewardPoolKeeps(s: State, chain: ChainId, n: nat, gifts: map<nat, nat>)
    requires Inv(s, gifts) && s.total + n <= MAX_UINT64
    ensures var t := MintToPool(s, RewardPool(chain), n);
      Inv(t, gifts) && Sum(t) == Sum(s) + n
  {
    MintToPoolKeeps(s, RewardPool(chain), n);
    assert Free(RewardPool(chain));
    BesideKeepsInv(s, MintToPool(s, RewardPool(chain), n), gifts);
  }

  lemma OneMore(k: nat, n: nat)
    ensures (k + 1) * n == k * n + n
  {
  }

  lemma {:induction false} MintToPoolsKeeps(s: State, paid: seq<ChainId>, n: nat, gifts: map<nat, nat>)
    requires Inv(s, gifts) && s.total + |paid| * n <= MAX_UINT64
    ensures var t := MintToPools(s, paid, n);
      Inv(t, gifts) && Sum(t) == Sum(s) + |paid| * n
    decreases |paid|
  {
    if paid != [] {
      var prefix, last := paid[..|paid| - 1], paid[|paid| - 1];
      OneMore(|prefix|, n);
      MintToPoolsKeeps(s, prefix, n, gifts);
      MintToRewardPoolKeeps(MintToPools(s, prefix, n), last, n, gifts);
    }
  }

  /** What a block mints: the DAO's cut and the same amount for every paid committee. */
  function BlockMinted(s: State, amount: nat, paid: seq<ChainId>): nat {
    match BlockMintStats(amount, paid, s.params.daoPercentage)
    case None => 0
    case Some(m) => m.daoCut + |paid| * m.perCommittee
  }

  lemma FundKeeps(s: State, amount: nat, paid: seq<ChainId>, gifts: map<nat, nat>)
    requires Inv(s, gifts) && s.total + BlockMinted(s, amount, paid) <= MAX_UINT64
    ensures var t := FundCommitteeRewardPools(s, amount, paid);
      Inv(t, gifts) && Sum(t) == Sum(s) + BlockMinted(s, amount, paid)
  {
    match BlockMintStats(amount, paid, s.params.daoPercentage)
    case None =>
    case Some(m) =>
      MintToPoolKeeps(s, DAO_POOL, m.daoCut);
      BesideKeepsInv(s, MintToPool(s, DAO_POOL, m.daoCut), gifts);
      MintToPoolsKeeps(MintToPool(s, DAO_POOL, m.daoCut), paid, m.perCommittee, gifts);
  }

  lemma EqualParts(amount: nat, rest: nat, n: nat)
    requires rest <= amount && 0 < n
    ensures amount - n < amount - rest + n * (rest / n) <= amount
  {
    QuotientBounds(rest, n);
  }

  lemma AfterDaoCut(amount: nat, dao: nat)
    requires 0 < dao < 100 && amount <= MAX_UINT64
    ensures SafeMulDiv(amount, 100 - dao, 100) <= amount
  {
    ScaleUp(100 - dao, 100, amount);
    MulDivFits(amount, 100 - dao, 100, amount);
  }

  /** No more is minted than the block's tokens; what is less is the rounding of the committees' equal parts. */
  lemma BlockMintIsBounded(s: State, amount: nat, paid: seq<ChainId>)
    requires 0 < amount <= MAX_UINT64 && 0 < |paid|
    ensures amount - |paid| < BlockMinted(s, amount, paid) <= amount
  {
    var dao := s.params.daoPercentage;
    if 0 < dao < 100 {
      AfterDaoCut(amount, dao);
    }
    var rest := if dao >= 100 then 0 else if dao == 0 then amount else SafeMulDiv(amount, 100 - dao, 100);
    EqualParts(amount, rest, |paid|);
  }

  /** Reward recipients are paid on top; nothing else changes, and who compounds stays the same. */
  ghost predicate PaidOnTop(s: State, t: State, n: nat) {
    && Sum(t) == Sum(s) + n && t.staked == StakeSum(t)
    && Compounding(t.validators) == Compounding(s.validators)
    && t == s.(accounts := t.accounts, validators := t.validators, staked := t.staked)
  }

  lemma CreditOnTop(s: State, a: Address, n: nat)
    requires s.staked == StakeSum(s) && s.Credit(a, n).Some?
    ensures PaidOnTop(s, s.Credit(a, n).value, n)
  {
    CreditSum(s, a, n);
  }

  lemma CompoundOnTop(s: State, a: Address, n: nat)
    requires s.staked == StakeSum(s) && a in s.validators && UpdateValidatorStake(s, a, s.validators[a], n).Some?
    ensures PaidOnTop(s, UpdateValidatorStake(s, a, s.validators[a], n).value, n)
  {
    UpdateStakeSum(s, a, s.validators[a], n);
  }

  lemma PayStubSum(s: State, stub: Rewards.Stub, pool: nat, samples: nat)
    requires s.staked == StakeSum(s) && PayStub(s, stub, pool, samples).Some?
    ensures PaidOnTop(s, PayStub(s, stub, pool, samples).value,
                      Rewards.Reward(stub, pool, samples, s.params.earlyWithdrawalPenalty, Compounding(s.validators)))
  {
    var reward := Rewards.Reward(stub, pool, samples, s.params.earlyWithdrawalPenalty, Compounding(s.validators));
    if stub.address !in s.validators {
      CreditOnTop(s, stub.address, reward);
    } else if stub.address in Compounding(s.validators) {
      CompoundOnTop(s, stub.address, reward);
    } else {
      CreditOnTop(s, s.validators[stub.address].output, reward);
    }
  }

  lemma {:induction false} PayStubsSum(s: State, stubs: seq<Rewards.Stub>, pool: nat, samples: nat)
    requires s.staked == StakeSum(s) && PayStubs(s, stubs, pool, samples).Some?
    ensures PaidOnTop(s, PayStubs(s, stubs, pool, samples).value,
                      Rewards.Distributed(stubs, pool, samples, s.params.earlyWithdrawalPenalty, Compounding(s.validators)))
    decreases |stubs|
  {
    if stubs != [] {
      var prefix := stubs[..|stubs| - 1];
      PayStubsSum(s, prefix, pool, samples);
      PayStubSum(PayStubs(s, prefix, pool, samples).value, stubs[|stubs| - 1], pool, samples);
    }
  }

  /** Where a stub's reward goes: the stake of a compounding validator, another validator's output, or the address itself. */
  datatype Recipient = Account(a: Address) | Stake(a: Address)

  function RecipientOf(validators: map<Address, Validator>, stub: Rewards.Stub): Recipient {
    if stub.address !in validators then Recipient.Account(stub.address)
    else if stub.address in Compounding(validators) then Recipient.Stake(stub.address)
    else Recipient.Account(validators[stub.address].output)
  }

  /** What the stubs bring to one recipient. */
  function Received(s: State, stubs: seq<Rewards.Stub>, pool: nat, samples: nat, r: Recipient): nat
    decreases |stubs|
  {
    if stubs == [] then 0
    else
      var last := stubs[|stubs| - 1];
      Received(s, stubs[..|stubs| - 1], pool, samples, r)
      + if RecipientOf(s.validators, last) == r then Rewards.Reward(last, pool, samples, s.params.earlyWithdrawalPenalty, Compounding(s.validators)) else 0
  }

  function Holding(s: State, r: Recipient): nat {
    match r
    case Account(a) => Balance(s.accounts, a)
    case Stake(a) => Balance(Stakes(s.validators), a)
  }

  /** The validators are the same but for their stakes. */
  ghost predicate SameRoles(v: map<Address, Validator>, w: map<Address, Validator>) {
    v.Keys == w.Keys && forall a :: a in v ==> w[a] == v[a].(stake := w[a].stake)
  }

  lemma SameRolesSameRecipient(v: map<Address, Validator>, w: map<Address, Validator>, stub: Rewards.Stub)
    requires SameRoles(v, w)
    ensures RecipientOf(v, stub) == RecipientOf(w, stub)
  {
    assert Compounding(v) == Compounding(w);
  }

  lemma CreditReaches(s: State, a: Address, n: nat, r: Recipient)
    requires s.Credit(a, n).Some?
    ensures Holding(s.Credit(a, n).value, r) == Holding(s, r) + if r == Recipient.Account(a) then n else 0
    ensures SameRoles(s.validators, s.Credit(a, n).value.validators)
  {
  }

  lemma CompoundReaches(s: State, a: Address, n: nat, r: Recipient)
    requires s.staked == StakeSum(s) && a in s.validators && UpdateValidatorStake(s, a, s.validators[a], n).Some?
    ensures var t := UpdateValidatorStake(s, a, s.validators[a], n).value;
      Holding(t, r) == Holding(s, r) + (if r == Recipient.Stake(a) then n else 0) && SameRoles(s.validators, t.validators)
  {
    UpdateStakeSum(s, a, s.validators[a], n);
  }

  lemma StubReachesItsOwner(s: State, stub: Rewards.Stub, pool: nat, samples: nat, r: Recipient)
    requires s.staked == StakeSum(s) && PayStub(s, stub, pool, samples).Some?
    ensures var t := PayStub(s, stub, pool, samples).value;
      && SameRoles(s.validators, t.validators)
      && Holding(t, r) == Holding(s, r) + if RecipientOf(s.validators, stub) == r
           then Rewards.Reward(stub, pool, samples, s.params.earlyWithdrawalPenalty, Compounding(s.validators)) else 0
  {
    var reward := Rewards.Reward(stub, pool, samples, s.params.earlyWithdrawalPenalty, Compounding(s.validators));
    match RecipientOf(s.validators, stub)
    case Account(a) => CreditReaches(s, a, reward, r);
    case Stake(a) => CompoundReaches(s, a, reward, r);
  }

  /** Every account and every stake grows by exactly the rewards that are due to it, however often it is named. */
  lemma {:induction false} RewardsReachTheirOwners(s: State, stubs: seq<Rewards.Stub>, pool: nat, samples: nat, r: Recipient)
    requires s.staked == StakeSum(s) && PayStubs(s, stubs, pool, samples).Some?
    ensures var t := PayStubs(s, stubs, pool, samples).value;
      SameRoles(s.validators, t.validators) && Holding(t, r) == Holding(s, r) + Received(s, stubs, pool, samples, r)
    decreases |stubs|
  {
    if stubs != [] {
      var prefix, last := stubs[..|stubs| - 1], stubs[|stubs| - 1];
      RewardsReachTheirOwners(s, prefix, pool, samples, r);
      PayStubsSum(s, prefix, pool, samples);
      var s1 := PayStubs(s, prefix, pool, samples).value;
      SameRolesSameRecipient(s.validators, s1.validators, last);
      StubReachesItsOwner(s1, last, pool, samples, r);
    }
  }

  /** The state in which n of a committee's pool has been paid, the rest is burned and the pool is empty. */
  function Emptied(paid: State, id: nat, rest: nat): State
    requires rest <= paid.total
  {
    paid.(total := paid.total - rest, pools := SetBalance(paid.pools, id, 0))
  }

  /** Once n of the pool is paid on top, burning the rest and emptying the pool makes the books right again. */
  lemma BurnRestKeeps(s: State, paid: State, id: nat, n: nat, gifts: map<nat, nat>)
    requires Inv(s, gifts) && PaidOnTop(s, paid, n) && n <= s.Pool(id) && Free(id)
    ensures s.Pool(id) <= paid.total
    ensures var t := Emptied(paid, id, s.Pool(id) - n);
      Inv(t, gifts) && Beside(s, t) && t.Pool(id) == 0
  {
    BalanceBelowTotal(s.pools, id);
    TotalOfSet(s.pools, id, 0);
    BesideKeepsInv(s, Emptied(paid, id, s.Pool(id) - n), gifts);
  }

  /** What a committee's distribution computes, once its payments fit into its pool. */
  lemma DistributeEmpties(s: State, c: Committee, paid: State)
    requires c.data.stubs != [] && DistributeCommittee(s, c).Some?
    requires PayStubs(s, c.data.stubs, s.Pool(RewardPool(c.chain)), c.data.samples) == Some(paid)
    requires Distributed(s, c) <= s.Pool(RewardPool(c.chain)) <= MAX_UINT64
    ensures s.Pool(RewardPool(c.chain)) - Distributed(s, c) <= paid.total
    ensures DistributeCommittee(s, c).value == Emptied(paid, RewardPool(c.chain), s.Pool(RewardPool(c.chain)) - Distributed(s, c))
  {
  }

  lemma DistributionFits(s: State, c: Committee, gifts: map<nat, nat>)
    requires Inv(s, gifts) && Rewards.FairData(c.data, s.selfChain)
    ensures Distributed(s, c) <= s.Pool(RewardPool(c.chain)) <= MAX_UINT64
  {
    BalanceBelowTotal(s.pools, RewardPool(c.chain));
    Rewards.FairNeverOverDistributes(c.data, s.selfChain, s.Pool(RewardPool(c.chain)), s.params.earlyWithdrawalPenalty, Compounding(s.validators));
  }

  lemma StubsAreOnTop(s: State, c: Committee)
    requires s.staked == StakeSum(s)
    requires PayStubs(s, c.data.stubs, s.Pool(RewardPool(c.chain)), c.data.samples).Some?
    ensures PaidOnTop(s, PayStubs(s, c.data.stubs, s.Pool(RewardPool(c.chain)), c.data.samples).value, Distributed(s, c))
  {
    PayStubsSum(s, c.data.stubs, s.Pool(RewardPool(c.chain)), c.data.samples);
  }

  /** The stubs are paid, the rest of the pool leaves the total supply, and the pool is empty. */
  lemma DistributeKeeps(s: State, c: Committee, gifts: map<nat, nat>)
    requires Inv(s, gifts) && Rewards.FairData(c.data, s.selfChain)
    requires DistributeCommittee(s, c).Some?
    ensures var t, pool := DistributeCommittee(s, c).value, s.Pool(RewardPool(c.chain));
      && Inv(t, gifts) && Beside(s, t)
      && Distributed(s, c) <= pool
      && t.total + (if c.data.stubs == [] then 0 else pool - Distributed(s, c)) == s.total
      && t.Pool(RewardPool(c.chain)) == if c.data.stubs == [] then pool else 0
  {
    DistributionFits(s, c, gifts);
    if c.data.stubs != [] {
      var pool := s.Pool(RewardPool(c.chain));
      var paid := PayStubs(s, c.data.stubs, pool, c.data.samples).value;
      StubsAreOnTop(s, c);
      BurnRestKeeps(s, paid, RewardPool(c.chain), Distributed(s, c), gifts);
      DistributeEmpties(s, c, paid);
    }
  }

  /** What the distribution to one committee burns. */
  function DistributeBurns(s: State, c: Committee): nat {
    var pool := s.Pool(RewardPool(c.chain));
    if c.data.stubs == [] || pool <= Distributed(s, c) then 0 else pool - Distributed(s, c)
  }

  function DistributeFromBurns(s: State, i: nat): nat
    requires i <= |s.committees|
    decreases |s.committees| - i
  {
    if i == |s.committees| then 0
    else
      match DistributeCommittee(s, s.committees[i])
      case None => 0
      case Some(s1) =>
        DistributeBurns(s, s.committees[i])
        + DistributeFromBurns(s1.(committees := s.committees[i := Cleared(s.committees[i])]), i + 1)
  }

  lemma {:induction false} DistributeFromKeeps(s: State, i: nat, gifts: map<nat, nat>)
    requires i <= |s.committees|
    requires Inv(s, gifts) && DistributeFrom(s, i).Some?
    ensures Inv(DistributeFrom(s, i).value, gifts) && Sum(DistributeFrom(s, i).value) + DistributeFromBurns(s, i) == Sum(s)
    decreases |s.committees| - i
  {
    if i < |s.committees| {
      DistributeKeeps(s, s.committees[i], gifts);
      var s1 := DistributeCommittee(s, s.committees[i]).value;
      var s2 := s1.(committees := s.committees[i := Cleared(s.committees[i])]);
      CommitteesSpareRest(s1, s2, gifts);
      DistributeFromKeeps(s2, i + 1, gifts);
    }
  }

  // ---------------------------------------------------------------------------------------------
  // Orders
  // ---------------------------------------------------------------------------------------------

  /** The escrow follows the orders: an order changed by exactly what its escrow changed keeps everything right. */
  lemma OrderKeepsInv(s: State, t: State, id: nat, chain: ChainId, gifts: map<nat, nat>)
    requires Inv(s, gifts) && Counted(t)
    requires t.selfChain == s.selfChain && t.committees == s.committees && t.dex == s.dex
    requires forall other :: other != EscrowPool(chain) ==> t.Pool(other) == s.Pool(other)
    requires id in s.orders ==> s.orders[id].chain == chain
    requires
      || (t.orders == s.orders - {id} && t.Pool(EscrowPool(chain)) + Balance(Escrowed(s.orders, chain), id) == s.Pool(EscrowPool(chain)))
      || (id in t.orders && t.orders == s.orders[id := t.orders[id]] && t.orders[id].chain == chain
          && t.Pool(EscrowPool(chain)) + Balance(Escrowed(s.orders, chain), id) == s.Pool(EscrowPool(chain)) + t.orders[id].amount)
    ensures Inv(t, gifts)
  {
    forall c: ChainId
      ensures t.Pool(EscrowPool(c)) == Total(Escrowed(t.orders, c)) + Balance(gifts, EscrowPool(c))
    {
      assert s.Pool(EscrowPool(c)) == Total(Escrowed(s.orders, c)) + Balance(gifts, EscrowPool(c));
      if t.orders == s.orders - {id} {
        EscrowedWithout(s.orders, id, c);
      } else {
        EscrowedAfter(s.orders, id, t.orders[id], c);
      }
    }
    assert forall c: ChainId :: HoldingPool(c) != EscrowPool(chain);
  }

  /** The escrow covers every open order. */
  lemma EscrowCoversOrder(s: State, id: nat, gifts: map<nat, nat>)
    requires Inv(s, gifts) && id in s.orders
    ensures s.orders[id].amount <= s.Pool(EscrowPool(s.orders[id].chain))
  {
    var chain := s.orders[id].chain;
    BalanceBelowTotal(Escrowed(s.orders, chain), id);
    assert s.Pool(EscrowPool(chain)) == Total(Escrowed(s.orders, chain)) + Balance(gifts, EscrowPool(chain));
  }

  /** A locked order can always be closed: the escrow has its tokens, and the buyer's balance cannot overflow. */
  lemma CloseKeeps(s: State, id: nat, chain: ChainId, gifts: map<nat, nat>)
    requires Inv(s, gifts)
    ensures CloseOrder(s, id, chain).Some? <==> GetOrder(s, id, chain).Some? && GetOrder(s, id, chain).value.buyer.Some?
    ensures CloseOrder(s, id, chain).Some? ==> Inv(CloseOrder(s, id, chain).value, gifts) && Sum(CloseOrder(s, id, chain).value) == Sum(s)
  {
    if GetOrder(s, id, chain).Some? && GetOrder(s, id, chain).value.buyer.Some? {
      var o := GetOrder(s, id, chain).value;
      EscrowCoversOrder(s, id, gifts);
      PoolToAccountKeeps(s, EscrowPool(chain), o.buyer.value, o.amount);
      OrderKeepsInv(s, CloseOrder(s, id, chain).value, id, chain, gifts);
    }
  }

  lemma SwapKeeps(s: State, swap: Swap, chain: ChainId, gifts: map<nat, nat>)
    requires Inv(s, gifts)
    ensures HandleSwap(s, swap, chain).Some? ==>
      var t := HandleSwap(s, swap, chain).value;
      Inv(t, gifts) && Sum(t) == Sum(s) && t.params == s.params && t.selfChain == s.selfChain
  {
    match swap
    case Close(id) => CloseKeeps(s, id, chain, gifts);
    case _ =>
      if HandleSwap(s, swap, chain).Some? {
        OrderKeepsInv(s, HandleSwap(s, swap, chain).value, swap.id, chain, gifts);
      }
  }

  lemma {:induction false} SwapsKeep(s: State, swaps: seq<Swap>, chain: ChainId, gifts: map<nat, nat>)
    requires Inv(s, gifts)
    ensures var t := HandleSwaps(s, swaps, chain);
      Inv(t, gifts) && Sum(t) == Sum(s) && t.params == s.params && t.selfChain == s.selfChain
    decreases |swaps|
  {
    if swaps != [] {
      var prefix := swaps[..|swaps| - 1];
      SwapsKeep(s, prefix, chain, gifts);
      SwapKeeps(HandleSwaps(s, prefix, chain), swaps[|swaps| - 1], chain, gifts);
    }
  }

  // ---------------------------------------------------------------------------------------------
  // Certificate results
  // ---------------------------------------------------------------------------------------------

  lemma UpsertKeeps(s: State, chain: ChainId, stubs: seq<Rewards.Stub>, reduction: nat, gifts: map<nat, nat>)
    requires Inv(s, gifts) && Rewards.SumFor(stubs, s.selfChain) <= 100
    requires UpsertCommitteeData(s, chain, Rewards.Reduced(stubs, reduction)).Some?
    ensures var t := UpsertCommitteeData(s, chain, Rewards.Reduced(stubs, reduction)).value;
      Inv(t, gifts) && Sum(t) == Sum(s)
  {
    var t := UpsertCommitteeData(s, chain, Rewards.Reduced(stubs, reduction)).value;
    var i := Index(s.committees, chain);
    var data := if i < |s.committees| then s.committees[i].data else Rewards.CommitteeData([], 0);
    Rewards.CombineKeepsFair(data, stubs, reduction, s.selfChain);
    CommitteesSpareRest(s, t, gifts);
  }

  function ResultsBurn(s: State, r: Results): nat {
    var s0 := HandleSwaps(s, r.swaps, r.chain);
    SlashesBurn(s0, r.nonSigners, r.chain, s.params.nonSignSlash) +
    match SlashValidators(s0, r.nonSigners, r.chain, s.params.nonSignSlash)
    case None => 0
    case Some(s1) => SlashesBurn(s1, r.doubleSigners, r.chain, s.params.doubleSignSlash)
  }

  lemma ResultsKeep(s: State, r: Results, gifts: map<nat, nat>)
    requires Inv(s, gifts) && HandleCertificateResults(s, r).Some?
    ensures Inv(HandleCertificateResults(s, r).value, gifts) && Sum(HandleCertificateResults(s, r).value) + ResultsBurn(s, r) == Sum(s)
  {
    var s0 := HandleSwaps(s, r.swaps, r.chain);
    SwapsKeep(s, r.swaps, r.chain, gifts);
    SlashAllKeeps(s0, r.nonSigners, r.chain, s.params.nonSignSlash, gifts);
    var s1 := SlashValidators(s0, r.nonSigners, r.chain, s.params.nonSignSlash).value;
    SlashAllKeeps(s1, r.doubleSigners, r.chain, s.params.doubleSignSlash, gifts);
    var s2 := SlashValidators(s1, r.doubleSigners, r.chain, s.params.doubleSignSlash).value;
    UpsertKeeps(s2, r.chain, r.certificate.stubs, r.certificate.nonSignerPercent, gifts);
  }

  // ---------------------------------------------------------------------------------------------
  // Messages
  // ---------------------------------------------------------------------------------------------

  lemma StakeKeeps(s: State, m: Message, gifts: map<nat, nat>)
    requires Inv(s, gifts) && m.Stake? && HandleStake(s, m).Some?
    ensures Inv(HandleStake(s, m).value, gifts) && Sum(HandleStake(s, m).value) == Sum(s)
  {
    DebitSum(s, m.signer, m.amount);
    StakesSet(s.validators, m.validator, Validator(m.amount, m.committees, m.output, m.delegate, m.compound, 0));
    BesideKeepsInv(s, HandleStake(s, m).value, gifts);
  }

  /** What an account has paid goes into a stake. */
  lemma PaidStakeKeeps(s: State, s1: State, a: Address, v: Validator, n: nat, gifts: map<nat, nat>)
    requires Inv(s, gifts) && s1 == s.(accounts := s1.accounts) && Sum(s1) + n == Sum(s)
    requires a in s.validators && v.stake == s.validators[a].stake
    requires UpdateValidatorStake(s1, a, v, n).Some?
    ensures Inv(UpdateValidatorStake(s1, a, v, n).value, gifts) && Sum(UpdateValidatorStake(s1, a, v, n).value) == Sum(s)
  {
    UpdateStakeSum(s1, a, v, n);
    BesideKeepsInv(s, UpdateValidatorStake(s1, a, v, n).value, gifts);
  }

  lemma EditStakeKeeps(s: State, m: Message, gifts: map<nat, nat>)
    requires Inv(s, gifts) && m.EditStake? && HandleEditStake(s, m).Some?
    ensures Inv(HandleEditStake(s, m).value, gifts) && Sum(HandleEditStake(s, m).value) == Sum(s)
  {
    var v := s.validators[m.validator];
    var n := if m.amount <= v.stake then 0 else m.amount - v.stake;
    DebitSum(s, m.signer, n);
    PaidStakeKeeps(s, s.Debit(m.signer, n).value, m.validator, v.(committees := m.committees, output := m.output, compound := m.compound), n, gifts);
  }

  lemma UnstakeKeeps(s: State, m: Message, gifts: map<nat, nat>)
    requires Inv(s, gifts) && m.Unstake? && HandleUnstake(s, m).Some?
    ensures Inv(HandleUnstake(s, m).value, gifts) && Sum(HandleUnstake(s, m).value) == Sum(s)
  {
    StakesSet(s.validators, m.validator, HandleUnstake(s, m).value.validators[m.validator]);
    BesideKeepsInv(s, HandleUnstake(s, m).value, gifts);
  }

  lemma DAOTransferKeeps(s: State, m: Message, gifts: map<nat, nat>)
    requires Inv(s, gifts) && m.DAOTransfer? && HandleDAOTransfer(s, m).Some?
    requires m.mint ==> s.total + m.amount <= MAX_UINT64
    ensures var t := HandleDAOTransfer(s, m).value;
      Inv(t, gifts) && Sum(t) == Sum(s) + if m.mint then m.amount else 0
  {
    if m.mint {
      MintToPoolKeeps(s, DAO_POOL, m.amount);
    }
    PoolToAccountKeeps(if m.mint then MintToPool(s, DAO_POOL, m.amount) else s, DAO_POOL, m.to, m.amount);
    BesideKeepsInv(s, HandleDAOTransfer(s, m).value, gifts);
  }

  lemma CreateOrderKeeps(s: State, m: Message, gifts: map<nat, nat>)
    requires Inv(s, gifts) && m.CreateOrder? && HandleCreateOrder(s, m).Some?
    ensures Inv(HandleCreateOrder(s, m).value, gifts) && Sum(HandleCreateOrder(s, m).value) == Sum(s)
  {
    AccountToPoolKeeps(s, m.seller, EscrowPool(m.chain), m.amount);
    OrderKeepsInv(s, HandleCreateOrder(s, m).value, m.id, m.chain, gifts);
  }

  /** An order's amount is raised or lowered together with its escrow. */
  lemma EscrowFollowsKeeps(s: State, s1: State, id: nat, amount: nat, gifts: map<nat, nat>)
    requires Inv(s, gifts) && Counted(s1) && Sum(s1) == Sum(s)
    requires id in s.orders && s1 == s.(accounts := s1.accounts, pools := s1.pools)
    requires var escrow := EscrowPool(s.orders[id].chain);
      && s1.Pool(escrow) + s.orders[id].amount == s.Pool(escrow) + amount
      && forall other :: other != escrow ==> s1.Pool(other) == s.Pool(other)
    ensures var t := s1.(orders := s1.orders[id := s.orders[id].(amount := amount)]);
      Inv(t, gifts) && Sum(t) == Sum(s)
  {
    OrderKeepsInv(s, s1.(orders := s1.orders[id := s.orders[id].(amount := amount)]), id, s.orders[id].chain, gifts);
  }

  lemma ResizeEscrowKeeps(s: State, o: SellOrder, amount: nat)
    requires Counted(s) && ResizeEscrow(s, o, amount).Some?
    ensures var t, escrow := ResizeEscrow(s, o, amount).value, EscrowPool(o.chain);
      && Counted(t) && Sum(t) == Sum(s) && t == s.(accounts := t.accounts, pools := t.pools)
      && t.Pool(escrow) + o.amount == s.Pool(escrow) + amount
      && forall other :: other != escrow ==> t.Pool(other) == s.Pool(other)
  {
    if amount > o.amount {
      AccountToPoolKeeps(s, o.seller, EscrowPool(o.chain), amount - o.amount);
    } else if amount < o.amount {
      PoolToAccountKeeps(s, EscrowPool(o.chain), o.seller, o.amount - amount);
    }
  }

  lemma EditOrderKeeps(s: State, m: Message, gifts: map<nat, nat>)
    requires Inv(s, gifts) && m.EditOrder? && HandleEditOrder(s, m).Some?
    ensures Inv(HandleEditOrder(s, m).value, gifts) && Sum(HandleEditOrder(s, m).value) == Sum(s)
  {
    ResizeEscrowKeeps(s, s.orders[m.id], m.amount);
    EscrowFollowsKeeps(s, ResizeEscrow(s, s.orders[m.id], m.amount).value, m.id, m.amount, gifts);
  }

  /** An open order can always be deleted. */
  lemma DeleteOrderKeeps(s: State, m: Message, gifts: map<nat, nat>)
    requires Inv(s, gifts) && m.DeleteOrder?
    ensures HandleDeleteOrder(s, m).Some? <==> GetOrder(s, m.id, m.chain).Some? && GetOrder(s, m.id, m.chain).value.buyer.None?
    ensures HandleDeleteOrder(s, m).Some? ==> Inv(HandleDeleteOrder(s, m).value, gifts) && Sum(HandleDeleteOrder(s, m).value) == Sum(s)
  {
    if GetOrder(s, m.id, m.chain).Some? && GetOrder(s, m.id, m.chain).value.buyer.None? {
      var o := GetOrder(s, m.id, m.chain).value;
      EscrowCoversOrder(s, m.id, gifts);
      PoolToAccountKeeps(s, EscrowPool(m.chain), o.seller, o.amount);
      OrderKeepsInv(s, HandleDeleteOrder(s, m).value, m.id, m.chain, gifts);
    }
  }

  lemma SendKeeps(s: State, from: Address, to: Address, n: nat, gifts: map<nat, nat>)
    requires Inv(s, gifts) && HandleMessage(s, Send(from, to, n)).Some?
    ensures Inv(HandleMessage(s, Send(from, to, n)).value, gifts) && Sum(HandleMessage(s, Send(from, to, n)).value) == Sum(s)
  {
    DebitSum(s, from, n);
    var s1 := s.Debit(from, n).value;
    CreditSum(s1, to, n);
    BesideKeepsInv(s, s1.Credit(to, n).value, gifts);
  }

  /** Fees. */
  lemma AccountToRewardPoolKeeps(s: State, a: Address, chain: ChainId, n: nat, gifts: map<nat, nat>)
    requires Inv(s, gifts) && AccountToPool(s, a, RewardPool(chain), n).Some?
    ensures Inv(AccountToPool(s, a, RewardPool(chain), n).value, gifts) && Sum(AccountToPool(s, a, RewardPool(chain), n).value) == Sum(s)
  {
    AccountToPoolKeeps(s, a, RewardPool(chain), n);
    assert Free(RewardPool(chain));
    BesideKeepsInv(s, AccountToPool(s, a, RewardPool(chain), n).value, gifts);
  }

  lemma TopUpKeeps(s: State, a: Address, n: nat, gifts: map<nat, nat>)
    requires Inv(s, gifts) && s.total + n <= MAX_UINT64
    ensures MintToAccount(s, a, n).Some?
    ensures Inv(MintToAccount(s, a, n).value, gifts) && Sum(MintToAccount(s, a, n).value) == Sum(s) + n
  {
    MintToAccountKeeps(s, a, n);
    BesideKeepsInv(s, MintToAccount(s, a, n).value, gifts);
  }

  /** What a message mints. */
  function MessageMints(m: Message): nat {
    if m.DAOTransfer? && m.mint then m.amount else 0
  }

  /** What a message burns, by slashing. */
  function MessageBurns(s: State, m: Message): nat {
    if m.CertificateResults? then ResultsBurn(s, m.results) else 0
  }

  /** What subsidies have put into each pool, after a message. */
  function Giving(m: Message, gifts: map<nat, nat>): map<nat, nat> {
    if m.Subsidy? then gifts[m.pool := Balance(gifts, m.pool) + m.amount] else gifts
  }

  lemma GiftKeepsPools(s: State, t: State, pool: nat, n: nat, gifts: map<nat, nat>)
    requires EscrowExact(s, gifts) && HoldingsExact(s, gifts)
    requires t.orders == s.orders && t.dex == s.dex
    requires t.Pool(pool) == s.Pool(pool) + n && forall other :: other != pool ==> t.Pool(other) == s.Pool(other)
    ensures EscrowExact(t, gifts[pool := Balance(gifts, pool) + n]) && HoldingsExact(t, gifts[pool := Balance(gifts, pool) + n])
  {
    var given := gifts[pool := Balance(gifts, pool) + n];
    assert forall id :: Balance(given, id) - Balance(gifts, id) == t.Pool(id) - s.Pool(id);
    forall chain: ChainId
      ensures t.Pool(EscrowPool(chain)) == Total(Escrowed(t.orders, chain)) + Balance(given, EscrowPool(chain))
    {
      assert s.Pool(EscrowPool(chain)) == Total(Escrowed(s.orders, chain)) + Balance(gifts, EscrowPool(chain));
    }
    forall chain: ChainId
      ensures t.Pool(HoldingPool(chain)) == HeldIn(t, chain) + Balance(given, HoldingPool(chain))
    {
      assert s.Pool(HoldingPool(chain)) == HeldIn(s, chain) + Balance(gifts, HoldingPool(chain));
    }
  }

  lemma GiftKeepsInv(s: State, from: Address, pool: nat, n: nat, t: State, gifts: map<nat, nat>)
    requires Inv(s, gifts) && AccountToPool(s, from, pool, n) == Some(t)
    ensures Inv(t, gifts[pool := Balance(gifts, pool) + n]) && Sum(t) == Sum(s)
  {
    AccountToPoolKeeps(s, from, pool, n);
    GiftKeepsPools(s, t, pool, n, gifts);
    assert t.committees == s.committees && t.dex == s.dex;
  }

  lemma SubsidyPays(s: State, m: Message)
    requires m.Subsidy? && HandleMessage(s, m).Some?
    ensures HandleMessage(s, m) == AccountToPool(s, m.from, m.pool, m.amount)
  {
  }

  /** A subsidy moves tokens into the pool that it names, and nothing else. */
  lemma SubsidyKeeps(s: State, m: Message, t: State, gifts: map<nat, nat>)
    requires m.Subsidy? && Inv(s, gifts) && HandleMessage(s, m) == Some(t)
    ensures Inv(t, Giving(m, gifts)) && Sum(t) == Sum(s)
  {
    SubsidyPays(s, m);
    GiftKeepsInv(s, m.from, m.pool, m.amount, t, gifts);
  }

  lemma OwnMessageKeeps(s: State, m: Message, gifts: map<nat, nat>)
    requires Inv(s, gifts) && s.total + MessageMints(m) <= MAX_UINT64
    requires !m.Subsidy? && HandleMessage(s, m).Some?
    ensures var t := HandleMessage(s, m).value;
      Inv(t, gifts) && Sum(t) + MessageBurns(s, m) == Sum(s) + MessageMints(m)
  {
    match m
    case Send(from, to, amount) => SendKeeps(s, from, to, amount, gifts);
    case Stake(_, _, _, _, _, _, _) => StakeKeeps(s, m, gifts);
    case EditStake(_, _, _, _, _, _) => EditStakeKeeps(s, m, gifts);
    case Unstake(_) => UnstakeKeeps(s, m, gifts);
    case DAOTransfer(_, _, _, _) => DAOTransferKeeps(s, m, gifts);
    case CreateOrder(_, _, _, _) => CreateOrderKeeps(s, m, gifts);
    case EditOrder(_, _, _) => EditOrderKeeps(s, m, gifts);
    case DeleteOrder(_, _) => DeleteOrderKeeps(s, m, gifts);
    case CertificateResults(r) => ResultsKeep(s, r, gifts);
  }

  lemma MessageKeeps(s: State, m: Message, gifts: map<nat, nat>)
    requires Inv(s, gifts) && s.total + MessageMints(m) <= MAX_UINT64
    requires HandleMessage(s, m).Some?
    ensures var t := HandleMessage(s, m).value;
      Inv(t, Giving(m, gifts)) && Sum(t) + MessageBurns(s, m) == Sum(s) + MessageMints(m)
  {
    if m.Subsidy? {
      SubsidyKeeps(s, m, HandleMessage(s, m).value, gifts);
    } else {
      OwnMessageKeeps(s, m, gifts);
    }
  }

  /** What a transaction burns: its message acts after the top-up and the fee. */
  function TransactionBurns(s: State, t: Transaction): nat {
    match MintToAccount(s, t.sender, TopUp(s, t))
    case None => 0
    case Some(s1) =>
      match AccountToPool(s1, t.sender, RewardPool(s.selfChain), t.fee)
      case None => 0
      case Some(s2) => MessageBurns(s2, t.message)
  }

  lemma TransactionKeeps(s: State, t: Transaction, gifts: map<nat, nat>)
    requires Inv(s, gifts) && s.total + TopUp(s, t) + MessageMints(t.message) <= MAX_UINT64
    requires ApplyTransaction(s, t).Some?
    ensures var u := ApplyTransaction(s, t).value;
      Inv(u, Giving(t.message, gifts)) && Sum(u) + TransactionBurns(s, t) == Sum(s) + TopUp(s, t) + MessageMints(t.message)
  {
    TopUpKeeps(s, t.sender, TopUp(s, t), gifts);
    var s1 := MintToAccount(s, t.sender, TopUp(s, t)).value;
    AccountToRewardPoolKeeps(s1, t.sender, s.selfChain, t.fee, gifts);
    var s2 := AccountToPool(s1, t.sender, RewardPool(s.selfChain), t.fee).value;
    MessageKeeps(s2, t.message, gifts);
  }

  // ---------------------------------------------------------------------------------------------
  // The exchange
  // ---------------------------------------------------------------------------------------------

  function WithChain(s: State, id: ChainId, c: Chain): State {
    s.(accounts := c.accounts,
       pools := SetBalance(SetBalance(s.pools, HoldingPool(id), c.holding), LiquidityPool(id), c.amount),
       dex := s.dex[id := Dex(c.points, c.locked, c.next, c.height)])
  }

  /** An event of the exchange itself, with an encodable batch if one is delivered. */
  ghost predicate Tradable(s: State, id: ChainId, e: Pipeline.Event) {
    && id in s.dex && !e.Outside?
    && (e.Deliver? ==> Solvency.Encodable(e.batch) && Amm.Permutation(e.queue, |e.batch.orders|))
  }

  lemma TradeKeeps(s: State, id: ChainId, e: Pipeline.Event, gifts: map<nat, nat>)
    requires Inv(s, gifts) && Tradable(s, id, e)
    requires e.Deliver? ==> Solvency.CoveringFallback(e.batch)
    ensures var t := WithChain(s, id, Solvency.Facing(ChainOf(s, id), e));
      Inv(t, gifts) && Sum(t) == Sum(s)
  {
    var c := ChainOf(s, id);
    assert Booked(s.dex[id]) && Surplus(c) == Balance(gifts, HoldingPool(id));
    TwoBelowTotal(s.pools, HoldingPool(id), LiquidityPool(id));
    Solvency.FacingConserves(c, e);
    var d := Solvency.Facing(c, e);
    PutChainSum(s, id, d);
    PutChainKeepsInv(s, id, d, gifts);
  }

  lemma PutChainSum(s: State, id: ChainId, d: Chain)
    requires id in s.dex && Funds(d) == Funds(ChainOf(s, id))
    ensures Sum(WithChain(s, id, d)) == Sum(s)
  {
    TotalOfSet(s.pools, HoldingPool(id), d.holding);
    TotalOfSet(SetBalance(s.pools, HoldingPool(id), d.holding), LiquidityPool(id), d.amount);
  }

  lemma PutChainPools(s: State, id: ChainId, d: Chain, other: nat)
    requires id in s.dex
    ensures WithChain(s, id, d).Pool(other) ==
      if other == HoldingPool(id) then d.holding else if other == LiquidityPool(id) then d.amount else s.Pool(other)
  {
  }

  lemma PutChainKeepsInv(s: State, id: ChainId, d: Chain, gifts: map<nat, nat>)
    requires Inv(s, gifts) && id in s.dex && Solvency.Accounted(d) && Surplus(d) == Balance(gifts, HoldingPool(id))
    requires Sum(WithChain(s, id, d)) == Sum(s)
    ensures Inv(WithChain(s, id, d), gifts)
  {
    var t := WithChain(s, id, d);
    forall chain: ChainId
      ensures t.Pool(EscrowPool(chain)) == Total(Escrowed(t.orders, chain)) + Balance(gifts, EscrowPool(chain))
    {
      PutChainPools(s, id, d, EscrowPool(chain));
      assert s.Pool(EscrowPool(chain)) == Total(Escrowed(s.orders, chain)) + Balance(gifts, EscrowPool(chain));
    }
    forall chain: ChainId
      ensures t.Pool(HoldingPool(chain)) == HeldIn(t, chain) + Balance(gifts, HoldingPool(chain))
    {
      PutChainPools(s, id, d, HoldingPool(chain));
      assert s.Pool(HoldingPool(chain)) == HeldIn(s, chain) + Balance(gifts, HoldingPool(chain));
    }
  }

  // ---------------------------------------------------------------------------------------------
  // Runs
  // ---------------------------------------------------------------------------------------------

  /** A new block starts with an empty slash tracker, under parameters that governance may have changed. */
  datatype Step =
    | Deliver(t: Transaction)
    | Fund(amount: nat, paid: seq<ChainId>)
    | Certify(r: Results)
    | Distribute
    | Finish(due: seq<Address>)
    | Trade(chain: ChainId, event: Pipeline.Event)
    | NextBlock(params: Params)

  ghost function Apply(s: State, step: Step): Option<State> {
    match step
    case Deliver(t) => ApplyTransaction(s, t)
    case Fund(amount, paid) => Some(FundCommitteeRewardPools(s, amount, paid))
    case Certify(r) => HandleCertificateResults(s, r)
    case Distribute => DistributeCommitteeRewards(s)
    case Finish(due) => DeleteFinishedUnstaking(s, due)
    case Trade(chain, event) => if Tradable(s, chain, event) then Some(WithChain(s, chain, Solvency.Facing(ChainOf(s, chain), event))) else None
    case NextBlock(params) => Some(s.(height := s.height + 1, params := params, slashes := map[]))
  }

  /** A handler that fails leaves no trace. */
  ghost function Next(s: State, step: Step): State {
    match Apply(s, step)
    case None => s
    case Some(t) => t
  }

  ghost predicate Run(states: seq<State>, steps: seq<Step>) {
    && |states| == |steps| + 1
    && forall k :: 0 <= k < |steps| ==> states[k + 1] == Next(states[k], steps[k])
  }

  /** What a step mints, if it succeeds. */
  ghost function Minted(s: State, step: Step): nat {
    if Apply(s, step).None? then 0
    else
      match step
      case Deliver(t) => TopUp(s, t) + MessageMints(t.message)
      case Fund(amount, paid) => BlockMinted(s, amount, paid)
      case _ => 0
  }

  /** What a step burns: slashes, and the rounding and penalties of rewards. */
  ghost function Burned(s: State, step: Step): nat {
    if Apply(s, step).None? then 0
    else
      match step
      case Deliver(t) => TransactionBurns(s, t)
      case Certify(r) => ResultsBurn(s, r)
      case Distribute => DistributeFromBurns(s, 0)
      case _ => 0
  }

  /** What subsidies have put into each pool, after a step. */
  ghost function Given(s: State, step: Step, gifts: map<nat, nat>): map<nat, nat> {
    if step.Deliver? && Apply(s, step).Some? then Giving(step.t.message, gifts) else gifts
  }

  ghost function Gifts(states: seq<State>, steps: seq<Step>, k: nat, gifts: map<nat, nat>): map<nat, nat>
    requires k <= |steps| && |states| == |steps| + 1
  {
    if k == 0 then gifts else Given(states[k - 1], steps[k - 1], Gifts(states, steps, k - 1, gifts))
  }

  ghost predicate MintFits(s: State, step: Step) {
    s.total + Minted(s, step) <= MAX_UINT64
  }

  /** If the step delivers a fallback of the exchange, the points it carries cover their holders. */
  ghost predicate Covering(step: Step) {
    step.Trade? && step.event.Deliver? ==> Solvency.CoveringFallback(step.event.batch)
  }

  /** The counters are right after the step, and tokens have come and gone exactly as it minted and burned. */
  ghost predicate Conserves(s: State, step: Step, t: State) {
    && t.total == Sum(t) && t.staked == StakeSum(t)
    && Sum(t) + Burned(s, step) == Sum(s) + Minted(s, step)
  }

  lemma StepConserves(s: State, step: Step, gifts: map<nat, nat>)
    requires Inv(s, gifts) && MintFits(s, step) && Covering(step)
    ensures Inv(Next(s, step), Given(s, step, gifts)) && Conserves(s, step, Next(s, step))
  {
    if Apply(s, step).Some? {
      match step
      case Deliver(t) => TransactionKeeps(s, t, gifts);
      case Fund(amount, paid) => FundKeeps(s, amount, paid, gifts);
      case Certify(r) => ResultsKeep(s, r, gifts);
      case Distribute => DistributeFromKeeps(s, 0, gifts);
      case Finish(due) => FinishAllKeeps(s, due, gifts);
      case Trade(chain, event) => TradeKeeps(s, chain, event, gifts);
      case NextBlock(_) => BesideKeepsInv(s, Next(s, step), gifts);
    }
  }

  lemma MintedMessageFits(s: State, m: Message)
    requires HandleMessage(s, m).Some? && (m.Send? || m.DAOTransfer?)
    ensures s.total <= MAX_UINT64 || 0 < MessageMints(m) ==> HandleMessage(s, m).value.total <= MAX_UINT64
  {
  }

  lemma MintedTransactionFits(s: State, t: Transaction)
    requires ApplyTransaction(s, t).Some? && 0 < TopUp(s, t) + MessageMints(t.message)
    ensures ApplyTransaction(s, t).value.total <= MAX_UINT64
    ensures TransactionBurns(s, t) == 0
  {
    var s1 := MintToAccount(s, t.sender, TopUp(s, t)).value;
    assert TopUp(s, t) != 0 ==> s1.total <= MAX_UINT64;
    var s2 := AccountToPool(s1, t.sender, RewardPool(s.selfChain), t.fee).value;
    assert s2.total == s1.total;
    MintedMessageFits(s2, t.message);
  }

  /** A counter that was added to is below its limit again, cut off or not; and what mints does not burn. */
  lemma MintedTotalFits(s: State, step: Step)
    requires 0 < Minted(s, step)
    ensures Next(s, step).total <= MAX_UINT64 && Burned(s, step) == 0
  {
    match step
    case Deliver(t) => MintedTransactionFits(s, t);
    case Fund(amount, paid) =>
  }

  /** A step that conserves must have minted within the limit. */
  lemma ConservingMintFits(s: State, step: Step, gifts: map<nat, nat>)
    requires Inv(s, gifts) && Conserves(s, step, Next(s, step))
    ensures MintFits(s, step)
  {
    if 0 < Minted(s, step) {
      MintedTotalFits(s, step);
    }
  }

  ghost predicate CoveringRun(steps: seq<Step>) {
    forall j :: 0 <= j < |steps| ==> Covering(steps[j])
  }

  /** In every run the escrows and the holding pools are exactly the open orders, the pending operations and the subsidies. */
  lemma {:induction false} RunKeepsInv(states: seq<State>, steps: seq<Step>, k: nat, gifts: map<nat, nat>)
    requires Run(states, steps) && Inv(states[0], gifts) && k <= |steps| && CoveringRun(steps)
    requires forall j :: 0 <= j < k ==> MintFits(states[j], steps[j])
    ensures Inv(states[k], Gifts(states, steps, k, gifts))
  {
    if k != 0 {
      RunKeepsInv(states, steps, k - 1, gifts);
      StepConserves(states[k - 1], steps[k - 1], Gifts(states, steps, k - 1, gifts));
    }
  }

  lemma {:induction false} ConservingRunFits(states: seq<State>, steps: seq<Step>, k: nat, gifts: map<nat, nat>)
    requires Run(states, steps) && Inv(states[0], gifts) && k <= |steps| && CoveringRun(steps)
    requires forall j :: 0 <= j < k ==> Conserves(states[j], steps[j], states[j + 1])
    ensures forall j :: 0 <= j < k ==> MintFits(states[j], steps[j])
  {
    if k != 0 {
      ConservingRunFits(states, steps, k - 1, gifts);
      RunKeepsInv(states, steps, k - 1, gifts);
      assert Conserves(states[k - 1], steps[k - 1], states[k - 1 + 1]);
      ConservingMintFits(states[k - 1], steps[k - 1], Gifts(states, steps, k - 1, gifts));
    }
  }

  /**
   In every run whose fallbacks carry points that cover their holders: after every step the total supply is the sum of all
   accounts, pools and stakes, the staked supply is the sum of all stakes, and tokens have come and gone exactly as minted
   and burned, if and only if no mint takes the total supply past 64 bits.
   */
  lemma SupplyTheorem(states: seq<State>, steps: seq<Step>, gifts: map<nat, nat>)
    requires Run(states, steps) && Inv(states[0], gifts) && CoveringRun(steps)
    ensures
      (forall k :: 0 <= k < |steps| ==> Conserves(states[k], steps[k], states[k + 1]))
      <==> (forall k :: 0 <= k < |steps| ==> MintFits(states[k], steps[k]))
  {
    if forall k :: 0 <= k < |steps| ==> MintFits(states[k], steps[k]) {
      forall k | 0 <= k < |steps|
        ensures Conserves(states[k], steps[k], states[k + 1])
      {
        RunKeepsInv(states, steps, k, gifts);
        StepConserves(states[k], steps[k], Gifts(states, steps, k, gifts));
      }
    }
    if forall k :: 0 <= k < |steps| ==> Conserves(states[k], steps[k], states[k + 1]) {
      ConservingRunFits(states, steps, |steps|, gifts);
    }
  }

  // ---------------------------------------------------------------------------------------------
  // Stray subsidies
  // ---------------------------------------------------------------------------------------------

  /** The escrows are exactly the open orders and the holding pools exactly the pending operations. */
  ghost predicate PoolsExact(s: State) {
    EscrowExact(s, map[]) && HoldingsExact(s, map[])
  }

  /** A subsidy that puts tokens into an escrow or holding pool. */
  ghost predicate Strays(s: State, step: Step) {
    && step.Deliver? && Apply(s, step).Some? && step.t.message.Subsidy?
    && 0 < step.t.message.amount && !Free(step.t.message.pool)
  }

  lemma PoolKind(id: nat)
    requires !Free(id)
    ensures (exists chain: ChainId :: id == EscrowPool(chain)) || (exists chain: ChainId :: id == HoldingPool(chain))
  {
    if ESCROW_ADDEND < id <= ESCROW_ADDEND + MAX_CHAIN_ID {
      var chain: ChainId := id - ESCROW_ADDEND;
      assert id == EscrowPool(chain);
    } else {
      var chain: ChainId := id - HOLDING_ADDEND;
      assert id == HoldingPool(chain);
    }
  }

  lemma FreeGiftsDoNotCount(s: State, gifts: map<nat, nat>)
    requires Inv(s, gifts) && forall id :: !Free(id) ==> Balance(gifts, id) == 0
    ensures Inv(s, map[])
  {
    assert forall chain: ChainId :: !Free(EscrowPool(chain)) && !Free(HoldingPool(chain));
    forall chain: ChainId
      ensures s.Pool(EscrowPool(chain)) == Total(Escrowed(s.orders, chain)) + Balance(map[], EscrowPool(chain))
    {
      assert s.Pool(EscrowPool(chain)) == Total(Escrowed(s.orders, chain)) + Balance(gifts, EscrowPool(chain));
    }
  }

  /** One step from exact pools leaves exact pools, unless it strays. */
  lemma StepKeepsPoolsExactlyWhen(s: State, step: Step)
    requires Inv(s, map[]) && MintFits(s, step) && Covering(step)
    ensures PoolsExact(Next(s, step)) <==> !Strays(s, step)
    ensures !Strays(s, step) ==> Inv(Next(s, step), map[])
  {
    var t, gifts := Next(s, step), Given(s, step, map[]);
    StepConserves(s, step, map[]);
    if Strays(s, step) {
      var id := step.t.message.pool;
      PoolKind(id);
      assert Balance(gifts, id) == step.t.message.amount;
      if chain: ChainId :| id == EscrowPool(chain) {
        assert t.Pool(EscrowPool(chain)) == Total(Escrowed(t.orders, chain)) + Balance(gifts, EscrowPool(chain));
      } else {
        var chain: ChainId :| id == HoldingPool(chain);
        assert t.Pool(HoldingPool(chain)) == HeldIn(t, chain) + Balance(gifts, HoldingPool(chain));
      }
    } else {
      FreeGiftsDoNotCount(t, gifts);
    }
  }

  lemma {:induction false} UnstrayedRunIsExact(states: seq<State>, steps: seq<Step>, k: nat)
    requires Run(states, steps) && Inv(states[0], map[]) && k <= |steps| && CoveringRun(steps)
    requires forall j :: 0 <= j < k ==> MintFits(states[j], steps[j]) && !Strays(states[j], steps[j])
    ensures Inv(states[k], map[])
  {
    if k != 0 {
      UnstrayedRunIsExact(states, steps, k - 1);
      StepKeepsPoolsExactlyWhen(states[k - 1], steps[k - 1]);
    }
  }

  lemma {:induction false} ExactRunIsUnstrayed(states: seq<State>, steps: seq<Step>, k: nat)
    requires Run(states, steps) && Inv(states[0], map[]) && k <= |steps| && CoveringRun(steps)
    requires forall j :: 0 <= j < |steps| ==> MintFits(states[j], steps[j])
    requires forall j :: 0 <= j <= |steps| ==> PoolsExact(states[j])
    ensures forall j :: 0 <= j < k ==> !Strays(states[j], steps[j])
  {
    if k != 0 {
      ExactRunIsUnstrayed(states, steps, k - 1);
      UnstrayedRunIsExact(states, steps, k - 1);
      assert PoolsExact(states[k - 1 + 1]);
      StepKeepsPoolsExactlyWhen(states[k - 1], steps[k - 1]);
    }
  }

  /**
   In every run: all escrows stay exactly the open orders and all holding pools exactly the pending operations, if and only if
   no subsidy puts tokens into one of these pools.
   */
  lemma PoolsStayExactExactlyWhen(states: seq<State>, steps: seq<Step>)
    requires Run(states, steps) && Inv(states[0], map[]) && CoveringRun(steps)
    requires forall j :: 0 <= j < |steps| ==> MintFits(states[j], steps[j])
    ensures (forall k :: 0 <= k <= |steps| ==> PoolsExact(states[k])) <==> (forall k :: 0 <= k < |steps| ==> !Strays(states[k], steps[k]))
  {
    if forall k :: 0 <= k <= |steps| ==> PoolsExact(states[k]) {
      ExactRunIsUnstrayed(states, steps, |steps|);
    }
    if forall k :: 0 <= k < |steps| ==> !Strays(states[k], steps[k]) {
      forall k | 0 <= k <= |steps|
        ensures PoolsExact(states[k])
      {
        UnstrayedRunIsExact(states, steps, k);
      }
    }
  }

  // ---------------------------------------------------------------------------------------------
  // Single inputs
  // ---------------------------------------------------------------------------------------------

  /** A full chain: one account holds as many tokens as a counter can count. */
  function FullState(): State {
    State(1, 2, Params(0, 0, 0, 0, 0, 0, 0, 0, 0, 0), map[0 := MAX_UINT64], map[], map[], map[], [], map[], map[], MAX_UINT64, 0)
  }

  /** The DAO mints one token and grants it. */
  function Grant(): Step {
    Deliver(Transaction(0, 0, DAOTransfer(1, 1, true, true), 0, false))
  }

  lemma FullStateIsCounted()
    ensures Inv(FullState(), map[])
  {
    var s := FullState();
    TotalApart(s.accounts, 0);
    assert s.accounts - {0} == map[];
    assert Stakes(s.validators) == map[];
    forall chain: ChainId
      ensures s.Pool(EscrowPool(chain)) == Total(Escrowed(s.orders, chain)) + Balance(map[], EscrowPool(chain))
    {
      assert Escrowed(s.orders, chain) == map[];
    }
  }

  lemma GrantMoves(s: State)
    requires s.pools == map[] && s.total == MAX_UINT64
    ensures HandleMessage(s, DAOTransfer(1, 1, true, true)) == s.(total := 0).Credit(1, 1)
  {
    var granted := s.(total := 0, pools := map[DAO_POOL := 1]);
    assert MintToPool(s, DAO_POOL, 1) == granted;
    assert granted.PoolSub(DAO_POOL, 1).value.pools == map[];
    assert granted.PoolSub(DAO_POOL, 1) == Some(s.(total := 0));
  }

  /** Without a fee an empty pool stays empty. */
  lemma NothingToPool(s: State, a: Address, id: nat)
    requires id !in s.pools
    ensures AccountToPool(s, a, id, 0) == Some(s)
  {
    assert SetBalance(s.pools, id, 0) == s.pools;
  }

  lemma FreeTransaction(s: State, t: Transaction)
    requires t.fee == 0 && !t.message.Send? && RewardPool(s.selfChain) !in s.pools
    ensures ApplyTransaction(s, t) == HandleMessage(s, t.message)
  {
    NothingToPool(s, t.sender, RewardPool(s.selfChain));
  }

  /** One mint too many: nothing fails, every token is there, and the total supply counts none of them. */
  lemma MintCanOverflow()
    ensures Inv(FullState(), map[]) && Apply(FullState(), Grant()).Some?
    ensures Next(FullState(), Grant()).total == 0 && Sum(Next(FullState(), Grant())) == MAX_UINT64 + 1
  {
    FullStateIsCounted();
    GrantApplies(FullState());
    CreditSum(FullState().(total := 0), 1, 1);
  }

  lemma GrantApplies(s: State)
    requires s.pools == map[] && s.total == MAX_UINT64
    ensures ApplyTransaction(s, Grant().t) == s.(total := 0).Credit(1, 1)
  {
    FreeTransaction(s, Grant().t);
    GrantMoves(s);
  }

  /** Somebody subsidizes the escrow pool of chain 1 with one token. */
  function Astray(): Step {
    Deliver(Transaction(0, 0, Subsidy(0, EscrowPool(1), 1, false), 0, false))
  }

  lemma AstrayMoves(s: State)
    requires s == FullState()
    ensures HandleMessage(s, Astray().t.message) == Some(s.(accounts := map[0 := MAX_UINT64 - 1], pools := map[EscrowPool(1) := 1]))
  {
    assert AccountSub(s.accounts, 0, 1).value == map[0 := MAX_UINT64 - 1];
  }

  /** A subsidy that no check refuses leaves a token in an escrow without orders. */
  lemma SubsidyCanStray()
    ensures Inv(FullState(), map[]) && MintFits(FullState(), Astray()) && Apply(FullState(), Astray()).Some?
    ensures Next(FullState(), Astray()).Pool(EscrowPool(1)) == 1 && Next(FullState(), Astray()).orders == map[]
    ensures !PoolsExact(Next(FullState(), Astray()))
  {
    FullStateIsCounted();
    FreeTransaction(FullState(), Astray().t);
    AstrayMoves(FullState());
    LonelyTokenIsInexact(Next(FullState(), Astray()));
  }

  lemma LonelyTokenIsInexact(s: State)
    requires s.Pool(EscrowPool(1)) == 1 && s.orders == map[]
    ensures !PoolsExact(s)
  {
    assert Escrowed(map[], 1) == map[];
    assert s.Pool(EscrowPool(1)) != Total(Escrowed(s.orders, 1)) + Balance(map[], EscrowPool(1));
  }
}
