/**
 The state machine that the handlers of `Books` update in place. Each handler is proved to succeed exactly when its
 function on states does, and then to leave exactly that state; what a failed one has written is rolled back.
 */
module Bookkeeper {
  import opened Options
  import opened Ledger
  import opened Arithmetic
  import opened Books
  import Rewards
  import Slashing

  class StateMachine {
    const selfChain: ChainId
    var height: nat
    var params: Params
    var accounts: map<Address, nat>
    var pools: map<nat, nat>
    var validators: map<Address, Validator>
    var orders: map<nat, SellOrder>
    var committees: seq<Committee>
    var dex: map<ChainId, Dex>
    var slashTracker: map<Address, map<nat, nat>>
    var total: nat
    var staked: nat

    function State(): Books.State
      reads this
    {
      Books.State(selfChain, height, params, accounts, pools, validators, orders, committees, dex, slashTracker, total, staked)
    }

    constructor (s: Books.State)
      ensures State() == s
    {
      selfChain, height, params, accounts, pools := s.selfChain, s.height, s.params, s.accounts, s.pools;
      validators, orders, committees, dex, slashTracker := s.validators, s.orders, s.committees, s.dex, s.slashes;
      total, staked := s.total, s.staked;
    }

    // -------------------------------------------------------------------------------------------
    // Accounts, pools and counters
    // -------------------------------------------------------------------------------------------

    method AccountAdd(a: Address, n: nat) returns (ok: bool)
      modifies this`accounts
      ensures ok <==> old(State()).Credit(a, n).Some?
      ensures ok ==> State() == old(State()).Credit(a, n).value
    {
      if n == 0 {
        return true;
      }
      var balance := Balance(accounts, a);
      if balance + n > MAX_UINT64 {
        return false;
      }
      accounts := SetBalance(accounts, a, balance + n);
      return true;
    }

    method AccountSub(a: Address, n: nat) returns (ok: bool)
      modifies this`accounts
      ensures ok <==> old(State()).Debit(a, n).Some?
      ensures ok ==> State() == old(State()).Debit(a, n).value
    {
      if n == 0 {
        return true;
      }
      var balance := Balance(accounts, a);
      if balance < n {
        return false;
      }
      accounts := SetBalance(accounts, a, balance - n);
      return true;
    }

    method PoolAdd(id: nat, n: nat)
      modifies this`pools
      ensures State() == old(State()).PoolAdd(id, n)
    {
      pools := SetBalance(pools, id, Wrap(Balance(pools, id) + n));
    }

    method PoolSub(id: nat, n: nat) returns (ok: bool)
      modifies this`pools
      ensures ok <==> old(State()).PoolSub(id, n).Some?
      ensures ok ==> State() == old(State()).PoolSub(id, n).value
    {
      if Balance(pools, id) < n {
        return false;
      }
      pools := SetBalance(pools, id, Balance(pools, id) - n);
      return true;
    }

    method SubFromTotalSupply(n: nat) returns (ok: bool)
      modifies this`total
      ensures ok <==> old(State()).SubFromTotalSupply(n).Some?
      ensures ok ==> State() == old(State()).SubFromTotalSupply(n).value
    {
      if total < n {
        return false;
      }
      total := total - n;
      return true;
    }

    method SubFromStakedSupply(n: nat) returns (ok: bool)
      modifies this`staked
      ensures ok <==> old(State()).SubFromStakedSupply(n).Some?
      ensures ok ==> State() == old(State()).SubFromStakedSupply(n).value
    {
      if staked < n {
        return false;
      }
      staked := staked - n;
      return true;
    }

    method AddToStakedSupply(n: nat) returns (ok: bool)
      modifies this`staked
      ensures ok <==> old(State()).AddToStakedSupply(n).Some?
      ensures ok ==> State() == old(State()).AddToStakedSupply(n).value
    {
      if staked + n > MAX_UINT64 {
        return false;
      }
      staked := staked + n;
      return true;
    }

    method MintToPool(id: nat, n: nat)
      modifies this`pools, this`total
      ensures State() == Books.MintToPool(old(State()), id, n)
    {
      total := Wrap(total + n);
      PoolAdd(id, n);
    }

    method MintToAccount(a: Address, n: nat) returns (ok: bool)
      modifies this`accounts, this`total
      ensures ok <==> Books.MintToAccount(old(State()), a, n).Some?
      ensures ok ==> State() == Books.MintToAccount(old(State()), a, n).value
    {
      if n == 0 {
        return true;
      }
      total := Wrap(total + n);
      ok := AccountAdd(a, n);
    }

    method AccountToPool(a: Address, id: nat, n: nat) returns (ok: bool)
      modifies this`accounts, this`pools
      ensures ok <==> Books.AccountToPool(old(State()), a, id, n).Some?
      ensures ok ==> State() == Books.AccountToPool(old(State()), a, id, n).value
    {
      ok := AccountSub(a, n);
      if ok {
        PoolAdd(id, n);
      }
    }

    method PoolToAccount(id: nat, a: Address, n: nat) returns (ok: bool)
      modifies this`accounts, this`pools
      ensures ok <==> Books.PoolToAccount(old(State()), id, a, n).Some?
      ensures ok ==> State() == Books.PoolToAccount(old(State()), id, a, n).value
    {
      ok := PoolSub(id, n);
      if ok {
        ok := AccountAdd(a, n);
      }
    }

    // -------------------------------------------------------------------------------------------
    // Validators
    // -------------------------------------------------------------------------------------------

    method UpdateValidatorStake(a: Address, v: Validator, n: nat) returns (ok: bool)
      modifies this`validators, this`staked
      ensures ok <==> Books.UpdateValidatorStake(old(State()), a, v, n).Some?
      ensures ok ==> State() == Books.UpdateValidatorStake(old(State()), a, v, n).value
    {
      ok := AddToStakedSupply(n);
      if ok {
        validators := validators[a := v.(stake := Wrap(v.stake + n))];
      }
    }

    method DeleteValidator(a: Address) returns (ok: bool)
      requires a in validators
      modifies this`validators, this`staked
      ensures ok <==> Books.DeleteValidator(old(State()), a).Some?
      ensures ok ==> State() == Books.DeleteValidator(old(State()), a).value
    {
      ok := SubFromStakedSupply(validators[a].stake);
      if ok {
        validators := validators - {a};
      }
    }

    method DeleteFinishedUnstaking(due: seq<Address>) returns (ok: bool)
      modifies this`accounts, this`validators, this`staked
      ensures ok <==> Books.DeleteFinishedUnstaking(old(State()), due).Some?
      ensures ok ==> State() == Books.DeleteFinishedUnstaking(old(State()), due).value
    {
      for i := 0 to |due|
        invariant Books.DeleteFinishedUnstaking(State(), due[i..]) == Books.DeleteFinishedUnstaking(old(State()), due)
      {
        assert due[i..][0] == due[i] && due[i..][1..] == due[i + 1..];
        if due[i] !in validators {
          return false;
        }
        ok := AccountAdd(validators[due[i]].output, validators[due[i]].stake);
        if !ok {
          return;
        }
        ok := DeleteValidator(due[i]);
        if !ok {
          return;
        }
      }
      return true;
    }

    /** The committees without the first occurrence of one. */
    method RemoveCommittee(ids: seq<nat>, chain: nat) returns (rest: seq<nat>)
      ensures rest == Slashing.Without(ids, chain)
    {
      for i := 0 to |ids|
        invariant forall j :: 0 <= j < i ==> ids[j] != chain
      {
        if ids[i] == chain {
          Slashing.WithoutFirst(ids, chain, i);
          return ids[..i] + ids[i + 1..];
        }
      }
      Slashing.WithoutNone(ids, chain);
      return ids;
    }

    /** Stores a validator with less stake, burning the difference; one without stake is deleted. */
    method BurnStake(a: Address, w: Validator) returns (ok: bool)
      requires a in validators
      modifies this`validators, this`staked, this`total
      ensures ok <==> Books.BurnStake(old(State()), a, w).Some?
      ensures ok ==> State() == Books.BurnStake(old(State()), a, w).value
    {
      var slashAmount := Wrap(validators[a].stake - w.stake);
      ok := SubFromTotalSupply(slashAmount);
      if !ok {
        return;
      }
      if w.stake == 0 {
        ok := DeleteValidator(a);
        return;
      }
      ok := SubFromStakedSupply(slashAmount);
      if ok {
        validators := validators[a := w];
      }
    }

    /** The percent after the cap, and the committees without the one that reaches it. */
    method CapSlash(v: Slashing.Staked, chain: nat, percent0: nat) returns (percent: nat, newCommittees: seq<nat>)
      requires Slashing.WithinReach(v, chain, params.maxSlash)
      ensures percent == Slashing.Capped(v, chain, percent0, params.maxSlash)
      ensures newCommittees == Slashing.Charged(v, chain, percent0, params.maxSlash).committees
    {
      percent, newCommittees := percent0, v.committees;
      var slashTotal := Slashing.Tracked(v.tracker, chain);
      if Wrap(slashTotal + percent) >= params.maxSlash {
        percent := params.maxSlash - slashTotal;
        newCommittees := RemoveCommittee(v.committees, chain);
      }
    }

    method SlashValidator(a: Address, chain: nat, percent0: nat) returns (ok: bool)
      modifies this`validators, this`staked, this`total, this`slashTracker
      ensures ok <==> Books.SlashValidator(old(State()), a, chain, percent0).Some?
      ensures ok ==> State() == Books.SlashValidator(old(State()), a, chain, percent0).value
    {
      if a !in validators {
        return true;
      }
      var validator := Staked(State(), a);
      var slashTotal := Slashing.Tracked(validator.tracker, chain);
      if chain !in validator.committees || slashTotal >= params.maxSlash {
        return true;
      }
      var percent, newCommittees := CapSlash(validator, chain, percent0);
      var tracker := validator.tracker[chain := Wrap(slashTotal + percent)];
      var left := Slashing.Staked(Slashing.StakeAfter(validator.stake, percent), newCommittees, tracker);
      assert left == Slashing.Charged(validator, chain, percent0, params.maxSlash);
      var after := AfterSlash(State(), a, left);
      slashTracker := slashTracker[a := tracker];
      ok := BurnStake(a, after);
    }

    method SlashValidators(addresses: seq<Address>, chain: nat, percent: nat) returns (ok: bool)
      modifies this`validators, this`staked, this`total, this`slashTracker
      ensures ok <==> Books.SlashValidators(old(State()), addresses, chain, percent).Some?
      ensures ok ==> State() == Books.SlashValidators(old(State()), addresses, chain, percent).value
    {
      for i := 0 to |addresses|
        invariant Books.SlashValidators(old(State()), addresses[..i], chain, percent) == Some(State())
      {
        assert addresses[..i + 1][..i] == addresses[..i];
        ok := SlashValidator(addresses[i], chain, percent);
        if !ok {
          SlashPrefixFails(old(State()), addresses, i + 1, chain, percent);
          return;
        }
      }
      assert addresses[..|addresses|] == addresses;
      return true;
    }

    // -------------------------------------------------------------------------------------------
    // Block rewards
    // -------------------------------------------------------------------------------------------

    method FundCommitteeRewardPools(amount: nat, paid: seq<ChainId>)
      modifies this`pools, this`total
      ensures State() == Books.FundCommitteeRewardPools(old(State()), amount, paid)
    {
      var stats := BlockMintStats(amount, paid, params.daoPercentage);
      if stats.None? {
        return;
      }
      MintToPool(DAO_POOL, stats.value.daoCut);
      ghost var funded := State();
      for i := 0 to |paid|
        invariant State() == MintToPools(funded, paid[..i], stats.value.perCommittee)
      {
        assert paid[..i + 1][..i] == paid[..i];
        MintToPool(RewardPool(paid[i]), stats.value.perCommittee);
      }
      assert paid[..|paid|] == paid;
    }

    method DistributeCommitteeReward(stub: Rewards.Stub, pool: nat, samples: nat) returns (ok: bool, distributed: nat)
      modifies this`accounts, this`validators, this`staked
      ensures ok <==> PayStub(old(State()), stub, pool, samples).Some?
      ensures ok ==> State() == PayStub(old(State()), stub, pool, samples).value
      ensures distributed == Allotment(old(State()), stub, pool, samples)
    {
      var fullReward := Rewards.FullReward(stub.percent, pool, samples);
      var earlyWithdrawalReward := Rewards.EarlyReward(fullReward, params.earlyWithdrawalPenalty);
      if stub.address !in validators {
        ok := AccountAdd(stub.address, earlyWithdrawalReward);
        return ok, earlyWithdrawalReward;
      }
      var validator := validators[stub.address];
      if validator.compound && validator.unstakingHeight == 0 {
        ok := UpdateValidatorStake(stub.address, validator, fullReward);
        return ok, fullReward;
      }
      ok := AccountAdd(validator.output, earlyWithdrawalReward);
      return ok, earlyWithdrawalReward;
    }

    /** Pays the stubs of one committee; a total that leaves 64 bits is an error. */
    method PayStubs(stubs: seq<Rewards.Stub>, pool: nat, samples: nat) returns (ok: bool, totalDistributed: nat)
      modifies this`accounts, this`validators, this`staked
      ensures ok <==> Books.PayStubs(old(State()), stubs, pool, samples).Some? && Allotted(old(State()), stubs, pool, samples) <= MAX_UINT64
      ensures ok ==> State() == Books.PayStubs(old(State()), stubs, pool, samples).value
      ensures ok ==> totalDistributed == Allotted(old(State()), stubs, pool, samples)
    {
      ok, totalDistributed := true, 0;
      ghost var s := State();
      for j := 0 to |stubs|
        invariant ok
        invariant Books.PayStubs(s, stubs[..j], pool, samples) == Some(State())
        invariant Compounding(validators) == Compounding(s.validators)
        invariant totalDistributed == Allotted(s, stubs[..j], pool, samples) <= MAX_UINT64
      {
        PayNext(s, stubs, j, pool, samples);
        var distributed;
        ok, distributed := DistributeCommitteeReward(stubs[j], pool, samples);
        if !ok {
          return;
        }
        if totalDistributed + distributed > MAX_UINT64 {
          ok := false;
          return;
        }
        totalDistributed := totalDistributed + distributed;
      }
      assert stubs[..|stubs|] == stubs;
    }

    /** Pays one committee, burns the rest of its pool and empties it. */
    method DistributeRewardPool(c: Committee) returns (ok: bool)
      modifies this`accounts, this`validators, this`staked, this`pools, this`total
      ensures ok <==> DistributeCommittee(old(State()), c).Some?
      ensures ok ==> State() == DistributeCommittee(old(State()), c).value
    {
      if c.data.stubs == [] {
        return true;
      }
      var rewardPool: int := Balance(pools, RewardPool(c.chain));
      var totalDistributed;
      ok, totalDistributed := PayStubs(c.data.stubs, rewardPool, c.data.samples);
      if !ok {
        return;
      }
      ok := SubFromTotalSupply(Wrap(rewardPool - totalDistributed));
      if ok {
        pools := SetBalance(pools, RewardPool(c.chain), 0);
      }
    }

    method DistributeCommitteeRewards() returns (ok: bool)
      modifies this`accounts, this`validators, this`staked, this`pools, this`total, this`committees
      ensures ok <==> Books.DistributeCommitteeRewards(old(State())).Some?
      ensures ok ==> State() == Books.DistributeCommitteeRewards(old(State())).value
    {
      for i := 0 to |committees|
        invariant |committees| == |old(committees)|
        invariant DistributeFrom(State(), i) == Books.DistributeCommitteeRewards(old(State()))
      {
        NextDistribution(State(), i);
        ok := DistributeRewardPool(committees[i]);
        if !ok {
          return;
        }
        committees := committees[i := Cleared(committees[i])];
      }
      return true;
    }

    // -------------------------------------------------------------------------------------------
    // Certificate results
    // -------------------------------------------------------------------------------------------

    /** Checks both sides before it moves anything, so that a failing order changes nothing. */
    method CloseOrder(id: nat, chain: ChainId) returns (ok: bool)
      modifies this`accounts, this`pools, this`orders
      ensures ok <==> Books.CloseOrder(old(State()), id, chain).Some?
      ensures State() == if ok then Books.CloseOrder(old(State()), id, chain).value else old(State())
    {
      var order := GetOrder(State(), id, chain);
      if order.None? || order.value.buyer.None? {
        return false;
      }
      var o := order.value;
      if o.amount > 0 && Balance(accounts, o.buyer.value) + o.amount > MAX_UINT64 {
        return false;
      }
      if Balance(pools, EscrowPool(chain)) < o.amount {
        return false;
      }
      ok := PoolToAccount(EscrowPool(chain), o.buyer.value, o.amount);
      orders := orders - {id};
    }

    method HandleCommitteeSwaps(swaps: seq<Swap>, chain: ChainId)
      modifies this`accounts, this`pools, this`orders
      ensures State() == HandleSwaps(old(State()), swaps, chain)
    {
      for i := 0 to |swaps|
        invariant State() == HandleSwaps(old(State()), swaps[..i], chain)
      {
        assert swaps[..i + 1][..i] == swaps[..i];
        match swaps[i]
        case Lock(id, buyer) =>
          var order := GetOrder(State(), id, chain);
          if order.Some? && order.value.buyer.None? {
            orders := orders[id := order.value.(buyer := Some(buyer))];
          }
        case Reset(id) =>
          var order := GetOrder(State(), id, chain);
          if order.Some? {
            orders := orders[id := order.value.(buyer := None)];
          }
        case Close(id) =>
          var _ := CloseOrder(id, chain);
      }
      assert swaps[..|swaps|] == swaps;
    }

    /** Finds the committee's data, or appends it empty, and adds the percents for this chain to it. */
    method UpsertCommitteeData(chain: ChainId, stubs: seq<Rewards.Stub>) returns (ok: bool)
      modifies this`committees
      ensures ok <==> Books.UpsertCommitteeData(old(State()), chain, stubs).Some?
      ensures ok ==> State() == Books.UpsertCommitteeData(old(State()), chain, stubs).value
    {
      var i := 0;
      while i < |committees| && committees[i].chain != chain
        invariant i <= |committees|
        invariant Index(committees, chain) == i + Index(committees[i..], chain)
      {
        assert committees[i..][1..] == committees[i + 1..];
        i := i + 1;
      }
      assert i < |committees| ==> committees[i..][0] == committees[i];
      var list := committees;
      if i == |list| {
        list := list + [Committee(chain, Rewards.CommitteeData([], 0))];
      }
      var data := Rewards.Combine(list[i].data, stubs, selfChain);
      if data.None? {
        return false;
      }
      committees := list[i := Committee(chain, data.value)];
      return true;
    }

    method HandleCertificateResults(r: Results) returns (ok: bool)
      modifies this`accounts, this`pools, this`orders, this`validators, this`staked, this`total, this`slashTracker, this`committees
      ensures ok <==> Books.HandleCertificateResults(old(State()), r).Some?
      ensures ok ==> State() == Books.HandleCertificateResults(old(State()), r).value
    {
      if Rewards.SumFor(r.certificate.stubs, selfChain) > 100 {
        return false;
      }
      HandleCommitteeSwaps(r.swaps, r.chain);
      ok := SlashValidators(r.nonSigners, r.chain, params.nonSignSlash);
      if !ok {
        return;
      }
      ok := SlashValidators(r.doubleSigners, r.chain, params.doubleSignSlash);
      if !ok {
        return;
      }
      ok := UpsertCommitteeData(r.chain, Rewards.Reduced(r.certificate.stubs, r.certificate.nonSignerPercent));
    }

    // -------------------------------------------------------------------------------------------
    // Messages
    // -------------------------------------------------------------------------------------------

    method HandleMessageStake(m: Message) returns (ok: bool)
      requires m.Stake?
      modifies this`accounts, this`validators, this`staked
      ensures ok <==> HandleStake(old(State()), m).Some?
      ensures ok ==> State() == HandleStake(old(State()), m).value
    {
      if m.validator in validators {
        return false;
      }
      if m.amount < (if m.delegate then params.minimumDelegation else params.minimumStake) {
        return false;
      }
      ok := AccountSub(m.signer, m.amount);
      if !ok {
        return;
      }
      ok := AddToStakedSupply(m.amount);
      if ok {
        validators := validators[m.validator := Validator(m.amount, m.committees, m.output, m.delegate, m.compound, 0)];
      }
    }

    method HandleMessageEditStake(m: Message) returns (ok: bool)
      requires m.EditStake?
      modifies this`accounts, this`validators, this`staked
      ensures ok <==> HandleEditStake(old(State()), m).Some?
      ensures ok ==> State() == HandleEditStake(old(State()), m).value
    {
      if m.validator !in validators {
        return false;
      }
      var val := validators[m.validator];
      if val.unstakingHeight != 0 {
        return false;
      }
      if val.output != m.output && val.output != m.signer {
        return false;
      }
      var amountToAdd := 0;
      if m.amount > val.stake {
        amountToAdd := m.amount - val.stake;
      }
      ok := AccountSub(m.signer, amountToAdd);
      if ok {
        ok := UpdateValidatorStake(m.validator, val.(committees := m.committees, output := m.output, compound := m.compound), amountToAdd);
      }
    }

    method HandleMessageUnstake(m: Message) returns (ok: bool)
      requires m.Unstake?
      modifies this`validators
      ensures ok <==> HandleUnstake(old(State()), m).Some?
      ensures ok ==> State() == HandleUnstake(old(State()), m).value
    {
      if m.validator !in validators || validators[m.validator].unstakingHeight != 0 {
        return false;
      }
      var val := validators[m.validator];
      var blocks := if val.delegate then params.delegateUnstakingBlocks else params.unstakingBlocks;
      validators := validators[m.validator := val.(unstakingHeight := height + blocks)];
      return true;
    }

    method HandleMessageDAOTransfer(m: Message) returns (ok: bool)
      requires m.DAOTransfer?
      modifies this`accounts, this`pools, this`total
      ensures ok <==> HandleDAOTransfer(old(State()), m).Some?
      ensures ok ==> State() == HandleDAOTransfer(old(State()), m).value
    {
      if !m.approved {
        return false;
      }
      if m.mint {
        MintToPool(DAO_POOL, m.amount);
      }
      ok := PoolToAccount(DAO_POOL, m.to, m.amount);
    }

    method HandleMessageCreateOrder(m: Message) returns (ok: bool)
      requires m.CreateOrder?
      modifies this`accounts, this`pools, this`orders
      ensures ok <==> HandleCreateOrder(old(State()), m).Some?
      ensures ok ==> State() == HandleCreateOrder(old(State()), m).value
    {
      if m.amount < params.minimumOrder || m.id in orders {
        return false;
      }
      ok := AccountToPool(m.seller, EscrowPool(m.chain), m.amount);
      if ok {
        orders := orders[m.id := SellOrder(m.chain, m.amount, m.seller, None)];
      }
    }

    method HandleMessageEditOrder(m: Message) returns (ok: bool)
      requires m.EditOrder?
      modifies this`accounts, this`pools, this`orders
      ensures ok <==> HandleEditOrder(old(State()), m).Some?
      ensures ok ==> State() == HandleEditOrder(old(State()), m).value
    {
      if m.id !in orders || orders[m.id].chain != m.chain || orders[m.id].buyer.Some? || m.amount < params.minimumOrder {
        return false;
      }
      var order := orders[m.id];
      ok := true;
      if m.amount > order.amount {
        ok := AccountToPool(order.seller, EscrowPool(m.chain), m.amount - order.amount);
      } else if m.amount < order.amount {
        ok := PoolToAccount(EscrowPool(m.chain), order.seller, order.amount - m.amount);
      }
      if ok {
        orders := orders[m.id := order.(amount := m.amount)];
      }
    }

    method HandleMessageDeleteOrder(m: Message) returns (ok: bool)
      requires m.DeleteOrder?
      modifies this`accounts, this`pools, this`orders
      ensures ok <==> HandleDeleteOrder(old(State()), m).Some?
      ensures ok ==> State() == HandleDeleteOrder(old(State()), m).value
    {
      if m.id !in orders || orders[m.id].chain != m.chain || orders[m.id].buyer.Some? {
        return false;
      }
      var order := orders[m.id];
      ok := PoolToAccount(EscrowPool(m.chain), order.seller, order.amount);
      if ok {
        orders := orders - {m.id};
      }
    }

    method HandleMessage(m: Message) returns (ok: bool)
      modifies this
      ensures ok <==> Books.HandleMessage(old(State()), m).Some?
      ensures ok ==> State() == Books.HandleMessage(old(State()), m).value
    {
      match m
      case Send(from, to, amount) =>
        ok := AccountSub(from, amount);
        if ok {
          ok := AccountAdd(to, amount);
        }
      case Stake(_, _, _, _, _, _, _) => ok := HandleMessageStake(m);
      case EditStake(_, _, _, _, _, _) => ok := HandleMessageEditStake(m);
      case Unstake(_) => ok := HandleMessageUnstake(m);
      case DAOTransfer(_, _, _, _) => ok := HandleMessageDAOTransfer(m);
      case Subsidy(from, pool, amount, retired) =>
        ok := !retired;
        if ok {
          ok := AccountToPool(from, pool, amount);
        }
      case CreateOrder(_, _, _, _) => ok := HandleMessageCreateOrder(m);
      case EditOrder(_, _, _) => ok := HandleMessageEditOrder(m);
      case DeleteOrder(_, _) => ok := HandleMessageDeleteOrder(m);
      case CertificateResults(r) => ok := HandleCertificateResults(r);
    }

    method ApplyTransaction(t: Transaction) returns (ok: bool)
      modifies this
      ensures ok <==> Books.ApplyTransaction(old(State()), t).Some?
      ensures ok ==> State() == Books.ApplyTransaction(old(State()), t).value
    {
      if t.message.Send? {
        if t.message.amount + t.fee > MAX_UINT64 {
          return false;
        }
        ok := FaucetTopUp(t, t.message.amount + t.fee);
        if !ok {
          return;
        }
      }
      ok := AccountToPool(t.sender, RewardPool(selfChain), t.fee);
      if ok {
        ok := HandleMessage(t.message);
      }
    }

    /** A transaction that fails leaves no trace. */
    method ApplyOrRollBack(t: Transaction) returns (ok: bool)
      modifies this
      ensures ok <==> Books.ApplyTransaction(old(State()), t).Some?
      ensures State() == if ok then Books.ApplyTransaction(old(State()), t).value else old(State())
    {
      var s := State();
      ok := ApplyTransaction(t);
      if !ok {
        height, params, accounts, pools, validators := s.height, s.params, s.accounts, s.pools, s.validators;
        orders, committees, dex, slashTracker, total, staked := s.orders, s.committees, s.dex, s.slashes, s.total, s.staked;
      }
    }

    /** Mints what the faucet lacks of the required amount. */
    method FaucetTopUp(t: Transaction, required: nat) returns (ok: bool)
      requires t.message.Send? && required == t.message.amount + t.fee
      modifies this`accounts, this`total
      ensures ok <==> Books.MintToAccount(old(State()), t.sender, TopUp(old(State()), t)).Some?
      ensures ok ==> State() == Books.MintToAccount(old(State()), t.sender, TopUp(old(State()), t)).value
    {
      if !t.faucet {
        return true;
      }
      var spendable := Spendable(State(), t);
      if spendable >= required {
        return true;
      }
      ok := MintToAccount(t.sender, required - spendable);
    }
  }

  // ---------------------------------------------------------------------------------------------
  // Loops that stop early
  // ---------------------------------------------------------------------------------------------

  lemma {:induction false} SlashPrefixFails(s: Books.State, addresses: seq<Address>, n: nat, chain: nat, percent: nat)
    requires n <= |addresses|
    requires Books.SlashValidators(s, addresses[..n], chain, percent).None?
    ensures Books.SlashValidators(s, addresses, chain, percent).None?
    decreases |addresses|
  {
    if n < |addresses| {
      assert addresses[..|addresses| - 1][..n] == addresses[..n];
      SlashPrefixFails(s, addresses[..|addresses| - 1], n, chain, percent);
    } else {
      assert addresses[..n] == addresses;
    }
  }

  lemma {:induction false} PayPrefixFails(s: Books.State, stubs: seq<Rewards.Stub>, n: nat, pool: nat, samples: nat)
    requires n <= |stubs|
    requires PayStubs(s, stubs[..n], pool, samples).None?
    ensures PayStubs(s, stubs, pool, samples).None?
    decreases |stubs|
  {
    if n < |stubs| {
      assert stubs[..|stubs| - 1][..n] == stubs[..n];
      PayPrefixFails(s, stubs[..|stubs| - 1], n, pool, samples);
    } else {
      assert stubs[..n] == stubs;
    }
  }

  /** What the stubs receive, with the validators of a state. */
  function Allotted(s: Books.State, stubs: seq<Rewards.Stub>, pool: nat, samples: nat): nat {
    Rewards.Distributed(stubs, pool, samples, s.params.earlyWithdrawalPenalty, Compounding(s.validators))
  }

  lemma PayStubKeepsCompounding(s: Books.State, stub: Rewards.Stub, pool: nat, samples: nat)
    requires PayStub(s, stub, pool, samples).Some?
    ensures Compounding(PayStub(s, stub, pool, samples).value.validators) == Compounding(s.validators)
    ensures PayStub(s, stub, pool, samples).value.params == s.params
  {
  }

  /** One more stub: how the payments and their total go on, and that failing here is failing altogether. */
  lemma PayNext(s: Books.State, stubs: seq<Rewards.Stub>, j: nat, pool: nat, samples: nat)
    requires j < |stubs|
    requires Books.PayStubs(s, stubs[..j], pool, samples).Some?
    requires var paid := Books.PayStubs(s, stubs[..j], pool, samples).value;
      Compounding(paid.validators) == Compounding(s.validators) && paid.params == s.params
    ensures var paid := Books.PayStubs(s, stubs[..j], pool, samples).value;
      var next := PayStub(paid, stubs[j], pool, samples);
      && Books.PayStubs(s, stubs[..j + 1], pool, samples) == next
      && Allotted(s, stubs[..j + 1], pool, samples) == Allotted(s, stubs[..j], pool, samples) + Allotment(s, stubs[j], pool, samples)
      && Allotted(s, stubs[..j + 1], pool, samples) <= Allotted(s, stubs, pool, samples)
      && (next.None? ==> Books.PayStubs(s, stubs, pool, samples).None?)
      && (next.Some? ==> Compounding(next.value.validators) == Compounding(s.validators) && next.value.params == s.params)
  {
    assert stubs[..j + 1][..j] == stubs[..j];
    var paid := Books.PayStubs(s, stubs[..j], pool, samples).value;
    Rewards.PrefixDistributes(stubs, j + 1, pool, samples, s.params.earlyWithdrawalPenalty, Compounding(s.validators));
    if PayStub(paid, stubs[j], pool, samples).None? {
      PayPrefixFails(s, stubs, j + 1, pool, samples);
    } else {
      PayStubKeepsCompounding(paid, stubs[j], pool, samples);
    }
  }

  function Allotment(s: Books.State, stub: Rewards.Stub, pool: nat, samples: nat): nat {
    Rewards.Reward(stub, pool, samples, s.params.earlyWithdrawalPenalty, Compounding(s.validators))
  }

  lemma NextDistribution(s: Books.State, i: nat)
    requires i < |s.committees|
    ensures var r := DistributeCommittee(s, s.committees[i]);
      DistributeFrom(s, i) == if r.None? then None else DistributeFrom(r.value.(committees := s.committees[i := Cleared(s.committees[i])]), i + 1)
  {
  }
}
