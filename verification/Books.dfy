/**
 All tokens of one chain and the counters that track them: accounts, pools, validators' stakes, open sell orders,
 committee data, and the exchange with each counter chain. Every handler is a function from state to state; None
 means that it fails, and then its writes are discarded.
 */
module Books {
  import opened Options
  import opened Ledger
  import opened PoolPoints
  import opened Arithmetic
  import opened Batches
  import Rewards
  import Slashing

  // ---------------------------------------------------------------------------------------------
  // Pools
  // ---------------------------------------------------------------------------------------------

  const MAX_CHAIN_ID: nat := 16383

  /** A chain id that messages and committees may name. */
  type ChainId = c: nat | 1 <= c <= MAX_CHAIN_ID witness 1

  const HOLDING_ADDEND: nat := 16383
  const LIQUIDITY_ADDEND: nat := 32767
  const ESCROW_ADDEND: nat := 65535
  const DAO_POOL: nat := 131071

  function RewardPool(chain: ChainId): nat { chain }

  function HoldingPool(chain: ChainId): nat { chain + HOLDING_ADDEND }

  function LiquidityPool(chain: ChainId): nat { chain + LIQUIDITY_ADDEND }

  function EscrowPool(chain: ChainId): nat { chain + ESCROW_ADDEND }

  // ---------------------------------------------------------------------------------------------
  // State
  // ---------------------------------------------------------------------------------------------

  datatype Validator = Validator(
    stake: nat,
    committees: seq<nat>,
    output: Address,
    delegate: bool,
    compound: bool,
    unstakingHeight: nat)

  datatype SellOrder = SellOrder(chain: ChainId, amount: nat, seller: Address, buyer: Option<Address>)

  /** The percents collected for one committee since the last distribution. */
  datatype Committee = Committee(chain: ChainId, data: Rewards.CommitteeData)

  /** The exchange with one counter chain, without its money. */
  datatype Dex = Dex(points: Points, locked: Option<Batch>, next: Option<Batch>, height: nat)

  datatype Params = Params(
    minimumOrder: nat,
    minimumStake: nat,
    minimumDelegation: nat,
    unstakingBlocks: nat,
    delegateUnstakingBlocks: nat,
    earlyWithdrawalPenalty: nat,
    nonSignSlash: nat,
    doubleSignSlash: nat,
    maxSlash: nat,
    daoPercentage: nat)

  datatype State = State(
    selfChain: ChainId,
    height: nat,
    params: Params,
    accounts: map<Address, nat>,
    pools: map<nat, nat>,
    validators: map<Address, Validator>,
    orders: map<nat, SellOrder>,
    committees: seq<Committee>,
    dex: map<ChainId, Dex>,
    slashes: map<Address, map<nat, nat>>,
    total: nat,
    staked: nat)
  {
    function Pool(id: nat): nat {
      Balance(pools, id)
    }

    /** The addition is not checked for overflow. */
    function PoolAdd(id: nat, n: nat): State {
      this.(pools := SetBalance(pools, id, Wrap(Pool(id) + n)))
    }

    function PoolSub(id: nat, n: nat): Option<State> {
      if Pool(id) < n then None else Some(this.(pools := SetBalance(pools, id, Pool(id) - n)))
    }

    function Credit(a: Address, n: nat): Option<State> {
      var credited :- AccountAdd(accounts, a, n);
      Some(this.(accounts := credited))
    }

    function Debit(a: Address, n: nat): Option<State> {
      var debited :- AccountSub(accounts, a, n);
      Some(this.(accounts := debited))
    }

    /** The addition is not checked for overflow. */
    function AddToTotalSupply(n: nat): State {
      this.(total := Wrap(total + n))
    }

    function SubFromTotalSupply(n: nat): Option<State> {
      if total < n then None else Some(this.(total := total - n))
    }

    function AddToStakedSupply(n: nat): Option<State> {
      if staked + n > MAX_UINT64 then None else Some(this.(staked := staked + n))
    }

    function SubFromStakedSupply(n: nat): Option<State> {
      if staked < n then None else Some(this.(staked := staked - n))
    }

    function SetValidator(a: Address, v: Validator): State {
      this.(validators := validators[a := v])
    }

    function Slashed(a: Address): map<nat, nat> {
      if a in slashes then slashes[a] else map[]
    }
  }

  function MintToPool(s: State, id: nat, n: nat): State {
    s.AddToTotalSupply(n).PoolAdd(id, n)
  }

  function MintToAccount(s: State, a: Address, n: nat): Option<State> {
    if n == 0 then Some(s) else s.AddToTotalSupply(n).Credit(a, n)
  }

  function AccountToPool(s: State, a: Address, id: nat, n: nat): Option<State> {
    var s1 :- s.Debit(a, n);
    Some(s1.PoolAdd(id, n))
  }

  function PoolToAccount(s: State, id: nat, a: Address, n: nat): Option<State> {
    var s1 :- s.PoolSub(id, n);
    s1.Credit(a, n)
  }

  // ---------------------------------------------------------------------------------------------
  // Validators
  // ---------------------------------------------------------------------------------------------

  /** Stores a validator with more stake; the addition to the stake itself is not checked for overflow. */
  function UpdateValidatorStake(s: State, a: Address, v: Validator, n: nat): Option<State> {
    var s1 :- s.AddToStakedSupply(n);
    Some(s1.SetValidator(a, v.(stake := Wrap(v.stake + n))))
  }

  function DeleteValidator(s: State, a: Address): Option<State>
    requires a in s.validators
  {
    var s1 :- s.SubFromStakedSupply(s.validators[a].stake);
    Some(s1.(validators := s1.validators - {a}))
  }

  /** Returns the stake of one validator that has finished unstaking, and deletes it. */
  function FinishUnstaking(s: State, a: Address): Option<State> {
    if a !in s.validators then None
    else
      var s1 :- s.Credit(s.validators[a].output, s.validators[a].stake);
      DeleteValidator(s1, a)
  }

  /** due: the addresses under the unstaking keys of this height. */
  function DeleteFinishedUnstaking(s: State, due: seq<Address>): Option<State>
    decreases |due|
  {
    if due == [] then Some(s)
    else
      var s1 :- FinishUnstaking(s, due[0]);
      DeleteFinishedUnstaking(s1, due[1..])
  }

  function UnstakingBlocks(s: State, v: Validator): nat {
    if v.delegate then s.params.delegateUnstakingBlocks else s.params.unstakingBlocks
  }

  /** A validator whose stake is below the minimum starts to unstake. */
  function UnstakingIfBelowMinimum(s: State, v: Validator): Validator {
    var minimum := if v.delegate then s.params.minimumDelegation else s.params.minimumStake;
    if v.unstakingHeight == 0 && v.stake < minimum then v.(unstakingHeight := s.height + UnstakingBlocks(s, v)) else v
  }

  /** What a slash looks at: stake, committees, and the percents that committees have slashed so far. */
  function Staked(s: State, a: Address): Slashing.Staked
    requires a in s.validators
  {
    Slashing.Staked(s.validators[a].stake, s.validators[a].committees, s.Slashed(a))
  }

  /** Stores a validator with less stake, burning the difference; one without stake is deleted. */
  function BurnStake(s: State, a: Address, w: Validator): Option<State>
    requires a in s.validators
  {
    var burned := Wrap(s.validators[a].stake - w.stake);
    var s1 :- s.SubFromTotalSupply(burned);
    if w.stake == 0 then DeleteValidator(s1, a)
    else
      var s2 :- s1.SubFromStakedSupply(burned);
      Some(s2.SetValidator(a, w))
  }

  /** The slashed validator, with the stake and the committees that the slash leaves it. */
  function AfterSlash(s: State, a: Address, left: Slashing.Staked): Validator
    requires a in s.validators
  {
    UnstakingIfBelowMinimum(s, s.validators[a].(stake := left.stake, committees := left.committees))
  }

  /** Slashes a validator; nothing happens to an unknown one or one out of the committee's reach. */
  function SlashValidator(s: State, a: Address, chain: nat, percent: nat): Option<State> {
    if a !in s.validators || !Slashing.WithinReach(Staked(s, a), chain, s.params.maxSlash) then Some(s)
    else
      var left := Slashing.Charged(Staked(s, a), chain, percent, s.params.maxSlash);
      BurnStake(s.(slashes := s.slashes[a := left.tracker]), a, AfterSlash(s, a, left))
  }

  function SlashValidators(s: State, addresses: seq<Address>, chain: nat, percent: nat): Option<State>
    decreases |addresses|
  {
    if addresses == [] then Some(s)
    else
      var s1 :- SlashValidators(s, addresses[..|addresses| - 1], chain, percent);
      SlashValidator(s1, addresses[|addresses| - 1], chain, percent)
  }

  // ---------------------------------------------------------------------------------------------
  // Block rewards
  // ---------------------------------------------------------------------------------------------

  /** What is minted in a block: the cut of the DAO, and the same amount for each paid committee. */
  datatype BlockMint = BlockMint(daoCut: nat, perCommittee: nat)

  /** amount: the tokens of this block after the halvenings; None if there is nothing to mint or nobody to pay. */
  function BlockMintStats(amount: nat, paid: seq<ChainId>, daoPercentage: nat): Option<BlockMint> {
    if |paid| == 0 || amount == 0 then None
    else
      var rest := if daoPercentage >= 100 then 0 else if daoPercentage == 0 then amount else SafeMulDiv(amount, 100 - daoPercentage, 100);
      Some(BlockMint(Wrap(amount - rest), rest / |paid|))
  }

  function MintToPools(s: State, paid: seq<ChainId>, n: nat): State
    decreases |paid|
  {
    if paid == [] then s else MintToPool(MintToPools(s, paid[..|paid| - 1], n), RewardPool(paid[|paid| - 1]), n)
  }

  function FundCommitteeRewardPools(s: State, amount: nat, paid: seq<ChainId>): State {
    match BlockMintStats(amount, paid, s.params.daoPercentage)
    case None => s
    case Some(m) => MintToPools(MintToPool(s, DAO_POOL, m.daoCut), paid, m.perCommittee)
  }

  /** The validators that take their rewards as stake. */
  function Compounding(validators: map<Address, Validator>): set<Address> {
    set a | a in validators && validators[a].compound && validators[a].unstakingHeight == 0
  }

  /** Pays one stub: to the stake of a compounding validator, to another validator's output, or to the account. */
  function PayStub(s: State, stub: Rewards.Stub, pool: nat, samples: nat): Option<State> {
    var reward := Rewards.Reward(stub, pool, samples, s.params.earlyWithdrawalPenalty, Compounding(s.validators));
    if stub.address !in s.validators then s.Credit(stub.address, reward)
    else if stub.address in Compounding(s.validators) then UpdateValidatorStake(s, stub.address, s.validators[stub.address], reward)
    else s.Credit(s.validators[stub.address].output, reward)
  }

  function PayStubs(s: State, stubs: seq<Rewards.Stub>, pool: nat, samples: nat): Option<State>
    decreases |stubs|
  {
    if stubs == [] then Some(s)
    else
      var before :- PayStubs(s, stubs[..|stubs| - 1], pool, samples);
      PayStub(before, stubs[|stubs| - 1], pool, samples)
  }

  /** What the stubs of a committee receive from its pool. */
  function Distributed(s: State, c: Committee): nat {
    Rewards.Distributed(c.data.stubs, s.Pool(RewardPool(c.chain)), c.data.samples, s.params.earlyWithdrawalPenalty, Compounding(s.validators))
  }

  /** Pays the stubs from the committee's pool, burns the rest and empties the pool. */
  function DistributeCommittee(s: State, c: Committee): Option<State> {
    if c.data.stubs == [] then Some(s)
    else
      var pool := s.Pool(RewardPool(c.chain));
      var paid :- PayStubs(s, c.data.stubs, pool, c.data.samples);
      if Distributed(s, c) > MAX_UINT64 then None
      else
        var burned :- paid.SubFromTotalSupply(Wrap(pool - Distributed(s, c)));
        Some(burned.(pools := SetBalance(burned.pools, RewardPool(c.chain), 0)))
  }

  function Cleared(c: Committee): Committee {
    if c.data.stubs == [] then c else Committee(c.chain, Rewards.CommitteeData([], 0))
  }

  function DistributeFrom(s: State, i: nat): Option<State>
    requires i <= |s.committees|
    decreases |s.committees| - i
  {
    if i == |s.committees| then Some(s)
    else
      var s1 :- DistributeCommittee(s, s.committees[i]);
      DistributeFrom(s1.(committees := s.committees[i := Cleared(s.committees[i])]), i + 1)
  }

  function DistributeCommitteeRewards(s: State): Option<State> {
    DistributeFrom(s, 0)
  }

  // ---------------------------------------------------------------------------------------------
  // Sell orders
  // ---------------------------------------------------------------------------------------------

  function GetOrder(s: State, id: nat, chain: ChainId): Option<SellOrder> {
    if id in s.orders && s.orders[id].chain == chain then Some(s.orders[id]) else None
  }

  function LockOrder(s: State, id: nat, chain: ChainId, buyer: Address): Option<State> {
    var o :- GetOrder(s, id, chain);
    if o.buyer.Some? then None else Some(s.(orders := s.orders[id := o.(buyer := Some(buyer))]))
  }

  function ResetOrder(s: State, id: nat, chain: ChainId): Option<State> {
    var o :- GetOrder(s, id, chain);
    Some(s.(orders := s.orders[id := o.(buyer := None)]))
  }

  function CloseOrder(s: State, id: nat, chain: ChainId): Option<State> {
    var o :- GetOrder(s, id, chain);
    if o.buyer.None? then None
    else
      var s1 :- PoolToAccount(s, EscrowPool(chain), o.buyer.value, o.amount);
      Some(s1.(orders := s1.orders - {id}))
  }

  datatype Swap = Lock(id: nat, buyer: Address) | Reset(id: nat) | Close(id: nat)

  function HandleSwap(s: State, swap: Swap, chain: ChainId): Option<State> {
    match swap
    case Lock(id, buyer) => LockOrder(s, id, chain, buyer)
    case Reset(id) => ResetOrder(s, id, chain)
    case Close(id) => CloseOrder(s, id, chain)
  }

  /** Failing instructions are skipped. */
  function HandleSwaps(s: State, swaps: seq<Swap>, chain: ChainId): State
    decreases |swaps|
  {
    if swaps == [] then s
    else
      var s1 := HandleSwaps(s, swaps[..|swaps| - 1], chain);
      match HandleSwap(s1, swaps[|swaps| - 1], chain)
      case None => s1
      case Some(s2) => s2
  }

  // ---------------------------------------------------------------------------------------------
  // Certificate results
  // ---------------------------------------------------------------------------------------------

  /** swaps: in the order in which they are handled, without resets of orders that are closed. */
  datatype Results = Results(
    chain: ChainId,
    swaps: seq<Swap>,
    nonSigners: seq<Address>,
    doubleSigners: seq<Address>,
    certificate: Rewards.Certificate)

  function Index(committees: seq<Committee>, chain: ChainId): (i: nat)
    ensures i <= |committees|
    ensures i < |committees| ==> committees[i].chain == chain
  {
    if committees == [] || committees[0].chain == chain then 0 else 1 + Index(committees[1..], chain)
  }

  /** Adds the percents for this chain to the committee's data, which is created empty on first use. */
  function UpsertCommitteeData(s: State, chain: ChainId, stubs: seq<Rewards.Stub>): Option<State> {
    var i := Index(s.committees, chain);
    var list := if i < |s.committees| then s.committees else s.committees + [Committee(chain, Rewards.CommitteeData([], 0))];
    var data :- Rewards.Combine(list[i].data, stubs, s.selfChain);
    Some(s.(committees := list[i := Committee(chain, data)]))
  }

  /** A certificate that allocates more than 100 percent on this chain has been refused by its basic checks. */
  function HandleCertificateResults(s: State, r: Results): Option<State> {
    if Rewards.SumFor(r.certificate.stubs, s.selfChain) > 100 then None
    else
      var s1 :- SlashValidators(HandleSwaps(s, r.swaps, r.chain), r.nonSigners, r.chain, s.params.nonSignSlash);
      var s2 :- SlashValidators(s1, r.doubleSigners, r.chain, s.params.doubleSignSlash);
      UpsertCommitteeData(s2, r.chain, Rewards.Reduced(r.certificate.stubs, r.certificate.nonSignerPercent))
  }

  // ---------------------------------------------------------------------------------------------
  // Transactions
  // ---------------------------------------------------------------------------------------------

  /** A subsidy may name any pool: its chain id is not checked. */
  datatype Message =
    | Send(from: Address, to: Address, amount: nat)
    | Stake(validator: Address, signer: Address, amount: nat, committees: seq<nat>, output: Address, delegate: bool, compound: bool)
    | EditStake(validator: Address, signer: Address, amount: nat, committees: seq<nat>, output: Address, compound: bool)
    | Unstake(validator: Address)
    | DAOTransfer(to: Address, amount: nat, mint: bool, approved: bool)
    | Subsidy(from: Address, pool: nat, amount: nat, retired: bool)
    | CreateOrder(id: nat, chain: ChainId, seller: Address, amount: nat)
    | EditOrder(id: nat, chain: ChainId, amount: nat)
    | DeleteOrder(id: nat, chain: ChainId)
    | CertificateResults(results: Results)

  function HandleStake(s: State, m: Message): Option<State>
    requires m.Stake?
  {
    if m.validator in s.validators || m.amount < (if m.delegate then s.params.minimumDelegation else s.params.minimumStake) then None
    else
      var s1 :- s.Debit(m.signer, m.amount);
      var s2 :- s1.AddToStakedSupply(m.amount);
      Some(s2.SetValidator(m.validator, Validator(m.amount, m.committees, m.output, m.delegate, m.compound, 0)))
  }

  function HandleEditStake(s: State, m: Message): Option<State>
    requires m.EditStake?
  {
    if m.validator !in s.validators then None
    else
      var v := s.validators[m.validator];
      if v.unstakingHeight != 0 || (v.output != m.output && v.output != m.signer) then None
      else
        var amountToAdd := if m.amount <= v.stake then 0 else m.amount - v.stake;
        var s1 :- s.Debit(m.signer, amountToAdd);
        UpdateValidatorStake(s1, m.validator, v.(committees := m.committees, output := m.output, compound := m.compound), amountToAdd)
  }

  function HandleUnstake(s: State, m: Message): Option<State>
    requires m.Unstake?
  {
    if m.validator !in s.validators || s.validators[m.validator].unstakingHeight != 0 then None
    else
      var v := s.validators[m.validator];
      Some(s.SetValidator(m.validator, v.(unstakingHeight := s.height + UnstakingBlocks(s, v))))
  }

  function HandleDAOTransfer(s: State, m: Message): Option<State>
    requires m.DAOTransfer?
  {
    if !m.approved then None
    else PoolToAccount(if m.mint then MintToPool(s, DAO_POOL, m.amount) else s, DAO_POOL, m.to, m.amount)
  }

  /** The identifier of an order is the hash of its transaction, so it is new. */
  function HandleCreateOrder(s: State, m: Message): Option<State>
    requires m.CreateOrder?
  {
    if m.amount < s.params.minimumOrder || m.id in s.orders then None
    else
      var s1 :- AccountToPool(s, m.seller, EscrowPool(m.chain), m.amount);
      Some(s1.(orders := s1.orders[m.id := SellOrder(m.chain, m.amount, m.seller, None)]))
  }

  /** The difference to the old amount moves between the seller and the escrow. */
  function ResizeEscrow(s: State, o: SellOrder, amount: nat): Option<State> {
    if amount > o.amount then AccountToPool(s, o.seller, EscrowPool(o.chain), amount - o.amount)
    else if amount < o.amount then PoolToAccount(s, EscrowPool(o.chain), o.seller, o.amount - amount)
    else Some(s)
  }

  function HandleEditOrder(s: State, m: Message): Option<State>
    requires m.EditOrder?
  {
    var o :- GetOrder(s, m.id, m.chain);
    if o.buyer.Some? || m.amount < s.params.minimumOrder then None
    else
      var s1 :- ResizeEscrow(s, o, m.amount);
      Some(s1.(orders := s1.orders[m.id := o.(amount := m.amount)]))
  }

  function HandleDeleteOrder(s: State, m: Message): Option<State>
    requires m.DeleteOrder?
  {
    var o :- GetOrder(s, m.id, m.chain);
    if o.buyer.Some? then None
    else
      var s1 :- PoolToAccount(s, EscrowPool(m.chain), o.seller, o.amount);
      Some(s1.(orders := s1.orders - {m.id}))
  }

  function HandleMessage(s: State, m: Message): Option<State> {
    match m
    case Send(from, to, amount) =>
      var s1 :- s.Debit(from, amount);
      s1.Credit(to, amount)
    case Stake(_, _, _, _, _, _, _) => HandleStake(s, m)
    case EditStake(_, _, _, _, _, _) => HandleEditStake(s, m)
    case Unstake(_) => HandleUnstake(s, m)
    case DAOTransfer(_, _, _, _) => HandleDAOTransfer(s, m)
    case Subsidy(from, pool, amount, retired) => if retired then None else AccountToPool(s, from, pool, amount)
    case CreateOrder(_, _, _, _) => HandleCreateOrder(s, m)
    case EditOrder(_, _, _) => HandleEditOrder(s, m)
    case DeleteOrder(_, _) => HandleDeleteOrder(s, m)
    case CertificateResults(r) => HandleCertificateResults(s, r)
  }

  /** locked: the part of the sender's balance that its vesting still locks; faucet: the sender is the faucet. */
  datatype Transaction = Transaction(sender: Address, fee: nat, message: Message, locked: nat, faucet: bool)

  function Spendable(s: State, t: Transaction): nat {
    var balance := Balance(s.accounts, t.sender);
    if t.locked >= balance then 0 else balance - t.locked
  }

  /** What the faucet mints so that it can spend what its transaction needs. */
  function TopUp(s: State, t: Transaction): nat {
    if !t.message.Send? || !t.faucet || Spendable(s, t) >= t.message.amount + t.fee then 0
    else t.message.amount + t.fee - Spendable(s, t)
  }

  /** The faucet's top-up, then the fee, then the message. */
  function ApplyTransaction(s: State, t: Transaction): Option<State> {
    if t.message.Send? && t.message.amount + t.fee > MAX_UINT64 then None
    else
      var s1 :- MintToAccount(s, t.sender, TopUp(s, t));
      var s2 :- AccountToPool(s1, t.sender, RewardPool(s.selfChain), t.fee);
      HandleMessage(s2, t.message)
  }
}
