/**
 Who pays and who is paid. Every handler of the ledger is held against a table of transfers: each account, stake and pool
 changes by exactly what the table lists for it, the handler is refused exactly when its conditions fail or a payer cannot
 pay, and nothing else changes.
 */
module Transfers {
  import opened Options
  import opened Ledger
  import opened Arithmetic
  import opened Books
  import opened Supply
  import Rewards
  import Slashing

  // ---------------------------------------------------------------------------------------------
  // Transfers
  // ---------------------------------------------------------------------------------------------

  /** Where tokens are: on an account, in a stake, in a pool. What is minted comes from nowhere, what is burned goes there. */
  datatype Place = Purse(of: Address) | Bond(of: Address) | Vault(id: nat) | Nowhere

  datatype Transfer = Transfer(from: Place, to: Place, amount: nat)

  function At(s: State, p: Place): nat {
    match p
    case Purse(a) => Balance(s.accounts, a)
    case Bond(a) => if a in s.validators then s.validators[a].stake else 0
    case Vault(id) => s.Pool(id)
    case Nowhere => 0
  }

  /** What a place pays. */
  function Out(ts: seq<Transfer>, p: Place): nat {
    if ts == [] then 0 else (if ts[0].from == p then ts[0].amount else 0) + Out(ts[1..], p)
  }

  /** What a place is paid. */
  function In(ts: seq<Transfer>, p: Place): nat {
    if ts == [] then 0 else (if ts[0].to == p then ts[0].amount else 0) + In(ts[1..], p)
  }

  /** Every place has changed by exactly what it pays and is paid. */
  ghost predicate Moved(s: State, t: State, ts: seq<Transfer>) {
    forall p: Place :: p != Nowhere ==> At(t, p) + Out(ts, p) == At(s, p) + In(ts, p)
  }

  lemma {:induction false} FlowsAdd(a: seq<Transfer>, b: seq<Transfer>, p: Place)
    ensures Out(a + b, p) == Out(a, p) + Out(b, p) && In(a + b, p) == In(a, p) + In(b, p)
  {
    if a == [] {
      assert a + b == b;
    } else {
      assert (a + b)[1..] == a[1..] + b;
      FlowsAdd(a[1..], b, p);
    }
  }

  lemma MovedInTurn(s: State, t: State, u: State, a: seq<Transfer>, b: seq<Transfer>)
    requires Moved(s, t, a) && Moved(t, u, b)
    ensures Moved(s, u, a + b)
  {
    forall p: Place | p != Nowhere
      ensures At(u, p) + Out(a + b, p) == At(s, p) + In(a + b, p)
    {
      FlowsAdd(a, b, p);
      assert At(t, p) + Out(a, p) == At(s, p) + In(a, p);
    }
  }

  lemma Single(from: Place, to: Place, n: nat)
    ensures forall p: Place :: Out([Transfer(from, to, n)], p) == (if p == from then n else 0) && In([Transfer(from, to, n)], p) == (if p == to then n else 0)
  {
  }

  /** A debit and a credit of the same amount. */
  lemma PurseToPurse(s: State, from: Address, to: Address, n: nat)
    requires s.Debit(from, n).Some? && s.Debit(from, n).value.Credit(to, n).Some?
    ensures Moved(s, s.Debit(from, n).value.Credit(to, n).value, [Transfer(Purse(from), Purse(to), n)])
  {
    Single(Purse(from), Purse(to), n);
  }

  lemma PurseToVault(s: State, a: Address, id: nat, n: nat)
    requires Counted(s) && AccountToPool(s, a, id, n).Some?
    ensures Moved(s, AccountToPool(s, a, id, n).value, [Transfer(Purse(a), Vault(id), n)])
  {
    Single(Purse(a), Vault(id), n);
    AccountToPoolKeeps(s, a, id, n);
  }

  lemma VaultToPurse(s: State, id: nat, a: Address, n: nat)
    requires Counted(s) && PoolToAccount(s, id, a, n).Some?
    ensures Moved(s, PoolToAccount(s, id, a, n).value, [Transfer(Vault(id), Purse(a), n)])
  {
    Single(Vault(id), Purse(a), n);
    PoolToAccountKeeps(s, id, a, n);
  }

  lemma MintToVault(s: State, id: nat, n: nat)
    requires Counted(s) && s.total + n <= MAX_UINT64
    ensures Moved(s, MintToPool(s, id, n), [Transfer(Nowhere, Vault(id), n)])
  {
    Single(Nowhere, Vault(id), n);
    MintToPoolKeeps(s, id, n);
  }

  lemma CreditMoves(s: State, a: Address, n: nat)
    requires s.Credit(a, n).Some?
    ensures Moved(s, s.Credit(a, n).value, [Transfer(Nowhere, Purse(a), n)])
  {
    Single(Nowhere, Purse(a), n);
  }

  lemma MintToPurse(s: State, a: Address, n: nat)
    requires MintToAccount(s, a, n).Some?
    ensures Moved(s, MintToAccount(s, a, n).value, [Transfer(Nowhere, Purse(a), n)])
  {
    var s1 := s.AddToTotalSupply(n);
    if n == 0 {
      Single(Nowhere, Purse(a), n);
    } else {
      CreditMoves(s1, a, n);
      assert forall p: Place :: At(s1, p) == At(s, p);
    }
  }

  /** Paying into a pool is refused exactly without the funds. */
  lemma PurseCanPay(s: State, a: Address, id: nat, n: nat)
    ensures AccountToPool(s, a, id, n).Some? <==> n <= Balance(s.accounts, a)
    ensures AccountToPool(s, a, id, n).Some? ==> var t := AccountToPool(s, a, id, n).value; t == s.(accounts := t.accounts, pools := t.pools)
  {
  }

  // ---------------------------------------------------------------------------------------------
  // Messages
  // ---------------------------------------------------------------------------------------------

  /** What an edit adds to a stake; a stake is never lowered. */
  function Raise(s: State, validator: Address, amount: nat): nat {
    if validator in s.validators && amount > s.validators[validator].stake then amount - s.validators[validator].stake else 0
  }

  /** An order of the chain that no buyer has locked. */
  predicate Open(s: State, id: nat, chain: ChainId) {
    id in s.orders && s.orders[id].chain == chain && s.orders[id].buyer.None?
  }

  /** What an order gains in size its seller pays into the escrow, what it loses the escrow pays back. */
  function Resizes(o: SellOrder, amount: nat): seq<Transfer> {
    if amount > o.amount then [Transfer(Purse(o.seller), Vault(EscrowPool(o.chain)), amount - o.amount)]
    else [Transfer(Vault(EscrowPool(o.chain)), Purse(o.seller), o.amount - amount)]
  }

  /** The table of transfers for every message but certificate results. */
  function Moves(s: State, m: Message): seq<Transfer> {
    match m
    case Send(from, to, amount) => [Transfer(Purse(from), Purse(to), amount)]
    case Stake(validator, signer, amount, _, _, _, _) => [Transfer(Purse(signer), Bond(validator), amount)]
    case EditStake(validator, signer, amount, _, _, _) => [Transfer(Purse(signer), Bond(validator), Raise(s, validator, amount))]
    case Unstake(_) => []
    case DAOTransfer(to, amount, mint, _) =>
      if mint then [Transfer(Nowhere, Vault(DAO_POOL), amount), Transfer(Vault(DAO_POOL), Purse(to), amount)]
      else [Transfer(Vault(DAO_POOL), Purse(to), amount)]
    case Subsidy(from, pool, amount, _) => [Transfer(Purse(from), Vault(pool), amount)]
    case CreateOrder(_, chain, seller, amount) => [Transfer(Purse(seller), Vault(EscrowPool(chain)), amount)]
    case EditOrder(id, _, amount) => if id !in s.orders then [] else Resizes(s.orders[id], amount)
    case DeleteOrder(id, chain) => if id !in s.orders then [] else [Transfer(Vault(EscrowPool(chain)), Purse(s.orders[id].seller), s.orders[id].amount)]
    case CertificateResults(_) => []
  }

  /** When a message is accepted. */
  predicate Accepts(s: State, m: Message) {
    match m
    case Send(from, _, amount) => amount <= Balance(s.accounts, from)
    case Stake(validator, signer, amount, _, _, delegate, _) =>
      && validator !in s.validators
      && (if delegate then s.params.minimumDelegation else s.params.minimumStake) <= amount <= Balance(s.accounts, signer)
    case EditStake(validator, signer, amount, _, output, _) =>
      && validator in s.validators && s.validators[validator].unstakingHeight == 0
      && (output == s.validators[validator].output || signer == s.validators[validator].output)
      && Raise(s, validator, amount) <= Balance(s.accounts, signer)
    case Unstake(validator) => validator in s.validators && s.validators[validator].unstakingHeight == 0
    case DAOTransfer(_, amount, mint, approved) => approved && (mint || amount <= s.Pool(DAO_POOL))
    case Subsidy(from, _, amount, retired) => !retired && amount <= Balance(s.accounts, from)
    case CreateOrder(id, _, seller, amount) => id !in s.orders && s.params.minimumOrder <= amount <= Balance(s.accounts, seller)
    case EditOrder(id, chain, amount) =>
      && Open(s, id, chain) && s.params.minimumOrder <= amount
      && amount <= s.orders[id].amount + Balance(s.accounts, s.orders[id].seller)
    case DeleteOrder(id, chain) => Open(s, id, chain)
    case CertificateResults(_) => false
  }

  /** The validators after a message: a stake creates one, an edit and an unstaking change their own, everything else none. */
  function ValidatorsAfter(s: State, m: Message): map<Address, Validator> {
    match m
    case Stake(validator, _, amount, committees, output, delegate, compound) =>
      s.validators[validator := Validator(amount, committees, output, delegate, compound, 0)]
    case EditStake(validator, _, amount, committees, output, compound) =>
      if validator !in s.validators then s.validators
      else
        var v := s.validators[validator];
        s.validators[validator := Validator(if amount > v.stake then amount else v.stake, committees, output, v.delegate, compound, 0)]
    case Unstake(validator) =>
      if validator !in s.validators then s.validators
      else
        var v := s.validators[validator];
        s.validators[validator := v.(unstakingHeight := s.height + if v.delegate then s.params.delegateUnstakingBlocks else s.params.unstakingBlocks)]
    case _ => s.validators
  }

  /** The orders after a message: created unlocked, resized, deleted. */
  function OrdersAfter(s: State, m: Message): map<nat, SellOrder> {
    match m
    case CreateOrder(id, chain, seller, amount) => s.orders[id := SellOrder(chain, amount, seller, None)]
    case EditOrder(id, _, amount) => if id !in s.orders then s.orders else s.orders[id := SellOrder(s.orders[id].chain, amount, s.orders[id].seller, None)]
    case DeleteOrder(id, _) => s.orders - {id}
    case _ => s.orders
  }

  /** Apart from the tokens, only validators and orders change, and the counters by what is minted and staked. */
  ghost predicate Recorded(s: State, m: Message, t: State) {
    && t.validators == ValidatorsAfter(s, m) && t.orders == OrdersAfter(s, m)
    && t.total == s.total + MessageMints(m)
    && t.staked == s.staked + (if m.Stake? then m.amount else if m.EditStake? then Raise(s, m.validator, m.amount) else 0)
    && t == s.(accounts := t.accounts, pools := t.pools, validators := t.validators, orders := t.orders, total := t.total, staked := t.staked)
  }

  /** The message is accepted exactly when it should be, and then pays exactly what its table says. */
  ghost predicate Follows(s: State, m: Message) {
    && (HandleMessage(s, m).Some? <==> Accepts(s, m))
    && (Accepts(s, m) ==> Moved(s, HandleMessage(s, m).value, Moves(s, m)) && Recorded(s, m, HandleMessage(s, m).value))
  }

  lemma SendComputes(s: State, m: Message, gifts: map<nat, nat>)
    requires Inv(s, gifts) && m.Send?
    ensures HandleMessage(s, m).Some? <==> Accepts(s, m)
    ensures Accepts(s, m) ==> s.Debit(m.from, m.amount).Some? && HandleMessage(s, m) == s.Debit(m.from, m.amount).value.Credit(m.to, m.amount)
  {
    if Accepts(s, m) {
      DebitSum(s, m.from, m.amount);
      CreditSum(s.Debit(m.from, m.amount).value, m.to, m.amount);
    }
  }

  lemma SendMoves(s: State, m: Message, gifts: map<nat, nat>)
    requires Inv(s, gifts) && m.Send?
    ensures Follows(s, m)
  {
    SendComputes(s, m, gifts);
    if Accepts(s, m) {
      PurseToPurse(s, m.from, m.to, m.amount);
    }
  }

  lemma PurseToBond(s: State, t: State, a: Address, validator: Address, w: Validator, n: nat)
    requires AccountSub(s.accounts, a, n) == Some(t.accounts) && t.pools == s.pools
    requires t.validators == s.validators[validator := w] && w.stake == At(s, Bond(validator)) + n
    ensures Moved(s, t, [Transfer(Purse(a), Bond(validator), n)])
  {
    Single(Purse(a), Bond(validator), n);
  }

  lemma StakedFits(s: State, a: Address, n: nat)
    requires Counted(s) && n <= Balance(s.accounts, a)
    ensures s.staked + n <= MAX_UINT64
  {
    BalanceBelowTotal(s.accounts, a);
  }

  lemma StakeMoves(s: State, m: Message, gifts: map<nat, nat>)
    requires Inv(s, gifts) && m.Stake?
    ensures Follows(s, m)
  {
    if Accepts(s, m) {
      StakedFits(s, m.signer, m.amount);
      PurseToBond(s, HandleMessage(s, m).value, m.signer, m.validator, ValidatorsAfter(s, m)[m.validator], m.amount);
    }
  }

  lemma RaisedStakeFits(s: State, validator: Address, n: nat)
    requires Counted(s) && validator in s.validators && s.staked + n <= MAX_UINT64
    ensures Wrap(s.validators[validator].stake + n) == s.validators[validator].stake + n
  {
    StakesWithout(s.validators, validator);
  }

  lemma EditStakeAccepted(s: State, m: Message, gifts: map<nat, nat>)
    requires Inv(s, gifts) && m.EditStake?
    ensures HandleMessage(s, m).Some? <==> Accepts(s, m)
  {
    if Accepts(s, m) {
      StakedFits(s, m.signer, Raise(s, m.validator, m.amount));
    }
  }

  lemma EditStakeUpdates(s: State, m: Message)
    requires m.EditStake? && Accepts(s, m)
    ensures var n, v := Raise(s, m.validator, m.amount), s.validators[m.validator];
      HandleMessage(s, m) == UpdateValidatorStake(s.(accounts := AccountSub(s.accounts, m.signer, n).value), m.validator,
                                                  Validator(v.stake, m.committees, m.output, v.delegate, m.compound, 0), n)
  {
  }

  lemma EditStakeComputes(s: State, m: Message, gifts: map<nat, nat>)
    requires Inv(s, gifts) && m.EditStake? && Accepts(s, m)
    ensures var n := Raise(s, m.validator, m.amount);
      HandleMessage(s, m) == Some(s.(accounts := AccountSub(s.accounts, m.signer, n).value, staked := s.staked + n, validators := ValidatorsAfter(s, m)))
  {
    var n := Raise(s, m.validator, m.amount);
    EditStakeUpdates(s, m);
    StakedFits(s, m.signer, n);
    RaisedStakeFits(s, m.validator, n);
  }

  lemma EditStakeMoves(s: State, m: Message, gifts: map<nat, nat>)
    requires Inv(s, gifts) && m.EditStake?
    ensures Follows(s, m)
  {
    EditStakeAccepted(s, m, gifts);
    if Accepts(s, m) {
      EditStakeComputes(s, m, gifts);
      PurseToBond(s, HandleMessage(s, m).value, m.signer, m.validator, ValidatorsAfter(s, m)[m.validator], Raise(s, m.validator, m.amount));
    }
  }

  lemma UnstakeMoves(s: State, m: Message)
    requires m.Unstake?
    ensures Follows(s, m)
  {
  }

  lemma GrantMoves(s: State, m: Message)
    requires Counted(s) && m.DAOTransfer? && !m.mint
    ensures Follows(s, m)
  {
    PoolToAccountKeeps(s, DAO_POOL, m.to, m.amount);
    if Accepts(s, m) {
      VaultToPurse(s, DAO_POOL, m.to, m.amount);
    }
  }

  lemma MintedGrantMoves(s: State, m: Message)
    requires Counted(s) && m.DAOTransfer? && m.mint && s.total + m.amount <= MAX_UINT64
    ensures Follows(s, m)
  {
    var s1, minted, granted := MintToPool(s, DAO_POOL, m.amount), [Transfer(Nowhere, Vault(DAO_POOL), m.amount)], [Transfer(Vault(DAO_POOL), Purse(m.to), m.amount)];
    MintToPoolKeeps(s, DAO_POOL, m.amount);
    PoolToAccountKeeps(s1, DAO_POOL, m.to, m.amount);
    if m.approved {
      MintToVault(s, DAO_POOL, m.amount);
      VaultToPurse(s1, DAO_POOL, m.to, m.amount);
      MovedInTurn(s, s1, HandleMessage(s, m).value, minted, granted);
      assert Moves(s, m) == minted + granted;
    }
  }

  lemma DAOTransferMoves(s: State, m: Message, gifts: map<nat, nat>)
    requires Inv(s, gifts) && m.DAOTransfer? && s.total + MessageMints(m) <= MAX_UINT64
    ensures Follows(s, m)
  {
    if m.mint {
      MintedGrantMoves(s, m);
    } else {
      GrantMoves(s, m);
    }
  }

  lemma SubsidyMoves(s: State, m: Message, gifts: map<nat, nat>)
    requires Inv(s, gifts) && m.Subsidy?
    ensures Follows(s, m)
  {
    PurseCanPay(s, m.from, m.pool, m.amount);
    if Accepts(s, m) {
      AccountToPoolKeeps(s, m.from, m.pool, m.amount);
      PurseToVault(s, m.from, m.pool, m.amount);
    }
  }

  lemma CreateOrderMoves(s: State, m: Message, gifts: map<nat, nat>)
    requires Inv(s, gifts) && m.CreateOrder?
    ensures Follows(s, m)
  {
    PurseCanPay(s, m.seller, EscrowPool(m.chain), m.amount);
    if Accepts(s, m) {
      PurseToVault(s, m.seller, EscrowPool(m.chain), m.amount);
      SameTokens(s, AccountToPool(s, m.seller, EscrowPool(m.chain), m.amount).value, HandleMessage(s, m).value, Moves(s, m));
    }
  }

  /** Orders hold no tokens. */
  lemma SameTokens(s: State, t: State, u: State, ts: seq<Transfer>)
    requires Moved(s, t, ts) && u == t.(orders := u.orders)
    ensures Moved(s, u, ts)
  {
    assert forall p: Place :: At(u, p) == At(t, p);
  }

  lemma EditOrderResizes(s: State, m: Message)
    requires m.EditOrder? && Open(s, m.id, m.chain) && s.params.minimumOrder <= m.amount
    ensures var r := ResizeEscrow(s, s.orders[m.id], m.amount);
      HandleMessage(s, m) == if r.None? then None else Some(r.value.(orders := r.value.orders[m.id := s.orders[m.id].(amount := m.amount)]))
  {
  }

  lemma EditOrderAccepted(s: State, m: Message, gifts: map<nat, nat>)
    requires Inv(s, gifts) && m.EditOrder?
    ensures HandleMessage(s, m).Some? <==> Accepts(s, m)
  {
    if Open(s, m.id, m.chain) && s.params.minimumOrder <= m.amount {
      EditOrderResizes(s, m);
      ResizeMoves(s, s.orders[m.id], m.id, m.amount, gifts);
    }
  }

  lemma EditOrderPays(s: State, m: Message, t: State, gifts: map<nat, nat>)
    requires Inv(s, gifts) && m.EditOrder? && m.id in s.orders && s.orders[m.id].chain == m.chain && s.orders[m.id].buyer.None?
    requires ResizeEscrow(s, s.orders[m.id], m.amount) == Some(t)
    ensures var u := t.(orders := t.orders[m.id := s.orders[m.id].(amount := m.amount)]); Moved(s, u, Moves(s, m)) && Recorded(s, m, u)
  {
    ResizeMoves(s, s.orders[m.id], m.id, m.amount, gifts);
    SameTokens(s, t, t.(orders := t.orders[m.id := s.orders[m.id].(amount := m.amount)]), Moves(s, m));
  }

  lemma EditOrderMoves(s: State, m: Message, gifts: map<nat, nat>)
    requires Inv(s, gifts) && m.EditOrder?
    ensures Follows(s, m)
  {
    EditOrderAccepted(s, m, gifts);
    if Accepts(s, m) {
      EditOrderResizes(s, m);
      EditOrderPays(s, m, ResizeEscrow(s, s.orders[m.id], m.amount).value, gifts);
    }
  }

  lemma EnlargePays(s: State, o: SellOrder, amount: nat)
    requires amount > o.amount
    ensures ResizeEscrow(s, o, amount) == AccountToPool(s, o.seller, EscrowPool(o.chain), amount - o.amount)
    ensures Resizes(o, amount) == [Transfer(Purse(o.seller), Vault(EscrowPool(o.chain)), amount - o.amount)]
  {
  }

  lemma EnlargeMoves(s: State, o: SellOrder, amount: nat)
    requires Counted(s) && amount > o.amount
    ensures ResizeEscrow(s, o, amount).Some? <==> amount <= o.amount + Balance(s.accounts, o.seller)
    ensures ResizeEscrow(s, o, amount).Some? ==>
      var t := ResizeEscrow(s, o, amount).value; t == s.(accounts := t.accounts, pools := t.pools) && Moved(s, t, Resizes(o, amount))
  {
    EnlargePays(s, o, amount);
    PurseCanPay(s, o.seller, EscrowPool(o.chain), amount - o.amount);
    if AccountToPool(s, o.seller, EscrowPool(o.chain), amount - o.amount).Some? {
      PurseToVault(s, o.seller, EscrowPool(o.chain), amount - o.amount);
    }
  }

  lemma ShrinkMoves(s: State, o: SellOrder, amount: nat)
    requires Counted(s) && amount <= o.amount <= s.Pool(EscrowPool(o.chain))
    ensures ResizeEscrow(s, o, amount).Some?
    ensures var t := ResizeEscrow(s, o, amount).value; t == s.(accounts := t.accounts, pools := t.pools) && Moved(s, t, Resizes(o, amount))
  {
    if amount < o.amount {
      PoolToAccountKeeps(s, EscrowPool(o.chain), o.seller, o.amount - amount);
      VaultToPurse(s, EscrowPool(o.chain), o.seller, o.amount - amount);
    } else {
      Single(Vault(EscrowPool(o.chain)), Purse(o.seller), 0);
    }
  }

  lemma ResizeMoves(s: State, o: SellOrder, id: nat, amount: nat, gifts: map<nat, nat>)
    requires Inv(s, gifts) && id in s.orders && s.orders[id] == o
    ensures ResizeEscrow(s, o, amount).Some? <==> amount <= o.amount + Balance(s.accounts, o.seller)
    ensures ResizeEscrow(s, o, amount).Some? ==>
      var t := ResizeEscrow(s, o, amount).value; t == s.(accounts := t.accounts, pools := t.pools) && Moved(s, t, Resizes(o, amount))
  {
    if amount > o.amount {
      EnlargeMoves(s, o, amount);
    } else {
      EscrowCoversOrder(s, id, gifts);
      ShrinkMoves(s, o, amount);
    }
  }

  lemma DeleteOrderMoves(s: State, m: Message, gifts: map<nat, nat>)
    requires Inv(s, gifts) && m.DeleteOrder?
    ensures Follows(s, m)
  {
    DeleteOrderKeeps(s, m, gifts);
    if Accepts(s, m) {
      var o := s.orders[m.id];
      VaultToPurse(s, EscrowPool(m.chain), o.seller, o.amount);
      SameTokens(s, PoolToAccount(s, EscrowPool(m.chain), o.seller, o.amount).value, HandleMessage(s, m).value, Moves(s, m));
    }
  }

  /**
   Every message but certificate results, in every state with right books: it is accepted exactly when its payer can pay and
   its conditions hold; then every account, stake and pool changes by exactly what its table lists, and nothing else does.
   */
  lemma MessagesMoveExactly(s: State, m: Message, gifts: map<nat, nat>)
    requires Inv(s, gifts) && s.total + MessageMints(m) <= MAX_UINT64 && !m.CertificateResults?
    ensures HandleMessage(s, m).Some? <==> Accepts(s, m)
    ensures Accepts(s, m) ==> Moved(s, HandleMessage(s, m).value, Moves(s, m)) && Recorded(s, m, HandleMessage(s, m).value)
  {
    match m
    case Send(_, _, _) => SendMoves(s, m, gifts);
    case Stake(_, _, _, _, _, _, _) => StakeMoves(s, m, gifts);
    case EditStake(_, _, _, _, _, _) => EditStakeMoves(s, m, gifts);
    case Unstake(_) => UnstakeMoves(s, m);
    case DAOTransfer(_, _, _, _) => DAOTransferMoves(s, m, gifts);
    case Subsidy(_, _, _, _) => SubsidyMoves(s, m, gifts);
    case CreateOrder(_, _, _, _) => CreateOrderMoves(s, m, gifts);
    case EditOrder(_, _, _) => EditOrderMoves(s, m, gifts);
    case DeleteOrder(_, _) => DeleteOrderMoves(s, m, gifts);
  }

  // ---------------------------------------------------------------------------------------------
  // Transactions
  // ---------------------------------------------------------------------------------------------

  /** What the faucet is given is just enough, next to what it can spend, for the amount and the fee; nobody else is given anything. */
  lemma TopUpExactly(s: State, t: Transaction)
    ensures var spendable, needed := Balance(s.accounts, t.sender) - t.locked, if t.message.Send? then t.message.amount + t.fee else 0;
      && (!t.faucet || !t.message.Send? ==> TopUp(s, t) == 0)
      && (t.faucet && t.message.Send? && 0 <= spendable <= needed ==> spendable + TopUp(s, t) == needed)
      && (t.faucet && t.message.Send? && spendable < 0 ==> TopUp(s, t) == needed)
      && (needed <= spendable ==> TopUp(s, t) == 0)
  {
  }

  /** The faucet's top-up, and the fee: from the sender to this chain's own reward pool. */
  function Charges(s: State, t: Transaction): seq<Transfer> {
    [Transfer(Nowhere, Purse(t.sender), TopUp(s, t)), Transfer(Purse(t.sender), Vault(s.selfChain), t.fee)]
  }

  /** The state in which the message acts: charged, and otherwise the same. */
  ghost predicate Charged(s: State, t: Transaction, u: State) {
    Moved(s, u, Charges(s, t)) && u == s.(accounts := u.accounts, pools := u.pools, total := s.total + TopUp(s, t))
  }

  lemma ChargesMove(s: State, t: Transaction, gifts: map<nat, nat>)
    requires Inv(s, gifts) && s.total + TopUp(s, t) <= MAX_UINT64
    ensures MintToAccount(s, t.sender, TopUp(s, t)).Some?
    ensures var r := AccountToPool(MintToAccount(s, t.sender, TopUp(s, t)).value, t.sender, RewardPool(s.selfChain), t.fee);
      && (r.Some? <==> t.fee <= Balance(s.accounts, t.sender) + TopUp(s, t))
      && (r.Some? ==> Inv(r.value, gifts) && Charged(s, t, r.value))
  {
    TopUpKeeps(s, t.sender, TopUp(s, t), gifts);
    MintToPurse(s, t.sender, TopUp(s, t));
    var s1 := MintToAccount(s, t.sender, TopUp(s, t)).value;
    Single(Nowhere, Purse(t.sender), TopUp(s, t));
    PurseCanPay(s1, t.sender, RewardPool(s.selfChain), t.fee);
    assert At(s1, Purse(t.sender)) == Balance(s.accounts, t.sender) + TopUp(s, t);
    var r := AccountToPool(s1, t.sender, RewardPool(s.selfChain), t.fee);
    if r.Some? {
      AccountToRewardPoolKeeps(s1, t.sender, s.selfChain, t.fee, gifts);
      PurseToVault(s1, t.sender, RewardPool(s.selfChain), t.fee);
      MovedInTurn(s, s1, r.value, [Transfer(Nowhere, Purse(t.sender), TopUp(s, t))], [Transfer(Purse(t.sender), Vault(RewardPool(s.selfChain)), t.fee)]);
      assert Charges(s, t) == [Transfer(Nowhere, Purse(t.sender), TopUp(s, t))] + [Transfer(Purse(t.sender), Vault(RewardPool(s.selfChain)), t.fee)];
    }
  }

  lemma ApplyCharges(s: State, t: Transaction)
    requires MintToAccount(s, t.sender, TopUp(s, t)).Some?
    requires t.message.Send? ==> t.message.amount + t.fee <= MAX_UINT64
    ensures var r := AccountToPool(MintToAccount(s, t.sender, TopUp(s, t)).value, t.sender, RewardPool(s.selfChain), t.fee);
      ApplyTransaction(s, t) == if r.None? then None else HandleMessage(r.value, t.message)
  {
  }

  /**
   Every transaction, in every state with right books: it is refused exactly if the sender cannot pay the fee or the message,
   in the state so charged, is refused; then every account, stake and pool changes by exactly the charges and the message's
   table. u is the charged state.
   */
  lemma TransactionsMoveExactly(s: State, t: Transaction, gifts: map<nat, nat>) returns (u: State)
    requires Inv(s, gifts) && s.total + TopUp(s, t) + MessageMints(t.message) <= MAX_UINT64 && !t.message.CertificateResults?
    requires t.message.Send? ==> t.message.amount + t.fee <= MAX_UINT64
    ensures t.fee <= Balance(s.accounts, t.sender) + TopUp(s, t) ==>
      && Charged(s, t, u)
      && (ApplyTransaction(s, t).Some? <==> Accepts(u, t.message))
      && (Accepts(u, t.message) ==> var v := ApplyTransaction(s, t).value;
            Moved(s, v, Charges(s, t) + Moves(s, t.message)) && Recorded(u, t.message, v))
    ensures t.fee > Balance(s.accounts, t.sender) + TopUp(s, t) ==> ApplyTransaction(s, t).None?
  {
    ChargesMove(s, t, gifts);
    ApplyCharges(s, t);
    var r := AccountToPool(MintToAccount(s, t.sender, TopUp(s, t)).value, t.sender, RewardPool(s.selfChain), t.fee);
    u := s;
    if r.Some? {
      u := r.value;
      MessagesMoveExactly(u, t.message, gifts);
      SameTable(s, u, t.message);
      if Accepts(u, t.message) {
        MovedInTurn(s, u, HandleMessage(u, t.message).value, Charges(s, t), Moves(s, t.message));
      }
    }
  }

  /** The table depends on validators and orders only. */
  lemma SameTable(s: State, u: State, m: Message)
    requires u.validators == s.validators && u.orders == s.orders
    ensures Moves(u, m) == Moves(s, m)
  {
  }

  /** A send whose amount and fee together leave 64 bits is refused. */
  lemma HugeSendIsRefused(s: State, t: Transaction)
    requires t.message.Send? && t.message.amount + t.fee > MAX_UINT64
    ensures ApplyTransaction(s, t).None?
  {
  }
}
