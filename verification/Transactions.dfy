/**
 Execution of a block's transactions on a state machine with nested database transactions and with caches
 for accounts and pools, against execution on a plain map.
 */
module Transactions {
  import opened Options
  import opened Ledger
  import opened PoolPoints
  import opened Vesting
  import opened Stores

  const NO_POINTS: Points := Points([], 0)

  datatype Pool = Pool(amount: nat, points: Points)

  datatype Key = AccountKey(address: Address) | PoolKey(id: nat) | OtherKey(name: nat)
  datatype Value = AccountValue(account: Account) | PoolValue(pool: Pool) | Bytes(data: nat)

  type View = map<Key, Value>

  // ---------------------------------------------------------------------------------------------
  // The plain map
  // ---------------------------------------------------------------------------------------------

  function AccountIn(view: View, a: Address): Account {
    if AccountKey(a) in view && view[AccountKey(a)].AccountValue? then view[AccountKey(a)].account else EMPTY_ACCOUNT
  }

  function PoolIn(view: View, id: nat): Pool {
    if PoolKey(id) in view && view[PoolKey(id)].PoolValue? then view[PoolKey(id)].pool else Pool(0, NO_POINTS)
  }

  function DataIn(view: View, name: nat): Option<nat> {
    if OtherKey(name) in view && view[OtherKey(name)].Bytes? then Some(view[OtherKey(name)].data) else None
  }

  /** An account is stored without its vested tranche; an account or pool with nothing in it is deleted. */
  function WithAccount(view: View, a: Address, acc: Account, height: nat): View {
    if acc.amount == 0 then view - {AccountKey(a)} else view[AccountKey(a) := AccountValue(acc.Cleared(height))]
  }

  function WithPool(view: View, id: nat, pool: Pool): View {
    if pool.amount == 0 then view - {PoolKey(id)} else view[PoolKey(id) := PoolValue(pool)]
  }

  /** Only accounts are stored under account keys, only pools under pool keys; no schedule without a tranche. */
  ghost predicate WellTyped(view: View) {
    && (forall a :: AccountKey(a) in view ==>
          && view[AccountKey(a)].AccountValue?
          && view[AccountKey(a)].account.amount > 0
          && (view[AccountKey(a)].account.vesting == 0 ==> view[AccountKey(a)].account.schedule == NO_SCHEDULE))
    && (forall id :: PoolKey(id) in view ==> view[PoolKey(id)].PoolValue? && view[PoolKey(id)].pool.amount > 0)
    && (forall name :: OtherKey(name) in view ==> view[OtherKey(name)].Bytes?)
  }

  // ---------------------------------------------------------------------------------------------
  // Transactions
  // ---------------------------------------------------------------------------------------------

  /** What a handler can ask of the state machine. */
  datatype Instr =
    | Succeed
    | Fail
    | ReadAccount(a: Address)
    | CreditAccount(a: Address, n: nat)
    | DebitAccount(a: Address, n: nat)
    | CreditVesting(a: Address, n: nat, schedule: Schedule)
    | ReadPool(id: nat)
    | WritePool(id: nat, pool: Pool)
    | CreditPool(id: nat, n: nat)
    | DebitPool(id: nat, n: nat)
    | Load(name: nat)
    | Save(name: nat, data: nat)
    | Erase(name: nat)
    | Emit(event: nat)
    | SlashedSoFar(a: Address, chain: nat)
    | AddSlash(a: Address, chain: nat, percent: nat)

  datatype Answer =
    | Done
    | Refused
    | AccountIs(account: Account)
    | PoolIs(pool: Pool)
    | DataIs(data: Option<nat>)
    | PercentIs(percent: nat)

  /** Any handler that takes a bounded number of steps, each chosen from all the answers so far. */
  datatype Program = Program(steps: nat, code: seq<Answer> -> Instr)

  datatype Tx = Tx(bytes: nat, size: nat, check: Program, apply: Program)

  /** A check may look, but not touch. */
  ghost predicate ReadOnly(p: Program) {
    forall answers: seq<Answer> :: IsRead(p.code(answers))
  }

  predicate IsRead(i: Instr) {
    i.Succeed? || i.Fail? || i.ReadAccount? || i.ReadPool? || i.Load? || i.SlashedSoFar?
  }

  type Slashes = map<(Address, nat), nat>

  /** The state as transactions see it: a plain map, the slashes of this block, and the events of the running transaction. */
  datatype Plain = Plain(view: View, slashes: Slashes, events: seq<nat>)

  function Percent(slashes: Slashes, a: Address, chain: nat): nat {
    if (a, chain) in slashes then slashes[(a, chain)] else 0
  }

  function UpdatedAccount(view: View, i: Instr, height: nat): Option<Account>
    requires i.CreditAccount? || i.DebitAccount? || i.CreditVesting?
  {
    AccountAfter(AccountIn(view, i.a), i, height)
  }

  function AccountAfter(acc: Account, i: Instr, height: nat): Option<Account>
    requires i.CreditAccount? || i.DebitAccount? || i.CreditVesting?
  {
    match i
    case CreditAccount(_, n) => Add(acc, n)
    case DebitAccount(_, n) => Sub(acc, n, height)
    case CreditVesting(_, n, s) => if n == 0 then None else AddWithVesting(acc, n, s, height)
  }

  function UpdatedPool(view: View, i: Instr): Option<Pool>
    requires i.WritePool? || i.CreditPool? || i.DebitPool?
  {
    PoolAfter(PoolIn(view, i.id), i)
  }

  function PoolAfter(pool: Pool, i: Instr): Option<Pool>
    requires i.WritePool? || i.CreditPool? || i.DebitPool?
  {
    match i
    case WritePool(_, p) => Some(p)
    case CreditPool(_, n) => Some(pool.(amount := Wrap(pool.amount + n)))
    case DebitPool(_, n) => if pool.amount < n then None else Some(pool.(amount := pool.amount - n))
  }

  /** One instruction on the plain map. */
  function Exec(p: Plain, i: Instr, height: nat): (Plain, Answer) {
    match i
    case Succeed => (p, Done)
    case Fail => (p, Done)
    case ReadAccount(a) => (p, AccountIs(AccountIn(p.view, a)))
    case ReadPool(id) => (p, PoolIs(PoolIn(p.view, id)))
    case Load(name) => (p, DataIs(DataIn(p.view, name)))
    case Save(name, data) => (p.(view := p.view[OtherKey(name) := Bytes(data)]), Done)
    case Erase(name) => (p.(view := p.view - {OtherKey(name)}), Done)
    case Emit(e) => (p.(events := p.events + [e]), Done)
    case SlashedSoFar(a, chain) => (p, PercentIs(Percent(p.slashes, a, chain)))
    case AddSlash(a, chain, percent) => (p.(slashes := p.slashes[(a, chain) := Percent(p.slashes, a, chain) + percent]), Done)
    case WritePool(id, _) => WroteCheckedPool(p, id, UpdatedPool(p.view, i))
    case CreditPool(id, _) => WroteCheckedPool(p, id, UpdatedPool(p.view, i))
    case DebitPool(id, _) => WroteCheckedPool(p, id, UpdatedPool(p.view, i))
    case CreditAccount(a, n) => if n == 0 then (p, Done) else WroteAccount(p, a, UpdatedAccount(p.view, i, height), height)
    case DebitAccount(a, n) => if n == 0 then (p, Done) else WroteAccount(p, a, UpdatedAccount(p.view, i, height), height)
    case CreditVesting(a, _, _) => WroteAccount(p, a, UpdatedAccount(p.view, i, height), height)
  }

  function WroteAccount(p: Plain, a: Address, acc: Option<Account>, height: nat): (Plain, Answer) {
    if acc.None? then (p, Refused) else (p.(view := WithAccount(p.view, a, acc.value, height)), Done)
  }

  function WroteCheckedPool(p: Plain, id: nat, pool: Option<Pool>): (Plain, Answer) {
    if pool.None? then (p, Refused) else (p.(view := WithPool(p.view, id, pool.value)), Done)
  }

  /** The rest of a program's run; None is failure. */
  function Run(p: Plain, prog: Program, answers: seq<Answer>, height: nat): Option<Plain>
    decreases prog.steps - |answers|
  {
    if |answers| >= prog.steps then None
    else
      match prog.code(answers)
      case Succeed => Some(p)
      case Fail => None
      case i => Run(Exec(p, i, height).0, prog, answers + [Exec(p, i, height).1], height)
  }

  // ---------------------------------------------------------------------------------------------
  // Caches
  // ---------------------------------------------------------------------------------------------

  /** Whatever is cached is what the store shows. */
  ghost predicate Coherent(view: View, accounts: map<Address, Account>, pools: map<nat, Pool>) {
    && (forall a :: a in accounts ==> accounts[a] == AccountIn(view, a))
    && (forall id :: id in pools ==> pools[id] == PoolIn(view, id))
  }

  /** Storing a pool keeps the cache coherent exactly if the pool is not left with points but no balance. */
  lemma PoolCacheIsCoherentExactlyWhen(view: View, accounts: map<Address, Account>, pools: map<nat, Pool>, id: nat, pool: Pool)
    requires Coherent(view, accounts, pools)
    ensures Coherent(WithPool(view, id, pool), accounts, pools[id := pool]) <==> (pool.amount == 0 ==> pool.points == NO_POINTS)
  {
    var view', pools' := WithPool(view, id, pool), pools[id := pool];
    assert forall a :: AccountIn(view', a) == AccountIn(view, a);
    assert forall k :: k != id ==> PoolIn(view', k) == PoolIn(view, k);
    assert pools'[id] == pool;
  }

  /** Storing an account keeps the cache coherent exactly if an account with nothing in it is the default account. */
  lemma AccountCacheIsCoherentExactlyWhen(view: View, accounts: map<Address, Account>, pools: map<nat, Pool>, a: Address, acc: Account, height: nat)
    requires Coherent(view, accounts, pools)
    ensures Coherent(WithAccount(view, a, acc, height), accounts[a := acc.Cleared(height)], pools) <==>
      (acc.amount == 0 ==> acc.Cleared(height) == EMPTY_ACCOUNT)
  {
    var view', accounts' := WithAccount(view, a, acc, height), accounts[a := acc.Cleared(height)];
    assert forall id :: PoolIn(view', id) == PoolIn(view, id);
    assert forall b :: b != a ==> AccountIn(view', b) == AccountIn(view, b);
    assert accounts'[a] == acc.Cleared(height);
  }

  lemma OtherKeysAreNotCached(view: View, accounts: map<Address, Account>, pools: map<nat, Pool>, name: nat, data: nat)
    requires Coherent(view, accounts, pools)
    ensures Coherent(view[OtherKey(name) := Bytes(data)], accounts, pools)
    ensures Coherent(view - {OtherKey(name)}, accounts, pools)
  {
    var view', view'' := view[OtherKey(name) := Bytes(data)], view - {OtherKey(name)};
    assert forall a :: AccountIn(view', a) == AccountIn(view'', a) == AccountIn(view, a);
    assert forall id :: PoolIn(view', id) == PoolIn(view'', id) == PoolIn(view, id);
  }

  /** An account only runs empty through a debit, and a debit leaves what is locked: so nothing is locked, and the tranche is forgotten. */
  lemma EmptiedAccountIsDefault(view: View, i: Instr, height: nat)
    requires WellTyped(view)
    requires i.CreditAccount? || i.DebitAccount? || i.CreditVesting?
    requires i.n != 0 && UpdatedAccount(view, i, height).Some?
    ensures var acc := UpdatedAccount(view, i, height).value;
      && (acc.amount == 0 ==> acc.Cleared(height) == EMPTY_ACCOUNT)
      && WellTyped(WithAccount(view, i.a, acc, height))
  {
    var before, acc := AccountIn(view, i.a), UpdatedAccount(view, i, height).value;
    if i.DebitAccount? {
      SameLock(before, acc, height);
    }
    var view' := WithAccount(view, i.a, acc, height);
    assert forall b :: AccountKey(b) in view' && b != i.a ==> view'[AccountKey(b)] == view[AccountKey(b)];
    assert forall id :: PoolKey(id) in view' ==> view'[PoolKey(id)] == view[PoolKey(id)];
    assert forall name :: OtherKey(name) in view' ==> view'[OtherKey(name)] == view[OtherKey(name)];
  }

  // ---------------------------------------------------------------------------------------------
  // Runs that keep the caches coherent
  // ---------------------------------------------------------------------------------------------

  /** The instruction does not store a pool that has points but no balance. */
  predicate KeepsPoints(view: View, i: Instr) {
    i.WritePool? || i.CreditPool? || i.DebitPool? ==>
      (UpdatedPool(view, i).Some? && UpdatedPool(view, i).value.amount == 0 ==> UpdatedPool(view, i).value.points == NO_POINTS)
  }

  ghost predicate RunKeepsPoints(p: Plain, prog: Program, answers: seq<Answer>, height: nat)
    decreases prog.steps - |answers|
  {
    |answers| >= prog.steps ||
    var i := prog.code(answers);
    i.Succeed? || i.Fail? ||
    (KeepsPoints(p.view, i) && RunKeepsPoints(Exec(p, i, height).0, prog, answers + [Exec(p, i, height).1], height))
  }

  lemma ExecKeepsTypes(p: Plain, i: Instr, height: nat)
    requires WellTyped(p.view)
    ensures WellTyped(Exec(p, i, height).0.view)
  {
    var q := Exec(p, i, height).0;
    if (i.CreditAccount? || i.DebitAccount? || i.CreditVesting?) && q != p {
      EmptiedAccountIsDefault(p.view, i, height);
    } else {
      assert forall a :: AccountKey(a) in q.view ==> AccountKey(a) in p.view && q.view[AccountKey(a)] == p.view[AccountKey(a)];
    }
  }

  lemma {:induction false} ChecksKeepPoints(p: Plain, prog: Program, answers: seq<Answer>, height: nat)
    requires ReadOnly(prog)
    ensures RunKeepsPoints(p, prog, answers, height)
    decreases prog.steps - |answers|
  {
    var i := prog.code(answers);
    if |answers| < prog.steps && !i.Succeed? && !i.Fail? {
      ChecksKeepPoints(Exec(p, i, height).0, prog, answers + [Exec(p, i, height).1], height);
    }
  }

  // ---------------------------------------------------------------------------------------------
  // A block of transactions on the plain map
  // ---------------------------------------------------------------------------------------------

  datatype Included = Included(tx: nat, events: seq<nat>)

  datatype Results = Results(included: seq<Included>, failed: seq<nat>, size: nat) {

    function Failed(i: nat): Results {
      this.(failed := failed + [i])
    }

    function Including(i: nat, txSize: nat, events: seq<nat>): Results {
      Results(included + [Included(i, events)], failed, size + txSize)
    }
  }

  const NO_RESULTS: Results := Results([], [], 0)

  /** A transaction takes effect as a whole or not at all. */
  function After(p: Plain, tx: Tx, height: nat): Plain {
    match Run(p, tx.apply, [], height)
    case None => p.(events := [])
    case Some(q) => q.(events := [])
  }

  function FailedChecks(p: Plain, txs: seq<Tx>, badSignatures: set<nat>, height: nat): set<nat> {
    set i | 0 <= i < |txs| && (Run(p, txs[i].check, [], height).None? || i in badSignatures)
  }

  ghost predicate BlockKeepsPoints(p: Plain, txs: seq<Tx>, i: nat, failedChecks: set<nat>, height: nat)
    requires i <= |txs|
    decreases |txs| - i
  {
    i == |txs| ||
    if i in failedChecks then BlockKeepsPoints(p, txs, i + 1, failedChecks, height)
    else RunKeepsPoints(p, txs[i].apply, [], height) && BlockKeepsPoints(After(p, txs[i], height), txs, i + 1, failedChecks, height)
  }

  /** The transactions from the i-th on; None for a duplicate or an oversized block. */
  function ApplyFrom(p: Plain, txs: seq<Tx>, i: nat, failedChecks: set<nat>, seen: set<nat>, max: nat, r: Results, height: nat): Option<(Plain, Results)>
    requires i <= |txs|
    decreases |txs| - i
  {
    if i == |txs| then Some((p, r))
    else if i in failedChecks then ApplyFrom(p, txs, i + 1, failedChecks, seen, max, r.Failed(i), height)
    else if txs[i].bytes in seen || txs[i].size + r.size > max then None
    else
      var run := Run(p, txs[i].apply, [], height);
      var r' := if run.None? then r.Failed(i) else r.Including(i, txs[i].size, run.value.events);
      ApplyFrom(After(p, txs[i], height), txs, i + 1, failedChecks, seen + {txs[i].bytes}, max, r', height)
  }

  /** The included transactions alone, one after the other, each from a state without events and emitting exactly what is recorded. */
  function Play(p: Plain, txs: seq<Tx>, included: seq<Included>, height: nat): Option<Plain>
    requires forall j :: 0 <= j < |included| ==> included[j].tx < |txs|
    decreases |included|
  {
    if included == [] then Some(p)
    else
      var q :- Run(p.(events := []), txs[included[0].tx].apply, [], height);
      if q.events != included[0].events then None else Play(q.(events := []), txs, included[1..], height)
  }

  /** Every transaction before the i-th is either included or failed, in the block's order, and what is included fits. */
  ghost predicate Accounts(r: Results, txs: seq<Tx>, i: nat, max: nat) {
    && r.size <= max
    && (forall j :: 0 <= j < |r.included| ==> r.included[j].tx < i <= |txs|)
    && (forall j, k :: 0 <= j < k < |r.included| ==> r.included[j].tx < r.included[k].tx)
    && (forall j, k :: 0 <= j < k < |r.failed| ==> r.failed[j] < r.failed[k])
    && (forall j :: 0 <= j < |r.failed| ==> r.failed[j] < i)
    && (forall k :: 0 <= k < i ==> (k in r.failed <==> !Includes(r, k)))
  }

  predicate Includes(r: Results, k: nat) {
    exists j :: 0 <= j < |r.included| && r.included[j].tx == k
  }

  lemma RecordKeepsAccounts(r: Results, txs: seq<Tx>, i: nat, max: nat, events: seq<nat>)
    requires i < |txs| && Accounts(r, txs, i, max)
    ensures Accounts(r.Failed(i), txs, i + 1, max)
    ensures txs[i].size + r.size <= max ==> Accounts(r.Including(i, txs[i].size, events), txs, i + 1, max)
  {
    var a, b := r.Failed(i), r.Including(i, txs[i].size, events);
    assert b.included[|r.included|].tx == i;
    forall k | 0 <= k < i
      ensures Includes(a, k) == Includes(b, k) == Includes(r, k)
    {
      if Includes(r, k) {
        var j :| 0 <= j < |r.included| && r.included[j].tx == k;
        assert b.included[j].tx == k;
      }
    }
  }

  lemma {:induction false} ApplyFromAccounts(p: Plain, txs: seq<Tx>, i: nat, failedChecks: set<nat>, seen: set<nat>, max: nat, r: Results, height: nat)
    requires i <= |txs| && Accounts(r, txs, i, max)
    requires ApplyFrom(p, txs, i, failedChecks, seen, max, r, height).Some?
    ensures Accounts(ApplyFrom(p, txs, i, failedChecks, seen, max, r, height).value.1, txs, |txs|, max)
    decreases |txs| - i
  {
    if i < |txs| {
      var run := Run(p, txs[i].apply, [], height);
      RecordKeepsAccounts(r, txs, i, max, if run.Some? then run.value.events else []);
      if i in failedChecks {
        ApplyFromAccounts(p, txs, i + 1, failedChecks, seen, max, r.Failed(i), height);
      } else {
        var r' := if run.None? then r.Failed(i) else r.Including(i, txs[i].size, run.value.events);
        ApplyFromAccounts(After(p, txs[i], height), txs, i + 1, failedChecks, seen + {txs[i].bytes}, max, r', height);
      }
    }
  }

  /** The i-th and later transactions only append to what is included, and playing what they append explains the final state. */
  lemma {:induction false} ApplyFromPlays(p: Plain, txs: seq<Tx>, i: nat, failedChecks: set<nat>, seen: set<nat>, max: nat, r: Results, height: nat)
    requires i <= |txs| && p.events == []
    requires forall j :: 0 <= j < |r.included| ==> r.included[j].tx < i
    requires ApplyFrom(p, txs, i, failedChecks, seen, max, r, height).Some?
    ensures var (q, r') := ApplyFrom(p, txs, i, failedChecks, seen, max, r, height).value;
      && r.included <= r'.included
      && (forall j :: 0 <= j < |r'.included| ==> r'.included[j].tx < |txs|)
      && Play(p, txs, r'.included[|r.included|..], height) == Some(q)
    decreases |txs| - i
  {
    if i < |txs| {
      var run := Run(p, txs[i].apply, [], height);
      if i in failedChecks || run.None? {
        assert p.(events := []) == p;
        ApplyFromPlays(p, txs, i + 1, failedChecks, if i in failedChecks then seen else seen + {txs[i].bytes}, max, r.Failed(i), height);
      } else {
        var more := r.Including(i, txs[i].size, run.value.events);
        ApplyFromPlays(After(p, txs[i], height), txs, i + 1, failedChecks, seen + {txs[i].bytes}, max, more, height);
        var r' := ApplyFrom(p, txs, i, failedChecks, seen, max, r, height).value.1;
        assert r'.included[|r.included|] == Included(i, run.value.events);
        assert r'.included[|r.included|..][1..] == r'.included[|more.included|..];
        assert p.(events := []) == p;
      }
    }
  }

  /**
   Failed transactions leave no trace: the final state is that of the included transactions played alone,
   each emitting exactly the recorded events; every transaction is included or failed, never both.
   */
  lemma OnlySuccessesCount(p: Plain, txs: seq<Tx>, failedChecks: set<nat>, max: nat, height: nat)
    requires p.events == []
    requires ApplyFrom(p, txs, 0, failedChecks, {}, max, NO_RESULTS, height).Some?
    ensures var (q, r) := ApplyFrom(p, txs, 0, failedChecks, {}, max, NO_RESULTS, height).value;
      && Accounts(r, txs, |txs|, max)
      && Play(p, txs, r.included, height) == Some(q)
  {
    var (q, r) := ApplyFrom(p, txs, 0, failedChecks, {}, max, NO_RESULTS, height).value;
    ApplyFromAccounts(p, txs, 0, failedChecks, {}, max, NO_RESULTS, height);
    ApplyFromPlays(p, txs, 0, failedChecks, {}, max, NO_RESULTS, height);
    assert r.included[0..] == r.included;
  }

  // ---------------------------------------------------------------------------------------------
  // Exactly what a block includes
  // ---------------------------------------------------------------------------------------------

  /** The state in which the i-th transaction runs. */
  function StateBefore(p: Plain, txs: seq<Tx>, failedChecks: set<nat>, i: nat, height: nat): Plain
    requires i <= |txs|
  {
    if i == 0 then p
    else if i - 1 in failedChecks then StateBefore(p, txs, failedChecks, i - 1, height)
    else After(StateBefore(p, txs, failedChecks, i - 1, height), txs[i - 1], height)
  }

  /** The transaction passes its check and its handler succeeds. */
  predicate Succeeds(p: Plain, txs: seq<Tx>, failedChecks: set<nat>, i: nat, height: nat)
    requires i < |txs|
  {
    i !in failedChecks && Run(StateBefore(p, txs, failedChecks, i, height), txs[i].apply, [], height).Some?
  }

  /** The sizes of the transactions that have succeeded before the i-th. */
  function SizeBefore(p: Plain, txs: seq<Tx>, failedChecks: set<nat>, i: nat, height: nat): nat
    requires i <= |txs|
  {
    if i == 0 then 0
    else SizeBefore(p, txs, failedChecks, i - 1, height) + if Succeeds(p, txs, failedChecks, i - 1, height) then txs[i - 1].size else 0
  }

  /** The bytes of the transactions before the i-th that have passed their checks. */
  function SeenBefore(txs: seq<Tx>, failedChecks: set<nat>, i: nat): set<nat>
    requires i <= |txs|
  {
    set j | 0 <= j < i && j !in failedChecks :: txs[j].bytes
  }

  /** The transaction has passed its check, but repeats an earlier such one, or does not fit any more. */
  predicate Rejected(p: Plain, txs: seq<Tx>, failedChecks: set<nat>, max: nat, i: nat, height: nat)
    requires i < |txs|
  {
    i !in failedChecks && (txs[i].bytes in SeenBefore(txs, failedChecks, i) || txs[i].size + SizeBefore(p, txs, failedChecks, i, height) > max)
  }

  /** The results list exactly the transactions before the i-th: as included if they succeeded, and else as failed. */
  ghost predicate Lists(p: Plain, txs: seq<Tx>, failedChecks: set<nat>, i: nat, height: nat, r: Results)
    requires i <= |txs|
  {
    && r.size == SizeBefore(p, txs, failedChecks, i, height)
    && forall k :: 0 <= k < i ==> (k in r.failed <==> !Succeeds(p, txs, failedChecks, k, height))
  }

  lemma ListsOneMore(p: Plain, txs: seq<Tx>, failedChecks: set<nat>, i: nat, height: nat, r: Results, events: seq<nat>)
    requires i < |txs| && Lists(p, txs, failedChecks, i, height, r) && (forall k :: k in r.failed ==> k < i)
    ensures Succeeds(p, txs, failedChecks, i, height) ==> Lists(p, txs, failedChecks, i + 1, height, r.Including(i, txs[i].size, events))
    ensures !Succeeds(p, txs, failedChecks, i, height) ==> Lists(p, txs, failedChecks, i + 1, height, r.Failed(i))
  {
  }

  lemma SeenOneMore(txs: seq<Tx>, failedChecks: set<nat>, i: nat)
    requires i < |txs|
    ensures SeenBefore(txs, failedChecks, i + 1) == SeenBefore(txs, failedChecks, i) + if i in failedChecks then {} else {txs[i].bytes}
  {
  }

  /** What is recorded for the i-th transaction. */
  function Recorded(p: Plain, txs: seq<Tx>, failedChecks: set<nat>, i: nat, r: Results, height: nat): Results
    requires i < |txs|
  {
    var run := Run(StateBefore(p, txs, failedChecks, i, height), txs[i].apply, [], height);
    if i in failedChecks || run.None? then r.Failed(i) else r.Including(i, txs[i].size, run.value.events)
  }

  lemma ApplyOneMore(p: Plain, txs: seq<Tx>, i: nat, failedChecks: set<nat>, max: nat, r: Results, height: nat)
    requires i < |txs| && r.size == SizeBefore(p, txs, failedChecks, i, height)
    ensures ApplyFrom(StateBefore(p, txs, failedChecks, i, height), txs, i, failedChecks, SeenBefore(txs, failedChecks, i), max, r, height) ==
      if Rejected(p, txs, failedChecks, max, i, height) then None
      else ApplyFrom(StateBefore(p, txs, failedChecks, i + 1, height), txs, i + 1, failedChecks, SeenBefore(txs, failedChecks, i + 1), max,
                     Recorded(p, txs, failedChecks, i, r, height), height)
  {
    SeenOneMore(txs, failedChecks, i);
    assert i in failedChecks ==> SeenBefore(txs, failedChecks, i) + {} == SeenBefore(txs, failedChecks, i);
  }

  lemma {:induction false} ApplyFromExactly(p: Plain, txs: seq<Tx>, i: nat, failedChecks: set<nat>, max: nat, r: Results, height: nat)
    requires i <= |txs| && Lists(p, txs, failedChecks, i, height, r) && forall k :: k in r.failed ==> k < i
    ensures var outcome := ApplyFrom(StateBefore(p, txs, failedChecks, i, height), txs, i, failedChecks, SeenBefore(txs, failedChecks, i), max, r, height);
      && (outcome.None? <==> exists j :: i <= j < |txs| && Rejected(p, txs, failedChecks, max, j, height))
      && (outcome.Some? ==> outcome.value.0 == StateBefore(p, txs, failedChecks, |txs|, height) && Lists(p, txs, failedChecks, |txs|, height, outcome.value.1))
    decreases |txs| - i
  {
    if i < |txs| {
      ApplyOneMore(p, txs, i, failedChecks, max, r, height);
      if !Rejected(p, txs, failedChecks, max, i, height) {
        var run := Run(StateBefore(p, txs, failedChecks, i, height), txs[i].apply, [], height);
        ListsOneMore(p, txs, failedChecks, i, height, r, if run.Some? then run.value.events else []);
        ApplyFromExactly(p, txs, i + 1, failedChecks, max, Recorded(p, txs, failedChecks, i, r, height), height);
      }
    }
  }

  /**
   A block is refused exactly if a transaction that passed its check repeats an earlier one or does not fit behind those that
   succeeded; otherwise exactly those are failed whose check or handler has failed, and the state is that after all handlers.
   */
  lemma BlockExactly(p: Plain, txs: seq<Tx>, failedChecks: set<nat>, max: nat, height: nat)
    ensures var outcome := ApplyFrom(p, txs, 0, failedChecks, {}, max, NO_RESULTS, height);
      && (outcome.None? <==> exists j :: 0 <= j < |txs| && Rejected(p, txs, failedChecks, max, j, height))
      && (outcome.Some? ==>
            && outcome.value.0 == StateBefore(p, txs, failedChecks, |txs|, height)
            && forall k :: 0 <= k < |txs| ==> (k in outcome.value.1.failed <==> !Succeeds(p, txs, failedChecks, k, height)))
  {
    assert SeenBefore(txs, failedChecks, 0) == {};
    ApplyFromExactly(p, txs, 0, failedChecks, max, NO_RESULTS, height);
  }

  // ---------------------------------------------------------------------------------------------
  // Exactly what an instruction does
  // ---------------------------------------------------------------------------------------------

  /** Only the account differs, if anything does. */
  ghost predicate OnlyAccount(p: Plain, q: Plain, a: Address) {
    && q == p.(view := q.view)
    && (forall b :: b != a ==> AccountIn(q.view, b) == AccountIn(p.view, b))
    && (forall id :: PoolIn(q.view, id) == PoolIn(p.view, id)) && (forall name :: DataIn(q.view, name) == DataIn(p.view, name))
  }

  ghost predicate OnlyPool(p: Plain, q: Plain, id: nat) {
    && q == p.(view := q.view)
    && (forall other :: other != id ==> PoolIn(q.view, other) == PoolIn(p.view, other))
    && (forall a :: AccountIn(q.view, a) == AccountIn(p.view, a)) && (forall name :: DataIn(q.view, name) == DataIn(p.view, name))
  }

  /** A credit or debit of an account is refused exactly if the balance would leave 64 bits or what is locked; it moves that balance alone. */
  lemma BalancesMoveExactly(p: Plain, i: Instr, height: nat)
    requires (i.CreditAccount? || i.DebitAccount?) && i.n != 0 && WellTyped(p.view)
    ensures var (q, answer), acc := Exec(p, i, height), AccountIn(p.view, i.a);
      && OnlyAccount(p, q, i.a)
      && (answer == Done || answer == Refused) && (answer == Refused ==> q == p)
      && (i.CreditAccount? ==> (answer == Done <==> acc.amount + i.n <= MAX_UINT64) && (answer == Done ==> AccountIn(q.view, i.a).amount == acc.amount + i.n))
      && (i.DebitAccount? ==> (answer == Done <==> i.n <= acc.Spendable(height)) && (answer == Done ==> AccountIn(q.view, i.a).amount + i.n == acc.amount))
  {
    var (q, answer) := Exec(p, i, height);
    if answer == Done {
      EmptiedAccountIsDefault(p.view, i, height);
    }
  }

  /** The instruction as an operation on one account. */
  function OperationOf(i: Instr): Operation
    requires i.CreditAccount? || i.DebitAccount? || i.CreditVesting?
  {
    match i
    case CreditAccount(_, n) => Receive(n)
    case DebitAccount(_, n) => Spend(n)
    case CreditVesting(_, n, s) => ReceiveVesting(n, s)
  }

  /** Instructions are the operations of account histories: whatever a history keeps of an account, transactions keep. */
  lemma InstructionsAreOperations(p: Plain, i: Instr, height: nat)
    requires (i.CreditAccount? || i.DebitAccount? || i.CreditVesting?) && i.n != 0 && WellTyped(p.view)
    ensures var (q, answer) := Exec(p, i, height);
      && OnlyAccount(p, q, i.a)
      && AccountIn(q.view, i.a) == Stored(AccountIn(p.view, i.a), OperationOf(i), height)
      && (answer == Done <==> Attempt(AccountIn(p.view, i.a), OperationOf(i), height).Some?)
  {
    var (q, answer) := Exec(p, i, height);
    if answer == Done {
      EmptiedAccountIsDefault(p.view, i, height);
    }
  }

  /** Every balance covers what is locked of it, and the products that vesting computes fit in 64 bits. */
  ghost predicate AllCovered(view: View, height: nat) {
    forall a :: AccountIn(view, a).Covered(height) && AccountIn(view, a).Fits()
  }

  /** If the instruction stores a tranche, the products that it leads to fit in 64 bits. */
  predicate TrancheFits(view: View, i: Instr, height: nat) {
    i.CreditVesting? ==> var r := Attempt(AccountIn(view, i.a), OperationOf(i), height); r.Some? ==> r.value.Fits()
  }

  ghost predicate RunFits(p: Plain, prog: Program, answers: seq<Answer>, height: nat)
    decreases prog.steps - |answers|
  {
    |answers| >= prog.steps ||
    var i := prog.code(answers);
    i.Succeed? || i.Fail? ||
    (TrancheFits(p.view, i, height) && RunFits(Exec(p, i, height).0, prog, answers + [Exec(p, i, height).1], height))
  }

  lemma ExecKeepsCovered(p: Plain, i: Instr, height: nat)
    requires WellTyped(p.view) && AllCovered(p.view, height) && TrancheFits(p.view, i, height)
    ensures AllCovered(Exec(p, i, height).0.view, height)
  {
    if (i.CreditAccount? || i.DebitAccount? || i.CreditVesting?) && i.n != 0 {
      InstructionsAreOperations(p, i, height);
      StoredStaysCovered(AccountIn(p.view, i.a), OperationOf(i), height, height);
    } else {
      assert forall a :: AccountIn(Exec(p, i, height).0.view, a) == AccountIn(p.view, a);
    }
  }

  /** Whatever a transaction's handler does, no balance ever falls below what is locked of it. */
  lemma {:induction false} HandlersKeepLocksCovered(p: Plain, prog: Program, answers: seq<Answer>, height: nat)
    requires WellTyped(p.view) && AllCovered(p.view, height) && RunFits(p, prog, answers, height)
    requires Run(p, prog, answers, height).Some?
    ensures AllCovered(Run(p, prog, answers, height).value.view, height)
    decreases prog.steps - |answers|
  {
    var i := prog.code(answers);
    if !i.Succeed? && !i.Fail? {
      ExecKeepsTypes(p, i, height);
      ExecKeepsCovered(p, i, height);
      HandlersKeepLocksCovered(Exec(p, i, height).0, prog, answers + [Exec(p, i, height).1], height);
    }
  }

  /** What is saved can be loaded until it is erased; events and slashes add up; nothing else changes. */
  lemma RecordsExactly(p: Plain, i: Instr, height: nat)
    ensures i.Save? ==> var q := Exec(p, i, height).0;
      DataIn(q.view, i.name) == Some(i.data) && q == p.(view := q.view) && forall k :: k != OtherKey(i.name) ==> Lookup(q.view, k) == Lookup(p.view, k)
    ensures i.Erase? ==> var q := Exec(p, i, height).0;
      DataIn(q.view, i.name) == None && q == p.(view := q.view) && forall k :: k != OtherKey(i.name) ==> Lookup(q.view, k) == Lookup(p.view, k)
    ensures i.Load? ==> Exec(p, i, height) == (p, DataIs(DataIn(p.view, i.name)))
    ensures i.Emit? ==> Exec(p, i, height).0 == Plain(p.view, p.slashes, p.events + [i.event])
    ensures i.AddSlash? ==> var q := Exec(p, i, height).0;
      && q == p.(slashes := q.slashes)
      && forall a: Address, chain: nat :: Percent(q.slashes, a, chain) == Percent(p.slashes, a, chain) + if (a, chain) == (i.a, i.chain) then i.percent else 0
  {
  }

  /** A debit of a pool is refused exactly without the amount; a credit and a write never are; that pool alone changes. */
  lemma PoolsMoveExactly(p: Plain, i: Instr, height: nat)
    requires (i.WritePool? || i.CreditPool? || i.DebitPool?) && WellTyped(p.view)
    ensures var (q, answer), pool := Exec(p, i, height), PoolIn(p.view, i.id);
      && OnlyPool(p, q, i.id)
      && (answer == Done <==> (i.DebitPool? ==> i.n <= pool.amount)) && (answer != Done ==> q == p)
      && (i.DebitPool? && answer == Done ==> PoolIn(q.view, i.id).amount + i.n == pool.amount)
      && (i.CreditPool? && pool.amount + i.n <= MAX_UINT64 ==> PoolIn(q.view, i.id).amount == pool.amount + i.n)
      && (i.WritePool? ==> PoolIn(q.view, i.id).amount == i.pool.amount && (0 < i.pool.amount ==> PoolIn(q.view, i.id) == i.pool))
  {
  }

  // ---------------------------------------------------------------------------------------------
  // The state machine
  // ---------------------------------------------------------------------------------------------

  class StateMachine {
    const height: nat
    var store: Txn<Key, Value>
    var accounts: map<Address, Account>
    var pools: map<nat, Pool>
    var slashTracker: Slashes
    var events: seq<nat>

    ghost predicate Valid()
      reads this, store, store.repr
    {
      && store.Valid() && this !in store.repr
      && WellTyped(store.View())
      && Coherent(store.View(), accounts, pools)
    }

    ghost function State(): Plain
      requires store.Valid()
      reads this, store, store.repr
    {
      Plain(store.View(), slashTracker, events)
    }

    constructor (height: nat, store: Txn<Key, Value>)
      requires store.Valid() && WellTyped(store.View())
      ensures Valid() && this.store == store && this.height == height
      ensures State() == Plain(store.View(), map[], [])
    {
      this.height, this.store := height, store;
      accounts, pools, slashTracker, events := map[], map[], map[], [];
    }

    method GetAccount(a: Address) returns (acc: Account)
      requires Valid()
      ensures acc == AccountIn(store.View(), a)
    {
      if a in accounts {
        return accounts[a];
      }
      var v := store.Get(AccountKey(a));
      acc := if v.Some? && v.value.AccountValue? then v.value.account else EMPTY_ACCOUNT;
    }

    method SetAccount(a: Address, account: Account)
      requires Valid()
      requires account.amount == 0 ==> account.Cleared(height) == EMPTY_ACCOUNT
      requires WellTyped(WithAccount(store.View(), a, account, height))
      modifies this`accounts, store
      ensures Valid()
      ensures State() == old(State()).(view := WithAccount(old(store.View()), a, account, height))
    {
      AccountCacheIsCoherentExactlyWhen(store.View(), accounts, pools, a, account, height);
      var stored := account.Cleared(height);
      accounts := accounts[a := stored];
      if stored.amount == 0 {
        store.Remove(AccountKey(a));
      } else {
        store.Set(AccountKey(a), AccountValue(stored));
      }
    }

    /** Adds, subtracts or adds with vesting. */
    method UpdateAccount(i: Instr) returns (answer: Answer)
      requires Valid()
      requires i.CreditAccount? || i.DebitAccount? || i.CreditVesting?
      modifies this`accounts, store
      ensures Valid()
      ensures (State(), answer) == Exec(old(State()), i, height)
    {
      if i.n == 0 {
        return if i.CreditVesting? then Refused else Done;
      }
      var acc := GetAccount(i.a);
      var r := AccountAfter(acc, i, height);
      if r.None? {
        return Refused;
      }
      EmptiedAccountIsDefault(store.View(), i, height);
      SetAccount(i.a, r.value);
      answer := Done;
    }

    method GetPool(id: nat) returns (pool: Pool)
      requires Valid()
      modifies this`pools
      ensures Valid() && State() == old(State())
      ensures pool == PoolIn(store.View(), id)
    {
      if id in pools {
        return pools[id];
      }
      var v := store.Get(PoolKey(id));
      pool := if v.Some? && v.value.PoolValue? then v.value.pool else Pool(0, NO_POINTS);
      pools := pools[id := pool];
    }

    method SetPool(id: nat, pool: Pool)
      requires Valid()
      requires pool.amount == 0 ==> pool.points == NO_POINTS
      modifies this`pools, store
      ensures Valid()
      ensures State() == old(State()).(view := WithPool(old(store.View()), id, pool))
    {
      PoolCacheIsCoherentExactlyWhen(store.View(), accounts, pools, id, pool);
      if pool.amount == 0 {
        store.Remove(PoolKey(id));
      } else {
        store.Set(PoolKey(id), PoolValue(pool));
      }
      pools := pools[id := pool];
    }

    method UpdatePool(i: Instr) returns (answer: Answer)
      requires Valid()
      requires i.WritePool? || i.CreditPool? || i.DebitPool?
      requires KeepsPoints(store.View(), i)
      modifies this`pools, store
      ensures Valid()
      ensures (State(), answer) == Exec(old(State()), i, height)
    {
      var pool := GetPool(i.id);
      var r := PoolAfter(pool, i);
      if r.None? {
        return Refused;
      }
      SetPool(i.id, r.value);
      answer := Done;
    }

    /** Keys without a cache. */
    method UpdateData(i: Instr)
      requires Valid()
      requires i.Save? || i.Erase?
      modifies store
      ensures Valid()
      ensures State() == Exec(old(State()), i, height).0
    {
      ExecKeepsTypes(State(), i, height);
      OtherKeysAreNotCached(store.View(), accounts, pools, i.name, if i.Save? then i.data else 0);
      if i.Save? {
        store.Set(OtherKey(i.name), Bytes(i.data));
      } else {
        store.Remove(OtherKey(i.name));
      }
    }

    method ReadData(name: nat) returns (data: Option<nat>)
      requires Valid()
      ensures data == DataIn(store.View(), name)
    {
      var v := store.Get(OtherKey(name));
      data := if v.Some? && v.value.Bytes? then Some(v.value.data) else None;
    }

    method Observe(i: Instr) returns (answer: Answer)
      requires Valid()
      requires IsRead(i)
      modifies this`pools
      ensures Valid() && State() == old(State())
      ensures answer == Exec(old(State()), i, height).1
    {
      answer := Done;
      match i {
        case ReadAccount(a) =>
          var acc := GetAccount(a);
          answer := AccountIs(acc);
        case ReadPool(id) =>
          var pool := GetPool(id);
          answer := PoolIs(pool);
        case Load(name) =>
          var data := ReadData(name);
          answer := DataIs(data);
        case SlashedSoFar(a, chain) =>
          answer := PercentIs(Percent(slashTracker, a, chain));
        case _ =>
      }
    }

    /** One instruction of a handler. */
    method Perform(i: Instr) returns (answer: Answer)
      requires Valid()
      requires KeepsPoints(store.View(), i)
      modifies this`accounts, this`pools, this`slashTracker, this`events, store
      ensures Valid()
      ensures (State(), answer) == Exec(old(State()), i, height)
    {
      answer := Done;
      if IsRead(i) {
        answer := Observe(i);
      } else if i.Save? || i.Erase? {
        UpdateData(i);
      } else if i.Emit? {
        events := events + [i.event];
      } else if i.AddSlash? {
        slashTracker := slashTracker[(i.a, i.chain) := Percent(slashTracker, i.a, i.chain) + i.percent];
      } else if i.WritePool? || i.CreditPool? || i.DebitPool? {
        answer := UpdatePool(i);
      } else {
        answer := UpdateAccount(i);
      }
    }

    /** Runs a handler to its end. */
    method Execute(prog: Program) returns (ok: bool)
      requires Valid()
      requires RunKeepsPoints(State(), prog, [], height)
      modifies this`accounts, this`pools, this`slashTracker, this`events, store
      ensures Valid()
      ensures ok <==> Run(old(State()), prog, [], height).Some?
      ensures ok ==> State() == Run(old(State()), prog, [], height).value
      ensures ReadOnly(prog) ==> State() == old(State())
    {
      var answers: seq<Answer> := [];
      ok := false;
      while |answers| < prog.steps
        invariant Valid() && !ok && |answers| <= prog.steps
        invariant Run(State(), prog, answers, height) == Run(old(State()), prog, [], height)
        invariant RunKeepsPoints(State(), prog, answers, height)
        invariant ReadOnly(prog) ==> State() == old(State())
      {
        var i := prog.code(answers);
        if i.Succeed? {
          return true;
        }
        if i.Fail? {
          return false;
        }
        var answer := Perform(i);
        answers := answers + [answer];
      }
    }

    /** From here on, writes stay in a new database transaction until it is committed. */
    method TxnWrap() returns (txn: Txn<Key, Value>)
      requires Valid()
      modifies this`store
      ensures Valid() && fresh(txn) && store == txn && txn.parent == old(store)
      ensures State() == old(State())
    {
      txn := new Txn.Over(store);
      store := txn;
    }

    /** The check of a transaction, in a database transaction that is thrown away. */
    method Check(tx: Tx) returns (ok: bool)
      requires Valid() && ReadOnly(tx.check)
      modifies this
      ensures Valid() && store == old(store) && State() == old(State())
      ensures ok <==> Run(old(State()), tx.check, [], height).Some?
    {
      var checkStore := store;
      var checkTxn := TxnWrap();
      ChecksKeepPoints(State(), tx.check, [], height);
      ok := Execute(tx.check);
      checkTxn.Discard();
      store := checkStore;
    }

    /** Leaves no trace of a failed transaction. */
    method RollBack(currentStore: Txn<Key, Value>, preTxSlashTracker: Slashes)
      requires currentStore.Valid() && this !in currentStore.repr && WellTyped(currentStore.View())
      modifies this
      ensures Valid() && store == currentStore
      ensures State() == Plain(currentStore.View(), preTxSlashTracker, [])
    {
      accounts, pools := map[], map[];
      events := [];
      slashTracker := preTxSlashTracker;
      store := currentStore;
    }

    /** Moves the writes of a successful transaction into the store below. */
    method Flush(currentStore: Txn<Key, Value>) returns (emitted: seq<nat>)
      requires Valid() && store.parent == currentStore
      modifies this, store, currentStore
      ensures Valid() && store == currentStore
      ensures State() == old(State()).(events := []) && emitted == old(events)
    {
      store.Commit();
      store := currentStore;
      emitted := events;
      events := [];
    }

    /** One transaction, in a database transaction that is committed on success; a failure is rolled back everywhere. */
    method Apply(tx: Tx) returns (ok: bool, emitted: seq<nat>)
      requires Valid()
      requires RunKeepsPoints(State(), tx.apply, [], height)
      modifies this, store
      ensures Valid() && store == old(store)
      ensures var run := Run(old(State()), tx.apply, [], height);
        && (ok <==> run.Some?)
        && (ok ==> emitted == run.value.events)
        && State() == if ok then run.value.(events := []) else old(State()).(events := [])
    {
      var currentStore := store;
      var preTxSlashTracker := slashTracker;
      emitted := [];
      var txn := TxnWrap();
      ok := Execute(tx.apply);
      assert txn !in currentStore.repr;
      assert currentStore.View() == old(store.View());
      if ok {
        emitted := Flush(currentStore);
      } else {
        RollBack(currentStore, preTxSlashTracker);
      }
    }

    method CheckAll(txs: seq<Tx>) returns (failedChecks: set<nat>)
      requires Valid()
      requires forall i :: 0 <= i < |txs| ==> ReadOnly(txs[i].check)
      modifies this
      ensures Valid() && store == old(store) && State() == old(State())
      ensures failedChecks == FailedChecks(old(State()), txs, {}, height)
    {
      failedChecks := {};
      for i := 0 to |txs|
        invariant Valid() && store == old(store) && State() == old(State())
        invariant failedChecks == set j | 0 <= j < i && Run(old(State()), txs[j].check, [], height).None?
      {
        var passed := Check(txs[i]);
        if !passed {
          failedChecks := failedChecks + {i};
        }
      }
    }

    /**
     All transactions of a block. It fails as a whole on a duplicate or an oversized block. Otherwise the
     state is the plain map after the successful transactions alone, and every cache agrees with the store.
     */
    method ApplyTransactions(txs: seq<Tx>, badSignatures: set<nat>, maxBlockSize: nat) returns (ok: bool, r: Results)
      requires Valid()
      requires forall i :: 0 <= i < |txs| ==> ReadOnly(txs[i].check)
      requires BlockKeepsPoints(State(), txs, 0, FailedChecks(State(), txs, badSignatures, height), height)
      modifies this, store
      ensures Valid() && store == old(store)
      ensures var outcome := ApplyFrom(old(State()), txs, 0, FailedChecks(old(State()), txs, badSignatures, height), {}, maxBlockSize, NO_RESULTS, height);
        && (ok <==> outcome.Some?)
        && (ok ==> outcome == Some((State(), r)))
    {
      ok, r := true, NO_RESULTS;
      var failedChecks := CheckAll(txs);
      failedChecks := failedChecks + set j | 0 <= j < |txs| && j in badSignatures;
      assert failedChecks == FailedChecks(old(State()), txs, badSignatures, height);
      var seen: set<nat> := {};
      for i := 0 to |txs|
        invariant Valid() && store == old(store) && ok
        invariant BlockKeepsPoints(State(), txs, i, failedChecks, height)
        invariant ApplyFrom(State(), txs, i, failedChecks, seen, maxBlockSize, r, height)
               == ApplyFrom(old(State()), txs, 0, failedChecks, {}, maxBlockSize, NO_RESULTS, height)
      {
        var tx := txs[i];
        if i in failedChecks {
          r := r.Failed(i);
        } else if tx.bytes in seen || tx.size + r.size > maxBlockSize {
          ok := false;
          return;
        } else {
          seen := seen + {tx.bytes};
          var applied, emitted := Apply(tx);
          r := if applied then r.Including(i, tx.size, emitted) else r.Failed(i);
        }
      }
    }
  }
}
