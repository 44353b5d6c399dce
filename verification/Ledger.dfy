/** Accounts as a map from addresses to positive balances, and the sum of all balances. */
module Ledger {
  import opened Options

  type Address = nat

  const MAX_UINT64: nat := 0xFFFF_FFFF_FFFF_FFFF

  /** What an addition or subtraction without an overflow check leaves in 64 bits. */
  function Wrap(n: int): (r: nat)
    ensures 0 <= n <= MAX_UINT64 ==> r == n
  {
    n % (MAX_UINT64 + 1)
  }

  function Balance(accounts: map<Address, nat>, a: Address): nat {
    if a in accounts then accounts[a] else 0
  }

  /** An account with nothing in it is deleted. */
  function SetBalance(accounts: map<Address, nat>, a: Address, amount: nat): map<Address, nat> {
    if amount == 0 then accounts - {a} else accounts[a := amount]
  }

  function AccountAdd(accounts: map<Address, nat>, a: Address, amount: nat): Option<map<Address, nat>> {
    if amount == 0 then Some(accounts)
    else if Balance(accounts, a) + amount > MAX_UINT64 then None
    else Some(SetBalance(accounts, a, Balance(accounts, a) + amount))
  }

  function AccountSub(accounts: map<Address, nat>, a: Address, amount: nat): Option<map<Address, nat>> {
    if amount == 0 then Some(accounts)
    else if Balance(accounts, a) < amount then None
    else Some(SetBalance(accounts, a, Balance(accounts, a) - amount))
  }

  ghost function Total(accounts: map<Address, nat>): nat
    decreases |accounts|
  {
    if accounts == map[] then 0
    else
      var a :| a in accounts;
      accounts[a] + Total(accounts - {a})
  }

  /** The sum does not depend on the order in which the accounts are taken. */
  lemma {:induction false} TotalWithout(accounts: map<Address, nat>, a: Address)
    requires a in accounts
    ensures Total(accounts) == accounts[a] + Total(accounts - {a})
    decreases |accounts|
  {
    var b :| b in accounts && Total(accounts) == accounts[b] + Total(accounts - {b});
    if a != b {
      TotalWithout(accounts - {b}, a);
      TotalWithout(accounts - {a}, b);
      assert accounts - {a} - {b} == accounts - {b} - {a};
    }
  }

  lemma TotalOfSet(accounts: map<Address, nat>, a: Address, amount: nat)
    ensures Total(SetBalance(accounts, a, amount)) + Balance(accounts, a) == Total(accounts) + amount
  {
    var rest := accounts - {a};
    if a in accounts {
      TotalWithout(accounts, a);
    } else {
      assert rest == accounts;
    }
    if amount != 0 {
      TotalWithout(accounts[a := amount], a);
      assert accounts[a := amount] - {a} == rest;
    }
  }

  lemma BalanceBelowTotal(accounts: map<Address, nat>, a: Address)
    ensures Balance(accounts, a) <= Total(accounts)
  {
    if a in accounts {
      TotalWithout(accounts, a);
    }
  }

  /** A credit changes the sum by its amount, and succeeds whenever all balances together still fit in 64 bits. */
  lemma AccountAddTotal(accounts: map<Address, nat>, a: Address, amount: nat)
    ensures AccountAdd(accounts, a, amount).Some? ==> Total(AccountAdd(accounts, a, amount).value) == Total(accounts) + amount
    ensures Total(accounts) + amount <= MAX_UINT64 ==> AccountAdd(accounts, a, amount).Some?
  {
    TotalOfSet(accounts, a, Balance(accounts, a) + amount);
    BalanceBelowTotal(accounts, a);
  }

  lemma AccountSubTotal(accounts: map<Address, nat>, a: Address, amount: nat)
    ensures AccountSub(accounts, a, amount).Some? ==> Total(AccountSub(accounts, a, amount).value) + amount == Total(accounts)
  {
    if amount != 0 && amount <= Balance(accounts, a) {
      TotalOfSet(accounts, a, Balance(accounts, a) - amount);
    }
  }
}
