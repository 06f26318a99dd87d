/** The fungible-token balance ledger, as far as the contract's initialiser
    uses it: registering an account and depositing into it.

    The ledger is `near_contract_standards::fungible_token::FungibleToken`;
    its source is not part of this model. It is represented by the map of
    registered accounts to balances together with the recorded total supply. */
module Ledger {
  import opened Errors
  import opened Near

  datatype Token = Token(accounts: map<AccountId, Balance>, totalSupply: Balance)

  /** `FungibleToken::new`: no account registered, nothing minted. */
  const Empty: Token := Token(map[], 0)

  /** Sum of all balances held in `m`. */
  ghost function Sum(m: map<AccountId, Balance>): nat
    decreases |m|
  {
    if m == map[] then 0
    else
      var k :| k in m;
      assert |m - {k}| < |m| by {
        assert (m - {k}).Keys == m.Keys - {k};
      }
      m[k] + Sum(m - {k})
  }

  /** The ledger's conservation invariant: the balances add up to the
      recorded total supply. */
  ghost predicate Consistent(l: Token) {
    Sum(l.accounts) == l.totalSupply
  }

  /** Any one account's balance can be split off the sum, whichever key
      `Sum` happens to choose first. */
  lemma {:induction false} SumRemove(m: map<AccountId, Balance>, a: AccountId)
    requires a in m
    ensures Sum(m) == m[a] + Sum(m - {a})
    decreases |m|
  {
    var k :| k in m && Sum(m) == m[k] + Sum(m - {k});
    if k != a {
      var mk := m - {k};
      var ma := m - {a};
      assert (mk).Keys == m.Keys - {k};
      assert (ma).Keys == m.Keys - {a};
      SumRemove(mk, a);
      SumRemove(ma, k);
      assert mk - {a} == ma - {k};
    }
  }

  /** `ft_balance_of`: the balance of a registered account, 0 otherwise. */
  function BalanceOf(l: Token, a: AccountId): (r: Balance)
    ensures a in l.accounts ==> r == l.accounts[a]
    ensures a !in l.accounts ==> r == 0
  {
    if a in l.accounts then l.accounts[a] else 0
  }

  /** `internal_register_account`: adds `a` with a zero balance; aborts when
      `a` is already registered. */
  function Register(l: Token, a: AccountId): (r: Result<Token>)
    ensures r.Ok? <==> a !in l.accounts
    ensures r.Ok? ==> r.value.accounts.Keys == l.accounts.Keys + {a}
    ensures r.Ok? ==> BalanceOf(r.value, a) == 0
    ensures r.Ok? ==> forall b :: b != a ==> BalanceOf(r.value, b) == BalanceOf(l, b)
    ensures r.Ok? ==> r.value.totalSupply == l.totalSupply
    ensures r.Err? ==> r.error == AccountAlreadyRegistered
  {
    if a in l.accounts then Err(AccountAlreadyRegistered)
    else Ok(l.(accounts := l.accounts[a := 0]))
  }

  /** `internal_deposit`: credits `amount` to a registered account and adds
      it to the total supply, each with a checked 128-bit addition. */
  function Deposit(l: Token, a: AccountId, amount: Balance): (r: Result<Token>)
    ensures r.Ok? <==>
      && a in l.accounts
      && l.accounts[a] + amount < U128Limit
      && l.totalSupply + amount < U128Limit
    ensures r.Ok? ==> r.value.accounts.Keys == l.accounts.Keys
    ensures r.Ok? ==> BalanceOf(r.value, a) == BalanceOf(l, a) + amount
    ensures r.Ok? ==> forall b :: b != a ==> BalanceOf(r.value, b) == BalanceOf(l, b)
    ensures r.Ok? ==> r.value.totalSupply == l.totalSupply + amount
    ensures a !in l.accounts ==> r == Err(AccountNotRegistered)
    ensures a in l.accounts && l.accounts[a] + amount >= U128Limit ==> r == Err(BalanceOverflow)
    ensures a in l.accounts && l.accounts[a] + amount < U128Limit && l.totalSupply + amount >= U128Limit ==>
              r == Err(TotalSupplyOverflow)
  {
    if a !in l.accounts then Err(AccountNotRegistered)
    else if l.accounts[a] + amount >= U128Limit then Err(BalanceOverflow)
    else if l.totalSupply + amount >= U128Limit then Err(TotalSupplyOverflow)
    else Ok(l.(accounts := l.accounts[a := l.accounts[a] + amount],
               totalSupply := l.totalSupply + amount))
  }

  /** The empty ledger holds nothing and records nothing. */
  lemma EmptyConsistent()
    ensures Consistent(Empty)
  {
  }

  /** Registering an account keeps the balances adding up to the supply. */
  lemma {:induction false} RegisterKeepsConsistent(l: Token, a: AccountId)
    requires Consistent(l)
    requires Register(l, a).Ok?
    ensures Consistent(Register(l, a).value)
  {
    var m' := l.accounts[a := 0];
    SumRemove(m', a);
    assert m' - {a} == l.accounts;
  }

  /** A deposit raises the sum of balances exactly as much as the supply. */
  lemma {:induction false} DepositKeepsConsistent(l: Token, a: AccountId, amount: Balance)
    requires Consistent(l)
    requires Deposit(l, a, amount).Ok?
    ensures Consistent(Deposit(l, a, amount).value)
  {
    var m := l.accounts;
    var m' := m[a := m[a] + amount];
    SumRemove(m, a);
    SumRemove(m', a);
    assert m' - {a} == m - {a};
  }

  /** Under the conservation invariant no account reports more than the
      total supply. */
  lemma {:induction false} BalanceBoundedBySupply(l: Token, a: AccountId)
    requires Consistent(l)
    ensures BalanceOf(l, a) <= l.totalSupply
  {
    if a in l.accounts {
      SumRemove(l.accounts, a);
    }
  }
}
