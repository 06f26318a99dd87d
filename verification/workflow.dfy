/** Sequences of calls to `transfer`, `add_whitelist` and `is_whitelisted`,
    the methods of `impl Contract` (src/lib.rs:111-174) other than the two
    logging hooks. The initialisers abort once state exists, and
    `ft_metadata` and the hooks write nothing, so leaving them out of a
    trace leaves out no change of state.

    The runtime processes one call at a time; a call that aborts leaves the
    state exactly as it was. A `Run` applies a trace of such calls, each with
    the environment the host gave it, and the lemmas here state what can and
    cannot change the whitelist over any such trace. The library entry
    points that move balances are not among these calls. */
module Workflow {
  import opened Errors
  import opened Near
  import TokenContract

  type Contract = TokenContract.Contract

  /** An invocation of one of these three methods. */
  datatype Call =
    | TransferCall(receiverId: AccountId, amount: Balance)
    | AddWhitelistCall(accountId: AccountId)
    | IsWhitelistedCall(accountId: AccountId)

  datatype Invocation = Invocation(call: Call, env: Env)

  /** What such a method returns: a scheduled promise chain or a flag. */
  datatype Reply = Scheduled(promise: Promise) | Flag(flag: bool)

  /** The method named by `inv.call`, run in `inv.env`. */
  function Apply(c: Contract, inv: Invocation): (r: Result<TokenContract.Step<Reply>>)
    ensures r.Ok? && !inv.call.AddWhitelistCall? ==> r.value.state == c
    ensures r.Ok? ==> r.value.state.ownerId == c.ownerId && r.value.state.token == c.token
  {
    match inv.call
    case TransferCall(receiverId, amount) =>
      var step :- TokenContract.Transfer(c, inv.env, receiverId, amount);
      Ok(TokenContract.Step(step.state, Scheduled(step.ret)))
    case AddWhitelistCall(accountId) =>
      var step :- TokenContract.AddWhitelist(c, inv.env, accountId);
      Ok(TokenContract.Step(step.state, Flag(step.ret)))
    case IsWhitelistedCall(accountId) =>
      var answer :- TokenContract.IsWhitelisted(c, inv.env, accountId);
      Ok(TokenContract.Step(c, Flag(answer)))
  }

  /** An `add_whitelist` callback for `x` that passes its account check and
      observes exactly one promise result, a successful one. */
  predicate Confirms(inv: Invocation, x: AccountId) {
    && inv.call == AddWhitelistCall(x)
    && inv.env.isValid(x)
    && |inv.env.promiseResults| == 1
    && inv.env.promiseResults[0].Successful?
  }

  /** Some invocation of the trace confirms `x`. */
  ghost predicate Confirmed(t: seq<Invocation>, x: AccountId) {
    exists i :: 0 <= i < |t| && Confirms(t[i], x)
  }

  /** The state after one invocation: its new state when it succeeds, the
      old state when it aborts. */
  function Next(c: Contract, inv: Invocation): (c': Contract)
    ensures c'.ownerId == c.ownerId && c'.token == c.token
    ensures forall x :: x in c'.whitelist <==> x in c.whitelist || Confirms(inv, x)
  {
    match Apply(c, inv)
    case Ok(step) => step.state
    case Err(_) => c
  }

  /** The state after the invocations of `t`, in order. */
  function Run(c: Contract, t: seq<Invocation>): Contract
    decreases |t|
  {
    if |t| == 0 then c else Run(Next(c, t[0]), t[1..])
  }

  /** No sequence of `transfer`, `add_whitelist` and `is_whitelisted` calls
      changes the owner or the ledger. */
  lemma {:induction false} RunKeepsOwnerAndLedger(c: Contract, t: seq<Invocation>)
    ensures Run(c, t).ownerId == c.ownerId
    ensures Run(c, t).token == c.token
    decreases |t|
  {
    if |t| > 0 {
      RunKeepsOwnerAndLedger(Next(c, t[0]), t[1..]);
    }
  }

  /** The whitelist only grows. */
  lemma {:induction false} RunWhitelistGrows(c: Contract, t: seq<Invocation>)
    ensures c.whitelist <= Run(c, t).whitelist
    decreases |t|
  {
    if |t| > 0 {
      RunWhitelistGrows(Next(c, t[0]), t[1..]);
    }
  }

  /** After any trace, an account is whitelisted exactly when it was before
      or some `add_whitelist` callback in the trace confirmed it. */
  lemma {:induction false} RunWhitelistExactly(c: Contract, t: seq<Invocation>, x: AccountId)
    ensures x in Run(c, t).whitelist <==> x in c.whitelist || Confirmed(t, x)
    decreases |t|
  {
    if |t| > 0 {
      var rest := t[1..];
      RunWhitelistExactly(Next(c, t[0]), rest, x);
      if Confirmed(rest, x) {
        var i :| 0 <= i < |rest| && Confirms(rest[i], x);
        assert Confirms(t[i + 1], x);
      }
      if Confirmed(t, x) {
        var i :| 0 <= i < |t| && Confirms(t[i], x);
        if i > 0 {
          assert Confirms(rest[i - 1], x);
        }
      }
    }
  }

  /** Starting from a freshly initialised contract, an account is ever
      whitelisted only through a confirmed callback for it, and every such
      callback whitelists it for good. */
  lemma WhitelistGating(
    env: Env, ownerId: AccountId, totalSupply: Balance, metadataValid: bool,
    t: seq<Invocation>, x: AccountId)
    requires TokenContract.New(env, ownerId, totalSupply, metadataValid).Ok?
    ensures var c := TokenContract.New(env, ownerId, totalSupply, metadataValid).value;
            x in Run(c, t).whitelist <==> Confirmed(t, x)
  {
    RunWhitelistExactly(TokenContract.New(env, ownerId, totalSupply, metadataValid).value, t, x);
  }

  /** A trace without a confirming callback for `x` never makes the query
      answer true for `x`. */
  lemma NeverConfirmedNeverWhitelisted(
    env: Env, ownerId: AccountId, totalSupply: Balance, metadataValid: bool,
    t: seq<Invocation>, x: AccountId, queryEnv: Env)
    requires TokenContract.New(env, ownerId, totalSupply, metadataValid).Ok?
    requires !Confirmed(t, x)
    requires queryEnv.isValid(x)
    ensures var c := TokenContract.New(env, ownerId, totalSupply, metadataValid).value;
            TokenContract.IsWhitelisted(Run(c, t), queryEnv, x) == Ok(false)
  {
    WhitelistGating(env, ownerId, totalSupply, metadataValid, t, x);
  }

  /** Running one more invocation after a trace is one more `Next`. */
  lemma {:induction false} RunSnoc(c: Contract, t: seq<Invocation>, inv: Invocation)
    ensures Run(c, t + [inv]) == Next(Run(c, t), inv)
    decreases |t|
  {
    if |t| > 0 {
      assert (t + [inv])[1..] == t[1..] + [inv];
      RunSnoc(Next(c, t[0]), t[1..], inv);
    } else {
      assert t + [inv] == [inv];
    }
  }
}
