/** Receipts as the contract's account receives them, including the
    settlement of the callbacks that `transfer` schedules.

    A receipt is either an `Incoming` call from some predecessor, carrying
    whatever promise results that predecessor chained in front of it, or the
    `Settle`ment of a callback this contract scheduled: the runtime then
    calls `add_whitelist` from the contract's own account with the outbound
    call's outcome as the one promise result.

    `add_whitelist` never checks its caller (src/lib.rs:151-166). It is
    declared without `pub`, and whether the runtime can reach it at all is
    decided by export rules this model does not cover. If the runtime can
    reach it, any account can chain its own call in front of an
    `add_whitelist` call on this contract and have an account of its choice
    whitelisted without any `transfer`; the same reachability is what the
    callback `transfer` schedules relies on. `ForgedCallbackWhitelists`
    exhibits this for the code as written. `GuardedAddWhitelist` adds the missing check, and
    `GuardedWhitelistGating` proves that with it an account is whitelisted
    exactly when an accepted `transfer` to it was settled successfully. */
module Settlement {
  import opened Errors
  import opened Near
  import TokenContract
  import Workflow

  type Contract = TokenContract.Contract

  /** Which callback the contract runs: the code as written, or the one
      with the caller check. */
  datatype Callback = AsWritten | Guarded

  function RunCallback(cb: Callback, c: Contract, env: Env, accountId: AccountId): Result<TokenContract.Step<bool>>
  {
    match cb
    case AsWritten => TokenContract.AddWhitelist(c, env, accountId)
    case Guarded => TokenContract.GuardedAddWhitelist(c, env, accountId)
  }

  /** One receipt executed on the contract's account. `origin` is the index,
      in the trace, of the `transfer` call whose callback is settled. */
  datatype Event =
    | Incoming(call: Workflow.Call, predecessor: AccountId, deposit: Balance, results: seq<PromiseResult>)
    | Settle(origin: nat, accountId: AccountId, outcome: PromiseResult)

  /** The environment an incoming call runs in on the account `self`. */
  function IncomingEnv(e: Event, self: AccountId, valid: AccountId -> bool): Env
    requires e.Incoming?
  {
    Env(e.predecessor, self, e.deposit, true, e.results, valid)
  }

  /** The environment a settled callback runs in: the contract calls itself
      with the callback's deposit, none, and sees the outbound call's outcome
      as its one promise result. */
  function SettleEnv(self: AccountId, valid: AccountId -> bool, outcome: PromiseResult): Env
  {
    Env(self, self, TokenContract.NoDeposit, true, [outcome], valid)
  }

  /** An incoming `transfer` to `x` that `transfer` accepts. */
  predicate AcceptedTransferTo(e: Event, self: AccountId, valid: AccountId -> bool, x: AccountId) {
    && e.Incoming?
    && e.call.TransferCall?
    && e.call.receiverId == x
    && e.predecessor == self
    && e.deposit == 0
    && valid(x)
  }

  /** The settlement, with a successful outcome, of the callback scheduled
      by the event at index `origin`, for the account `x`. */
  predicate SettlesSuccessfully(e: Event, origin: nat, x: AccountId) {
    e.Settle? && e.origin == origin && e.accountId == x && e.outcome.Successful?
  }

  /** A settlement that the callback turns into a whitelist entry for `x`. */
  predicate SucceededSettle(e: Event, x: AccountId, valid: AccountId -> bool) {
    e.Settle? && e.accountId == x && e.outcome.Successful? && valid(x)
  }

  /** What the runtime guarantees of the receipts at index `j`. A receipt
      whose predecessor is the contract's own account and that carries
      promise results can only come from a promise the contract's code made
      itself, so it is a `Settle`. A `Settle` comes after the accepted
      `transfer` it settles and carries that transfer's receiver. */
  predicate WellFormedAt(t: seq<Event>, j: nat, self: AccountId, valid: AccountId -> bool)
    requires j < |t|
  {
    match t[j]
    case Incoming(_, predecessor, _, results) => predecessor != self || |results| == 0
    case Settle(origin, x, _) => origin < j && AcceptedTransferTo(t[origin], self, valid, x)
  }

  ghost predicate WellFormed(t: seq<Event>, self: AccountId, valid: AccountId -> bool) {
    forall j :: 0 <= j < |t| ==> WellFormedAt(t, j, self, valid)
  }

  /** Some accepted `transfer` to `x` was later settled successfully. */
  ghost predicate TransferredThenSucceeded(t: seq<Event>, self: AccountId, valid: AccountId -> bool, x: AccountId) {
    exists i, j :: 0 <= i < j < |t| && AcceptedTransferTo(t[i], self, valid, x) && SettlesSuccessfully(t[j], i, x)
  }

  /** The state a callback leaves: its new state, or the old one on abort. */
  function After(c: Contract, r: Result<TokenContract.Step<bool>>): Contract {
    if r.Ok? then r.value.state else c
  }

  /** The state after one receipt. With the guarded callback and a receipt
      the runtime can deliver, an account enters the whitelist only through
      a successful settlement. */
  function StepEvent(cb: Callback, c: Contract, e: Event, self: AccountId, valid: AccountId -> bool): (c': Contract)
    ensures c'.ownerId == c.ownerId && c'.token == c.token
    ensures c.whitelist <= c'.whitelist
    ensures cb == Guarded && (e.Incoming? ==> e.predecessor != self || |e.results| == 0) ==>
              forall x :: x in c'.whitelist <==> x in c.whitelist || SucceededSettle(e, x, valid)
  {
    match e
    case Incoming(call, _, _, _) =>
      var env := IncomingEnv(e, self, valid);
      if call.AddWhitelistCall? then After(c, RunCallback(cb, c, env, call.accountId))
      else Workflow.Next(c, Workflow.Invocation(call, env))
    case Settle(_, x, outcome) =>
      After(c, RunCallback(cb, c, SettleEnv(self, valid, outcome), x))
  }

  /** The state after the receipts of `t`, in order. */
  function Run(cb: Callback, c: Contract, t: seq<Event>, self: AccountId, valid: AccountId -> bool): Contract
    decreases |t|
  {
    if |t| == 0 then c
    else StepEvent(cb, Run(cb, c, t[..|t| - 1], self, valid), t[|t| - 1], self, valid)
  }

  /** The callback a settlement runs is the one the accepted `transfer`
      scheduled: `add_whitelist` for the same receiver, on the contract's
      own account. */
  lemma SettleRunsScheduledCallback(c: Contract, e: Event, self: AccountId, valid: AccountId -> bool, x: AccountId)
    requires AcceptedTransferTo(e, self, valid, x)
    ensures var r := TokenContract.Transfer(c, IncomingEnv(e, self, valid), x, e.call.amount);
            && r.Ok?
            && r.value.ret.callback.target == self
            && r.value.ret.callback.methodName == "add_whitelist"
            && r.value.ret.callback.args == AddWhitelistArgs(x)
  {
  }

  /** Every prefix of a deliverable trace is deliverable. */
  lemma {:induction false} WellFormedPrefix(t: seq<Event>, n: nat, self: AccountId, valid: AccountId -> bool)
    requires WellFormed(t, self, valid)
    requires n <= |t|
    ensures WellFormed(t[..n], self, valid)
  {
    forall j | 0 <= j < n
      ensures WellFormedAt(t[..n], j, self, valid)
    {
      assert WellFormedAt(t, j, self, valid);
      assert t[..n][j] == t[j];
      if t[j].Settle? {
        assert t[..n][t[j].origin] == t[t[j].origin];
      }
    }
  }

  /** With the guarded callback, after a deliverable trace an account is
      whitelisted exactly when it was before or a settlement in the trace
      succeeded for it. */
  lemma {:induction false} GuardedRunExactly(c: Contract, t: seq<Event>, self: AccountId, valid: AccountId -> bool, x: AccountId)
    requires WellFormed(t, self, valid)
    ensures x in Run(Guarded, c, t, self, valid).whitelist <==>
            x in c.whitelist || exists j :: 0 <= j < |t| && SucceededSettle(t[j], x, valid)
    decreases |t|
  {
    if |t| > 0 {
      var n := |t| - 1;
      var front := t[..n];
      WellFormedPrefix(t, n, self, valid);
      GuardedRunExactly(c, front, self, valid, x);
      assert WellFormedAt(t, n, self, valid);
      if exists j :: 0 <= j < |front| && SucceededSettle(front[j], x, valid) {
        var j :| 0 <= j < |front| && SucceededSettle(front[j], x, valid);
        assert SucceededSettle(t[j], x, valid);
      }
      if exists j :: 0 <= j < |t| && SucceededSettle(t[j], x, valid) {
        var j :| 0 <= j < |t| && SucceededSettle(t[j], x, valid);
        if j < n {
          assert SucceededSettle(front[j], x, valid);
        }
      }
    }
  }

  /** The property the whitelist is meant to have. With the guarded
      callback, starting from a freshly initialised contract, an account is
      whitelisted after a deliverable trace exactly when an accepted
      `transfer` to it was later settled successfully. */
  lemma {:induction false} GuardedWhitelistGating(
    env: Env, ownerId: AccountId, totalSupply: Balance, metadataValid: bool,
    t: seq<Event>, self: AccountId, valid: AccountId -> bool, x: AccountId)
    requires TokenContract.New(env, ownerId, totalSupply, metadataValid).Ok?
    requires WellFormed(t, self, valid)
    ensures var c := TokenContract.New(env, ownerId, totalSupply, metadataValid).value;
            x in Run(Guarded, c, t, self, valid).whitelist <==> TransferredThenSucceeded(t, self, valid, x)
  {
    var c := TokenContract.New(env, ownerId, totalSupply, metadataValid).value;
    GuardedRunExactly(c, t, self, valid, x);
    if exists j :: 0 <= j < |t| && SucceededSettle(t[j], x, valid) {
      var j :| 0 <= j < |t| && SucceededSettle(t[j], x, valid);
      assert WellFormedAt(t, j, self, valid);
      var i := t[j].origin;
      assert AcceptedTransferTo(t[i], self, valid, x) && SettlesSuccessfully(t[j], i, x);
    }
    if TransferredThenSucceeded(t, self, valid, x) {
      var i, j :| 0 <= i < j < |t| && AcceptedTransferTo(t[i], self, valid, x) && SettlesSuccessfully(t[j], i, x);
      assert SucceededSettle(t[j], x, valid);
    }
  }

  /** The code as written, with `add_whitelist` reachable by the runtime:
      from a freshly initialised contract, one call of `add_whitelist(x)`
      from another account, chained behind that account's own successful
      call, whitelists `x`, although no `transfer` ever ran. */
  lemma ForgedCallbackWhitelists(
    env: Env, ownerId: AccountId, totalSupply: Balance, metadataValid: bool,
    self: AccountId, attacker: AccountId, valid: AccountId -> bool, x: AccountId)
    requires TokenContract.New(env, ownerId, totalSupply, metadataValid).Ok?
    requires attacker != self
    requires valid(x)
    ensures var c := TokenContract.New(env, ownerId, totalSupply, metadataValid).value;
            var t := [Incoming(Workflow.AddWhitelistCall(x), attacker, 0, [Successful([])])];
            && WellFormed(t, self, valid)
            && x in Run(AsWritten, c, t, self, valid).whitelist
            && !TransferredThenSucceeded(t, self, valid, x)
  {
  }

  /** The guarded callback refuses that same forged call. */
  lemma GuardedRejectsForgedCallback(
    env: Env, ownerId: AccountId, totalSupply: Balance, metadataValid: bool,
    self: AccountId, attacker: AccountId, valid: AccountId -> bool, x: AccountId)
    requires TokenContract.New(env, ownerId, totalSupply, metadataValid).Ok?
    requires attacker != self
    ensures var c := TokenContract.New(env, ownerId, totalSupply, metadataValid).value;
            var t := [Incoming(Workflow.AddWhitelistCall(x), attacker, 0, [Successful([])])];
            x !in Run(Guarded, c, t, self, valid).whitelist
  {
  }

  /** The invocation an incoming receipt makes of the contract. */
  function ToInvocation(e: Event, self: AccountId, valid: AccountId -> bool): Workflow.Invocation
    requires e.Incoming?
  {
    Workflow.Invocation(e.call, IncomingEnv(e, self, valid))
  }

  /** The invocations a trace of incoming receipts makes, in order. */
  function ToInvocations(t: seq<Event>, self: AccountId, valid: AccountId -> bool): (r: seq<Workflow.Invocation>)
    requires forall j :: 0 <= j < |t| ==> t[j].Incoming?
    ensures |r| == |t|
    decreases |t|
  {
    if |t| == 0 then []
    else ToInvocations(t[..|t| - 1], self, valid) + [ToInvocation(t[|t| - 1], self, valid)]
  }

  /** With the callback as written, receipts that are all incoming calls
      leave the same state as the matching trace of invocations: the two
      trace semantics agree. */
  lemma {:induction false} IncomingRunMatchesWorkflow(c: Contract, t: seq<Event>, self: AccountId, valid: AccountId -> bool)
    requires forall j :: 0 <= j < |t| ==> t[j].Incoming?
    ensures Run(AsWritten, c, t, self, valid) == Workflow.Run(c, ToInvocations(t, self, valid))
    decreases |t|
  {
    if |t| > 0 {
      var n := |t| - 1;
      IncomingRunMatchesWorkflow(c, t[..n], self, valid);
      Workflow.RunSnoc(c, ToInvocations(t[..n], self, valid), ToInvocation(t[n], self, valid));
    }
  }
}
