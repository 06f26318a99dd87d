/** The factory-token contract: its persisted state, its initialiser, the
    `transfer` orchestrator that schedules an outbound `ft_transfer` followed
    by the `add_whitelist` callback, the callback itself and the
    `is_whitelisted` query.

    Each method takes the host environment as an explicit `Env` and
    returns either the new state (with the call's return value) or the error
    that aborted the call. */
module TokenContract {
  import opened Errors
  import opened Near
  import opened Ledger

  /** The persisted contract record. The token metadata is left out. */
  datatype Contract = Contract(
    ownerId: AccountId,
    token: Token,
    whitelist: set<AccountId>)

  /** The state a state-changing call leaves behind, and what it returns. */
  datatype Step<T> = Step(state: Contract, ret: T)

  /** Gas attached to the outbound `ft_transfer` call: 60 Tgas. */
  const GasForFtTransferCall: Gas := 60_000_000_000_000
  /** Gas attached to the `add_whitelist` callback: 30 Tgas. */
  const GasForAddWhitelistCall: Gas := 30_000_000_000_000
  /** Deposit attached to the callback. */
  const NoDeposit: Balance := 0
  /** Deposit attached to `ft_transfer`, which insists on exactly one yoctoNEAR. */
  const OneYocto: Balance := 1

  /** `Contract::new`: refuses any attached deposit (it is not
      `#[payable]`), refuses to run over existing state, checks the
      metadata, registers the owner and mints the whole supply to it.
      `metadataValid` is the verdict of `FungibleTokenMetadata::assert_valid`. */
  function New(env: Env, ownerId: AccountId, totalSupply: Balance, metadataValid: bool): (r: Result<Contract>)
    ensures env.attachedDeposit != 0 ==> r == Err(DepositNotAccepted)
    ensures env.attachedDeposit == 0 && env.stateExists ==> r == Err(AlreadyInitialized)
    ensures env.attachedDeposit == 0 && !env.stateExists && !metadataValid ==> r == Err(InvalidMetadata)
    ensures r.Ok? <==> env.attachedDeposit == 0 && !env.stateExists && metadataValid
    ensures r.Ok? ==> r.value.ownerId == ownerId
    ensures r.Ok? ==> r.value.token.accounts.Keys == {ownerId}
    ensures r.Ok? ==> BalanceOf(r.value.token, ownerId) == totalSupply
    ensures r.Ok? ==> r.value.token.totalSupply == totalSupply
    ensures r.Ok? ==> r.value.whitelist == {}
  {
    if env.attachedDeposit != 0 then Err(DepositNotAccepted)
    else if env.stateExists then Err(AlreadyInitialized)
    else if !metadataValid then Err(InvalidMetadata)
    else
      match Register(Empty, ownerId)
      case Err(e) => Err(e)
      case Ok(registered) =>
        match Deposit(registered, ownerId, totalSupply)
        case Err(e) => Err(e)
        case Ok(funded) => Ok(Contract(ownerId, funded, {}))
  }

  /** `is_promise_success`: exactly one promise result must be available,
      and the answer is whether it is `Successful`. */
  function IsPromiseSuccess(results: seq<PromiseResult>): (r: Result<bool>)
    ensures r.Ok? <==> |results| == 1
    ensures r.Ok? ==> (r.value <==> results[0].Successful?)
    ensures r.Err? ==> r.error == UnexpectedResultCount
  {
    if |results| != 1 then Err(UnexpectedResultCount)
    else
      match results[0]
      case Successful(_) => Ok(true)
      case _ => Ok(false)
  }

  /** `Contract::transfer`: no deposit may be attached (it is not
      `#[payable]`), only the contract's own account may call it and
      the receiver id must be valid; it writes nothing and returns the
      promise chain `ft_transfer` on the owner's account, then
      `add_whitelist(receiverId)` on this account. */
  function Transfer(c: Contract, env: Env, receiverId: AccountId, amount: Balance): (r: Result<Step<Promise>>)
    ensures r.Ok? <==> env.attachedDeposit == 0 && env.predecessor == env.current && env.isValid(receiverId)
    ensures env.attachedDeposit != 0 ==> r == Err(DepositNotAccepted)
    ensures env.attachedDeposit == 0 && env.predecessor != env.current ==> r == Err(NotFromCurrentAccount)
    ensures env.attachedDeposit == 0 && env.predecessor == env.current && !env.isValid(receiverId) ==>
              r == Err(InvalidAccountId)
    ensures r.Ok? ==> r.value.state == c
    ensures r.Ok? ==> r.value.ret.first.target == c.ownerId
    ensures r.Ok? ==> r.value.ret.first.methodName == "ft_transfer"
    ensures r.Ok? ==> r.value.ret.first.args == FtTransferArgs(receiverId, amount)
    ensures r.Ok? ==> r.value.ret.first.deposit == 1
    ensures r.Ok? ==> r.value.ret.first.gas == 60_000_000_000_000
    ensures r.Ok? ==> r.value.ret.callback.target == env.current
    ensures r.Ok? ==> r.value.ret.callback.methodName == "add_whitelist"
    ensures r.Ok? ==> r.value.ret.callback.args == AddWhitelistArgs(receiverId)
    ensures r.Ok? ==> r.value.ret.callback.deposit == 0
    ensures r.Ok? ==> r.value.ret.callback.gas == 30_000_000_000_000
  {
    if env.attachedDeposit != 0 then Err(DepositNotAccepted)
    else if env.predecessor != env.current then Err(NotFromCurrentAccount)
    else if !env.isValid(receiverId) then Err(InvalidAccountId)
    else
      var outbound := FunctionCall(c.ownerId, "ft_transfer", FtTransferArgs(receiverId, amount),
                                   OneYocto, GasForFtTransferCall);
      var callback := FunctionCall(env.current, "add_whitelist", AddWhitelistArgs(accountId := receiverId),
                                   NoDeposit, GasForAddWhitelistCall);
      Ok(Step(c, Then(outbound, callback)))
  }

  /** `Contract::add_whitelist`, the callback. It first reads promise result
      0 (for a log line), which aborts when there is none; then checks the
      account id; then adds the account to the whitelist exactly when the
      single promise result is `Successful`, and returns that flag. */
  function AddWhitelist(c: Contract, env: Env, accountId: AccountId): (r: Result<Step<bool>>)
    ensures r.Ok? <==> |env.promiseResults| == 1 && env.isValid(accountId)
    ensures |env.promiseResults| == 0 ==> r == Err(PromiseResultIndexOutOfRange)
    ensures |env.promiseResults| > 0 && !env.isValid(accountId) ==> r == Err(InvalidAccountId)
    ensures |env.promiseResults| > 1 && env.isValid(accountId) ==> r == Err(UnexpectedResultCount)
    ensures r.Ok? ==> (r.value.ret <==> env.promiseResults[0].Successful?)
    ensures r.Ok? && r.value.ret ==> r.value.state.whitelist == c.whitelist + {accountId}
    ensures r.Ok? && !r.value.ret ==> r.value.state.whitelist == c.whitelist
    ensures r.Ok? ==> r.value.state.ownerId == c.ownerId && r.value.state.token == c.token
  {
    if |env.promiseResults| == 0 then Err(PromiseResultIndexOutOfRange)
    else if !env.isValid(accountId) then Err(InvalidAccountId)
    else
      var succeeded :- IsPromiseSuccess(env.promiseResults);
      if succeeded then Ok(Step(c.(whitelist := c.whitelist + {accountId}), true))
      else Ok(Step(c, false))
  }

  /** `add_whitelist` with the caller check it lacks: like `transfer`, it
      first aborts unless the contract's own account is the predecessor, so
      only a callback this contract scheduled can reach the whitelist. After
      that check it behaves exactly like `AddWhitelist`. */
  function GuardedAddWhitelist(c: Contract, env: Env, accountId: AccountId): (r: Result<Step<bool>>)
    ensures env.predecessor != env.current ==> r == Err(CallbackNotFromCurrentAccount)
    ensures env.predecessor == env.current ==> r == AddWhitelist(c, env, accountId)
    ensures r.Ok? && r.value.ret ==> r.value.state.whitelist == c.whitelist + {accountId}
    ensures r.Ok? && !r.value.ret ==> r.value.state.whitelist == c.whitelist
  {
    if env.predecessor != env.current then Err(CallbackNotFromCurrentAccount)
    else AddWhitelist(c, env, accountId)
  }

  /** `Contract::is_whitelisted`: a read-only membership test behind the
      account-id check. */
  function IsWhitelisted(c: Contract, env: Env, accountId: AccountId): (r: Result<bool>)
    ensures r.Ok? <==> env.isValid(accountId)
    ensures r.Err? ==> r.error == InvalidAccountId
    ensures r.Ok? ==> (r.value <==> accountId in c.whitelist)
  {
    if !env.isValid(accountId) then Err(InvalidAccountId)
    else Ok(accountId in c.whitelist)
  }

  /** A freshly initialised contract keeps the ledger's conservation
      invariant: the owner's balance is the whole supply. (The sum over the
      one-account ledger is that account's balance.) */
  lemma NewConsistent(env: Env, ownerId: AccountId, totalSupply: Balance, metadataValid: bool)
    requires New(env, ownerId, totalSupply, metadataValid).Ok?
    ensures Consistent(New(env, ownerId, totalSupply, metadataValid).value.token)
  {
  }

  /** The unit test of the initialiser: after `new`, the reported total
      supply and the owner's reported balance both equal `total_supply`. */
  lemma NewMintsToOwner(env: Env, ownerId: AccountId, totalSupply: Balance)
    requires env.attachedDeposit == 0
    requires !env.stateExists
    ensures New(env, ownerId, totalSupply, true).Ok?
    ensures New(env, ownerId, totalSupply, true).value.token.totalSupply == totalSupply
    ensures BalanceOf(New(env, ownerId, totalSupply, true).value.token, ownerId) == totalSupply
  {
  }

  /** The whitelist only grows: whatever `add_whitelist` does, every account
      whitelisted before is whitelisted after. */
  lemma AddWhitelistMonotone(c: Contract, env: Env, accountId: AccountId)
    requires AddWhitelist(c, env, accountId).Ok?
    ensures c.whitelist <= AddWhitelist(c, env, accountId).value.state.whitelist
  {
  }

  /** Inserting an account that is already whitelisted leaves the state as
      it was, whatever the promise result. */
  lemma AddWhitelistPresentNoChange(c: Contract, env: Env, accountId: AccountId)
    requires accountId in c.whitelist
    requires AddWhitelist(c, env, accountId).Ok?
    ensures AddWhitelist(c, env, accountId).value.state == c
  {
  }

  /** Running the callback a second time with the same promise result gives
      the same state and the same answer as running it once. */
  lemma AddWhitelistIdempotent(c: Contract, env: Env, accountId: AccountId)
    requires AddWhitelist(c, env, accountId).Ok?
    ensures var once := AddWhitelist(c, env, accountId).value;
            AddWhitelist(once.state, env, accountId) == Ok(once)
  {
  }

  /** The whole orchestrated workflow: an accepted `transfer` followed by its
      scheduled callback, which sees the outbound call's outcome as its one
      promise result. The callback answers whether the outbound call
      succeeded; the receiver is then whitelisted exactly when it succeeded
      or was whitelisted before, and the owner and ledger are untouched. */
  lemma {:induction false} TransferThenCallback(
    c: Contract, env: Env, receiverId: AccountId, amount: Balance,
    callbackEnv: Env, outcome: PromiseResult)
    requires Transfer(c, env, receiverId, amount).Ok?
    requires callbackEnv.promiseResults == [outcome]
    requires callbackEnv.isValid == env.isValid
    ensures var step := Transfer(c, env, receiverId, amount).value;
            var call := step.ret.callback;
            && call.args.AddWhitelistArgs?
            && var settled := AddWhitelist(step.state, callbackEnv, call.args.accountId);
            && settled.Ok?
            && (settled.value.ret <==> outcome.Successful?)
            && (receiverId in settled.value.state.whitelist <==> outcome.Successful? || receiverId in c.whitelist)
            && settled.value.state.ownerId == c.ownerId
            && settled.value.state.token == c.token
  {
  }
}
