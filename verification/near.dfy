/** The parts of the NEAR host environment the contract reads, and the
    description of the promises it schedules.

    Nothing here executes a promise: a `Promise` is a value that says which
    calls the runtime is asked to make, in which order. */
module Near {

  type AccountId = string

  const U128Limit: nat := 0x1_0000_0000_0000_0000_0000_0000_0000_0000
  const U64Limit: nat := 0x1_0000_0000_0000_0000

  /** `near_sdk::Balance`, an unsigned 128-bit amount of tokens or yoctoNEAR. */
  type Balance = x: nat | x < U128Limit

  /** `near_sdk::Gas`, an unsigned 64-bit amount of gas. */
  type Gas = x: nat | x < U64Limit

  /** The outcome of a promise as a callback observes it. */
  datatype PromiseResult =
    | NotReady
    | Successful(data: seq<bv8>)
    | Failed

  /** What the host reports to the running call. `isValid` stands for
      `env::is_valid_account_id`, whose rules are not part of this model. */
  datatype Env = Env(
    predecessor: AccountId,
    current: AccountId,
    attachedDeposit: Balance,
    stateExists: bool,
    promiseResults: seq<PromiseResult>,
    isValid: AccountId -> bool)

  /** Typed arguments of the outbound calls; the JSON encoding is left out. */
  datatype Args =
    | FtTransferArgs(receiverId: AccountId, amount: Balance)
    | AddWhitelistArgs(accountId: AccountId)

  /** One scheduled function call: target account, method, arguments,
      attached deposit and attached gas. */
  datatype FunctionCall = FunctionCall(
    target: AccountId,
    methodName: string,
    args: Args,
    deposit: Balance,
    gas: Gas)

  /** `first.then(callback)`: the callback runs once `first` has concluded,
      and sees `first`'s outcome as its only promise result. */
  datatype Promise = Then(first: FunctionCall, callback: FunctionCall)
}
