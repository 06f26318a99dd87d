/** The ways a call into the token contract can abort.

    On the NEAR runtime a panic aborts the whole receipt: every write made by
    the call is discarded. The model therefore returns an `Err` instead of a
    new state, and callers keep the state they had. */
module Errors {

  datatype Error =
    /** A deposit was attached to a method that does not accept one: the
        check `#[near_bindgen]` places in front of every method that is
        neither `#[payable]` nor read-only (src/lib.rs:63, 87, 111). */
    | DepositNotAccepted
    /** `env::state_exists()` held when the initialiser ran (src/lib.rs:92). */
    | AlreadyInitialized
    /** `FungibleTokenMetadata::assert_valid` refused the metadata (src/lib.rs:93). */
    | InvalidMetadata
    /** The ledger already had an entry for the account being registered. */
    | AccountAlreadyRegistered
    /** A deposit was made into an account the ledger does not know. */
    | AccountNotRegistered
    /** A balance would leave the 128-bit range. */
    | BalanceOverflow
    /** The total supply would leave the 128-bit range. */
    | TotalSupplyOverflow
    /** `transfer` was not called by the contract's own account (src/lib.rs:112-116). */
    | NotFromCurrentAccount
    /** `env::is_valid_account_id` refused an account id (src/lib.rs:117-120, 156-159, 169-172). */
    | InvalidAccountId
    /** `env::promise_result(0)` was asked for while no promise result exists (src/lib.rs:152). */
    | PromiseResultIndexOutOfRange
    /** The callback saw a number of promise results other than one (src/lib.rs:30-34). */
    | UnexpectedResultCount
    /** The guarded callback was not called by the contract's own account
        (the check `add_whitelist` lacks at src/lib.rs:151-166). */
    | CallbackNotFromCurrentAccount

  /** A value, or the error that aborted the call. Usable with `:-`. */
  datatype Result<+T> = Ok(value: T) | Err(error: Error) {

    predicate IsFailure() {
      Err?
    }

    function PropagateFailure<U>(): Result<U>
      requires Err?
    {
      Err(error)
    }

    function Extract(): T
      requires Ok?
    {
      value
    }
  }
}
