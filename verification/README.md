# NEP-141 factory token: a Dafny model of the whitelist contract

The contract (`src/lib.rs`) is a NEAR fungible token. It keeps four things:
the owner account, the token ledger, the token metadata and a
`factory_whitelist` set of account ids. On top of the standard ledger it adds:

- an initialiser that refuses to run over existing state, registers the owner in the
  ledger and mints the whole `total_supply` to the owner;
- `transfer`, an orchestrator. Only the contract's own account may call it. It checks
  the receiver id and writes nothing. It returns a promise chain: an `ft_transfer`
  call on the owner's account (1 yoctoNEAR, 60 Tgas), then an `add_whitelist`
  callback on the contract's own account (no deposit, 30 Tgas);
- `add_whitelist`, the callback. It needs exactly one promise result and adds the
  account to the whitelist only when that result is `Successful`. It returns that flag;
- `is_whitelisted`, a read-only membership query behind an account-id check.

Modules:

- `Errors` (errors.dfy): the panics a call can end in, and a `Result` type. A panic
  aborts the call, so no state is written.
- `Near` (near.dfy): the host-side values. These are account ids, 128-bit balances,
  64-bit gas, promise results, and the environment `Env`. `Env` holds the predecessor,
  the current account, the attached deposit, the `state_exists` flag, the promise results, and the
  `is_valid_account_id` predicate. Promise chains are plain data.
- `Ledger` (ledger.dfy): the fungible-token ledger, as far as the initialiser uses
  it. It is a map from registered accounts to balances plus the recorded total
  supply. It has registration, deposit, the balance query, and the conservation
  invariant "balances add up to the total supply".
- `TokenContract` (token_contract.dfy): the contract record and its methods.
- `Workflow` (workflow.dfy): traces of calls to `transfer`, `add_whitelist` and
  `is_whitelisted`, the three non-initialising methods of `impl Contract`
  (src/lib.rs:111-174) besides the logging hooks `on_account_closed` and
  `on_tokens_burned`. The initialisers `new_default_meta` and `new` (src/lib.rs:68, 87)
  abort once state exists, and `ft_metadata` (src/lib.rs:182) and the hooks write
  nothing, so leaving them out of a trace changes no state. Whether the runtime can
  reach `add_whitelist` at all is discussed under Left out. A call that
  aborts keeps the old state. This module has the trace-level facts about the
  whitelist. The library's balance-moving entry points are not among these calls.
- `Settlement` (settlement.dfy): receipts as the contract's account receives them.
  A receipt is either a call from some predecessor or the settlement of a callback
  that `transfer` scheduled. This module exhibits the missing caller check in
  `add_whitelist` (see Findings). It proves the gating property for the corrected
  callback.

The environment is an input. Nothing is read from a clock, the network or the
host: the predecessor, the current account, the attached deposit, `state_exists`,
the promise results
and account-id validity all come in through `Env`.

Points where the code's behaviour is easy to misread, and which the model follows:

- `transfer` compares the predecessor with the contract's **current account**, not
  with `owner_id`. Its panic message nevertheless reads "Transfer only can come from
  the contract owner".
- `transfer` changes no balance. It only schedules the two calls.
- `add_whitelist` returns the promise's success flag. It does not say whether the
  account was newly inserted.
- `add_whitelist` has no caller check. If the runtime can reach this non-`pub`
  method at all (see Left out), any account can chain a successful call of its own
  in front of an `add_whitelist` call and so get an account whitelisted without a
  `transfer` (see Findings). If the runtime cannot reach it, neither that forged
  call nor the callback `transfer` schedules can run.
- `add_whitelist` first reads promise result 0, for a log line (src/lib.rs:152). This
  happens before the account check. With no promise result at all, the call aborts
  there (`PromiseResultIndexOutOfRange`), before any other check in the body.
- `#[near_bindgen]` (src/lib.rs:63) puts a deposit check in front of every method that
  changes state and is not `#[payable]`. So `new` and `transfer` abort when any deposit
  is attached, before their bodies run (`DepositNotAccepted`).

## Model

| member | source | states |
|---|---|---|
| `Ledger.Register` | src/lib.rs:100 | registering succeeds exactly for an account not yet in the ledger; the new account holds 0, every other balance and the total supply are unchanged; otherwise the call aborts as already registered |
| `Ledger.Deposit` | src/lib.rs:101 | a deposit succeeds exactly for a registered account when neither its balance nor the supply leaves the 128-bit range; it raises that balance and the supply by the amount and leaves every other balance alone; an unregistered account, a balance overflow and a supply overflow each abort with their own error, in that order |
| `Ledger.BalanceOf` | src/lib.rs:212-213 | a registered account reports its stored balance, and an account the ledger does not know reports 0 |
| `Ledger.BalanceBoundedBySupply` | src/lib.rs:212-213 | under the conservation invariant no account reports more than the total supply |
| `Ledger.EmptyConsistent` | src/lib.rs:96 | a new, empty ledger satisfies the conservation invariant |
| `Ledger.SumRemove` | src/lib.rs:100-101 | any single account's balance can be split off the sum of all balances |
| `Ledger.RegisterKeepsConsistent` | src/lib.rs:100 | registering an account keeps the sum of balances equal to the total supply |
| `Ledger.DepositKeepsConsistent` | src/lib.rs:101 | a deposit keeps the sum of balances equal to the total supply |
| `TokenContract.New` | src/lib.rs:87-109 | initialisation aborts when a deposit is attached, then when state already exists, then when the metadata is invalid, and succeeds otherwise; on success the owner is the given one, the owner is the only registered account, its balance and the total supply both equal `total_supply`, and the whitelist is empty |
| `TokenContract.NewConsistent` | src/lib.rs:94-101 | after initialisation the balances add up to the total supply |
| `TokenContract.NewMintsToOwner` | src/lib.rs:206-214 | with no deposit, no prior state and valid metadata, initialisation succeeds, and both the total supply and the owner's balance equal `total_supply` |
| `TokenContract.IsPromiseSuccess` | src/lib.rs:29-39 | it succeeds exactly when there is one promise result, and then answers whether that result is `Successful`; any other count aborts |
| `TokenContract.Transfer` | src/lib.rs:111-141 | it succeeds exactly when no deposit is attached, the predecessor is the current account and the receiver id is valid; an attached deposit aborts first, then a wrong caller, then an invalid receiver; the state is unchanged; the chain is `ft_transfer(receiver, amount)` on `owner_id` with deposit 1 and 60 Tgas, then `add_whitelist(receiver)` on the current account with deposit 0 and 30 Tgas |
| `TokenContract.AddWhitelist` | src/lib.rs:151-166 | it succeeds exactly with one promise result and a valid id; zero results, an invalid id, and several results abort in that order; it returns whether the result was `Successful`; the whitelist gains the account exactly then and is otherwise unchanged; owner and ledger never change |
| `TokenContract.GuardedAddWhitelist` | src/lib.rs:151-166 | the corrected callback: it aborts unless the predecessor is the current account, as `transfer` requires at src/lib.rs:112-116, and otherwise behaves exactly like `add_whitelist` |
| `TokenContract.IsWhitelisted` | src/lib.rs:168-174 | it fails exactly on an invalid id and otherwise answers set membership; it writes nothing |
| `TokenContract.AddWhitelistMonotone` | src/lib.rs:161-164 | the callback never removes an account from the whitelist |
| `TokenContract.AddWhitelistPresentNoChange` | src/lib.rs:163 | inserting an account that is already whitelisted leaves the whole state unchanged |
| `TokenContract.AddWhitelistIdempotent` | src/lib.rs:151-166 | running the callback again with the same promise result gives the same state and answer |
| `TokenContract.TransferThenCallback` | src/lib.rs:111-166 | an accepted `transfer` followed by its scheduled callback: the callback answers whether the outbound call succeeded, the receiver ends up whitelisted exactly when it succeeded or was whitelisted before, and owner and ledger are untouched |
| `Workflow.Apply` | src/lib.rs:111-174 | a successful call never changes owner or ledger; only `add_whitelist` changes the state |
| `Workflow.Next` | src/lib.rs:151-166 | after one call, aborted or not, an account is whitelisted exactly when it was before or the call was a confirmed callback for it |
| `Workflow.RunKeepsOwnerAndLedger` | src/lib.rs:111-174 | no trace of `transfer`, `add_whitelist` and `is_whitelisted` calls changes the owner or the ledger; the library entry points at src/lib.rs:177-178 are outside these traces |
| `Workflow.RunWhitelistGrows` | src/lib.rs:151-166 | the whitelist never shrinks along a trace |
| `Workflow.RunWhitelistExactly` | src/lib.rs:151-174 | after a trace, an account is whitelisted exactly when it was before or some callback in the trace confirmed it: valid id, a single promise result, `Successful` |
| `Workflow.WhitelistGating` | src/lib.rs:87-166 | from a freshly initialised contract, an account is whitelisted after a trace exactly when the trace holds a confirmed callback for it |
| `Workflow.RunSnoc` | src/lib.rs:111-174 | running one more call after a trace is one more step from the trace's final state |
| `Workflow.NeverConfirmedNeverWhitelisted` | src/lib.rs:168-174 | from a freshly initialised contract, a trace with no confirmed callback for an account leaves `is_whitelisted` answering false for it |
| `Settlement.StepEvent` | src/lib.rs:111-174 | one receipt never changes owner or ledger and never shrinks the whitelist; with the guarded callback and a receipt the runtime can deliver, an account enters the whitelist exactly when a settlement succeeds for it |
| `Settlement.SettleRunsScheduledCallback` | src/lib.rs:126-140 | an accepted `transfer` to `x` schedules `add_whitelist(x)` on the contract's own account, which is the callback a settlement runs |
| `Settlement.GuardedRunExactly` | src/lib.rs:151-166 | with the guarded callback, an account is whitelisted after a deliverable trace exactly when it was before or some settlement in the trace succeeded for it |
| `Settlement.GuardedWhitelistGating` | src/lib.rs:111-166 | with the guarded callback, from a fresh contract, an account is whitelisted exactly when an accepted `transfer` to it was later settled successfully |
| `Settlement.ForgedCallbackWhitelists` | src/lib.rs:151-166 | as written, and with the method reachable, one `add_whitelist(x)` call from another account, behind that account's own successful call, whitelists `x` in a fresh contract with no `transfer` in the trace |
| `Settlement.GuardedRejectsForgedCallback` | src/lib.rs:151-166 | the guarded callback leaves `x` out of the whitelist for that same forged call |
| `Settlement.IncomingRunMatchesWorkflow` | src/lib.rs:111-174 | with the callback as written, a receipt trace made only of incoming calls leaves the same state as the matching trace of invocations |

## Left out

- TokenContract.Transfer: the contract describes the method once its arguments are
  decoded. `#[near_bindgen]` (src/lib.rs:63) decodes `receiver_id` as an `AccountId`,
  and that step rejects a malformed id before the body runs, with the decoder's own
  error. The model leaves the decoder out and keeps only the body's own check at
  src/lib.rs:117-120. The deposit check in front of the body is modelled.
- TokenContract.New: likewise, argument decoding of `owner_id`, `total_supply` and
  `metadata` is not modelled. The state check that `#[init]` makes before the body has
  the same outcome as the body's own check at src/lib.rs:92, so it appears once, as
  `AlreadyInitialized`.
- TokenContract.AddWhitelist: the method is declared without `pub` (see below), so
  which wrapper, if any, runs in front of it is not known. No deposit check and no argument decoding are modelled in front of it.
  The callback `transfer` schedules attaches no deposit anyway.

- The ledger internals come from the `FungibleToken` library (src/lib.rs:177-178).
  Its source is not part of this model. This covers storage-deposit accounting,
  `ft_transfer`, `ft_transfer_call`, burning, and account closing. Registration and
  deposit are modelled only as far as the initialiser uses them (src/lib.rs:100-101).
- Token metadata, the icon, `new_default_meta` and `ft_metadata` (src/lib.rs:52,
  68-82, 181-185) are static data. `metadata.assert_valid()` (src/lib.rs:93) appears
  only as a boolean input to `New`.
- Logging, the `FtMint` event and gas introspection (src/lib.rs:102-107, 122-124,
  143-149, 152-155) are diagnostics, except for one effect: reading promise result 0
  at line 152 can abort, and that is modelled.
- Borsh and JSON serialisation of state and of the `ft_transfer` payload
  (src/lib.rs:128-133) are left out. The payload is a typed record `FtTransferArgs`.
- Promises are not executed. A promise chain is returned as data. The callback's
  promise results are an input. `TransferThenCallback` joins the two halves by feeding
  the outbound call's outcome to the scheduled callback.
- `env::is_valid_account_id` is a host function whose rules are not shown. It is the
  uninterpreted predicate `Env.isValid`.
- `add_whitelist` is declared without `pub` (src/lib.rs:151). The SDK's export rules
  decide whether the runtime can reach it as a callback, and they are not modelled.
  The model treats it as callable, by other accounts as well as by the contract.
- Exactly-once delivery of a settlement is not required of a receipt trace. The
  gating property does not depend on it.
- The unit test at src/lib.rs:224-264 checks balances after `transfer`. `transfer`
  only schedules promises and moves no balance, so the test states no property of
  this code.

## Findings

| source | as written | input that shows it | evidently intended | confidence | as-written member | corrected member |
|---|---|---|---|---|---|---|
| src/lib.rs:151-166 | `add_whitelist` never checks that the predecessor is the contract's own account, so, if the runtime can reach the method, whoever calls it with one successful promise result gets the account whitelisted | a fresh contract; account `attacker` (not the contract) sends `attacker_call().then(add_whitelist(x))`, where `attacker_call` succeeds; `x` is whitelisted with no `transfer` at all | only a callback the contract scheduled in `transfer` may whitelist: the same caller check `transfer` makes at src/lib.rs:112-116, so an account is whitelisted exactly after an accepted `transfer` to it settled successfully | medium, not executed; it depends on `add_whitelist` being callable, which the SDK's export rules decide | `Settlement.ForgedCallbackWhitelists` | `Settlement.GuardedWhitelistGating` |
