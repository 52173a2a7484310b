# Transfer transaction engine of a Go ledger backend: a Dafny model

This project models the core of a small banking backend. It moves money between accounts
by writing a transfer row, two offsetting ledger entries and two balance adjustments inside
one database transaction. Around that engine sit the HTTP handlers that guard it: the
transfer request guards, the account handlers and the currency whitelist.

The model is functional. The database is an immutable value `Ledger.Db`: accounts are a
`map<int, Account>`, and entries and transfers are sequences. Every query primitive takes a
`Session` and returns a new session with a `Result`. The session carries three things:

- the transaction's view of the tables;
- a log of every call issued, so call order is a checkable fact;
- a fault oracle `map<nat, DbError>` that makes the k-th call of the transaction fail.

`BEGIN`, `COMMIT` and `ROLLBACK` failures are a separate `Tx.TxFaults` record. Handlers are
pure functions from a request and the store's replies to a `Http.Response` plus the list of
store calls they made.

Modules:

- `Results`: `Option` and `Result`.
- `Int64`: the int64 range and Go's wrap-around.
- `Currency`: the whitelist.
- `Ledger`: rows, tables, sessions, the primitives `CreateTransfer`, `CreateEntry`,
  `AddAccountBalance`, `GetAccount`, `UpdateBalance`, and the invariant "balance equals
  the sum of entries".
- `Tx`: `execTx`.
- `TransferEngine`: `TransferTx` and `transferMoney`.
- `TransferLaws`: properties of the engine that span calls.
- `Http`, `TransferApi`, `AccountApi`: the handlers.

Where the code and the intended design differ, the model follows the code:

- A transfer from an account to itself is not rejected. The branch test is `<=`, and no
  layer compares the two ids. The account is debited and then credited: one transfer row,
  two entries, and an unchanged balance (`TransferLaws.SelfTransferKeepsBalance`,
  `TransferApi.SelfTransferEndToEnd`).
- `AddAccountBalance` returns the row's id, not its new balance. The engine feeds that
  value into `GetAccount`.
- `-arg.Amount` is Go int64 negation. For the int64 minimum it overflows back to the
  minimum, and the transfer then does not conserve money: both balances fall by 2^63
  (`TransferLaws.MinAmountBreaksConservation`).
  The handler's `gt=0` tag keeps this value away from the engine.
- `updateAccount` overwrites a balance without writing an entry. This breaks the
  balance-equals-entries invariant unless the new value happens to be the entry sum
  (`Ledger.OverwriteConsistentIff`).
- gin's `required` tag refuses the zero value. So `updateAccount` cannot set a balance of 0,
  and a create request without an owner is answered 400.
- `getAccount` makes no owner check. `listAccounts` never sets the query's owner parameter, so it passes Go's zero
  value `""`. An account opened through `createAccount` never has that owner
  (`AccountApi.ListedOwnerMatchesNoCreatedAccount`).
- `listAccounts` computes the offset in int64. A huge but valid `page_id` wraps it to a
  negative number (`AccountApi.HugePageIdWrapsOffset`).

## Model

| member | source | states |
|---|---|---|
| `Currency.IsSupportedCurrency` | db/util/currency.go:17-23 | accepts exactly the ten whitelisted codes; every accepted code is declared, is not YEN, and is 3-4 capital letters |
| `Currency.AcceptedStrictlyInsideDeclared` | db/util/currency.go:3-21 | the accepted codes are a strict subset of the declared constants, and YEN is the only declared code refused |
| `Currency.OnlyExactCodesAccepted` | db/util/currency.go:18-22 | a code with any character outside A-Z, or of length other than 3-4, is refused (lower case, padding, empty) |
| `Currency.ExactMatchExamples` | db/util/currency.go:18-22 | "usd", " USD", "USD ", "", "Eur" are refused; "FCFA" and "CNY" are accepted |
| `Ledger.CreateTransfer` | db/sqlc/store.go:73-76 | the call is logged; an injected fault is returned unchanged; otherwise it appends exactly one transfer row (from, to, amount) and changes nothing else |
| `Ledger.CreateEntry` | db/sqlc/store.go:78-92 | the call is logged; an injected fault is returned unchanged; otherwise it appends exactly one entry and leaves balances alone |
| `Ledger.AddAccountBalance` | db/sqlc/store.go:152-163 | adds the delta to one row and returns that row's id; an injected fault is returned unchanged; fails with NoRows when the row is absent and with NumericOutOfRange when the new balance would leave int64 |
| `Ledger.GetAccount` | db/sqlc/store.go:107-113 | returns the row stored under the id, NoRows when absent, an injected fault unchanged; never writes |
| `Ledger.ReadAccount` | api/transfer.go:66 | an out-of-transaction lookup returns the stored row or NoRows |
| `Ledger.UpdateBalance` | api/account.go:119-124 | overwrites only the balance of one row (its id, owner and currency stay), returns the id, and leaves entries, transfers and every other account unchanged |
| `Ledger.OverwriteConsistentIff` | api/account.go:119-124 | on a consistent ledger, an overwrite keeps balances equal to entry sums if and only if the new balance equals the entry sum |
| `Ledger.OverwriteBreaksConsistencyExample` | api/account.go:119-124 | setting a fresh account to 5 with no entries makes the ledger inconsistent |
| `Tx.ExecTx` | db/sqlc/store.go:30-46 | a failed BEGIN runs no work; a failed work or commit leaves the tables unchanged; a failed rollback reports both errors; success requires work and commit to succeed and commits exactly the work's effects |
| `TransferEngine.RecordTransfer` | db/sqlc/store.go:73-92 | issues the three insert calls in order up to and including the first faulted one and returns that fault, succeeds exactly when none of them faults, and then has appended one transfer and the entries (from, -amount) and (to, +amount) |
| `TransferEngine.TransferMoney` | db/sqlc/store.go:144-169 | adjusts the first id, then the second; the second call is made exactly when the first found its row, kept the balance inside int64 and was not faulted; a failure returns the failing call's fault, NoRows or NumericOutOfRange; on success returns the two ids and both credits are applied |
| `TransferEngine.ReadBack` | db/sqlc/store.go:107-114 | reads the first id, then the second only when the first read found its row unfaulted; a failure returns the failing read's fault or NoRows; succeeds exactly when both rows exist and no fault hits, returning those rows |
| `TransferEngine.SettleBalances` | db/sqlc/store.go:94-136 | adjusts the lower id first in either branch, then reads (from, to); stops at the first failing adjustment or read; on success the result pair is the post-update rows of from and to |
| `TransferEngine.TransferWork` | db/sqlc/store.go:71-139 | the transaction body issues the seven-call plan up to and including the first failing call, whether the failure is injected, a missing row or a balance leaving int64 (`TransferEngine.Reach`); it succeeds exactly when no call faults and both adjustments fit in int64 |
| `TransferEngine.SettleFailure` | db/sqlc/store.go:103-135 | a failed settling stage returns its last call's own error: the injected fault, or NoRows or NumericOutOfRange of the failing adjustment; the reads fail only by faults |
| `TransferEngine.WorkFailure` | db/sqlc/store.go:71-139 | a failed transfer body returns the error of the last call it issued unchanged (`TransferEngine.FailureOf`) |
| `TransferEngine.TransferTxFailure` | db/sqlc/store.go:30-46 | a failed body reaches the caller as that call's own error, joined with the rollback error when rollback fails; after a complete body, a failed commit is the error |
| `TransferEngine.TransferTx` | db/sqlc/store.go:68-142 | all-or-nothing; once begun, the call log is the plan up to and including the first failing call (`TransferEngine.Reach`); success means one transfer and two entries appended, both accounts adjusted, and the post-update rows returned |
| `TransferLaws.PlanPrefixOrdering` | db/sqlc/store.go:94-123 | in any prefix of the plan, balance adjustments target the lower id and then the higher id |
| `TransferLaws.LowerIdAdjustedFirst` | db/sqlc/store.go:94-123 | whatever fails, the first adjustment targets min(from, to) and the second max(from, to); the source is debited first iff from <= to |
| `TransferLaws.MovedDelta` | db/sqlc/store.go:94-123 | every account's balance moves by its net share of the transfer, and no other field changes |
| `TransferLaws.TransferConservesMoney` | db/sqlc/store.go:94-123 | for distinct accounts, a successful transfer debits the source by amount, credits the destination by amount, keeps their sum, and leaves all other accounts untouched |
| `TransferLaws.EntriesCancel` | db/sqlc/store.go:78-92 | the two new entries reference from and to, and their amounts sum to zero if and only if the amount is not the int64 minimum |
| `TransferLaws.SelfTransferKeepsBalance` | db/sqlc/store.go:94-114 | a successful self-transfer issues -amount then +amount on the one account, leaves every balance unchanged, and still records one transfer and two entries |
| `TransferLaws.SelfTransferNotRejected` | db/sqlc/store.go:94-114 | a self-transfer on an existing account with room for the debit succeeds when nothing fails |
| `TransferLaws.ResultAccountsMatchArguments` | db/sqlc/store.go:107-134 | FromAccount is the post-update row of FromAccountID and ToAccount that of ToAccountID, in both branches |
| `TransferLaws.FaultStopsLaterCalls` | db/sqlc/store.go:73-135 | a fault at call k means no call after k is issued, and if k is one of the seven calls the transfer fails with the tables unchanged |
| `TransferLaws.TxControlFailures` | db/sqlc/store.go:31-45 | a BEGIN failure issues no query and returns that error; a rollback failure yields the combined error; a commit failure fails the call |
| `TransferLaws.TransferPreservesConsistency` | db/sqlc/store.go:78-123 | every transfer, successful or not, keeps each balance equal to the sum of its entries |
| `TransferLaws.ScenarioOneToTwo` | db/sqlc/store.go:68-142 | 300 from account 1 (1000) to account 2 (500) gives 700 and 800, transfer (1, 2, 300) and entries -300 and +300 |
| `TransferLaws.ScenarioOverdraftRefused` | db/sqlc/store.go:115-126 | a refused overdraft on the second adjustment of 2 to 1 fails the transfer after account 1 was credited, and leaves the tables unchanged |
| `TransferLaws.ScenarioCreditOverflowStops` | db/sqlc/store.go:94-105 | crediting 300 to an account already at the int64 maximum fails the fifth call with NumericOutOfRange; no read follows and the tables are unchanged |
| `TransferLaws.MinAmountBreaksConservation` | db/sqlc/store.go:78-102 | with amount equal to the int64 minimum both balances fall by 2^63, from 0 to the minimum, and money is not conserved |
| `TransferApi.ValidateAccount` | api/transfer.go:65-84 | a missing account is 404, any other lookup error 500, a currency mismatch 400; otherwise the looked-up account is returned |
| `TransferApi.ParamsOf` | api/transfer.go:48-52 | the engine receives the request's own from id, to id and amount, in that order; for a bound request they are int64 and the amount is positive |
| `TransferApi.ValidateAgainstStore` | api/transfer.go:65-84 | against the stored tables, an account passes exactly when it exists in the request's currency; missing is 404, mismatched 400, never 500 |
| `TransferApi.CreateTransfer` | api/transfer.go:21-63 | an unbindable request is 400 with no store call; checks run source lookup, owner, destination lookup in that order; the engine is reached with the request's from, to and amount exactly when every guard passes; a foreign source account is 401; a failed source check answers after that one lookup; a failed source or destination check answers with that check's 404, 500 or 400; engine error 500, success 200 |
| `TransferApi.DestinationOwnerNeverChecked` | api/transfer.go:37-45 | changing only the destination account's owner never changes the handler's answer |
| `TransferApi.SelfTransferReachesEngine` | api/transfer.go:32-54 | a self-transfer that passes the guards is handed to the engine after two lookups of the same id |
| `TransferApi.SelfTransferEndToEnd` | api/transfer.go:32-61 | on a fault-free store the caller's self-transfer is answered 200 and the account keeps its balance |
| `AccountApi.CreateAccount` | api/account.go:18-48 | a bound request issues one insert with balance 0 and the request's owner and currency; foreign-key or unique violations are 403, other errors 500 |
| `AccountApi.ZeroOpeningBalanceKeepsConsistency` | api/account.go:26-32 | the row a bound create request inserts has balance 0, and adding it under a fresh id with no entries keeps the ledger consistent |
| `AccountApi.GetAccount` | api/account.go:50-74 | an id below 1 is 400 with no store call; NoRows is 404 and exactly NoRows; other errors 500; success returns the fetched row |
| `AccountApi.GetAgainstStore` | api/account.go:54-73 | against the stored tables, a bound id is 200 with the stored row exactly when it exists and 404 exactly when it does not; never 500 |
| `AccountApi.ListAccounts` | api/account.go:76-103 | page_size outside 5..10 or page_id below 1 is 400 with no store call; otherwise one query with owner "", limit page_size and the int64 offset; errors 500 |
| `AccountApi.ListedOwnerMatchesNoCreatedAccount` | api/account.go:89-92 | the owner the listing passes, "", differs from the owner of every account the create handler inserts |
| `AccountApi.PageOffsetArithmetic` | api/account.go:89-92 | without overflow the offset is non-negative, a multiple of the limit with quotient page_id - 1, 0 on page 1, and grows by one limit per page |
| `AccountApi.HugePageIdWrapsOffset` | api/account.go:89-92 | page_size 8 with page_id 2^60 + 1 binds, and its int64 offset wraps to the int64 minimum |
| `AccountApi.UpdateAccount` | api/account.go:105-133 | a bound request issues exactly one balance overwrite; balance 0 does not bind; errors are 500 |
| `AccountApi.UpdateBypassesLedger` | api/account.go:119-124 | the overwrite answers 200 with the id, writes no entry, and leaves the ledger consistent only if the new balance equals the entry sum |
| `AccountApi.DeleteAccount` | api/account.go:135-154 | an id below 1 is 400 with no store call; every error the store reports is 500; never 404 or 403 |
| `AccountApi.DeleteIgnoresErrorKind` | api/account.go:146-151 | the answer depends only on whether the store reported an error, never on which error; the status is 200, 400 or 500 |

## Left out

- Concurrency, row locks, isolation levels and deadlock freedom cannot be stated in a sequential model. The lower-id-first call order (`TransferLaws.LowerIdAdjustedFirst`) stands in for the locking rule.
- Context cancellation and timeouts are left out. A cancelled transaction would behave like a failed call, and the fault oracle already covers that.
- The generated query bodies are not part of this model; the primitives follow the behaviour the engine relies on.
- Foreign keys on entries and transfers are not visible, so `CreateEntry` and `CreateTransfer` fail only through the fault oracle.
- A non-negative-balance constraint is not visible either. It appears only as an injected `AddAccountBalance` failure, as in `TransferLaws.ScenarioOverdraftRefused`.
- Row ids of entries and transfers are modelled as position plus one. PostgreSQL sequences are not rolled back, so real ids can have gaps.
- Creation timestamps are not modelled.
- Error message texts are not modelled; only error kinds are. This covers the `fmt.Errorf` text and the HTTP error bodies.
- The partially filled `TransferTxResult` returned next to an error is not modelled; the handler discards it.
- Commit and rollback failures leave the committed tables unchanged. The server aborts the transaction in both cases.
- HTTP, JSON and gin binding are reduced to their accept/refuse decision on already parsed values. Non-numeric text is refused with 400, like any other binding failure.
- The authentication middleware and tokens (token/payload.go, token/token_maker.go) are left out. The authenticated username is an input to `TransferApi.CreateTransfer`. A missing token is rejected before any handler runs.
- db/util/password.go, api/users.go and api/validator.go are left out. They are bcrypt wrappers, a user handler, and a reflection shim that only calls `IsSupportedCurrency`.
- Which rows `ListAccounts` returns, and the store-side effect of `DeleteAccount`, are outside the handlers. Only the parameters passed and the response classification are modelled; whether the listing query compares owners for equality is decided by the query, which is not part of this model.
- `AccountApi.DeleteAccount` says nothing about a missing row: whether the delete query reports one as an error is decided by the query, which is not part of this model.
- The success body of `deleteAccount` is a status message naming the id; the model returns the id itself.
- `TransferLaws.TransferConservesMoney` is stated only for amounts other than the int64 minimum, because Go's negation overflows there. `TransferLaws.MinAmountBreaksConservation` shows that case.
- `TransferApi.DestinationOwnerNeverChecked` is stated only for distinct source and destination ids, because a self-transfer checks the one owner it has.
- `AccountApi.PageOffsetArithmetic` is stated only while `(page_id - 1) * page_size` plus one page fits in int64. `AccountApi.HugePageIdWrapsOffset` shows what happens beyond that.
