# Bank ledger core, modelled in Dafny

This project models a small banking backend. The database holds a table of
accounts and an append-only ledger of transactions. Each account has an owner,
a balance, a type, a currency and a last-interest stamp. The model covers:

- the three money-moving HTTP handlers: transfer, withdraw and deposit. Each
  runs inside one database transaction (`db.DB.Transaction`).
- the two ledger reads: the paged history of an account, and one entry by key
  with its access rule.
- the account handlers: create (with the `INR` currency default), list the
  caller's accounts, and fetch one account by key.
- the yearly interest batch. It decides which accounts are eligible and takes
  a window of them by day of the week. It then applies interest through one
  transaction handle that it begins once and commits inside its loop.

Modules and files:

- `calendar.dfy` (`Calendar`): civil time, the start of the year, and the day
  of the week. It also proves that January 1–7 cover every weekday.
- `models.dfy` (`Models`): the two records, the error kinds, the lookups the
  handlers issue, `LIMIT/OFFSET` paging, and the money total of the accounts
  table.
- `store.dfy` (`Store`): class `Db` (the database) and class `Handle` (a
  database transaction). A handle is Open, then Committed or RolledBack. Its
  writes go to a private view that a commit publishes.
- `transactions.dfy` (`TransactionHandlers`): transfer, withdraw, deposit,
  history, lookup by key.
- `accounts.dfy` (`AccountHandlers`): create, list, fetch.
- `interest.dfy` (`InterestJob`): the interest batch as written, and a version
  with one transaction per account (see Findings).
- `findings.dfy` (`InterestFindings`): a concrete two-account night run
  through both batch versions.

Modelling choices:

- Money and rates are `real` (exact) rather than `float64`.
- A ledger entry's key is its position plus one. So "created_at DESC" is
  reverse insertion order.
- Database rejections are an input. Each state-changing operation takes
  `faults: set<nat>`, the positions (in issue order) of its writes (save,
  insert, commit) that the database rejects; the batch's selection query is
  position 0. The contracts state every error path of those calls. Reads of a
  single account or entry are taken never to fail (see "## Left out").
- The caller's `user_id`, the clock (`now`) and the interest-rate table are
  parameters.
- A query parameter that is absent or does not parse as an integer is `None`.

The system's design notes state some rules differently from the code. The
model follows the code:

- Lookup by key. The design notes let either owner see an entry. The code
  (`transaction.go:200-214`) denies access when any referenced account that
  resolves belongs to someone else. So a transfer between two users is visible
  to neither, as `CrossUserTransferHidden` proves.
- Interest batch. The design notes treat each account as its own atomic unit.
  The code begins one handle before the loop and commits it inside the loop;
  see Findings.
- Withdraw and deposit. The design notes ask for positive amounts. The code
  checks no sign (`transaction.go:74-77`, `:120-123`). A negative deposit can
  therefore lower a balance below zero, and a negative withdrawal raises it.

## Model

| member | source | states |
|---|---|---|
| Calendar.StartOfYear | backend/internal/jobs/interest.go:15 | midnight on January 1 of `now`'s year; a valid time is before it exactly when its year is earlier, and `now` itself is never before it |
| Calendar.Weekday | backend/internal/jobs/interest.go:16 | the day of the week lies in 0..6 (Sunday = 0); the four lemmas below fix its value on every date |
| Calendar.NewYear2023IsSunday | backend/internal/jobs/interest.go:16 | 1 January 2023 is day 0, Sunday |
| Calendar.NextDayWeekday | backend/internal/jobs/interest.go:16 | the next day of a month is one day of the week later, modulo 7 |
| Calendar.NextMonthWeekday | backend/internal/jobs/interest.go:16 | the first of the next month is the month's length in days later, modulo 7 |
| Calendar.NextYearWeekday | backend/internal/jobs/interest.go:16 | the next January 1 is 365 days later, 366 after a leap year, modulo 7 |
| Calendar.YearLength | backend/internal/jobs/interest.go:16 | a Gregorian year has 366 days when it is a leap year and 365 otherwise |
| Calendar.CountStep | backend/internal/jobs/interest.go:16 | moving from year `y - 1` to `y` adds one multiple of 4, 100 or 400 exactly when `y` is one |
| Calendar.FirstWeekCoversEveryWeekday | backend/internal/jobs/scheduler.go:11 | January 1 to 7 fall on seven pairwise different weekdays, which together are exactly {0,…,6} |
| Models.FindById | backend/internal/handlers/transaction.go:34 | finds an account exactly when its key is in the table, and returns that row |
| Models.FindOwned | backend/internal/handlers/transaction.go:31 | finds an account exactly when the key exists and the owner is the caller, and returns that row |
| Models.Page | backend/internal/handlers/transaction.go:181-182 | `LIMIT l OFFSET o` holds min(l, n − o) rows (none when o ≥ n), row k being input row o + k |
| Models.PagesTile | backend/internal/handlers/transaction.go:181-182 | two consecutive pages, joined, are the page spanning both |
| Models.TotalUpdate | backend/internal/handlers/transaction.go:42-49 | overwriting one row changes the table's total money by exactly that row's change in balance |
| Models.NatToString | backend/internal/handlers/transaction.go:56 | `fmt.Sprint` of a key is a non-empty string of decimal digits, one digit exactly when the key is below 10, whose decimal value is the key |
| Models.NatToStringInjective | backend/internal/handlers/transaction.go:56 | two different keys are never written the same |
| Models.DigitsSplit | backend/internal/handlers/transaction.go:56 | digits, then a separator that starts with a non-digit, then a rest: the split is unique |
| Models.PrefixCancel | backend/internal/handlers/transaction.go:56 | two texts with the same beginning that are equal agree after it |
| Models.WellFormedKeys | backend/internal/models/transaction.go:7 | in a consistent database the next account key is unused, and ledger keys strictly increase in insertion order |
| Store.Db.constructor | backend/internal/models/account.go:7-16 | the database starts with both tables empty and key counter 1, and is consistent: each account stored under its own key, below the counter, and ledger keys 1, 2, 3, … in insertion order |
| Store.Handle.Begin | backend/internal/jobs/interest.go:34 | a new handle is open, and its view is the committed state |
| Store.Handle.Save | backend/internal/jobs/interest.go:42-46 | succeeds exactly on an open handle whose statement is accepted; then it overwrites that one row of the view and nothing else |
| Store.Handle.Create | backend/internal/jobs/interest.go:54-58 | succeeds exactly on an open handle whose statement is accepted; then it appends one entry under the next key |
| Store.Handle.Commit | backend/internal/jobs/interest.go:60 | an accepted commit on an open handle publishes the view; any open handle is finished afterwards |
| Store.Handle.Rollback | backend/internal/jobs/interest.go:43 | an open handle becomes rolled back and publishes nothing |
| Store.Handle.End | backend/internal/handlers/transaction.go:28-59 | the closure's error rolls back and is reported with nothing changed; otherwise the commit's result is reported, and a success publishes the view |
| TransactionHandlers.TransferFunds | backend/internal/handlers/transaction.go:14-65 | same-account or non-positive input is refused first. Later checks run in order: source owned by the caller, destination under any owner, then balance. Then come the outcomes of the two saves, the insert and the commit. Any failure leaves both tables unchanged. Success moves the amount between exactly those two rows and appends one `transfer` entry with both keys. Total money is preserved and the source stays non-negative |
| TransactionHandlers.WriteTransfer | backend/internal/handlers/transaction.go:42-58 | the first of the two saves and the insert to be rejected is reported, with its own message. When none is, the view holds both new rows and one `transfer` entry with both keys under the next ledger key; the handle stays open |
| TransactionHandlers.TransferDescriptionInjective | backend/internal/handlers/transaction.go:56 | the transfer entry's text determines both its source and its destination key |
| TransactionHandlers.TransferDescriptionParts | backend/internal/handlers/transaction.go:56 | the transfer text is its fixed beginning followed by the part that names both keys |
| TransactionHandlers.WithdrawFunds | backend/internal/handlers/transaction.go:68-111 | refuses when the account is not the caller's, then when the balance is short, then for storage failures, each leaving nothing changed. Success lowers exactly that balance by the amount, appends one `withdraw` entry with only the source set, and lowers total money by the amount |
| TransactionHandlers.WithdrawWholeBalanceTwice | backend/internal/handlers/transaction.go:85-87 | withdrawing a whole positive balance twice in a row never succeeds twice; once the first has, the second is refused for the balance |
| TransactionHandlers.DepositFunds | backend/internal/handlers/transaction.go:114-150 | refuses only when the account is not the caller's or storage fails, with nothing changed. Success raises exactly that balance by the amount, appends one `deposit` entry with only the destination set, and raises total money by the amount |
| TransactionHandlers.EffectiveLimit | backend/internal/handlers/transaction.go:162-170 | the parsed limit when it is positive, otherwise 10; never 0 |
| TransactionHandlers.EffectiveOffset | backend/internal/handlers/transaction.go:171-176 | the parsed offset when it is non-negative, otherwise 0 |
| TransactionHandlers.References | backend/internal/handlers/transaction.go:179 | `from_account_id = id OR to_account_id = id`: the account is one of those the entry points at |
| TransactionHandlers.ValidLedgerIsAscending | backend/internal/handlers/transaction.go:180 | the ledger of a consistent database has strictly ascending keys, the premise of newest-first history |
| TransactionHandlers.NewestFirst | backend/internal/handlers/transaction.go:179-180 | selects only ledger entries whose source or destination is the account |
| TransactionHandlers.NewestFirstComplete | backend/internal/handlers/transaction.go:179 | every ledger entry referencing the account is selected |
| TransactionHandlers.NewestFirstDescending | backend/internal/handlers/transaction.go:180 | with keys in creation order, the selection's keys strictly decrease |
| TransactionHandlers.GetTransactionHistory | backend/internal/handlers/transaction.go:153-187 | "Account not found" exactly when the account is not the caller's. Otherwise the page [offset, offset + limit) of the newest-first selection, each entry referencing the account |
| TransactionHandlers.HistoryIsNewestFirst | backend/internal/handlers/transaction.go:180 | every history page is in strictly decreasing key order |
| TransactionHandlers.NewEntryHeadsHistory | backend/internal/handlers/transaction.go:162-182 | an entry just appended for an account heads its owner's default history page |
| TransactionHandlers.FindEntry | backend/internal/handlers/transaction.go:195-198 | finds an entry with the requested key, or reports that no entry has it |
| TransactionHandlers.FindEntryByPosition | backend/internal/handlers/transaction.go:195 | in a ledger keyed consecutively, key `id` is at position `id − base` and nowhere else |
| TransactionHandlers.MayView | backend/internal/handlers/transaction.go:200-214 | owning every referenced account that resolves is the same as passing the source check and then the destination check |
| TransactionHandlers.GetTransactionByID | backend/internal/handlers/transaction.go:190-216 | "Transaction not found" exactly when no entry has the key. The entry is returned exactly when the caller owns every referenced account that resolves; otherwise "Access denied" |
| TransactionHandlers.CrossUserTransferHidden | backend/internal/handlers/transaction.go:200-214 | a transfer between accounts of two different users is denied to every caller |
| TransactionHandlers.SingleAccountEntryVisibleToOwner | backend/internal/handlers/transaction.go:200-214 | an entry referencing one existing account is visible exactly to that account's owner |
| AccountHandlers.CurrencyOrDefault | backend/internal/handlers/account.go:23-25 | an empty currency becomes "INR"; any other is kept |
| AccountHandlers.NewAccount | backend/internal/handlers/account.go:27-32 | the inserted row: the caller as owner, the requested type and balance, the defaulted (non-empty) currency, no interest stamp |
| AccountHandlers.CreateAccount | backend/internal/handlers/account.go:17-43 | a rejected insert changes nothing. Otherwise it adds exactly one row under the next key, with the caller as owner, the input's type and balance, and the defaulted currency. No other row or entry changes, and total money grows by the opening balance |
| AccountHandlers.GetAccounts | backend/internal/handlers/account.go:50 | exactly the caller's accounts, each as stored |
| AccountHandlers.GetAccountByID | backend/internal/handlers/account.go:62-65 | the account exactly when the key exists and the caller owns it; else "Account not found" |
| AccountHandlers.CreatedAccountListedForOwnerOnly | backend/internal/handlers/account.go:27-34 | after a creation, the creator's list gains exactly the new account and every other user's list is unchanged |
| InterestJob.Eligible | backend/internal/jobs/interest.go:20 | a null stamp is eligible; a valid stamp is eligible exactly when its year is before `now`'s |
| InterestJob.BatchOffset | backend/internal/jobs/interest.go:16-17 | the offset is a multiple of 1000, at most 6000 |
| InterestJob.FirstWeekOffsetsAreDistinct | backend/internal/jobs/interest.go:16-17 | the offsets of January 1 to 7 are pairwise different and are exactly {0, 1000, …, 6000} |
| InterestJob.EligibleIds | backend/internal/jobs/interest.go:20-21 | only existing, eligible keys, strictly ascending |
| InterestJob.EligibleIdsComplete | backend/internal/jobs/interest.go:20 | no eligible account is left out |
| InterestJob.EligibleIdsBoundIrrelevant | backend/internal/jobs/interest.go:20-21 | any bound above every key selects the same list |
| InterestJob.StampedAccountLeavesEligibleSet | backend/internal/jobs/interest.go:40 | stamping an eligible account with `now` removes it, and only it, from that year's eligible list, which shrinks by one |
| InterestJob.Window | backend/internal/jobs/interest.go:19-24 | positions [offset, offset + 1000) of the eligible keys; every key is eligible, and the keys are ascending |
| InterestJob.RateFor | backend/internal/jobs/interest.go:36 | the table's rate for the type, 0 when the type is missing |
| InterestJob.Accrue | backend/internal/jobs/interest.go:36-40 | the new balance is balance + balance × rate, and the stamp is `now`. Key, owner, type and currency are kept. A missing type leaves the balance unchanged. The account is no longer eligible that year |
| InterestJob.InterestDescription | backend/internal/jobs/interest.go:52 | "Interest for account ID " followed by digits whose value is the account key |
| InterestJob.InterestDescriptionInjective | backend/internal/jobs/interest.go:52 | two accounts' interest texts differ |
| InterestJob.InterestEntry | backend/internal/jobs/interest.go:48-53 | the entry has the given key, no source, the account as destination, kind interest, the interest text, and amount balance × rate |
| InterestJob.InterestEntryRecordsAccrual | backend/internal/jobs/interest.go:38-53 | the entry's amount is exactly the account's change in balance |
| InterestJob.AccrueAddsInterestToTotal | backend/internal/jobs/interest.go:38-39 | applying one account's interest grows total money by exactly that interest |
| InterestJob.ApplyToAccount | backend/internal/jobs/interest.go:36-60 | stops exactly when the handle is finished or the save or insert is rejected. Publishes exactly when all three calls are accepted on an open handle; it then publishes that account's accrual and its `interest` entry. Otherwise it publishes nothing |
| InterestJob.RecordAndCommit | backend/internal/jobs/interest.go:48-59 | after the save: stops exactly when the insert is rejected, and publishes exactly when both the insert and the commit are accepted. It then publishes the view plus the account's `interest` entry; otherwise it publishes nothing. The handle is finished either way |
| InterestJob.ApplyInterestBatch | backend/internal/jobs/interest.go:12-63 | as written: with a non-empty window and no rejection of the query or the first account's three calls, only the window's first account is credited, with one entry. In every other case both tables are unchanged |
| InterestJob.AccrueAll | backend/internal/jobs/interest.go:35-40 | every listed account accrued once from its starting row, every other unchanged, same keys |
| InterestJob.InterestEntries | backend/internal/jobs/interest.go:48-58 | one `interest` entry per listed account, in order, under consecutive keys |
| InterestJob.AppliedWindowLeavesNothingEligible | backend/internal/jobs/interest.go:40 | once a window is applied, none of its accounts is eligible again that year |
| InterestJob.ApplyInOwnTransaction | backend/internal/jobs/interest.go:34-60 | one account in a handle of its own: published exactly when its save, insert and commit are all accepted; otherwise nothing changes |
| InterestJob.ApplyInterestBatchPerAccount | backend/internal/jobs/interest.go:12-63 | corrected: the first `processed` accounts of the window are accrued, each with its entry in order. The run stops only at the window's end or at a rejected call, and a rejected query processes nothing |
| InterestFindings.BothAccountsInWindow | backend/internal/jobs/interest.go:16-24 | two fresh savings accounts are both in the window of Sunday 1 January 2023 |
| InterestFindings.SecondAccountMissesInterest | backend/internal/jobs/interest.go:34-60 | with every call accepted, the batch as written leaves the first account at 110 and the second at 100 |
| InterestFindings.PerAccountBatchCreditsBoth | backend/internal/jobs/interest.go:34-60 | the corrected batch leaves both accounts at 110, with two ledger entries |

## Left out

- Reads are taken never to fail. These are the `First` lookups at `transaction.go:31`, `:34`, `:82`, `:128`, `:158`, `:195` and `account.go:62`, and the `Find` at `account.go:50`. In the code, a failed `First` reports "not found" even for a row that exists, and a failed `Find` answers 500. The model gives the not-found error exactly when the row is absent, and `GetAccounts` always answers.
- TransactionHandlers.GetTransactionByID: the owner reads at `transaction.go:203` and `:210` are taken never to fail. The code checks ownership only when the read succeeds (`err == nil && UserID != userID`), so a failed read of an existing account skips the check and grants access. The model grants access that way only when the account is missing.
- HTTP and JSON are not modelled: gin binding, `binding:"required"`, status codes and response bodies. Handlers take typed inputs and return an `Outcome` or `Result` whose `Error` names the message.
- The duplicate error response at `transaction.go:100` and the missing `return` at `transaction.go:184-186` concern only the HTTP response.
- A history query that fails (`transaction.go:183`) is JSON-only. This is because the model's ledger read cannot fail.
- `strconv.Atoi` parsing: the query value is an `Option<int>`, present only when it parses.
- `backend/cmd/main.go` and `backend/internal/routes/routes.go` are start-up, I/O and route wiring. The auth middleware is not part of this model; the caller's key is a trusted input.
- `backend/internal/jobs/scheduler.go`: only its day range "1-7" of January is used, as the premise of `FirstWeekCoversEveryWeekday`.
- Concurrency, isolation and row locking are not modelled. The code leaves them to the database.
- `float64` rounding is not modelled: money and rates are exact `real`.
- Logging is not modelled. Neither are `CreatedAt`/`UpdatedAt`, except as ledger order, nor the auto-increment gaps a rolled-back insert leaves.
- `constants.InterestRates` is not part of this model. It is a parameter; a type missing from it reads as 0, as a Go map does.
- Time zones are not modelled: `now` and the stored stamps are in one fixed location.
- Store.Handle.Begin: a failing `Begin` is not modelled. Its effect matches a first statement that is rejected.
- AccountHandlers.GetAccounts: returns a map keyed by account key, so the row order of the Go slice, which the query leaves unspecified, is not modelled.
- InterestJob.EligibleIds: enumerates the keys below the next key to be handed out. `EligibleIdsBoundIrrelevant` shows any larger bound gives the same list.
- InterestJob.ApplyInterestBatchPerAccount: states the new tables, but not the total money they hold.
- `StampedAccountLeavesEligibleSet` shows that later accounts shift down the eligible list once one is stamped. The model does not go on to show which accounts a whole week of runs reaches.
- `backend/internal/models/user.go`: the user record carries no logic here.

## Findings

| source | as written | input that shows it | evidently intended | confidence | as-written member | corrected member |
|---|---|---|---|---|---|---|
| backend/internal/jobs/interest.go:34-60 | one handle is begun before the loop and committed inside it, so the second account's `Save` runs on a finished handle, fails, and ends the run | two eligible savings accounts of 100 at rate 0.1, run on Sunday 1 January 2023 with every statement accepted: the first ends at 110, the second stays at 100 | each account in a transaction of its own, so both end at 110 | high (not executed) | InterestFindings.SecondAccountMissesInterest | InterestJob.ApplyInterestBatchPerAccount |
