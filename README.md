# Ledger engine of the economy server

This project is a Dafny model of the ledger engine of a game-economy server. The engine keeps players'
cash, their bank accounts, jobs, versioned government policies, a government
record that points at a treasury account, and an append-only transaction log.
It models these services:

- **Economy** (`economy.dfy`): `logTransaction`, `deposit` (cash to account), `withdraw` (account to cash)
  and `transfer` (account to account).
- **Bank** (`bank.dfy`): `createBankAccount` opens three accounts (chequing, savings, investing) from a
  policy row. The module also covers `updateBalance`, `getAccountsByOwner` and `getAccountById`.
- **Job** (`job.dfy`): `createJob`, `assignJob`, and `paySalary` with income-tax withholding.
- **Government** (`government.dfy`): `getCurrentPolicy`, `updatePolicy` (inserts a new policy version),
  `getGovernmentAccount` and the `ensureGovernmentAccount` bootstrap.
- **Transactions** (`transactions.dfy`): the log queries by player, by account and by id.
- **Schema** (`schema.dfy`): the record shapes and the column defaults. It also holds the whole database,
  once as a value (`Tables`) and once as the object the services update in place (`Database`).
  `accounting.dfy` adds up the money held in the database.

Each state-changing service has two parts:

- A pure step function `XStep(t, ...)`. It takes the tables before the call and returns a `Step`: the
  result (`Ok` or an `Err` tag) and the tables after the call. Its contract states the error cases in
  the order the service checks them, that a failure changes nothing, and the new state on success.
- A method `X(db, ...)` that does the same reads, checks and writes on a `Database` object. Its
  contract ties it to the step function:
  `Step(r, db.Snapshot()) == XStep(old(db.Snapshot()), ...)`.

Lemmas about the step functions state what the services promise across calls:

- money accounting (`TotalMoney` is all cash plus all balances);
- invariants that are preserved: `Tables.Valid` (ids, keys and foreign keys) and `Tables.NonNegative`;
- round trips, idempotence, and the quirks of the code as written.

How the model stands in for the environment:

- The clock is a parameter `now`.
- The random uuid of a bank account is a counter, `nextAccountId`.
- The serial ids of jobs and policies are counters that start at 1.
- A log entry's id is its position in the log.

## Model

| member | source | states |
|---|---|---|
| `Schema.InsertPlayerStep` | src/db/schema.ts:11-27 | A duplicate `player_id` fails and changes nothing. Otherwise cash defaults to 500 and bank to 1000, and exactly that row is added. Validity is preserved. |
| `Schema.InsertPlayer` | src/db/schema.ts:11-27 | The in-place insert does what `InsertPlayerStep` says. |
| `Economy.Logged` | src/module/economy/service.ts:13-28 | The log grows by exactly one entry at the end, with the given fields and the next position as its id. The earlier entries and every other table are unchanged. |
| `Economy.LoggedKeepsValid` | src/module/economy/service.ts:13-28 | Logging keeps the tables well formed: every entry's id is still its position. |
| `Economy.LogTransaction` | src/module/economy/service.ts:13-28 | The in-place insert appends exactly that entry and leaves the database as `Logged` says. |
| `Economy.DepositStep` | src/module/economy/service.ts:30-77 | Checks run in order: player missing, then `cash < amount`, then account missing. Each failure leaves every table unchanged, including the already-decremented cash, which is rolled back. On success: `cash - amount`, `balance + amount`, their sum conserved, no other player or account changed, and exactly one `deposit` entry appended. `Valid` is preserved, and `NonNegative` is preserved when `amount >= 0`. |
| `Economy.Deposit` | src/module/economy/service.ts:30-77 | The in-place deposit, with its rollback, does what `DepositStep` says. |
| `Economy.WithdrawStep` | src/module/economy/service.ts:80-129 | Checks run in order: player missing, then account missing, then `balance < amount`. A failure changes nothing. On success: `balance - amount`, `cash + amount`, and exactly one `withdraw` entry appended. Nothing else changes. `Valid` is preserved, and `NonNegative` is preserved when `amount >= 0`. |
| `Economy.Withdraw` | src/module/economy/service.ts:80-129 | The in-place withdraw does what `WithdrawStep` says. |
| `Economy.TransferStep` | src/module/economy/service.ts:132-195 | Fails with nothing changed when either account is missing or `from.balance < amount`. For two distinct accounts it debits one and credits the other, and their sum is conserved. For the same account the balance ends at `balance + amount`. Two entries are appended, in this order: `(-amount, to:toId)` then `(+amount, from:fromId)`. Player rows are untouched. |
| `Economy.Transfer` | src/module/economy/service.ts:132-195 | The in-place transfer, with both rows read before either write, does what `TransferStep` says. |
| `Economy.DepositConservesMoney` | src/module/economy/service.ts:47-64 | A deposit, successful or not, leaves the total of cash plus balances unchanged. |
| `Economy.WithdrawConservesMoney` | src/module/economy/service.ts:100-116 | A withdrawal leaves the total of cash plus balances unchanged. |
| `Economy.TransferMoney` | src/module/economy/service.ts:145-167 | A transfer between distinct accounts conserves the total. A successful self-transfer creates exactly `amount`. |
| `Economy.DepositThenWithdrawRestores` | src/module/economy/service.ts:30-129 | A deposit followed by a withdrawal of the same amount restores every player and account row and leaves the two log rows. |
| `Economy.DepositTouchesOnlyItsRows` | src/module/economy/service.ts:30-77 | A deposit keeps the key sets of players and accounts. Every player and every account other than its own is unchanged. |
| `Economy.WithdrawTouchesOnlyItsRows` | src/module/economy/service.ts:80-129 | A withdrawal keeps the key sets of players and accounts. Every player and every account other than its own is unchanged. |
| `Economy.TransferTouchesOnlyItsAccounts` | src/module/economy/service.ts:132-195 | A transfer leaves the players table as it was and keeps the account keys. Every account other than the two named is unchanged. |
| `Economy.MovesLeaveBankColumn` | src/module/economy/service.ts:30-195 | No deposit, withdrawal or transfer writes a player's `bank` column. Deposit and withdraw succeed on business accounts too. |
| `Economy.NegativeDepositOverdraws` | src/module/economy/service.ts:40-58 | The amount is never checked to be positive. A deposit of -5 into an empty account succeeds and leaves the balance negative. |
| `Bank.ProvisionPlan` | src/module/economy/bank/service.ts:29-33 | Three definitions: chequing, savings, investing. Chequing and investing have apr 0. Savings has the policy's savings rate, or 0 when it is null. Chequing and savings are active. Investing is active exactly when the policy's investing switch is true, so a null switch means inactive. |
| `Bank.FirstPolicyRow` | src/module/economy/bank/service.ts:25-27 | Finds nothing exactly when there is no policy row. Otherwise it returns a stored row, and with serial ids that row is the oldest, not the current one. |
| `Bank.InsertAccounts` | src/module/economy/bank/service.ts:36-50 | The recursive definition of the insert loop: it creates one row per definition. `Bank.InsertAccountsAppends` states the rest. |
| `Bank.InsertAccountsAppends` | src/module/economy/bank/service.ts:36-50 | Inserting the definitions in order gives one row per definition, in order, with consecutive ids from the counter. Existing rows are kept, the key set grows by exactly the new ids, and each new id holds its row. |
| `Bank.CreateBankAccountStep` | src/module/economy/bank/service.ts:8-64 | The type defaults to personal when it is not given. Errors, in order: null owner, then personal owner not a player, then no policy row, then business owner rejected by the foreign key. Each error creates nothing. Success holds exactly when the owner is a player and a policy exists. It adds three rows under the next three ids and advances the id counter. No other table changes. |
| `Bank.CreateBankAccountKeepsValid` | src/module/economy/bank/service.ts:8-64 | Provisioning keeps ids, keys and foreign keys well formed: the new rows take fresh ids and belong to an existing player. |
| `Bank.ProvisionedAccounts` | src/module/economy/bank/service.ts:24-50 | The created accounts are chequing, savings and investing, in that order. All are fresh, empty, and carry the given owner and type. Their apr is 0, the savings rate, and 0. They are active, active, and active only if the investing switch is on. The levers come from the first stored policy row, not the latest. Existing accounts are unchanged. |
| `Bank.CreateBankAccount` | src/module/economy/bank/service.ts:8-64 | The in-place provisioning does what `CreateBankAccountStep` says, given that every account id is below the counter. |
| `Bank.InsertEach` | src/module/economy/bank/service.ts:36-50 | The insert loop leaves the table and the list of created accounts exactly as `InsertAccounts` describes. |
| `Bank.UpdateBalanceStep` | src/module/economy/bank/service.ts:109-138 | A missing account fails. A `balance + delta` below 0 fails with the balance unchanged. Otherwise the balance becomes `balance + delta`, which is at least 0. `NonNegative` is preserved for every `delta`. |
| `Bank.UpdateBalance` | src/module/economy/bank/service.ts:109-138 | The in-place update does what `UpdateBalanceStep` says. |
| `Bank.AccountsByOwner` | src/module/economy/bank/service.ts:69-85 | Returns exactly the accounts whose owner is the argument, unchanged. |
| `Bank.AccountById` | src/module/economy/bank/service.ts:90-107 | Fails with account-not-found exactly when the id is absent. Otherwise returns that row. |
| `Bank.CreateBankAccountConservesMoney` | src/module/economy/bank/service.ts:8-64 | Provisioning never changes the money in the game. |
| `Bank.ProvisionedAccountsBelongToOwner` | src/module/economy/bank/service.ts:29-50 | Afterwards, the owner's accounts are the earlier ones plus exactly the three new ones, under their new ids. |
| `Bank.AccountsByOwnerAdd` | src/module/economy/bank/service.ts:69-85 | A row added for an owner joins that owner's accounts. A fresh row of another owner leaves them as they were. |
| `Bank.ProvisioningLeavesOtherOwners` | src/module/economy/bank/service.ts:36-50 | Provisioning changes no other owner's accounts. |
| `Bank.UpdateBalanceMovesMoneyByDelta` | src/module/economy/bank/service.ts:118-124 | A successful update changes the total by exactly `delta`. A failed one changes nothing. |
| `Government.CurrentPolicy` | src/module/government/service.ts:6-22 | Fails exactly when there is no policy. Otherwise returns a stored policy whose id is the largest. |
| `Government.CurrentIsLast` | src/module/government/service.ts:8-12 | Since serial ids increase along the table, the current policy is the last one inserted. |
| `Government.Column` | src/module/government/service.ts:27-30 | The value an insert stores for one field: the column default when the field is left out, null exactly when it is null, and the value when it is given. |
| `Government.UpdatePolicyStep` | src/module/government/service.ts:25-37 | Always appends one row with the next serial id and changes nothing else. An omitted lever takes its column default (2, 10, 8, 15, 12, false). An explicit null stores null, and a given value is stored. `Valid` is preserved. |
| `Government.UpdatePolicy` | src/module/government/service.ts:25-37 | The in-place insert does what `UpdatePolicyStep` says. |
| `Government.UpdatedPolicyIsCurrent` | src/module/government/service.ts:27-30 | After an update the new row is the current policy, and every earlier row is still there, unchanged. |
| `Government.OmittedLeverResetsToDefault` | src/module/government/service.ts:27-30 | An update that omits the savings rate and the income tax rate makes the current ones 2 and 10, whatever they were before. |
| `Government.GetGovernmentAccount` | src/module/government/service.ts:43-57 | Fails with no government row. Fails when the row's account id is null or names no account. Otherwise returns that account, and in a valid database it always succeeds once the row points somewhere. |
| `Government.EnsureGovernmentAccountStep` | src/module/government/service.ts:62-105 | An existing government row is returned with nothing created. The player goes through the same unique-id insert as any player, so a taken fixed id fails. Otherwise it creates three rows: the fixed-id player with 0 cash, 0 bank and job 0; a business chequing account holding 1000000; and the government row pointing at it. `Valid` is preserved. |
| `Government.EnsureGovernmentAccount` | src/module/government/service.ts:62-105 | The in-place bootstrap does what `EnsureGovernmentAccountStep` says. |
| `Government.EnsureGovernmentAccountIdempotent` | src/module/government/service.ts:63-65 | Bootstrapping again after a successful bootstrap returns the same row and changes nothing. |
| `Government.EnsureGovernmentAccountSeedsTreasury` | src/module/government/service.ts:66-102 | The bootstrap adds exactly the 1000000 treasury seed to the money in the game, and nothing when a government row exists. |
| `Government.BootstrappedTreasuryIsFound` | src/module/government/service.ts:66-102 | After the bootstrap the treasury lookup succeeds, and the treasury is a business chequing account of the government player holding the seed. |
| `Job.CreateJobStep` | src/module/job/service.ts:6-13 | Always inserts one job with the given name and salary, under the next serial id, which is fresh. `Valid` is preserved. |
| `Job.CreateJob` | src/module/job/service.ts:6-13 | The in-place insert does what `CreateJobStep` says. |
| `Job.AssignJobStep` | src/module/job/service.ts:16-28 | Changes only that player's job id, without checking that the job exists. An unknown player yields success with no row and changes nothing. Money is unchanged. |
| `Job.AssignJob` | src/module/job/service.ts:16-28 | The in-place update does what `AssignJobStep` says. |
| `Job.Withholding` | src/module/job/service.ts:47-49 | `net + tax == salary`. `tax` is `salary * rate / 100` rounded down, and a null rate counts as 0. For rates in 0..100 and a non-negative salary, `0 <= tax <= salary`. |
| `Job.FirstChequing` | src/module/job/service.ts:54-60 | Finds a chequing account of the player, the one with the lowest id, or reports that the player has none. |
| `Job.ChequingOf` | src/module/job/service.ts:54-60 | Returns a chequing account of the player, the one with the lowest id. In a valid database it finds nothing only when the player has no chequing account. |
| `Job.PayrollLookup` | src/module/job/service.ts:33-68 | The payroll reads fail in order: player, job, policy, government row, player chequing account, treasury account. Success holds exactly when all six are found. The split is the withholding at the latest policy's income tax rate. |
| `Job.PaySalaryStep` | src/module/job/service.ts:31-102 | Checks run in order: player, job, policy, government row, player chequing account, treasury account. Each failure changes nothing. On success the chequing account gets `+net` and the treasury `+tax`. Both are computed from the rows as first read, so the treasury's write wins when the two are the same account. Exactly the two entries `(player, chequing, net, paycheck)` and `(government, treasury, tax, income_tax)` are appended, and nothing else changes. |
| `Job.PaySalary` | src/module/job/service.ts:31-102 | The in-place payroll does what `PaySalaryStep` says. |
| `Job.PaySalaryTaxesAtLatestRate` | src/module/job/service.ts:39-49 | The tax withheld uses the income tax rate of the latest policy. |
| `Job.PaySalaryMintsSalary` | src/module/job/service.ts:70-91 | Nothing is debited: payroll adds the whole salary to the money in the game, or only the tax when the player's chequing account is the treasury. |
| `Job.PaySalaryKeepsNonNegative` | src/module/job/service.ts:47-86 | With a non-negative salary and a tax rate in 0..100, payroll keeps every balance non-negative. |
| `Job.AssigningUnknownJobStopsPay` | src/module/job/service.ts:16-37 | After being assigned a job id that names no job, the player is never paid. Payroll fails with job-not-found. |
| `Job.CreatedJobIsPaid` | src/module/job/service.ts:6-37 | A job just created and then assigned passes the player and job checks of payroll, and pays out `net + tax` equal to the salary it was created with. |
| `Transactions.Select` | src/module/economy/transactions/service.ts:10-13 | Keeps exactly the log entries that match the player or account criterion, none more often than in the log. |
| `Transactions.InsertByTime` | src/module/economy/transactions/service.ts:14 | Inserting into a newest-first list keeps it newest-first, and the result is a permutation of the list plus the new entry. |
| `Transactions.SortNewestFirst` | src/module/economy/transactions/service.ts:14 | The result is ordered by `createdAt`, non-increasing, and is a permutation of the input. |
| `Transactions.Query` | src/module/economy/transactions/service.ts:10-15 | Returns `min(limit, matches)` entries, newest first, each a matching log entry. No entry appears more often than it matches in the log. |
| `Transactions.QueryOmitsOnlyOlder` | src/module/economy/transactions/service.ts:14-15 | Every matching entry left off the page is no newer than any entry on the page. |
| `Transactions.QueryReturnsAllWhenFew` | src/module/economy/transactions/service.ts:14-15 | When at most `limit` entries match, the page holds all of them, with their multiplicities. |
| `Transactions.TransactionsByPlayer` | src/module/economy/transactions/service.ts:5-30 | Returns `min(limit, matches)` of the player's entries, with `limit` 50 by default. They come newest first, none more often than in the log. Every entry of the player left off is no newer than any entry returned. |
| `Transactions.TransactionsByAccount` | src/module/economy/transactions/service.ts:32-54 | Returns `min(limit, matches)` of the account's entries, with `limit` 50 by default. They come newest first, none more often than in the log. Every entry of the account left off is no newer than any entry returned. |
| `Transactions.FindEntry` | src/module/economy/transactions/service.ts:59-62 | Finds the first position holding the id, or reports that no position from `k` on does. |
| `Transactions.TransactionById` | src/module/economy/transactions/service.ts:57-75 | Fails with transaction-not-found exactly when no entry has the id. Otherwise returns an entry with that id. |
| `Transactions.EveryEntryIsFoundById` | src/module/economy/transactions/service.ts:57-66 | In a valid log every entry is found by its own id, and an id past the end finds nothing. |

## Left out

- Savings interest accrual is not modelled. It is imported by the government routes but defined nowhere, so there is no code to model.
- Recomputing the players' `bank` column from their accounts is not modelled, because no code does it. The ledger operations leave that column alone, and `Economy.MovesLeaveBankColumn` states this.
- Concurrency and isolation are not modelled. Each service call is one atomic step. Two stale reads are kept because they change a sequential result. In a transfer, both rows are read inside the transaction before either write, so a self-transfer ends at `balance + amount`. Payroll reads both accounts before its transaction starts, so payroll into the treasury's own account keeps only the tax.
- Storage-level failures are not modelled. These include 32-bit integer overflow, uuid syntax checks, driver exceptions and logging. Two exceptions are modelled: the `owner_id` foreign key on a business account in `createBankAccount`, and the unique `player_id` in the government bootstrap. The `player_id` and `account_id` foreign keys of log rows are not checked.
- Job.PaySalaryStep: the treasury's log row names the initiator "government". That is neither a uuid nor a player, so the real insert would be refused and the payroll transaction rolled back. The model appends the row as the code evidently intends.
- Fractional amounts and JavaScript floating point are not modelled. Amounts are integers, and `Math.floor` on the tax is Dafny's division by 100, which rounds down for every sign.
- The log queries' page size is a natural number, so a negative `limit` is not modelled.
- Rows with equal `createdAt` come back in an order the query leaves open. The model fixes one such order, earlier log rows first, and its lemmas only use the newest-first property.
- Any `select ... limit 1` without an ordering is modelled as one fixed choice:
  - createBankAccount's policy row is the first stored row;
  - payroll's chequing account is the one with the lowest id;
  - the government row is the only one, since the bootstrap creates one.
- Timestamps on accounts and players are not modelled. The log's `createdAt` is modelled, with every row of one call stamped with the same `now`.
- Message texts are reduced to an error tag. The salary message's numbers are kept as the payslip's `net` and `tax`.
- An explicit `id` in a policy update is not modelled. Ids always come from the serial.
- Player CRUD, routes, authentication, the database connection and the frontend are not modelled. They only forward to the services or lie outside the ledger.
