# MiniPaytm ledger core in Dafny

This project models the two parts of the MiniPaytm backend that hold real logic:

- **The account routes** (`src/routes/account.js`). `GET /balance` reads the caller's account. `POST /transfer` moves money from the authenticated user (the *actor*) to a recipient. Its checks run in a fixed order inside one MongoDB session:
  1. amount and recipient present;
  2. amount numeric and positive;
  3. not a self-transfer;
  4. sender account exists;
  5. balance sufficient;
  6. recipient account exists.

  Every early exit aborts the session. Only a request that passes every check applies the two `$inc` legs (debit, then credit) and commits them.
- **The in-memory fixed-window rate limiter** (`src/middleware/rateLimiter.js`). One table, shared by every limiter the factory builds, maps a client identifier to `{count, resetTime}`. A request is handled in one of four ways:
  - it opens a window for an unseen client;
  - it restarts an expired window;
  - it is denied in a full window, with a `Retry-After` in whole seconds;
  - otherwise it is counted.

  A periodic sweep drops expired records.

The account collection is a `map<UserId, int>` of balances in cents, keyed by the canonical (lower-case hex) form of each ObjectId. The schema declares `userId` an ObjectId (`src/database/db.js:52-53`), so every query casts its id string first. A string of 24 hex digits in either case casts to its lower-case form; any other string is a cast error, which throws. A session abort is modelled as returning the store the handler was given. The working copy built by the debit and the credit is returned only on commit. An exception raised by either account read or either `$inc` leg is modelled by a `fault: Option<Stage>` parameter, where `Stage` names the call that throws. Such an exception reaches the `catch` block, which aborts and answers 500. The rate limiter's table is a `map<Identifier, Record>`. Time (`Date.now()`) and the client identifier are parameters.

Files:
- `optional.dfy`: the optional value used for request fields and options.
- `account_store.dfy`: the store, the ObjectId cast of user ids, the `$inc` update and the ghost sum of all balances.
- `accounts.dfy`: the two handlers.
- `transfer_properties.dfy`: conservation, non-negativity, atomicity and histories of transfers.
- `rate_limiter.dfy`: limiter options, one step and the sweep.
- `rate_limiter_properties.dfy`: the count invariant, the frame property, the per-window bound and sweep transparency.

## Model

| member | source | states |
|---|---|---|
| AccountStore.CastObjectId | src/database/db.js:52-53 | a query id casts exactly when it is 24 hex digits, upper or lower case, and the cast keeps each digit and folds its letter to lower case |
| AccountStore.CastYieldsCanonical | src/database/db.js:52-53 | the result of a cast casts to itself, so it is the stored form of the id |
| AccountStore.Inc | src/routes/account.js:73-81 | `$inc` without upsert: a present account changes by exactly `delta`, a missing one stays missing, and no other account changes |
| AccountStore.IncTotal | src/routes/account.js:73-81 | one `$inc` leg on a present account changes the sum of all balances by exactly its delta; on a missing account it changes nothing |
| Accounts.NumberOf | src/routes/account.js:38-39 | `Number(amount)` yields the number itself for a number and the converted value for a numeric string or `true`. It yields NaN for a value that does not convert. A falsy amount never reaches the conversion |
| Accounts.GetBalance | src/routes/account.js:9-21 | the balance query returns the stored balance of the account the id casts to exactly when that account exists; a 500 exactly when the id does not cast; "Account not found" otherwise |
| Accounts.StatusCode | src/routes/account.js:33-92 | 200 exactly for a committed transfer; 404 exactly for a missing sender or recipient; 500 exactly for a caught exception; 400 for every other refusal |
| Accounts.HandleTransfer | src/routes/account.js:25-95 | every exit except the commit returns the original store; a commit happens only when no database call throws; a 500 happens only when a database call throws or one of the two ids fails to cast |
| Accounts.Transfer | src/routes/account.js:29-88 | each error happens exactly when its check fails and every earlier check passed: a falsy field (an amount of 0 included), then a NaN or non-positive amount, then a recipient string equal to the actor's whatever the balance, then a 500 for an actor id that does not cast, then a missing sender, then a short balance (reported with the current balance, before the recipient is cast or looked up), then a 500 for a recipient id that does not cast, then a missing recipient. Every refusal leaves the store unchanged. A commit debits the sender's account and credits the recipient's by exactly the amount and leaves every other account alone; when both ids cast to one account the store is unchanged. The reported `newBalance` is the old balance minus the amount in either case |
| Accounts.TransferCorrected | src/routes/account.js:44-48 | with the self-check comparing the accounts the ids name, a self-transfer is refused exactly when the ids are equal or cast to one account, and every commit moves the amount between two different accounts and reports the sender's real new balance |
| TransferProperties.HandleTransferConserves | src/routes/account.js:73-83 | the sum of all balances is unchanged by any request, committed or refused, wherever an exception strikes |
| TransferProperties.HandleTransferKeepsNonNegative | src/routes/account.js:57-81 | if no balance was negative before a request, none is negative after it |
| TransferProperties.FaultAbortsWholeTransfer | src/routes/account.js:50-92 | a transfer that would commit, hit by an exception in either read or either leg, including between the debit and the credit, answers 500 with neither leg applied |
| TransferProperties.ServerErrorExactlyWhenFaultStrikes | src/routes/account.js:89-92 | the handler answers 500 exactly when its answer differs from the fault-free one (an exception strikes a stage the request reaches) or the fault-free answer is itself the 500 of an id that does not cast |
| TransferProperties.PositiveAmountExactly | src/routes/account.js:38-42 | the amount passes the second check exactly when it is a number, or converts to one, that is strictly positive |
| TransferProperties.FaultIsAbortOrIrrelevant | src/routes/account.js:89-92 | an exception either aborts with the store untouched or strikes a stage the request never reached, in which case the answer is the fault-free one |
| TransferProperties.ExactBalanceTransfer | src/routes/account.js:57-88 | sending one's entire balance commits, reports a new balance of 0 and leaves the sender at 0 |
| TransferProperties.AmountBoundaries | src/routes/account.js:33-42 | a numeric 0 fails the "required" check; a string "0" and any negative amount fail as "Invalid amount" |
| TransferProperties.SelfTransferRejected | src/routes/account.js:45-48 | a transfer to oneself is refused whatever the balance, with the store unchanged |
| TransferProperties.InsufficientBeforeRecipient | src/routes/account.js:57-70 | when the balance is short, the answer is "Insufficient balance" with the current balance whatever the recipient, even one with no account or an id that does not cast |
| TransferProperties.BalanceAfterTransfer | src/routes/account.js:73-81 | after a commit between two accounts the balance query shows the sender down by the amount and the recipient up by it; after a commit whose ids cast to one account the sender reads as before; every other account reads as before |
| TransferProperties.ApplyAllConserves | src/routes/account.js:73-83 | over any serial history of transfer requests, the sum of all balances is unchanged |
| TransferProperties.ApplyAllKeepsNonNegative | src/routes/account.js:57-81 | over any serial history of transfer requests, balances stay non-negative if they started so |
| TransferProperties.NoDoubleSpend | src/routes/account.js:50-81 | two transfers out of one account, each affordable alone but not together, handled in turn: the first commits, the second is refused as insufficient and reports what the first left |
| TransferProperties.CaseVariantSelfTransferCommits | src/routes/account.js:44-88 | a recipient spelling of the sender's own id that differs from it as a string passes the self-check, and the transfer commits with the store unchanged and a `newBalance` the account does not have |
| TransferProperties.UpperCaseSpellingNamesSameAccount | src/database/db.js:52-53 | the upper-case spelling of an ObjectId casts to the lower-case id the server issues |
| TransferProperties.CorrectedSelfTransferRejected | src/routes/account.js:44-48 | with the corrected self-check, every spelling of the sender's own id is refused as a self-transfer with the store unchanged |
| TransferProperties.CorrectionOnlyAffectsCaseVariants | src/routes/account.js:44-48 | the corrected handler answers like the original on every request except one whose two ids are different strings for one account |
| RateLimiter.Configure | src/middleware/rateLimiter.js:6-11 | each missing option takes its default: window 900000 ms, limit 100, the standard message; supplied options are kept |
| RateLimiterProperties.ConfigureRoundTrip | src/middleware/rateLimiter.js:6-11 | supplying every option gives back exactly those settings |
| RateLimiterProperties.ConfigureDefaults | src/middleware/rateLimiter.js:6-11 | a limiter built with no options allows 100 requests per 900000 ms and denies with the standard message |
| RateLimiter.CeilSeconds | src/middleware/rateLimiter.js:32 | `Math.ceil(ms / 1000)`: the least whole number of seconds covering `ms` |
| RateLimiter.Step | src/middleware/rateLimiter.js:14-41 | an unseen client is allowed and gets `{1, now + windowMs}`. An expired window is allowed and restarted the same way. A full window denies with the table unchanged and a retry-after of the remaining time rounded up to seconds. Otherwise the request is allowed with the count up by 1 and the end time kept |
| RateLimiter.Cleanup | src/middleware/rateLimiter.js:46-53 | the sweep removes exactly the records whose window has ended before `now` and keeps the others unchanged |
| RateLimiterProperties.StepKeepsCountsBounded | src/middleware/rateLimiter.js:17-41 | with a limit of at least 1, every stored count stays between 1 and the limit |
| RateLimiterProperties.StepFrame | src/middleware/rateLimiter.js:17-41 | a step stores a record for its own client and leaves every other client's record, or its absence, as it was |
| RateLimiterProperties.WithinWindow | src/middleware/rateLimiter.js:31-41 | inside a window that has not ended, with every request of the client going through one limiter, the record keeps its end time, counts exactly the requests let through, and never lets the count pass that limiter's limit |
| RateLimiterProperties.AtMostMaxPerWindow | src/middleware/rateLimiter.js:17-41 | for a client served by one limiter: once a request opens a window, at most `maxRequests` requests of that client up to the window's end are allowed, whatever other clients do meanwhile under any limiter |
| RateLimiterProperties.SharedTableReopensQuota | src/middleware/rateLimiter.js:4-41 | on the shared table, a lenient limiter's short window lets a strict limiter (2 per 1000 ms) pass three requests that fall in one of its windows; on a table of its own it passes two |
| RateLimiterProperties.IsolatedAtMostMaxPerWindow | src/middleware/rateLimiter.js:17-41 | with one table per limiter, each limiter keeps its bound of `maxRequests` per window for each client, whatever the other limiters do |
| RateLimiterProperties.CleanupKeepsCountsBounded | src/middleware/rateLimiter.js:46-53 | the sweep keeps every stored count within the limit |
| RateLimiterProperties.CleanupAbsorbs | src/middleware/rateLimiter.js:46-53 | a sweep followed by a later sweep leaves what the later sweep alone leaves |
| RateLimiterProperties.CleanupUnobservable | src/middleware/rateLimiter.js:46-53 | a request after a sweep gets the same decision and leaves the same record for its client as without the sweep |

## Left out

- The MongoDB session calls (`startSession`, `abortTransaction`, `commitTransaction`, `endSession`) and isolation between concurrent transfers. Each request is one atomic step on the store, and an abort returns the original store. Concurrent overdraft is stated over transfers handled one after the other (`NoDoubleSpend`). Overlapping transfers are not modelled. In the source, the later debit of two overlapping transfers from one account fails with a write conflict and is answered 500, which the model covers as the `Debit` fault (`FaultAbortsWholeTransfer`).
- Floating point. Balances and amounts are whole cents. JavaScript's `Number` also accepts fractional amounts, and those are not modelled. The random starting balance of new accounts belongs to signup and is not modelled either.
- The `/ 100` display conversions of `currentBalance`, `amount` and `newBalance`. The model reports these values in cents.
- Response texts other than the error kind, and the JSON body layout.
- Accounts.HandleTransfer: a `commitTransaction` that throws (`src/routes/account.js:83`) is not modelled. The `catch` then calls `abortTransaction` on a session whose commit was already attempted. The driver refuses that call, so no 500 is sent, and whether the commit became durable is unknown.
- AccountStore.CastObjectId: only strings are modelled, and only a string of 24 hex digits casts. Some versions of the BSON library also accept a 12-character string as raw bytes; the model treats such a string as a cast error.
- A recipient field that is not a string. `to` is modelled as an optional string, where absent or `""` is falsy. How mongoose casts a number or an array is not part of this model. A query-operator object such as `{"$ne": null}` is run as a filter by the lookup at line 65 and by the credit at line 79, so the credit goes to whichever account matches first; that is not modelled either.
- Accounts.GetBalance: the 500 answer is modelled for a cast error only. A read that throws for another reason (`src/routes/account.js:18-21`) is not modelled, because the read has no effect to undo.
- The authentication middleware that supplies the actor id. The actor is a parameter.
- Limiter plumbing: `Date.now()` and the `req.ip || req.connection.remoteAddress` choice are parameters, and the `setInterval` schedule is left out. The sweep is a function applied whenever the caller chooses. The `Retry-After` header, the 429 status and the `"N seconds"` string formatting are also left out. `Step` returns the number of seconds and the message.
- Signup, signin, profile updates and the user search in `src/routes/user.js`, the schema declarations in `src/database/db.js`, and the server wiring in `src/index.js`. They are I/O and library calls around the core. The only thing used from the schema is its shape: one account per user id with a numeric balance.

The code has one "Amount and recipient are required" check before the amount check, and no separate invalid-recipient error. A falsy recipient and a numeric 0 amount are therefore both reported by that check.

## Findings

| source | as written | input that shows it | evidently intended | confidence | as-written member | corrected member |
|---|---|---|---|---|---|---|
| src/routes/account.js:45 | the self-check compares the two id strings, while the lookups at lines 50 and 65 and the updates at lines 73-81 cast both ids to ObjectIds, which fold hex letters to lower case | the account with id "507f1f77bcf86cd799439011" and balance 100 sends 5 to "507F1F77BCF86CD799439011": 200 with `newBalance` 95, and the balance stays 100 | the self-check refuses any recipient that names the sender's own account | medium, not executed | TransferProperties.CaseVariantSelfTransferCommits | TransferProperties.CorrectedSelfTransferRejected |
| src/middleware/rateLimiter.js:4 | one record table at module level, shared by every limiter the factory builds | a lenient limiter (100 per 10 ms) sees "ip" at 0 ms; a strict limiter (2 per 1000 ms) then sees "ip" at 1, 11 and 12 ms and lets all three through | each limiter counts its own clients, so the strict one lets two through | medium, not executed; the repository builds only one limiter (src/routes/user.js:12), so today the effect is latent | RateLimiterProperties.SharedTableReopensQuota | RateLimiterProperties.IsolatedAtMostMaxPerWindow |
