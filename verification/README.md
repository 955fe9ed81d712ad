# A verified model of the myFiPay back end

myFiPay sells WiFi hotspot time for mobile money. Its Go API keeps its state in PostgreSQL
tables and Redis keys that many handlers change at the same time, drives FreeRADIUS through the
tables `radcheck`, `radreply` and `nas`, and leaves two host scripts to reconcile the firewall and
the WireGuard interface with those tables. This project models that logic in Dafny and proves what
the code is relied on for.

| Modules | What they model |
|---|---|
| `Money`, `Tally` | fee and balance arithmetic with its truncation, event classification, SQL sums by group |
| `Withdrawals`, `Ledger`, `LedgerTables`, `OverlappingRequests` | both payout state machines over the balances they draw on, every SQL statement one step; the handlers as methods of a class |
| `Solvency` | the webhook protocol and the ledger as one machine |
| `Statement` | the monthly statement loop |
| `Webhook`, `ExactlyOnce`, `Backend` | the webhook crediting protocol: every Redis call and SQL statement of any number of deliveries and goroutines one step; the handler as straight-line code |
| `Attributes`, `Disconnect`, `Kick` | the RADIUS attribute codec, the Disconnect-Request client of RFC 5176 and its fan-out |
| `RadiusRows`, `Sessions`, `Extensions`, `SessionHandlers` | sessions and RADIUS authorization: grant, extend, terminate, reap |
| `Interleaving`, `Overlaps`, `Reaper`, `VoucherRaces` | the same statement by statement: across users, within one user, an interrupted reaper pass, one voucher redeemed twice at once |
| `Tunnel`, `Uuids`, `Registry`, `RegistryHandlers`, `RegistryRaces` | racing callers of ensureWG; the `nas` table as an index of `devices`, also with the handlers interleaved |
| `Firewall`, `Peers` | deletion of firewall rules by shifting number; reconciliation of tunnel peers |
| `Windows`, `RateLimit`, `LoginRaces` | fixed-window counters, the payment limiter and the login lockout |
| `Wrappers`, `Sequences` | `Option` and `Result`; sequences of one element |

State-changing code is a class whose methods are proved against a specification function and
state the rows they leave outright; the theorems are lemmas about those functions. Concurrent code is a step machine over arbitrary
schedules. `dafny verify dfyconfig.toml` checks everything.

## What the proofs show about the code

- The platform's books balance only while every tenant's commission rate is at least 3%, the
  agents' rate. `parseCommissionRate` accepts smaller rates, zero included, so the statement that
  agents are paid from the platform's own cut fails for such tenants (`Ledger.PlatformSolvencyIff`).
- The balance check and the insert of a payout request are separate statements. Solvency holds
  under any interference if an account has one request at a time; two overlapping requests can
  both pass (`Withdrawals.OverlapOverdraws`); `OverlappingRequests.SolventThroughoutIff` says when
  overlapping ones do no harm.
- `expireSession` deletes RADIUS rows by username, so ending one of two active sessions of a phone
  cuts off the other (`Sessions.EndKeepsServedIff`).
- Two grants of one phone that overlap can leave its rows twice; `Overlaps.OverlappingGrantsSafeIff`
  says for which schedules, `Overlaps.OverlappingGrantsDuplicate` shows one.
- Every grant ignores the error of its session insert and writes the RADIUS rows all the same. The
  insert fails for an unknown location, and for a phone of more than 20 characters
  (`customer_phone` is VARCHAR(20), the RADIUS username is longer), so a cash or voucher grant can
  authorize a phone without a session (`Sessions.StepSafeIff`, `Sessions.GrantNowhereSafeIff`). Marking
  the voucher fails for such a phone too, so the voucher can be redeemed again
  (`Sessions.UnmarkedRedemption`).
- A session that is extended between the reaper's query and its expiry is expired all the same
  (`Reaper.SurvivesIff`, `Reaper.ExtensionUndone`).
- A redeemed voucher is refused from then on (`Sessions.RedeemedOnce`), but it grants as many sessions as redemptions check it before the first writes
  (`VoucherRaces.VoucherGrants`).
- `UpdatePlan` accepts a negative duration, with which an extension shortens a session
  (`Extensions.NeverShortensIff`).
- The address check compares public addresses only and does not exclude 10.77.0.0/16, so `nas` can
  hold two clients for one source address (`Registry.OneClientPerAddressIff`). The kick's left join
  then yields two rows for one session (`Kick.OneRowPerOpenSession`, `Kick.DuplicateAddressTwoRows`).
- Updates and deletions of a router address `devices` by the id that the text in the URL denotes, but
  `nas` by the first eight characters of that text. The database also reads upper-case, braced and
  differently hyphenated spellings, so an id sent in upper case deletes the device and leaves its
  `nas` row with a live secret (`Registry.UpperCaseDeletion`, `Registry.RequestFaithfulIff`).
- Router handlers check in one statement and write in a later one: two creations can register one
  address, and a script can leave a tunnel row of a deleted device
  (`RegistryRaces.CommitFaithfulIff`, `RegistryRaces.RacingCreations`,
  `RegistryRaces.ScriptRacesDeletion`).
- Between the statements of an expiry a user keeps RADIUS rows without the session
  (`Interleaving.ExpiryWindow`); during a grant there is no such moment (`Interleaving.GrantNeverEarly`).
- Nothing stops the tunnel sequence at the end of the /16 (`Tunnel.BeyondBlockReachable`).
- Ten attempts per five minutes is the bound per window (`RateLimit.PaymentsPerWindow`). From an
  arbitrary moment on it holds exactly when no window is running or the running one is used up
  (`RateLimit.TenPerFiveMinutesIff`); otherwise up to 19 are possible (`Windows.IntervalBoundTight`).
- Logins in flight together can each add a failure past the limit (`LoginRaces.FailuresInWindow`).
- A failed event stores its own reference, so a later success under the same reference is dropped;
  under any other reference it goes through (`ExactlyOnce.UnseenSuccessIsHonoured`).
- An accounting row without a calling-station id cannot be scanned, and the database driver (pgx v5)
  closes the result set on a failed scan, so the sessions after it are not kicked
  (`Kick.EverySessionReportedIff`).
- The comment above `disconnectLiveSessions` says rows of unregistered routers are skipped; the code
  reports them with an error, and the model follows the code (`Kick.KickOne`).
- A failing query in `wg-sync.sh` reads as an empty table, and the pass removes every peer
  (`Peers.Interface.SyncAfterFailedQuery`).

## Model

| member | source | states |
|---|---|---|
| `Money.RateInForce` | api/internal/handlers/money.go:54-63 | The rate in force always lies in [0, 1); an override is honoured exactly when it parses and lies there, otherwise 8% applies. |
| `Money.CommissionIsFloor` | api/internal/handlers/money.go:15-17 | The fee is the largest whole UGX not above the share: never rounded up, never all of a positive gross, and the operator never owes. |
| `Money.CommissionSplit` | api/internal/handlers/payout.go:348-357 | Charging two amounts apart costs at most 1 UGX less, and never more, than charging their sum. |
| `Money.MoreRevenueHelps` | api/internal/handlers/payout.go:48-50 | More gross lowers neither the fee nor what the operator may keep. |
| `Money.AgentCutIsFloor` | api/internal/handlers/money.go:42-48 | The agent's cut of any payment is the largest whole UGX not above 3% of it. |
| `Money.CutFrom34` | api/internal/handlers/money.go:42-48 | A payment earns a cut if and only if it is at least 34 UGX. |
| `Money.AgentCutFunded` | api/internal/handlers/agent.go:17-20 | At a rate of at least 3% the agent's cut of a payment fits inside the platform's cut of it, both truncated. |
| `Money.AgentCutFundedIff` | api/internal/handlers/agent.go:17-20 | "Paid out of the platform's own commission" holds for every amount if and only if the tenant's rate is at least 3%. |
| `Money.ClassificationLaws` | api/internal/handlers/money.go:65-80 | Letter case never matters; success is exactly the four success signals; failure is exactly the three failure signals when no success signal is present; the rest is ignored. |
| `Money.SameLetter` | api/internal/handlers/money.go:70-71 | Among ASCII characters the comparison ignores the case of letters and nothing else. |
| `Withdrawals.ReservedMoves` | api/internal/handlers/payout.go:221-292 | Approving and paying move no account's pending, approved and paid total; an insert raises its own account's by its amount; a rejection gives exactly its own row's amount back; nothing else moves any. |
| `Withdrawals.ReservedIsTiedUp` | api/internal/handlers/payout.go:41-46 | A row is held against the balance exactly while it is pending, approved or paid, for each account and in total. |
| `Withdrawals.StepKeepsInv` | api/internal/handlers/payout.go:140-152 | Every statement of every handler keeps the desk solvent together with what a request between its statements relies on. |
| `Withdrawals.MoreCreditKeepsInv` | api/internal/handlers/payout.go:35-41 | New revenue between the statements of a request never invalidates what it has read. |
| `Withdrawals.InsertSolventIff` | api/internal/handlers/payout.go:140-152 | Without the one-at-a-time assumption an insert keeps the desk solvent if and only if the amount fits the balance at the moment of the insert. |
| `Withdrawals.OverlapOverdraws` | api/internal/handlers/payout.go:140-152 | Two overlapping requests of 6,000 on a credit of 6,000 both go through and leave 12,000 reserved: the check and the insert are not atomic. |
| `OverlappingRequests.SolventThroughoutIff` | api/internal/handlers/payout.go:140-152 | Over whole runs with any number of overlapping requests, every operator and agent stays solvent throughout if and only if every insert fits the balance at the moment it runs. |
| `Withdrawals.RequestAlone` | api/internal/handlers/payout.go:140-152 | Alone, a request adds its pending row if and only if the amount is at least 5,000 and fits the credit less what is pending, approved or paid, and changes no other row. |
| `Withdrawals.StepProgresses` | api/internal/handlers/payout.go:221-292 | A row becomes approved exactly by approval while pending, paid exactly by marking while approved, rejected exactly by rejection while pending (an operator's also while approved); it is never dropped, re-owned or re-priced, and new rows are pending. |
| `Withdrawals.PaidInARow` | api/internal/handlers/payout.go:140-292 | Requested, approved and marked in a row, a payout that fits passes through pending and approved to paid, and no later review changes it. |
| `Ledger.StepKeepsInv` | api/internal/handlers/payout.go:140-152 | Payments, referrals, commissions, settlements and both payout desks, one statement at a time, keep the joint ledger invariant. |
| `Ledger.EarnedAfterCredit` | api/internal/handlers/agent.go:287-291 | A commission row raises the earnings of its own agent by exactly its amount and nobody else's. |
| `Ledger.GrossAfterPay` | api/internal/handlers/payout.go:33-39 | A confirmed payment raises its own tenant's gross by its amount if it is mobile money, and nobody else's. |
| `Ledger.EarnedAfterSettle` | api/internal/handlers/admin.go:333-338 | Settling marks exactly this agent's commissions and takes nothing from anybody's earnings. |
| `Ledger.OperatorSolvency` | api/internal/handlers/payout.go:25-51 | In every reachable state of every interleaving (one open request per tenant) pending, approved and paid payouts together never exceed gross less commission, so gross = commission + available + withdrawn and the clamp at zero never acts. |
| `Ledger.AgentSolvency` | api/internal/handlers/agent.go:287-311 | In every reachable state an agent's pending, approved and paid requests together never exceed the commissions earned, and earned = available + reserved. |
| `Ledger.ClaimsProgress` | api/internal/handlers/admin.go:314-386 | Over whole runs rows of both payout tables are never lost or rewritten; paid and rejected are final; an approved agent request can only be paid. |
| `Ledger.PaidIff` | api/internal/handlers/payout.go:221-292 | Over every run of either table a row is paid if and only if it was approved while pending and, later, marked paid while approved. |
| `Ledger.TenantFundsItsAgent` | api/internal/handlers/agent.go:17-20 | At 3% or more the agent cuts of all a tenant's payments, each truncated by itself, fit in the fee truncated once on their sum. |
| `Ledger.SolventState` | api/internal/handlers/payout.go:25-51 | When all rates are at least 3%, pending, approved and paid operator payouts plus agent requests never exceed the confirmed mobile-money gross. |
| `Ledger.LowRateRun` | api/internal/handlers/money.go:50-53 | For any tenant below 3% (zero-fee tenants are legal) there is a run after which more is promised than came in. |
| `Ledger.PlatformSolvencyIff` | api/internal/handlers/payout.go:25-51 | The platform is solvent over every run if and only if no tenant's rate is below 3%. |
| `Solvency.StepKeepsInv` | api/internal/handlers/payment.go:373-430 | The payment and commission rows that webhooks write are, step by step, the ones the balances are computed from. |
| `Solvency.PayoutsWithinReceipts` | api/internal/handlers/payout.go:25-51 | Over every interleaving of webhook deliveries, goroutines, lost Redis keys, cash grants, payout requests and reviews, with all rates at 3% or more, everything promised or paid out stays within what the gateway paid in. |
| `LedgerTables.Tables.TenantBalance` | api/internal/handlers/payout.go:25-51 | The rate is the legal override or 8%, the fee the floor of the share, withdrawn the pending, approved and paid payouts; gross = commission + available + withdrawn with nothing negative. |
| `LedgerTables.Tables.RequestOperatorPayout` | api/internal/handlers/payout.go:115-163 | Refuses a missing phone, an amount below 5,000, or above net less what is pending, approved or paid, in that order; otherwise appends one pending row; keeps solvency. |
| `LedgerTables.Tables.ApprovePayout` | api/internal/handlers/payout.go:221-239 | Exactly a pending payout becomes approved, and no other row changes; keeps solvency. |
| `LedgerTables.Tables.RejectPayout` | api/internal/handlers/payout.go:242-266 | Exactly a pending or approved payout becomes rejected, and no other row changes. |
| `LedgerTables.Tables.MarkOperatorPayoutPaid` | api/internal/handlers/payout.go:270-292 | Exactly an approved payout becomes paid, and no other row changes. |
| `LedgerTables.Tables.RequestPayout` | api/internal/handlers/agent.go:259-318 | Agent side: amount first, then phone, then balance; otherwise appends one pending request; keeps solvency. |
| `LedgerTables.Tables.ApprovePayoutRequest` | api/internal/handlers/admin.go:314-341 | Exactly a pending request becomes approved; then exactly its own agent's commissions are marked settled; amounts, agents and all other rows stay. |
| `LedgerTables.Tables.MarkPayoutPaid` | api/internal/handlers/admin.go:343-362 | Exactly an approved request becomes paid, and no other row changes. |
| `LedgerTables.Tables.RejectPayoutRequest` | api/internal/handlers/admin.go:364-386 | Exactly a pending request becomes rejected, and only with a reason; an approved one cannot be. |
| `Statement.FairRowKeepsBounds` | api/internal/handlers/payout.go:354-356 | One more month keeps net + fee = takings and the truncation bounds. |
| `Statement.MonthlyRows` | api/internal/handlers/payout.go:349-357 | The loop: each row charges the floor of its month's share; the monthly fees sum to at most the fee on the total and fall short by at most n - 1 UGX; net + fee = takings. |
| `Statement.OperatorStatement` | api/internal/handlers/payout.go:322-357 | Every listed month carries the sums of its own payments and payouts and the fee on them; with months latest first, what LIMIT 12 cuts off is older than all that is shown; shown and cut off together are every confirmed shilling. |
| `Statement.GroupAfterSale` | api/internal/handlers/payout.go:322-346 | One more confirmed payment counts in its own month only, as one payment and as mobile money or cash. |
| `Webhook.StepKeepsTables` | api/internal/handlers/payment.go:373-430 | Every Redis call and SQL statement of every delivery and goroutine, and every loss of a Redis key, keeps the uniqueness and exactness of payments and commissions. |
| `Webhook.DatabaseDefence` | api/internal/handlers/payment.go:378-429 | Whatever Redis loses and however handlers interleave: no two confirmed payments share a payment id or a gateway reference, no payment has two commissions, and every commission goes to the agent who referred its location's tenant and is the floor of 3% of its own gateway payment. |
| `Webhook.CommissionsComplete` | api/internal/handlers/payment.go:404-430 | When all handlers have finished, a payment has a commission if and only if it came through the gateway, is at least 34 UGX, and its location's tenant was referred. |
| `Webhook.DueIffOwed` | api/internal/handlers/payment.go:407-430 | A commission is due exactly on at least 34 UGX at a location whose tenant was referred, to that agent, of the floor of 3%. |
| `Webhook.PlanMatches` | api/internal/handlers/payment.go:488-513 | A plan id stands for its row in the plans table; else for 10,080 minutes at 8,000, 1,440 at 2,000 or 60 at 500 by its old id; else for 60 at 500. |
| `Webhook.HashMoves` | api/internal/handlers/payment.go:289-292 | A success makes its hash "successful" under its own reference, a failure makes it "failed" and keeps the reference, and no other step of any handler changes it. |
| `Webhook.OrderStays` | api/internal/handlers/payment.go:297-308 | Until it is lost, a hash keeps the plan, location and device it was created with, through every interleaving. |
| `ExactlyOnce.StepKeepsKeys` | api/internal/handlers/payment.go:262-289 | Both SetNX families stay in step with who holds them, for every step that does not lose a claim. |
| `ExactlyOnce.AtMostOneGrant` | api/internal/handlers/payment.go:261-289 | At every moment of every interleaving a gateway reference is acted on at most once and at most one grant run is started per payment id (the pending hash may be lost). |
| `ExactlyOnce.GrantIffSuccess` | api/internal/handlers/payment.go:277-292 | When all handlers have finished, a grant was started for a payment id if and only if some success for it was accepted: failed and ignored events neither start nor block one. |
| `ExactlyOnce.UnseenSuccessIsHonoured` | api/internal/handlers/payment.go:261-266 | A success whose reference no other delivery shares always leads to a grant; a failed event can only block a success by carrying the same reference. |
| `ExactlyOnce.NoConflict` | api/internal/handlers/payment.go:389-394 | While the claims hold, the guarded payment insert of a grant meets no duplicate. |
| `ExactlyOnce.CreditedExactlyOnce` | api/internal/handlers/payment.go:297-402 | With no key lost and all handlers finished, a payment id with an accepted success, a known location and fitting values has exactly one session and one payment: for that success's payer, at the location and device of the order, for the time and price of its plan (the plans table, else 500/60, 2,000/1,440 or 8,000/10,080 for the old ids), under its own reference. |
| `ExactlyOnce.NoCreditWithoutSuccess` | api/internal/handlers/payment.go:277-292 | A recorded gateway payment implies an accepted success for its payment id. |
| `Backend.Store.ZengapayWebhook` | api/internal/handlers/payment.go:259-295 | Which of the outcomes occurs and every table after it: references and claims, the hash made "successful" under its reference or "failed", and for a first success the session, payment and commission it is owed; the same state as the protocol's steps taken in a row. |
| `Backend.Store.CreateSessionAfterPayment` | api/internal/handlers/payment.go:297-402 | One session if it fits its columns and, independently, one payment if it fits and is not recorded yet, with the order's location and device and the plan's time and price, and its commission; no hash means nothing is written. |
| `Backend.Store.InsertSession` | api/internal/handlers/payment.go:334-350 | Adds the order's session, with the plan's minutes, exactly if it fits its columns. |
| `Backend.Store.InsertPayment` | api/internal/handlers/payment.go:373-402 | Adds the order's payment, at the plan's price, exactly if it fits and neither its payment id nor its reference is recorded; with its commission. |
| `Backend.Store.CreateAgentCommission` | api/internal/handlers/payment.go:407-430 | One commission of the floor of 3% for the agent who referred the location's tenant, exactly if there is one, the amount is at least 34 UGX and the payment has none yet. |
| `Backend.RetryIsIdempotent` | api/internal/handlers/payment.go:261-266 | A second delivery under a reference already handled changes nothing at all. |
| `Backend.SecondSuccessChangesNothing` | api/internal/handlers/payment.go:279-288 | After a success for a payment id, a success for it under another reference adds only its own dedup key. |
| `Attributes.EncodeFailsIff` | api/internal/radius/disconnect.go:53-66 | Encoding fails if and only if some value exceeds 253 bytes, and names the first such attribute. |
| `Attributes.WalkUndoesEncode` | api/internal/radius/disconnect.go:53-66 | Walking what was encoded yields exactly the non-empty attributes in order, with nothing left over. |
| `Attributes.EncodeUndoesWalk` | api/internal/radius/disconnect.go:131-149 | Encoding what a complete walk found gives back the very bytes. |
| `Attributes.OneAttribute` | api/internal/radius/disconnect.go:62-63 | On the wire an attribute is its type octet, the length of the whole, then its value. |
| `Attributes.WalkStaysInBounds` | api/internal/radius/disconnect.go:131-149 | On arbitrary bytes the walk ends, accounts for every byte before the point where it stops and never yields a value over 253 bytes. |
| `Attributes.EncodeAttrs` | api/internal/radius/disconnect.go:53-66 | The encoder's loop computes the encoding; it succeeds if and only if all values fit, and then the walk undoes it. |
| `Disconnect.FillDigests` | api/internal/radius/disconnect.go:94-101 | In the buffer the HMAC is taken with both digests zero and the MD5 after it, with the HMAC in place. |
| `Disconnect.BuildDisconnect` | api/internal/radius/disconnect.go:74-103 | Fails exactly on a text over 253 bytes, naming the first; otherwise the buffer filled in place is accepted by the receiver, is at most 809 bytes, and by attribute number carries this user, address, accounting session and station, each only if given, and one Message-Authenticator, last. |
| `Disconnect.AttributesOfRequest` | api/internal/radius/disconnect.go:75-81 | Walking a built packet, the receiver reads by attribute number exactly this session's fields, once each, absent if and only if empty, then the one Message-Authenticator, and nothing else. |
| `Disconnect.BuiltRequestVerifies` | api/internal/radius/disconnect.go:68-103 | Every request that can be built is accepted by a receiver that checks the Length, the attributes, the Request Authenticator and the Message-Authenticator (sections 2.3 and 3.4 of RFC 5176, section 3.2 of RFC 3579); it is at most 809 bytes. |
| `Disconnect.ParseNAKDetail` | api/internal/radius/disconnect.go:131-149 | The loop returns the last four-byte Error-Cause, with its name, and the last Reply-Message of the well-formed attribute prefix, on any bytes. |
| `Disconnect.DetailSays` | api/internal/radius/disconnect.go:131-149 | The detail is the number in the last four-byte attribute 101, most significant byte first, with its name, and the last attribute 18; zero and empty without one. |
| `Disconnect.Uint32RoundTrip` | api/internal/radius/disconnect.go:141 | Reading four bytes undoes writing them, upper half first. |
| `Disconnect.CauseNames` | api/internal/radius/disconnect.go:106-117 | Each of the ten causes has its name and every other has none. |
| `Disconnect.ValidResponse` | api/internal/radius/disconnect.go:153-182 | Says for every verdict when it is given: short, bad length, identifier, code, authenticator, in that order; an accepted ACK has no detail, an accepted NAK the last four-byte Error-Cause and last Reply-Message. |
| `Disconnect.HonestReplyAccepted` | api/internal/radius/disconnect.go:153-182 | Complete: an ACK or NAK with the right Response Authenticator (section 3 of RFC 2865) is accepted whatever padding follows, a NAK with the reason its attributes state. |
| `Disconnect.AcceptedIsHonest` | api/internal/radius/disconnect.go:153-182 | Sound: whatever is accepted is such a reply, followed at most by padding. |
| `Disconnect.AcceptedIff` | api/internal/radius/disconnect.go:153-182 | Acceptance holds if and only if the datagram is an honest ACK or NAK to this request with optional padding. |
| `Disconnect.DisconnectDetail` | api/internal/radius/disconnect.go:194-246 | The first valid answer of at most two attempts; else the error of the second: not written, not read, or invalid; a text too long or a failed dial come first. |
| `Disconnect.OutcomeIsHonest` | api/internal/radius/disconnect.go:226-240 | One attempt yields an ACK (a NAK) if and only if the datagram it received starts with an honest ACK (NAK) of at most 4,096 bytes. |
| `Disconnect.AnswerIsHonest` | api/internal/radius/disconnect.go:217-245 | The session counts as dropped if and only if the first honest reply within two attempts is an ACK, and as refused if and only if it is a NAK. |
| `Kick.KickOne` | api/internal/handlers/disconnect.go:58-72 | One result for the row's router: without a secret no request and an error; otherwise what the exchange about this user and this row's session, station and address gives. |
| `Kick.DisconnectLiveSessions` | api/internal/handlers/disconnect.go:25-75 | One result per row read, in row order, each from its own row, router secret and exchange; reading stops at the first row that cannot be scanned. |
| `Kick.ReadTargets` | api/internal/handlers/disconnect.go:45-54 | The loop collects the longest prefix of rows with a calling-station id: the driver closes the result set on a failed scan. |
| `Kick.OneRowPerOpenSession` | api/internal/handlers/disconnect.go:26-33 | The left join yields at least one row per open session, and exactly one per open session, in order, if and only if no such session's router address has two rows in nas. |
| `Kick.DuplicateAddressTwoRows` | api/internal/handlers/disconnect.go:26-33 | With two nas rows for its address, one open session is queried, and so kicked, twice. |
| `Kick.RowsCarryRightSecrets` | api/internal/handlers/disconnect.go:26-33 | Every row of the query is an open session of the user with a secret nas holds for its router address, or none when nas has no such address. |
| `Kick.RowsCoverOpenSessions` | api/internal/handlers/disconnect.go:26-33 | The sessions queried are exactly the user's accounting rows without a stop time. |
| `Kick.EverySessionReportedIff` | api/internal/handlers/disconnect.go:45-54 | Every open session gets a result if and only if every open row carries a calling-station id. |
| `Kick.OneResultEachIff` | api/internal/handlers/disconnect.go:25-75 | Every open session gets exactly one result, in order, if and only if all carry a calling-station id and no router address of theirs has two rows in nas. |
| `Kick.AckedIsHonest` | api/internal/handlers/disconnect.go:67-72 | A session is reported dropped only if its router is registered and one of at most two datagrams was an honest ACK to a request that carries this user and this row's session, station and address. |
| `Sessions.GrantMatchesPlan` | api/internal/handlers/payment.go:345-371 | A grant adds one active session of the plan's minutes and gives the user one radcheck row and five reply rows, with the session's seconds, an idle timeout of 300 and the plan's speeds; all other sessions, rows and vouchers stay. |
| `Sessions.ExtensionTold` | api/internal/handlers/operator.go:371-394 | After an extension the user's one Session-Timeout is the whole seconds left, at least 60, and no other row has changed. |
| `Sessions.GrantNowhereSafeIff` | api/internal/handlers/payment.go:336-371 | A grant whose session insert fails, for whatever reason, writes the RADIUS rows all the same; it leaves the phone safe if and only if it has an active session anyway. |
| `Sessions.StepSafeIff` | api/internal/handlers/payment.go:336-371 | Pay, cash grant, voucher, extend, terminate and reap each keep every user either without RADIUS rows or with the full set and an active session; a grant whose session insert fails keeps its user so if and only if the user has an active session already. |
| `Sessions.AuthorizationSafety` | api/internal/handlers/payment.go:336-371 | Over every run, failed session inserts included as long as they meet an active session, every user has no RADIUS rows at all, or exactly one radcheck row and one each of the five radreply attributes and then an active session. |
| `Sessions.EndKeepsServedIff` | api/internal/handlers/payment.go:432-445 | Ending a session leaves no active session without authorization if and only if it was the user's only active one: rows are deleted by username. |
| `Sessions.AuthorizedIffActive` | api/internal/handlers/payment.go:432-445 | In runs where nobody is granted a session while one is active, authorized and having an active session are the same. |
| `Sessions.OverlapCutsOff` | api/internal/handlers/operator.go:412-431 | With two active sessions of one phone, terminating the first cuts the second off. |
| `Sessions.ReapedState` | api/internal/handlers/handlers.go:48-66 | After a pass whoever is still authorized has an active session that has not run out. |
| `Sessions.ReapedRows` | api/internal/handlers/handlers.go:48-66 | A pass expires exactly the active sessions past their expiry, deletes exactly their users' rows, and leaves everything else as it was. |
| `Sessions.VoucherGrantsOnce` | api/internal/handlers/payment.go:166-169 | Over every run at most one redemption of a voucher grants and is marked, none once it is used, and it ends up used exactly if it was or there was one. |
| `Sessions.SpendingMarks` | api/internal/handlers/payment.go:180-184 | A redemption marks its own voucher used; no other operation and no other voucher changes. |
| `Sessions.RedeemedOnce` | api/internal/handlers/payment.go:166-184 | After a redemption that is marked, redeeming the code again changes nothing at all. |
| `Sessions.UnmarkedRedemption` | api/internal/handlers/payment.go:180-213 | A redemption whose voucher update fails, as for a phone of more than 20 characters, authorizes the phone and leaves the voucher to be redeemed again. |
| `VoucherRaces.VoucherGrants` | api/internal/handlers/payment.go:153-213 | With check and writes apart and fresh session ids, an unused voucher adds as many active session rows as redemptions checked it before the first of them wrote. |
| `VoucherRaces.OneVoucherTwoSessions` | api/internal/handlers/payment.go:153-213 | Two phones that check one voucher side by side both get a session of the voucher's plan, and the voucher is used. |
| `Reaper.SurvivesIff` | api/internal/handlers/handlers.go:48-66 | With the query and the expiries as separate steps and other handlers in between, however often a session is extended, it survives the pass if and only if it was not overdue when the pass collected. |
| `Reaper.ExtensionUndone` | api/internal/handlers/handlers.go:57-65 | A session extended between the two is expired with time left, and its phone loses its rows. |
| `Reaper.InterruptedPassSafe` | api/internal/handlers/handlers.go:48-66 | An interrupted pass keeps every user without rows, or with the full set and an active session. |
| `Extensions.NeverShortensIff` | api/internal/handlers/operator.go:371-378 | No extension can shorten a session if and only if the plan's duration is not negative; UpdatePlan (operator.go:680-688) accepts negative durations. |
| `Extensions.ExpiryNeverDecreases` | api/internal/handlers/operator.go:371-378 | Over any sequence of extensions the expiry gains at least the sum of the durations. |
| `Extensions.ExtensionsAddUp` | api/internal/handlers/operator.go:371-378 | If the session never lapses the final expiry is the first plus the sum of the durations. |
| `Extensions.OrderDoesNotMatter` | api/internal/handlers/operator.go:371-378 | Any reordering of extensions under which the session never lapses gives the same expiry. |
| `Extensions.TimeoutIsWholeSecondsLeft` | api/internal/handlers/operator.go:379-394 | The Session-Timeout is the whole seconds left, with a floor of 60. |
| `Extensions.TableExpiry` | api/internal/handlers/operator.go:331-388 | In the tables a run of extensions leaves the session active with exactly the accumulated expiry. |
| `SessionHandlers.Store.Authorize` | api/internal/handlers/payment.go:352-371 | The RADIUS statements of a grant leave exactly the new rows of this user after everyone else's. |
| `SessionHandlers.Store.CreateSessionAfterPayment` | api/internal/handlers/payment.go:297-371 | One active session of the plan's minutes, if its insert succeeds, and the user's RADIUS rows replaced by those of the plan; everybody else's rows stay. |
| `SessionHandlers.Store.GrantSession` | api/internal/handlers/operator.go:247-320 | Only for an offered plan of the tenant; then the session if it fits, a cash row of the plan's price if the phone fits, and the plan's RADIUS rows, and nothing else. |
| `SessionHandlers.Store.Sell` | api/internal/handlers/operator.go:287-320 | The writes of a cash grant, each with its own column limits. |
| `SessionHandlers.Store.RedeemVoucher` | api/internal/handlers/payment.go:153-213 | Grants if and only if the code belongs to the location and is unused; marks it used, unless the phone does not fit, writes the session, unless it does not fit, and the voucher's plan to the RADIUS rows. |
| `SessionHandlers.Store.ExtendSession` | api/internal/handlers/operator.go:344-394 | Session first, then plan, both the tenant's; the new expiry is the old one, or now if it has passed, plus the plan's minutes; every Session-Timeout row of the user gets the whole seconds left, at least 60; nothing else changes. |
| `SessionHandlers.Store.ExpireSession` | api/internal/handlers/payment.go:432-437 | Marks the session expired and deletes all RADIUS rows of its user, and nobody else's. |
| `SessionHandlers.Store.TerminateSession` | api/internal/handlers/operator.go:412-431 | Ends exactly an active session of the tenant, with all rows of its user. |
| `SessionHandlers.Store.SelectOverdue` | api/internal/handlers/handlers.go:49-61 | Collects exactly the active sessions past their expiry. |
| `SessionHandlers.Store.ReapExpiredSessions` | api/internal/handlers/handlers.go:48-66 | In whatever order rows come, exactly the active sessions past their expiry are expired, exactly their users' rows deleted, and everything else stays. |
| `Interleaving.OwnStatementsDecide` | api/internal/handlers/payment.go:345-371 | Whatever the schedule, a user's view of the three tables is the one its own statements alone produce. |
| `Interleaving.GrantStatements` | api/internal/handlers/payment.go:345-371 | The nine statements of a grant, run in a row, are the grant step. |
| `Interleaving.ExtendStatements` | api/internal/handlers/operator.go:384-394 | The two statements of an extension, run in a row, are the extension step. |
| `Interleaving.ExpireStatements` | api/internal/handlers/payment.go:432-437 | The three statements of an expiry, run in a row, are the ending step. |
| `Interleaving.GrantNeverEarly` | api/internal/handlers/payment.go:345-371 | The session goes in first: at no moment of a grant does a user without an active session have rows. |
| `Interleaving.ExpiryWindow` | api/internal/handlers/payment.go:432-437 | The session is marked first: until the next statement the user keeps all rows without it, until the last the reply rows. |
| `Interleaving.ExtensionWindow` | api/internal/handlers/operator.go:384-394 | The expiry moves first: until the next statement the router has the old timeout. |
| `Interleaving.InterleavedSafety` | api/internal/handlers/payment.go:336-371 | Authorization safety holds at statement level for any interleaving across users, as long as the handlers of one user run one after another. |
| `Overlaps.ChecksAreThoseSinceClear` | api/internal/handlers/payment.go:351-356 | After any schedule of statements a user's radcheck rows are exactly the inserts since the last delete. |
| `Overlaps.RepliesAreThoseSinceClear` | api/internal/handlers/payment.go:358-371 | Likewise radreply: the inserts since the last delete, with the timeouts set since. |
| `Overlaps.ScheduleSafeIff` | api/internal/handlers/payment.go:336-371 | For any schedule of statements of any handlers: safe if and only if nothing was inserted since the last deletes, or one radcheck row and the five replies of one plan, with a session left active. |
| `Overlaps.OverlappingGrantsSafeIff` | api/internal/handlers/payment.go:345-371 | Two complete grants of one phone, their eighteen statements merged in any way among other users' statements, end safe if and only if one radcheck insert follows the last radcheck delete and five radreply inserts follow the last radreply delete. |
| `Overlaps.OverlappingGrantsDuplicate` | api/internal/handlers/payment.go:345-371 | Two complete grants of one phone in lockstep leave two radcheck rows. |
| `Tunnel.StepKeepsInv` | api/internal/handlers/device.go:274-297 | Each statement of each caller, registrations, deletions and burnt sequence numbers keep: stored identities equal what was written once, numbers are never reused, callers hold what is stored. |
| `Tunnel.WrittenOnce` | api/internal/handlers/device.go:284-289 | Through any schedule a device that has an identity keeps exactly that identity until it is deleted. |
| `Tunnel.CallersAgree` | api/internal/handlers/device.go:270-297 | Any two callers that returned for one device hold the same address and key; for different devices, different addresses. |
| `Tunnel.AnswerIsStored` | api/internal/handlers/device.go:274-297 | A caller's answer is what the row holds while the device exists, and a caller fails to find a row only if the device was deleted. |
| `Tunnel.AddressesDistinct` | api/db/migrations/008_wireguard.sql:10-14 | The three columns are set together; addresses of devices are distinct, start at 10.77.0.10 and stay in 10.77.0.0/16 while the sequence is below 65536. |
| `Tunnel.NextInsideBlockIff` | api/internal/handlers/device.go:284-289 | The next address handed out lies in the /16 if and only if the sequence is below 65536: nothing in the handler checks it. |
| `Tunnel.BeyondBlockReachable` | api/internal/handlers/device.go:284-289 | There are runs in which a caller is given 10.78.0.0, and any later address: after n unused numbers the address is inside the /16 if and only if n < 65,526. |
| `Tunnel.AloneFinishes` | api/internal/handlers/device.go:274-297 | A caller nobody interferes with is answered within three statements, as the straight-line reading of the code says. |
| `Tunnel.AloneAnswer` | api/internal/handlers/device.go:274-297 | Alone, a caller gets in at most three statements the stored identity, or 10.77.0.0 plus the next number with the new keypair, which the row then holds. |
| `Registry.CreatedKeepsFaithful` | api/internal/handlers/device.go:149-177 | Creating a device keeps nas a faithful index of devices. |
| `Registry.CreateKeepsFaithfulIff` | api/internal/handlers/device.go:137-177 | The two inserts keep the index if and only if, when they run, no registered id shares the new id's first eight characters and no device has the address. |
| `Registry.UpdatedKeepsFaithfulIff` | api/internal/handlers/device.go:224-239 | The updates keep the index if and only if, when they run, no other device has the address, and the id as sent starts like the stored id or neither name nor address changes. |
| `Registry.UpdateCheckSuffices` | api/internal/handlers/device.go:215-222 | The address check, skipped for an unchanged address, rules every other device out. |
| `Registry.DeletedKeepsFaithful` | api/internal/handlers/device.go:255-263 | Deletion by the id's own spelling leaves no row of the device and every row of every other device. |
| `Registry.DeletedKeepsFaithfulIff` | api/internal/handlers/device.go:247-262 | A deletion keeps the index if and only if the id as sent starts like the stored id: devices is addressed by the id denoted, nas by the text sent. |
| `Registry.UpperCaseDeletion` | api/internal/handlers/device.go:247-262 | With the id sent in upper case, unless its first eight characters are all digits, the device is deleted and its nas row, with the secret, stays. |
| `Registry.UpperCaseUpdate` | api/internal/handlers/device.go:192-239 | Likewise an update changes the device and leaves its nas row as it was. |
| `Uuids.SpelledPrefix` | api/internal/handlers/device.go:247-262 | A text that the database reads as an id starts like it, or like no id it ever writes. |
| `Uuids.UpperCaseSpelling` | api/internal/handlers/device.go:247-262 | The id in upper case denotes the same device, and starts differently unless its first eight characters are all digits. |
| `Registry.ScriptedKeepsFaithful` | api/internal/handlers/device.go:336-352 | After a script fetch there is exactly one tunnel row, at the stored tunnel address, with the device's secret. |
| `Registry.TunnelInsertedFaithfulIff` | api/internal/handlers/device.go:346-352 | The script's insert, from what it read earlier, keeps the index if and only if the device is still registered and either has its tunnel row or is as it was read. |
| `Registry.RequestFaithfulIff` | api/internal/handlers/device.go:110-375 | A request keeps the index if and only if the short names it builds are those of its own device. |
| `Registry.RunKeepsFaithful` | api/internal/handlers/device.go:110-375 | Over every run of uninterrupted, well-addressed requests: exactly one public row per device with its current address, name and secret; at most one tunnel row and only at the stored tunnel address; no rows of deleted devices; public addresses pairwise distinct. |
| `Registry.IndexOverRuns` | api/internal/handlers/device.go:110-375 | Over every such run, spelled out: under "mfb-" and eight characters of its id each device has one row with its current address, secret and name, at most one tunnel row likewise, no shared address, and nas holds nothing else. |
| `Registry.OthersUntouched` | api/internal/handlers/device.go:65-78 | An update, deletion or script of a device that is not the tenant's, and a creation at a location that is not, is refused and changes nothing. |
| `RegistryRaces.CommitFaithfulIff` | api/internal/handlers/device.go:134-177 | With checks and writes as separate steps of any number of handlers: a write keeps the index if and only if what its handler checked still holds and it addresses its own rows of nas. |
| `RegistryRaces.InterleavedIndexFaithful` | api/internal/handlers/device.go:110-375 | Over every interleaving of the handlers' reads, provisioning statements and writes in which each write is as just said, the index stays faithful. |
| `RegistryRaces.RacingCreations` | api/internal/handlers/device.go:137-177 | Two creations that check one address side by side both register it. |
| `RegistryRaces.ScriptRacesDeletion` | api/internal/handlers/device.go:341-352 | A script overtaken by the deletion of its device leaves a tunnel row of a device that is gone. |
| `Registry.OneClientPerAddressIff` | api/internal/handlers/device.go:137-143 | The table has one RADIUS client per source address, as the comment demands, if and only if no registered public address equals an installed tunnel address. |
| `Registry.OutsideBlockSuffices` | api/internal/handlers/device.go:137-143 | Public addresses outside 10.77.0.0/16 would suffice while the sequence stays inside it. |
| `Registry.NextAddressClashes` | api/internal/handlers/device.go:341-352 | If some public address is the next tunnel address, the next first-time script repeats it in nas. |
| `Registry.PublicAddressInBlockAccepted` | api/internal/handlers/device.go:123-143 | Such an address is accepted: the first router of all may be registered at 10.77.0.10. |
| `RegistryHandlers.Store.DeviceByID` | api/internal/handlers/device.go:65-78 | Finds the device that the text sent denotes, in whatever spelling, exactly when its location belongs to the tenant; the row carries the stored id. |
| `RegistryHandlers.Store.CreateDevice` | api/internal/handlers/device.go:110-188 | The refusals in their order, else the device with its name, location, address and secret, and one nas row under its short name with the same; the index stays faithful. |
| `RegistryHandlers.Store.UpdateDevice` | api/internal/handlers/device.go:190-243 | The refusals in their order, with the address check skipped for an unchanged address; the device's name and address, and row by row the nas rows named by the text sent; secrets stay; the index stays faithful if and only if the request is well addressed. |
| `RegistryHandlers.Store.DeleteDevice` | api/internal/handlers/device.go:245-268 | Deletes the device denoted, exactly when the tenant owns it, and the nas rows named by the text sent; the index stays faithful if and only if that is well addressed. |
| `RegistryHandlers.Store.EnsureWG` | api/internal/handlers/device.go:274-297 | Alone, an identity with an address is returned and nothing changes; otherwise 10.77.0.0 plus the next number and the new keypair are stored and returned. |
| `RegistryHandlers.Store.ListTunnel` | api/internal/handlers/device.go:346-352 | Inserts the tunnel row, with the device as it was read, unless one with that short name exists. |
| `RegistryHandlers.Store.ProvideTunnel` | api/internal/handlers/device.go:337-352 | The identity and then the tunnel row, uninterrupted: the device's tunnel row is then its only one. |
| `RegistryHandlers.Store.DeviceScript` | api/internal/handlers/device.go:302-375 | The script carries the stored address and key, and its tunnel row is then the only one of the device. |
| `Firewall.KeptSelects` | scripts/radius-sync.sh:36-46 | What remains is the rules at an increasing list of positions holding exactly the rules without the tag or with a wanted address. |
| `Firewall.HighestFirst` | scripts/radius-sync.sh:36-46 | Deleting by the numbers of one listing, highest first, removes exactly the stale tagged rules and keeps every other in its order, although each deletion renumbers the rest. |
| `Firewall.LowestFirstDeletesWrongRule` | scripts/radius-sync.sh:36-46 | In listing order the same loop deletes a rule it does not own and leaves a stale one: the reversal is needed. |
| `Firewall.Host.DropStale` | scripts/radius-sync.sh:36-46 | The loop over the reversed listing leaves, in their order, exactly the rules without the tag or with a wanted address. |
| `Peers.WantInjective` | scripts/wg-sync.sh:14-18 | With unique tunnel addresses in devices the wanted peers have pairwise distinct addresses. |
| `Peers.WantComplete` | scripts/wg-sync.sh:14-18 | With distinct keys every provisioned device is wanted, at its own address. |
| `Peers.ExactIsStable` | scripts/wg-sync.sh:30-36 | On peers that are already right every command of a later pass changes nothing. |
| `Peers.NothingWantedIff` | scripts/wg-sync.sh:14-18 | Nothing is wanted if and only if the query yields no complete row. |
| `Peers.Interface.BuildWant` | scripts/wg-sync.sh:14-18 | The wanted map holds exactly the keys of complete rows, each with the address of its last complete row. |
| `Peers.Interface.RemoveStale` | scripts/wg-sync.sh:20-27 | Removes exactly the peers that are not wanted and touches no other. |
| `Peers.Interface.AddWanted` | scripts/wg-sync.sh:29-36 | In whatever order keys come, although setting one peer takes its address from another, every wanted peer ends with exactly its address if addresses are distinct. |
| `Peers.Interface.Sync` | scripts/wg-sync.sh:14-36 | From any peers, one pass leaves exactly the peers of complete rows, each with exactly the address of its last row if and only if no two share one. |
| `Peers.Interface.SyncAfterFailedQuery` | scripts/wg-sync.sh:14-27 | A query that fails reads as an empty table: the pass removes every peer. |
| `Windows.IntervalBound` | api/internal/handlers/payment.go:56-67 | For every request history at most 2 * limit - 1 hits are admitted in any half-open interval of one window's length. |
| `Windows.IntervalBoundTight` | api/internal/handlers/payment.go:56-67 | The bound is reached for every limit, by an explicit schedule. |
| `Windows.WindowBound` | api/internal/handlers/payment.go:56-67 | Whenever no window is running, at most the limit is admitted within one window's length, so in every window. |
| `Windows.OneLimitIff` | api/internal/handlers/payment.go:56-67 | From any moment inside a window that began earlier, the limit bounds every future within one window's length if and only if no window is running or the running one is used up. |
| `Windows.RefusedMeansLimitReached` | api/internal/handlers/payment.go:63-67 | A refused request has `limit` admitted ones less than one window before it. |
| `RateLimit.PaymentsPerWindow` | api/internal/handlers/payment.go:53-67 | At most ten payment attempts per address in every window. |
| `RateLimit.TenPerFiveMinutesIff` | api/internal/handlers/payment.go:53-67 | "Ten per five minutes" from an arbitrary moment on holds for every future if and only if no window is running then or it is used up. |
| `RateLimit.PaymentsBounded` | api/internal/handlers/payment.go:53-67 | At most 19 payment attempts per address in any 300 seconds; a refused one follows 10 admitted ones within the last 300 seconds. |
| `RateLimit.CountersBounded` | api/internal/handlers/auth.go:23-48 | No window of a failure counter ever counts past 20 per address or 10 per account. |
| `RateLimit.FailuresBounded` | api/internal/handlers/auth.go:72-115 | Over sequential logins at most 39 failures per address and, between successful logins, 19 per account are examined in any 900 seconds. |
| `RateLimit.LockedHasCause` | api/internal/handlers/auth.go:29-32 | A locked-out attempt implies 20 failures of the address or 10 of the account, since its last success, in the last 900 seconds. |
| `RateLimit.Cache.AllowPayment` | api/internal/handlers/payment.go:53-67 | Counts the request in the address's window of 300 seconds and admits it if and only if the count is at most ten, as the arithmetic says of its whole history; touches no other address. |
| `RateLimit.Cache.LoginFailed` | api/internal/handlers/auth.go:38-48 | Both counters go up by one, a window of 900 seconds starting at the first failure. |
| `RateLimit.Cache.Login` | api/internal/handlers/auth.go:60-115 | Empty fields first, then the lock at 20 failures of the address or 10 of the account; unknown user and wrong password count on both, an inactive account does not; success clears the account's counter only. |
| `LoginRaces.FailuresInWindow` | api/internal/handlers/auth.go:72-115 | With at most w logins in flight together, successes clearing the counter and windows ending in between, a counter never passes limit + w - 1, and a rush of w logins reaches that: the limit is the bound exactly for logins one after another. |
| `LoginRaces.LimitReopens` | api/internal/handlers/auth.go:105-115 | After a success, or when a window ends, exactly the limit is examined again and then nothing. |

## Left out

Assumptions of the model:

- Commission rates are exact real numbers, fixed for a run; IEEE rounding in the float64 products and `strconv.ParseFloat`, including "NaN", are not part of this model.
- Withdrawals.StepKeepsInv: assumes one running request per account, because the code has no lock there; Withdrawals.InsertSolventIff says what holds without it.
- ExactlyOnce.CreditedExactlyOnce: assumes that neither the claims nor the pending hash are lost, that the location exists and that phone, MAC and reference fit their columns; Webhook.DatabaseDefence assumes none of this.
- Redis key families are disjoint; the dedup key of an empty transactionReference is a key like any other.
- Every SQL statement is one atomic step, `INSERT ... WHERE NOT EXISTS ... ON CONFLICT DO NOTHING` included.
- Locations, referrals and plans do not change during a webhook run, and plan rows can be read; a plan row with a NULL duration would take the fallback plan.
- Apart from the inserts and updates named here, SQL statements succeed on existing rows.
- The webhook step machine leaves the goroutine's RADIUS statements to `Sessions` and `Interleaving`.
- Backend.Store.CreateSessionAfterPayment: leaves the RADIUS statements of those lines to SessionHandlers.Store.CreateSessionAfterPayment, because the two modules keep different tables.
- Sessions.VoucherGrantsOnce: assumes redemptions of one voucher do not overlap; VoucherRaces.VoucherGrants says what holds when they do.
- Interleaving.InterleavedSafety: assumes handlers of the same user run one after another; Overlaps.ScheduleSafeIff says what holds when they do not.
- Sessions.AuthorizationSafety: assumes that statements on radcheck and radreply succeed; session inserts and voucher updates may fail, and an unstored grant must find its user with an active session, as Sessions.StepSafeIff shows.
- VoucherRaces.VoucherGrants: assumes that the inserts and updates of redemptions succeed.
- Sessions, devices and payments have fresh identifiers; ids of deleted devices are not reused.
- Registry.RunKeepsFaithful: takes each router handler as one step and its requests as well addressed (Registry.RequestFaithfulIff); RegistryRaces.InterleavedIndexFaithful takes their statements apart, with each transaction one step.
- RegistryRaces.InterleavedIndexFaithful: assumes a new id's first eight characters are new, and that ids are sent with their own first eight characters, because the handlers address rows of nas by them; RegistryRaces.CommitFaithfulIff says what holds otherwise.
- MD5 and HMAC-MD5 are arbitrary functions with 16-byte results, keypairs and secrets arbitrary values; sockets and timeouts are an arbitrary list of what each attempt brings.
- RateLimit.FailuresBounded: takes logins one after another; LoginRaces.FailuresInWindow says what holds when they overlap. Redis errors, which fail open, and eviction are not modelled.
- Firewall.HighestFirst: every tagged rule names one address, as the script's own rules do.

Not modelled, because it would add only easy members or is I/O:

- HTTP decoding, routing, JSON, JWT, bcrypt, CORS, configuration, templates, the dashboard and report queries.
- The ZengaPay client call, payment status polling, the webhook signature check.
- The Redis session mirrors `session:user` and `session:mac`, and columns such as `terminated_at`, notes and `reviewed_by`.
- KYC, registration, slugs, voucher code generation, IP allow-lists, deploy, backup and watchdog scripts.
- The rule-adding half of `radius-sync.sh`, its hash file and the FreeRADIUS restart.
- `radiusIPs` and the status and client listings of devices.
