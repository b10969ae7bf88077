# Kaspa frontier engine: a verified model of its core

The repository watches Kaspa testnet deposits for an exchange, keeps a token engine, and ships
small SAT and simulation scripts about block rates. This project models its six hardest parts
in Dafny and proves what they promise.

* **SAT encoder** (`Cnf`, `Counter`, `Packing`, `Encoder`; helper module `Text`). A clause
  builder with a name table, the Sinz sequential counter, the exactly-one constraint and the
  packing instance built from them. The clauses mean what the arithmetic says, in both
  directions and for every size: an assignment extends to a model of the counter exactly when
  at most k literals are true, and an instance has a model exactly when the transactions fit
  into the slots (generalised pigeonhole one way, an explicit packing the other). The proof
  covers the names too: that `x_3_14`, `tx3_s_1_4` and `slot3_s_1_4` never collide is a
  theorem about decimal digits and separators.
* **Checksum** (`CashAddr`, `Address`, `KnownAddress`). The forty-bit CashAddr polymod is linear, its
  zero-symbol step is injective, and every state can be completed. So any change confined to
  eight consecutive payload symbols is detected whatever the length, and every body has exactly
  one checksum; the checksum binds the prefix too. What laws about all addresses leave open,
  the constants, is fixed by a known answer: the address of the repository's own tests is valid.
  A 64-bit word is a sequence of its bits, least significant first.
* **Token engine** (`Krc20`, `Krc20Supply`). Partial updates before a late error are modelled.
  Conservation of supply makes the late errors unreachable, so a failing call changes nothing.
* **Deposit ledger, delivery outbox, receiver inbox** (`Ledger`, `Outbox`, `LedgerStore`,
  `LedgerSafety`, `LedgerBooks`, `Reconciling`, `Calls`, `Leases`, `Retries`, `Draining`, `Receiver`,
  `Protocol`, `InboxBooks`, `Liveness`, `Recovery`, `Reachable`). Deposit rows and the events they enqueue,
  leases with retries and dead letters, an idempotent receiver, and all of them together over
  an asynchronous channel. At-least-once sending plus the inbox gives
  each event one effect over every interleaving of claims, crashes, expiries, repeated and
  delayed deliveries, failures, requeues and acknowledgements. When
  every worker that holds a lease has crashed, another can complete delivery alone exactly when
  each unsettled event is unacknowledged and either dead or within the widths of the next
  attempt, the lease and the attempt counter; the inbox then balances against the ledger's
  credited deposits.
* **Confirmation tracker** (`Tracker`, `Snapshot`, `Feed`). The incremental tracker agrees with
  the one-shot snapshot, and a tracker feeding the ledger credits each deposit once, exactly
  when it is deep enough, although the tracker itself may confirm an output twice.
* **Selection and sliding window** (`Selection`, `Window`). Greedy output selection under the
  KIP-0009 storage mass bound, and a two-pointer window count.

Code that updates state step by step is a class or a method with loops (`Cnf.Builder`,
`LedgerStore.DepositLedger`, `Receiver.ReceiverStore`, `Krc20.Engine`, `Tracker.DepositTracker`,
and the methods of `Encoder`, `CashAddr`, `Address`, `Snapshot`, `Selection` and `Window`). Each
is proved against a function on values, and the properties are proved about those functions and
about every run of them. Databases are tables held as maps and sequences; a transaction is one
atomic step that puts the tables back on error. Fixed-width integers are subset types with the
checked and saturating operations written out.

Where the repository's words and its code part, or the code does less than a reader expects,
the model follows the code and says exactly when:

* `window_occupancy` says it counts the interval (t-L, t] at each time t. At equal times it
  counts only the blocks up to the current index. `Window.CountsUpToTies` says exactly when the
  two agree, `Window.TieUndercounts` shows an input where they do not, and
  `Window.CoversDespiteTies` that the verdict is right all the same.
* `acknowledge_event` reports an event as missing or already acknowledged also when a worker
  leases it: exactly then, for an event that is there and not acknowledged
  (`Retries.AcknowledgeRefused`; a run that does it is in `Reachable.LeasedRefused`).
* `claim_next_delivery` commits the lease before it rejects an attempt count beyond 32 bits:
  exactly when the event it selects is one lease short of that (`Draining.FailsYetLeases`). A
  worker draining the outbox is stopped by such an event and by nothing else
  (`Draining.DrainVisits`), and runs reach it (`Reachable.WornReachable`).
* `fail_claim` and `requeue_dead_letter` accept the largest storable time for the next attempt,
  and the event can then never be claimed again (`Liveness.PostponedForEver`). A lease to the
  largest storable time whose holder crashed (`Recovery.HeldForEver`), an attempt counter used
  up (`Recovery.WornForEver`) and an acknowledgement by hand have the same effect, and nothing
  else has (`Recovery.CompletableExactly`).
* `import_legacy_credit` keeps a deposit from being credited by an event exactly when the import
  comes before the deposit is first observed (`LedgerSafety.ReachableEvents`); between
  observation and confirmation it is too late (`Reachable.ImportTooLate`).
* `at_most` with a negative bound is satisfiable: its clauses say that no literal is true
  (`Counter.AtMostExact`).
* `select_commit_entries` tests the storage mass after the two amount floors; the test can
  never fail on its own (`Selection.SafeOutputs`). With a total under 41,000,000 it halves the
  wallet, which can commit more than was requested (`Selection.HalfExceedsRequest`).

## Model

| member | source | states |
|---|---|---|
| Cnf.Builder.V | scripts/tn12_tps_cnf.py:54-58 | a known name keeps its number, a new one gets the next free one; no two names ever share a number |
| Cnf.Builder.AtMost | scripts/tn12_tps_cnf.py:63-92 | adds exactly the counter's clauses, in order, under every later extension of the name table, and only fresh numbers for its registers |
| Cnf.Builder.ExactlyOne | scripts/tn12_tps_cnf.py:94-99 | adds the at-least-one clause and the counter for one; the empty clause for no literals |
| Counter.RowsCount | scripts/tn12_tps_cnf.py:82-91 | in every model, register (i, j) is forced once j of the first i + 1 literals are true, and no prefix exceeds k |
| Counter.AtMostSound | scripts/tn12_tps_cnf.py:63-92 | every model of the clauses makes at most k literals true |
| Counter.AtMostComplete | scripts/tn12_tps_cnf.py:63-92 | an assignment with at most k true literals whose registers track the counts is a model |
| Counter.AtMostExact | scripts/tn12_tps_cnf.py:63-92 | for an unused tag and any k, an assignment of the issued variables extends to a model exactly when at most k literals are true |
| Counter.AtMostSize | scripts/tn12_tps_cnf.py:63-92 | the size of the sequential counter: 2nk + n - 3k - 1 clauses for 0 < k < n, one per literal for k <= 0, none when k does not bind |
| Packing.CellNameInjective | scripts/tn12_tps_cnf.py:152-158 | a cell name determines its transaction and slot |
| Packing.TaggedNameInjective | scripts/tn12_tps_cnf.py:79-80 | helper names of different counters of one family never coincide |
| Packing.FamiliesDisjoint | scripts/tn12_tps_cnf.py:152-158 | cell names, row helpers and column helpers are three disjoint families |
| Packing.DoubleCounting | scripts/tn12_tps_cnf.py:151-158 | true cells counted by rows and by columns agree |
| Packing.ModelPacks | scripts/tn12_tps_cnf.py:142-159 | generalised pigeonhole: any model places every transaction once, overfills no slot, hence txs <= slots * cap |
| Packing.PackingSatisfiable | scripts/tn12_tps_cnf.py:142-159 | the clauses have a model exactly when txs <= slots * cap |
| Encoder.RowVariables | scripts/tn12_tps_cnf.py:152-154 | one row of cell variables, recorded in the assignment dictionary without disturbing earlier entries |
| Encoder.EncodePacking | scripts/tn12_tps_cnf.py:142-159 | rejects exactly negative arguments and a zero slot rate or window; otherwise the clause list is satisfiable exactly when tps * window <= bps * window * cap |
| Encoder.WindowDropsOut | scripts/tn12_tps_cnf.py:114-123 | packing_fits says tps * window <= bps * window * cap, and a positive window drops out of it |
| Encoder.DecodeModel | scripts/tn12_tps_cnf.py:162-177 | the counts are the numbers of true cells per slot |
| Encoder.DecodedCounts | scripts/tn12_tps_cnf.py:226-231 | for every solver model the counts sum to the transactions and never exceed cap: "decode-cap-violation" cannot occur |
| Encoder.RunMatchesArithmetic | scripts/tn12_tps_cnf.py:223-231 | with a truthful solver the status is the one the arithmetic expects |
| Encoder.SolverExists | scripts/tn12_tps_cnf.py:180-189 | some solver is right about every clause list, so the next row speaks about something |
| Encoder.RunInstance | scripts/tn12_tps_cnf.py:196-252 | end to end with a truthful solver, with or without gcd reduction: the solver and the arithmetic agree, SAT exactly when tps <= bps * cap, and the counts are then a packing of the encoded transactions |
| Encoder.GcdDivides | scripts/tn12_tps_cnf.py:126-133 | the gcd divides both rates |
| Encoder.GcdGreatest | scripts/tn12_tps_cnf.py:126-133 | every common divisor divides the gcd |
| Encoder.ReducedRateSameVerdict | scripts/tn12_tps_cnf.py:126-133 | dividing by the gcd is exact and keeps the packing verdict for every cap and window |
| Encoder.ReducedRateCoprime | scripts/tn12_tps_cnf.py:126-133 | the reduced rates have no common divisor but one |
| Encoder.EncodeBpsVsK | scripts/bps100_cnf.py:40-58 | encoding k + 1 blocks or all of them: both forms are satisfiable exactly when bps * latency <= k |
| CashAddr.CashaddrPolymod | src/network.rs:148-167 | the nested loops compute the polymod |
| CashAddr.StepLinear | src/network.rs:157-165 | one step is linear over exclusive or |
| CashAddr.FoldLinear | src/network.rs:157-165 | so is a whole run, at every length |
| CashAddr.StepStays | src/network.rs:157-165 | states stay within forty bits |
| CashAddr.StepCollects | src/network.rs:157-165 | below 35 bits a step only shifts and takes in the symbol |
| CashAddr.ZeroStepKeeps | src/network.rs:148-167 | a zero symbol never turns a non-zero state into zero, because the generators' low bits are 1, 2, 4, 8, 16 |
| CashAddr.BurstSurvives | src/network.rs:148-167 | a non-zero difference within eight positions is non-zero at the end, at every length |
| CashAddr.BurstChangesState | src/network.rs:148-167 | sequences that differ only within eight consecutive positions reach different states |
| CashAddr.SuffixReaches | src/network.rs:148-167 | from every state eight symbols reach every other state |
| CashAddr.UniqueChecksum | src/network.rs:148-167 | every body of symbols has exactly one eight-symbol suffix with polymod zero |
| Address.CheckCashaddr | src/network.rs:125-146 | the one-pass check decides lower case, last colon, prefix, length, charset and checksum |
| Address.ValidExactly | src/network.rs:121-146 | an address is valid exactly when it is the prefix, a colon and a payload of more than eight charset symbols with a zero checksum |
| Address.BurstDetected | src/network.rs:121-167 | altering any payload characters within eight consecutive positions, to anything, makes a valid address invalid |
| Address.UniqueAddress | src/network.rs:121-167 | every non-empty body over the charset has exactly one valid checksum |
| Address.PrefixBound | src/network.rs:125-146 | the checksum covers the prefix: no payload is valid under two prefixes of one length that differ in low bits within eight positions |
| KnownAddress.PublishedAddressIsValid | src/network.rs:121-167 | the address of the repository's tests (line 251) is valid: with these generators, this charset and this start the polymod of all its symbols is zero |
| KnownAddress.FoldShows | src/network.rs:157-165 | folding words is folding eight five-bit symbols, at every length and from every state |
| Krc20.Engine.ApplyCall | src/krc20.rs:164-270 | one call updates the maps in place as the specification says, partial updates before late errors included |
| Krc20Supply.MintKeeps | src/krc20.rs:205-240 | a mint moves exactly its amount into supply and balance, or changes nothing |
| Krc20Supply.TransferKeeps | src/krc20.rs:241-266 | a transfer succeeds exactly on a sufficient balance and moves exactly its amount, self-transfers included |
| Krc20Supply.ApplyKeeps | src/krc20.rs:164-270 | every call keeps balances = minted <= cap, and an error leaves the engine equal |
| Krc20Supply.RunKeeps | src/krc20.rs:164-270 | conservation after every sequence of calls, failed ones included |
| Krc20Supply.FailedCallChangesNothing | src/krc20.rs:164-270 | in a reachable engine a failing call changes nothing: the late checked_add errors are unreachable |
| Krc20Supply.AcceptedExactly | src/krc20.rs:164-270 | in a reachable engine a call succeeds exactly on a fresh id, a decoded envelope and an acceptable operation: the cap counted from the balances, no transfer between a kaspatest: and a kaspa: address, and nothing fails for an overflow |
| Krc20Supply.ErrorsAreTrue | src/krc20.rs:164-270 | every error a reachable engine returns is true of the call: its amounts, limits, balances, ticker and addresses are the ones it names |
| Krc20Supply.TickerExactly | src/krc20.rs:95-102 | a ticker is one to ten letters and digits and stands for itself in upper case |
| Krc20Supply.OneTokenExactly | src/krc20.rs:95-102 | two tickers name one token exactly when they agree up to case |
| Krc20Supply.TermsFromDeploy | src/krc20.rs:183-204 | a token keeps for ever the cap, limit and decimals of the call that deployed it |
| Krc20Supply.NoReplay | src/krc20.rs:170-175 | a transaction id takes effect at most once in a run |
| Krc20Supply.BalanceIsNetFlow | src/krc20.rs:164-270 | every balance is the net flow of the accepted payloads |
| Krc20Supply.QueriesAgree | src/krc20.rs:272-284 | get_balance and minted of a reachable engine: net flow, and the sum of all balances within the cap |
| Krc20Supply.ParseExactly | src/krc20.rs:88-93 | a text parses to a number exactly when it is that number's decimal digits after any zeros and fits 128 bits; nothing else parses |
| Basics.TrimExactly | src/krc20.rs:209-213 | trimming takes white space off both ends, and all of it |
| LedgerStore.DepositLedger.Enqueue | src/deposit_ledger.rs:1083-1106 | appends the event unless its key is present |
| LedgerStore.DepositLedger.ConfirmOne | src/deposit_ledger.rs:297-348 | credits a pending row and enqueues its credit, or reports why the facts do not match |
| LedgerStore.DepositLedger.Reconcile | src/deposit_ledger.rs:228-386 | the three loops in place; any failure puts every table back |
| LedgerStore.DepositLedger.ReverseCreditedOnReorg | src/deposit_ledger.rs:389-444 | reverses a credited row on evidence, all or nothing |
| LedgerStore.DepositLedger.ClaimNextDelivery | src/deposit_ledger.rs:744-810 | leases the first eligible event, or returns nothing |
| LedgerStore.DepositLedger.SelectNext | src/deposit_ledger.rs:762-770 | the scan finds the row the ORDER BY query selects |
| LedgerStore.DepositLedger.AcknowledgeById | src/deposit_ledger.rs:718-731 | acknowledges an unacknowledged event that is not leased |
| LedgerStore.DepositLedger.AcknowledgeOwned | src/deposit_ledger.rs:812-826 | acknowledges an event only for its lease owner |
| LedgerStore.DepositLedger.Release | src/deposit_ledger.rs:828-844 | gives the lease back and records the error |
| LedgerStore.DepositLedger.Fail | src/deposit_ledger.rs:846-914 | schedules a retry, or dead-letters at the attempt limit |
| LedgerStore.DepositLedger.Requeue | src/deposit_ledger.rs:916-931 | a dead letter starts over |
| LedgerSafety.EventKeyInjective | src/deposit_ledger.rs:1091 | an event key determines kind, transaction id and index, whatever the id contains |
| LedgerSafety.InsertAppends | src/deposit_ledger.rs:1083-1106 | INSERT OR IGNORE of a new event is never ignored |
| LedgerSafety.RunSafe | src/deposit_ledger.rs:228-444 | every reachable ledger satisfies the safety invariant |
| LedgerSafety.ReachableEvents | src/deposit_ledger.rs:228-444 | one event of a kind per outpoint; pending has none; reverse exists exactly when reversed; credited has its credit exactly when it was not imported before it was observed |
| LedgerSafety.ReachableFacts | src/deposit_ledger.rs:228-444 | every event carries its deposit row's amount and address |
| LedgerSafety.BornExactly | src/deposit_ledger.rs:220-291 | the rows inserted as credited are exactly those of outpoints imported before they were observed |
| LedgerSafety.ImportedNeverCredited | src/deposit_ledger.rs:220-291 | an outpoint imported before it is observed never gets a credit event, whatever is confirmed later |
| Reachable.ImportTooLate | src/deposit_ledger.rs:220-348 | an import before the observation prevents the credit event, one after it does not |
| Reconciling.ReconcileSucceeds | src/deposit_ledger.rs:228-386 | reconcile succeeds exactly when the numbers fit, all observed facts agree, and every confirmation is backed by a row or an observation with the same facts |
| Reconciling.ReconcileMeans | src/deposit_ledger.rs:228-386 | the exact row of every outpoint afterwards: only a pending row changes state, credited when confirmed, else reversed when it disappeared; a credited deposit that is spent stays credited |
| Reconciling.ReconcileRefused | src/deposit_ledger.rs:228-386 | a refused reconcile reports a score out of range, else the first refused observation, else the first refused confirmation, and leaves the tables as they were |
| Reconciling.ConfirmRefused | src/deposit_ledger.rs:297-348 | what is wrong with a refused confirmation: no row, facts that differ, or a number out of range where the facts agree so far |
| Reconciling.ReversalMeans | src/deposit_ledger.rs:389-444 | an explicit reversal needs evidence and a row that is not pending; it records score and reason, appends one reverse event, touches nothing else, and repeats without effect |
| Reconciling.ReversalRefused | src/deposit_ledger.rs:389-444 | the refusals of an explicit reversal, in order |
| LedgerBooks.CreditsBalance | src/deposit_ledger.rs:228-444 | credit events without a reverse event add up to the credited deposits that were not imported before they were observed |
| LedgerBooks.NextAdvances | src/deposit_ledger.rs:228-444 | no call changes recorded facts, leaves the reversed state, drops a row or rewrites an event |
| LedgerBooks.ReconcileIdempotent | src/deposit_ledger.rs:228-386 | repeating a successful reconcile leaves the whole ledger equal |
| Leases.RunLeasesSane | src/deposit_ledger.rs:718-931 | owner and expiry come together; acknowledged and dead-lettered events hold no lease |
| Leases.FirstEligibleIsFirst | src/deposit_ledger.rs:762-770 | the claim query picks the least eligible event by (next_attempt_at, id), and nothing only when none is eligible |
| Leases.LeasesDisjoint | src/deposit_ledger.rs:744-810 | two claims of one event have disjoint lease intervals unless its owner released or failed it in between |
| Leases.AcknowledgedNeverClaimed | src/deposit_ledger.rs:718-826 | an acknowledged event is never claimed again |
| Retries.OnlyOwnerChanges | src/deposit_ledger.rs:718-931 | while an event is leased only calls in its owner's name change it, or a claim once the lease has run out |
| Retries.AcknowledgeRefused | src/deposit_ledger.rs:718-731 | by id, an unacknowledged event of a reachable ledger is refused exactly when it is leased |
| Retries.LeaseEnds | src/deposit_ledger.rs:744-810 | a leased event can be claimed again exactly from now + lease on |
| Retries.AttemptsCountLeases | src/deposit_ledger.rs:775-781 | in every run the attempt counter is the number of leases since the last requeue |
| Retries.FailureOutcomes | src/deposit_ledger.rs:846-914 | a failure dead-letters exactly when the event was leased as often as the limit allows, else schedules the retry; the lease is free either way |
| Retries.DeadStays | src/deposit_ledger.rs:846-931 | a dead letter is never leased again until it is requeued |
| Retries.RetryWaits | src/deposit_ledger.rs:758-774 | a scheduled retry is not leased before its time |
| Calls.ClaimRefused | src/deposit_ledger.rs:744-757 | a claim refuses exactly a blank or long owner, a lease outside 1 to 3600 and an end beyond 63 bits, in that order |
| Calls.ClaimLeases | src/deposit_ledger.rs:744-810 | a claim that returns an event has leased an eligible one: the exact row, the count returned, nothing else changed |
| Calls.EligibleExactly | src/deposit_ledger.rs:762-770 | an event can be claimed exactly when it is open, due, and its lease, if any, has run out |
| Calls.AcknowledgeEventLeaves | src/deposit_ledger.rs:718-731 | by id: accepted exactly without a lease, and the exact row afterwards |
| Calls.AcknowledgeClaimLeaves | src/deposit_ledger.rs:812-826 | by owner: accepted exactly for the lease owner, its errors, and the exact row afterwards |
| Calls.ReleaseLeaves | src/deposit_ledger.rs:828-844 | when a release is accepted, its errors, and the exact row afterwards |
| Calls.FailAccepted | src/deposit_ledger.rs:846-895 | when a failure report is accepted, and which error it gives otherwise |
| Calls.FailLeaves | src/deposit_ledger.rs:846-914 | the exact row after a failure, dead-lettered or rescheduled |
| Calls.RequeueStartsOver | src/deposit_ledger.rs:916-931 | a requeue succeeds exactly on an unacknowledged dead letter, which can then be claimed from the given time on with a fresh counter |
| Draining.RoundRemovesOne | src/deposit_ledger.rs:744-914 | claiming and settling removes exactly the first event from those eligible |
| Draining.FailsYetLeases | src/deposit_ledger.rs:762-809 | a claim fails and still leases exactly when its arguments are accepted and the first eligible event has used up its attempt counter |
| Draining.DrainVisits | src/deposit_ledger.rs:744-914 | a worker at a fixed clock fails exactly when some eligible event has used up its attempt counter; it visits exactly the eligible events before every such one, once each, in order, and without a failure then gets nothing |
| Draining.DrainVisitsAll | src/deposit_ledger.rs:744-914 | every eligible event is visited without a failure exactly when no eligible event has used up its counter |
| Reachable.RetriedLedger | src/deposit_ledger.rs:744-844 | claims and releases take a free event to every attempt count |
| Reachable.WornReachable | src/deposit_ledger.rs:803-809 | a reachable ledger whose claim fails, leases, and stops a drain |
| Reachable.LeasedRefused | src/deposit_ledger.rs:718-731 | a reachable event that is leased, unacknowledged and refused by id |
| Receiver.ReceiverStore.AcceptDelivery | src/outbox_receiver.rs:105-167 | accepts, recognises a duplicate, reports a conflict or refuses, as specified |
| Receiver.AnsweredExactly | src/outbox_receiver.rs:105-223 | a delivery is answered exactly when schema, id, kind, txid, amount, address, key, header and time all meet their rules |
| Receiver.RefusedForFirst | src/outbox_receiver.rs:177-223 | a refusal names the first broken rule in the order they are checked |
| Receiver.FirstDeliveryDecides | src/outbox_receiver.rs:105-167 | over every run of deliveries: refused exactly when some rule is broken; the first admitted delivery of a key is accepted and its row stays; a later one is a duplicate when it says the same, else a conflict |
| Receiver.RunKeepsKeys | src/outbox_receiver.rs:105-223 | in every reachable inbox each row has the facts its key stands for, a positive amount, a valid testnet address and a positive sender id |
| Receiver.ConflictIsAmountOrAddress | src/outbox_receiver.rs:105-223 | deliveries that pass validation with one key can differ only in amount or address |
| Protocol.RunSound | README.md:169-181 | every reachable state of sender, channel and receiver is sound |
| Protocol.ExactlyOneEffect | README.md:169-181 | over every interleaving: no conflict, one effect per key, inbox rows equal outbox events, and every event acknowledged through a claim is in the inbox |
| Protocol.FullyDelivered | README.md:169-181 | when all events are acknowledged through claims the inbox is exactly the outbox |
| InboxBooks.InboxBalances | README.md:169-181 | then the inbox credits without a reversal add up to the credited deposits that were not imported before they were observed |
| Liveness.NeverComplete | src/deposit_ledger.rs:718-931 | an event acknowledged by hand, or postponed to the largest storable time, keeps every continuation by anyone incomplete |
| Liveness.PostponedForEver | src/deposit_ledger.rs:846-914 | a run in which a failure postpones an event for ever |
| Recovery.CompletableExactly | src/bin/tn10_outbox.rs:313-414 | after any run of admissible deposits whose lease holders all crash, another worker, acknowledging only what its own claims returned and a 2xx answer confirmed, completes delivery alone exactly when each unsettled event is unacknowledged and dead, or its next attempt and lease end are before the largest storable time and one more attempt fits 32 bits |
| Recovery.NeverRecovered | src/bin/tn10_outbox.rs:313-414 | otherwise no continuation without those holders completes it, whoever takes part and whatever further deposits come |
| Recovery.RecoversAt | src/bin/tn10_outbox.rs:313-414 | the worker needs one clock reading only: any before the largest storable time that has reached every open event's next attempt and lease end |
| Recovery.SomethingDelivered | src/deposit_ledger.rs:744-810 | a worker crashes with a lease, and after it has run out another one delivers the event |
| Recovery.HeldForEver | src/deposit_ledger.rs:744-810 | a reachable state with a due event that is lost because its lease never runs out |
| Recovery.WornForEver | src/deposit_ledger.rs:803-809 | a reachable state nobody holds a lease in, with an event that is lost because its attempts are used up |
| Protocol.AlwaysAnswered | src/outbox_receiver.rs:105-223 | fed with deposits the validation admits, every delivery is answered with 2xx |
| Tracker.DepositTracker.OnUtxoAdded | src/exchange.rs:84-112 | confirms at once when deep enough and then leaves an older pending entry in place; else records the output |
| Tracker.DepositTracker.OnUtxoRemoved | src/exchange.rs:115-122 | drops the entry and says whether there was one |
| Tracker.DepositTracker.OnVirtualDaa | src/exchange.rs:124-151 | lists every deep entry once, in an arbitrary order, and retains exactly the others |
| Snapshot.ValidateSnapshot | src/cex.rs:97-113 | accepts exactly distinct outpoints of the address, and names the first fault |
| Snapshot.SnapshotAddress | src/cex.rs:47-94 | returns the exact totals; fails only on invalid rows or at the first row that takes one of the two exact totals over 64 bits, naming that total, never on the coinbase sum |
| Snapshot.TrackArrivals | src/exchange.rs:54-112 | what a fresh tracker does with the rows one after the other |
| Snapshot.SnapshotAgrees | src/cex.rs:37-94 | spendable is what the tracker confirms on arrival, pending what it retains, the two sums make up all rows, and the immature sum is the coinbase part of what waits |
| Snapshot.SpendableExactly | src/cex.rs:57-83 | the list of spendable rows: every deep row and no other, each with its amount, depth and coinbase flag, worth the confirmed total |
| Feed.AtMostOneCredit | src/exchange.rs:84-151 | whatever the tracker is fed, no outpoint gets two events of a kind |
| Feed.AppearEffect | src/deposit_ledger.rs:241-295 | an appearance is accepted exactly when its numbers fit and no row holds other facts |
| Feed.RunInStep | src/exchange.rs:84-151 | with consistent facts, what is pending in the ledger is waiting in the tracker |
| Feed.NeverRefused | src/deposit_ledger.rs:228-386 | with consistent facts in range no reconcile of a run fails |
| Feed.CreditedExactlyWhenDeep | src/exchange.rs:84-151 | an outpoint never removed, imported or reversed is credited by the first step that finds it deep enough, and not before |
| Feed.CreditIsDue | src/exchange.rs:84-151 | no credit event is early, also for outpoints that vanish, return or are reversed |
| Feed.ConfirmedAgainExactly | src/exchange.rs:84-151 | after an appearance confirmed at once, the next update confirms the outpoint again exactly when it was waiting before, with facts that are deep by then |
| Feed.ConfirmedTwiceCreditedOnce | src/exchange.rs:84-151 | a run in which the tracker confirms one output twice and the ledger credits it |
| Selection.StorageMass | scripts/tn10_rest.py:128-138 | the net harmonic sum, never negative |
| Selection.TermExactly | scripts/tn10_rest.py:131-136 | a positive amount costs the whole part of 10^12 over it, any other amount nothing |
| Selection.MassExactly | scripts/tn10_rest.py:128-138 | outputs cost their terms, inputs pay for as much as theirs, and what they pay beyond that is lost |
| Selection.SafeOutputs | scripts/tn10_rest.py:24-28 | two outputs at the floor never exceed the mass bound |
| Selection.SortedDescSorts | scripts/tn10_rest.py:150 | the order is descending, a permutation, and stable |
| Selection.SelectCommitEntries | scripts/tn10_rest.py:146-180 | the greedy prefix and the fallback branches; on non-negative amounts it succeeds exactly when all mature outputs total 40,000,000 sompi |
| Selection.SelectionIsSafe | scripts/tn10_rest.py:171-180 | on success both outputs are at least 20,000,000 and the mass is at most 100,000 |
| Selection.RequestHonoured | scripts/tn10_rest.py:151-170 | a request the wallet can pay is committed in full, with at least 21,000,000 of change |
| Selection.PartialCommit | scripts/tn10_rest.py:162-170 | when the selected outputs cannot pay the request they are the whole wallet, and either the change is exactly 21,000,000 or the total is halved |
| Selection.HalfExceedsRequest | scripts/tn10_rest.py:168-170 | a request of 20,200,000 for which 20,450,000 is committed |
| Selection.FewestEntries | scripts/tn10_rest.py:150-161 | when the need is reached no choice of fewer outputs reaches it |
| Selection.OnlyMatureSpent | scripts/tn10_rest.py:278-296 | only mature outputs of the wallet are selected |
| Selection.MatureExactly | scripts/tn10_rest.py:278-290 | ordinary outputs are always mature, a coinbase output exactly a thousand above its block, which is when the tracker finds it deep |
| Selection.SpendableAppend | scripts/tn10_rest.py:293-296 | the filter keeps the order and every copy of a mature output |
| Window.WindowOccupancy | scripts/ghostdag_k_window_sim.py:81-92 | every count equals the naive one, and the left pointer moves at most n times in all |
| Window.Summarize | scripts/ghostdag_k_window_sim.py:107-123 | the maximum, the mean and the fraction of indices over k before rounding, and covers exactly when no index exceeds k (an empty run needs k >= 0) |
| Window.CountsUpToTies | scripts/ghostdag_k_window_sim.py:81-92 | the count is the occupancy of (t-L, t] exactly when no later block has the same time or the window is empty |
| Window.TieUndercounts | scripts/ghostdag_k_window_sim.py:81-92 | two blocks at one time: count 1, occupancy 2 |
| Window.CoversDespiteTies | scripts/ghostdag_k_window_sim.py:107-123 | k covers the counts exactly when it covers the true occupancies |

## Left out

- HTTP, RPC, WebSocket, TLS and subprocess code, the binaries and the examples: plumbing around libraries and services.
- `src/withdrawal_ledger.rs`, `src/wrpc.rs` and `src/watch.rs` are not part of this model; the tracker and the ledger are fed one event at a time instead of by snapshot differences.
- SQL text, schema migration, pragmas and column checks: tables are maps and sequences, and a failed transaction restores them. Row ids are positions plus one, which holds because no row is deleted and no insertion is ignored.
- Read-only listing and counting queries of the ledger: they would only add easy members.
- JSON decoding, DIMACS files, the solver (or its absence) and random emission times: a decoded envelope, a solver's answer and a sorted list of times are parameters.
- Floating point: times are reals, and the rounding of the mean and the fraction in the window report is not modelled.
- Text is ASCII: Unicode white space in trim and Unicode upper-casing of tickers (which can turn a non-ASCII letter into ASCII ones) are not modelled; string lengths count characters.
- Error messages are constructors; their wording is not modelled.
- `int(...)` conversions that raise on malformed JSON amounts are not modelled; an unreadable block score is.
- Protocol.AlwaysAnswered: needs the receiver clock within the signed 64-bit range, as the receiver itself does.
- `kasplex_*` inscription builders, covenants, owned-node gates, proofs and the other scripts: guard ladders and short encoders that would add easier members.
