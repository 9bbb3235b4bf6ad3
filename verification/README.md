# Lokara: payments, deliveries, days and cents

Lokara manages rented buildings. This project models the parts of it in which a wrong step moves a
renter's money or misstates a day, and proves what they keep:

- **Payments.** A bank transaction is matched to a renter, settled against the renter's debts by the
  order of sections 366 and 367 of the German Civil Code, booked in an append-only ledger, and perhaps
  returned later. `Scoring`, `PrincipalSplit` and `Settlement` are the matching engine; `Ledger` is the
  ledger with its receivable projection; `Matching` is the service as a function from state to state.
  What it answers is stated in terms of the stored rows: `Channels` (which channel a transaction ends in,
  and in which order its candidates), `Bookings` (what a booking writes, down to the components),
  `EngineErrors` (when it is refused), `MatchingEvidence` and `MatchingTheorems` (what a return finds,
  what a confirmation teaches, what holds over all runs, with `MatchingInvariant`, `MatchingRuns` and
  `LedgerTotals`); `MatchingExample` is one run, step by step. `Guards` and `AllocationCap` are the CHECK
  constraints and triggers, for any writer; `MatchingService` writes row by row through those guards and
  is proved to reach exactly the state that `Matching` describes (`Admission`: no guard ever refuses it);
  `BankSync` is the scheduled pull with its tallies.
- **Deliveries.** `Delivery` models the e-mail dispatch with the provider's state and the committed
  rows apart, and a crash possible between them; `Releases` says which documents may leave.
- **Days.** `DaySpans`, `Occupancy`, `PersonCounts`, `UnitHistory` and `Agreements` are the interval
  algorithms, each against its definition per day; `OccupancyRows` says which segments and figures a
  timeline has.
- **Numbers.** `Afa` (rounding, loans, depreciation), `GermanFormat` (printing and parsing),
  `MeterFolds` (two folds over meter readings; `MeterRows` says what they return). `Order`, `Numbers`,
  `Lists` and `Rows` are shared.

Rows are numbered by their position in their table. Where the program orders rows by a random string
id, the model has a field `idOrder` for that order. Cents are unbounded integers, and a day is its
number in the calendar.

Programs that loop over mutable state are methods with loops or classes here (`Store`, `Tally`,
`StubEmailGateway`, `Session`); each is proved equal to, or against, a function or a per-day
definition, and the theorems are about those.

## What the code does otherwise than its documents or tests promise

Each of these is a lemma below, with the exact condition under which the promise holds, and with an input
or a run on which it does not.

- *An automatic payment can go to another renter than the owner of the IBAN.* The channel opens for a
  sole IBAN owner, but the booked candidate is the first-ranked one, and the ranking looks at the
  amount first, then at the payment code or surname, and at the IBAN only inside the confidence
  (`docs/15` section 4, step 3 says that the amount does not decide identity). The owner is paid exactly
  when some debt of the owner is beaten by no other renter's on the amount and, among equals, on the naming.
  `MatchingEvidence.AutomaticPaysOwnerIff`; in a reachable account `MatchingExample.AutomaticPaysStranger`.
- *One odd receivable aborts a whole sync.* The receivable table admits negative components that add up,
  and an expected amount of zero; the split then raises a plain ValueError that neither the
  service nor the job catches. The sync is aborted exactly when matching fails so at some arrival, after
  those before it (`BankSync.Sync`), and matching fails so exactly when an automatic match reaches such a
  receivable (`EngineErrors.MatchErrorIff`). With splittable receivables no sync is ever aborted; in a
  reachable account `MatchingExample.OddDebtAbortsMatch`.
- *The guards alone admit a second booking of one transaction;* that it does not happen is the
  service's doing. `Guards.GuardsAdmitSecondPayment`, from an empty database
  `Guards.GuardsStoreSecondPayment`; against it `MatchingTheorems.BookedIffEvidence`.
- *A payment that became credit altogether can never be returned,* since a return needs an allocation.
  `MatchingTheorems.ReturnAcceptedIff`; in a reachable account `MatchingExample.CreditIsNotReturned`.
- *After a crash and a change of address, the committed attempt names an address that received nothing.*
  It names the recipient exactly when the address at the first hand-over is still the one at the commit.
  `Delivery.RecipientMatchesIff`, `Delivery.CrashThenNewAddress`.
- *A bounce can then protect the wrong address.* It stops mail to the address that its attempt names, which
  is the one its message went to exactly under the same condition; otherwise the address that bounced may
  be written to again. `Delivery.BounceSparesIff`, `Delivery.BounceAtAnotherAddress`.
- *The refusal of overlapping tenancies reports too few days* when a long row covers several short ones.
  `Occupancy.ReportedOverlapExactIff`, `Occupancy.ReportedOverlapTooSmall`.
- *A note on partial self-use can promise fictional occupancy that is not there,* when another self-use of
  the whole unit covers all of its vacant days. `PersonCounts.NoteIsTrueIff`, `PersonCounts.NotedWithoutRows`.
- *The comparison of a special repayment fails with KeyError* exactly when the first installment of the
  baseline repays nothing, as with every loan without an initial repayment; and its totals make up the
  loan exactly when the special repayment falls inside the schedule. `Afa.SpecialRepaymentComparison`,
  `Afa.FirstInstallment`, `Afa.TotalsMakeUpLoanIff`.
- *A negative meter value is printed with two minus signs,* as in "-2,-5" for -1.5, exactly when it is not a
  whole number. `GermanFormat.NegativeMeterIff`.
- *The series divides by zero* when the annual amount rounds to nothing, and names a final year without
  any depreciation when the residual is zero. `Afa.DividesByZeroIff`, `Afa.SeriesRefinesYears`.
- *The segmentation of meter devices depends on the order of the input,* though each meter's figures do
  not. Two orders of the same readings agree exactly when any two devices first appear in the same order
  in both; if some device has no positive factor, exactly when the same one of those appears first, for
  the error names it. `MeterFolds.SegmentationsAgreeIff`, `MeterFolds.BadFactorIff`,
  `MeterFolds.DeviceOrderFollowsInput`.

`docs/15` section 5.2 now fixes an order for equal remainders; the shipped split still refuses them, and so
does the model.

## Model

| member | source | states |
|---|---|---|
| `PrincipalSplit.SplitIffUnambiguous` | packages/matching-engine/src/lokara_matching_engine/split.py:49-106 | the split returns a vector exactly when one largest-remainder apportionment exists, and then that one; it refuses exactly when there are two |
| `PrincipalSplit.SplitKeepsQuota` | packages/matching-engine/src/lokara_matching_engine/split.py:74-106 | the parts add up to the payment, and each is non-negative and within a cent of its exact share |
| `Settlement.Settle` | packages/matching-engine/src/lokara_matching_engine/settlement.py:165-195 | the loop over the ordered debts is the recursive settlement |
| `Settlement.SettlementCoversLine` | packages/matching-engine/src/lokara_matching_engine/settlement.py:127-195 | lay all open cents of the ordered debts end to end, costs, interest, principal; every tier of every debt gets exactly the part of it that the payment covers |
| `Settlement.CreditIsOverflow` | packages/matching-engine/src/lokara_matching_engine/settlement.py:194-195 | the credit is what reaches past the end of that line |
| `Settlement.SettlementConserves` | packages/matching-engine/src/lokara_matching_engine/settlement.py:70-83 | assigned cents and credit are the payment; allocations pay a subsequence of the debts, each at most once |
| `Settlement.EarlierDebtsFirst` | packages/matching-engine/src/lokara_matching_engine/settlement.py:183-192 | a later debt gets a cent only when every earlier one is paid in full |
| `Settlement.DesignationThenFifo` | packages/matching-engine/src/lokara_matching_engine/settlement.py:86-124 | designated debts first, then due before not due, then older first, then by id |
| `Settlement.OrderedIsPermutation` | packages/matching-engine/src/lokara_matching_engine/settlement.py:115-124 | ordering neither loses nor repeats a debt |
| `Settlement.SettleIgnoresRowOrder` | packages/matching-engine/src/lokara_matching_engine/settlement.py:86-124 | the settlement does not depend on the order in which the caller hands over the debts |
| `Scoring.AutoMatchIffSoleOwner` | packages/matching-engine/src/lokara_matching_engine/decision.py:172-198 | the automatic channel opens exactly for a sole holder of the unique-IBAN signal, unless a duplicate is suspected |
| `Scoring.FirstRankIffOutranks` | packages/matching-engine/src/lokara_matching_engine/decision.py:90-103 | the first-ranked renter is the one with a candidate that outranks everybody else's, whoever owns the IBAN |
| `Scoring.AutoMatchCanBookAnotherRenter` | packages/matching-engine/src/lokara_matching_engine/decision.py:90-103 | an input on which the automatic channel of one renter's IBAN ranks another renter first |
| `Channels.RunIs` | packages/matching-engine/src/lokara_matching_engine/decision.py:90-230 | the run of a new transaction, in figures: all unsettled debts with a profile, ranked by exact amount, then code or surname, then all facts (60 or 20 for the IBAN, 30, 15 or 10, 5, at most 100), then id; automatic exactly for a sole IBAN owner without a suspected duplicate, a review exactly for a suspected duplicate or a first rank worth 40, otherwise unmatched |
| `Channels.MatchChanges` | apps/api/src/lokara_api/matching_service.py:697-766 | a successful match stores exactly that run, once, for a positive amount, and changes nothing else unless it is automatic or a return |
| `Scoring.ComparisonConcat` | packages/matching-engine/src/lokara_matching_engine/inputs.py:133-141 | comparing texts works character by character |
| `Scoring.ComparisonOfCharacter` | packages/matching-engine/src/lokara_matching_engine/inputs.py:133-141 | digits and small letters stay, capitals become small, separators go |
| `Ledger.GuardIffNewest` | apps/api/src/lokara_api/matching_service.py:558-571 | comparing the stored after-snapshot with the projection succeeds exactly for the newest payment not yet returned on that debt |
| `Ledger.PaymentKeepsInv` | apps/api/src/lokara_api/matching_service.py:363-435 | booking a settlement keeps the ledger invariant: chained snapshots, stacked live payments, one renter per entry, balanced amounts, mirrored returns |
| `Ledger.ReturnKeepsInv` | apps/api/src/lokara_api/matching_service.py:612-683 | so does booking a return that passed the guard |
| `Ledger.ReturnPops` | apps/api/src/lokara_api/matching_service.py:558-571 | on a debt it touched, a return removes the top of the stack of live payments; elsewhere nothing |
| `Ledger.ReturnRestores` | packages/matching-engine/src/lokara_matching_engine/reversal.py:112-132 | a return writes back the before-snapshot where its payment paid and leaves other debts alone |
| `Ledger.LedgerConserves` | apps/api/src/lokara_api/matching_service.py:377-433 | opening less signed allocations is the current projection, tier by tier, for all rows and for live payments alone |
| `MatchingInvariant.SettlementIsPlan` | apps/api/src/lokara_api/matching_service.py:352-433 | what the engine returns for a renter's open debts can be booked as it stands: balanced, one row for each debt, components that add up |
| `Bookings.PaymentRunsAlongLine` | apps/api/src/lokara_api/matching_service.py:333-435 | in every reachable account, a step that books a payment is a match or a confirmation; it pays all unsettled debts of the first-ranked renter along one line (the period that the purpose names, then older, then by id), costs before interest before principal, with one row and its new projection for each debt reached, the overflow as credit, and nothing else changed |
| `Bookings.ReachableRowsAreFair` | apps/api/src/lokara_api/matching_service.py:377-435 | in every reachable account, a payment's row on a rent stores the only largest-remainder apportionment of its principal over that debt's own components in their order, which is the components themselves on full payment; on a Nachzahlung none |
| `MatchingInvariant.RunMatchKeeps` | apps/api/src/lokara_api/matching_service.py:697-766 | matching keeps the account consistent |
| `MatchingInvariant.DecideMatchKeeps` | apps/api/src/lokara_api/matching_service.py:769-844 | deciding keeps the account consistent |
| `MatchingInvariant.ResolvedIsPayment` | packages/matching-engine/src/lokara_matching_engine/reversal.py:80-109 | what the service resolves, the engine never refuses to resolve |
| `MatchingRuns.ReachableIsSound` | apps/api/src/lokara_api/matching_service.py:697-844 | after any run of debts raised, imports, matches and decisions with roll-backs the rows are consistent |
| `MatchingRuns.RaisedIff` | packages/db/alembic/versions/0018_receivable_components_rent_only.py:27-34 | a debt is raised exactly when it fits its table: what is open adds up and fits the claim, and a rent's four components add up to it |
| `MatchingTheorems.BookedIffEvidence` | apps/api/src/lokara_api/matching_service.py:697-844 | in every reachable account a transaction has at most one entry; a positive one has it exactly on AUTO_MATCH or a confirmed review, a zero one never |
| `MatchingTheorems.ReturnAcceptedIff` | apps/api/src/lokara_api/matching_service.py:517-608 | a new return is accepted exactly when it identifies one live payment of the same amount, with allocations, that is the newest on every debt it touched; else it is a conflict |
| `MatchingTheorems.ReturnUndoesPayment` | apps/api/src/lokara_api/matching_service.py:530-683 | whatever is booked in between, a return puts exactly the debts that its payment moved back to their projection before it |
| `MatchingTheorems.ReturnMirrorsPayment` | packages/db/alembic/versions/0020_m6c3_invariant_repair.py:208-225 | a reversal carries its transaction's amount, which is its payment's negated, and no credit; its rows negate the payment's row by row, tier by tier and component by component, with the snapshots exchanged; no reversal is reversed, no payment twice |
| `MatchingTheorems.EntryStaysWithRenter` | packages/db/alembic/versions/0020_m6c3_invariant_repair.py:271-323 | every entry, and the reversal of it, touches debts of its one renter only |
| `MatchingTheorems.StepMovesOneRenter` | apps/api/src/lokara_api/matching_service.py:341-350 | one step changes the debts of at most one renter |
| `MatchingTheorems.RepeatedMatch` | apps/api/src/lokara_api/matching_service.py:707-711 | matching again, at any later time, changes nothing |
| `MatchingTheorems.RepeatedDecision` | apps/api/src/lokara_api/matching_service.py:785-798 | the same decision again changes nothing, another one is always a conflict |
| `MatchingEvidence.ResolvesIffSole` | apps/api/src/lokara_api/matching_service.py:456-514 | exactly which payment a return resolves to: the only one by end-to-end reference, else by mandate, else by IBAN, amount and both dates |
| `MatchingEvidence.NamedPeriodsIff` | apps/api/src/lokara_api/matching_service.py:315-330 | the designated periods, each once, are those of the debts whose period or id stands somewhere in the purpose |
| `MatchingEvidence.OpenDebtsIff` | apps/api/src/lokara_api/matching_service.py:341-350 | a payment may reach exactly the renter's own debts that are not settled |
| `MatchingEvidence.AutomaticIffSoleIbanOwner` | apps/api/src/lokara_api/matching_service.py:202-245 | in terms of the stored rows: automatic exactly when one renter alone, with a profile and an unsettled debt, owns the IBAN |
| `MatchingEvidence.AutomaticPaysOwnerIff` | packages/matching-engine/src/lokara_matching_engine/decision.py:90-103 | an automatic match pays the owner of the IBAN exactly when some debt of the owner fits the amount no worse than every debt of everybody else and, against those that fit alike, belongs to a renter whom the purpose names no worse |
| `MatchingEvidence.AutomaticRestsOnConfirmation` | apps/api/src/lokara_api/matching_service.py:814-838 | every learned IBAN was confirmed for its renter, and every automatic match has a payer IBAN that a user confirmed before |
| `MatchingEvidence.LearnedIffConfirmed` | apps/api/src/lokara_api/matching_service.py:814-838 | in every reachable account an IBAN is learned for a renter exactly when a confirmed review put them together |
| `MatchingEvidence.DecisionTeaches` | apps/api/src/lokara_api/matching_service.py:814-838 | a decision is stored, and teaches the payer's IBAN exactly when it confirms a review for the first time |
| `MatchingExample.SomePaymentIsReturned` | apps/api/src/lokara_api/matching_service.py:697-844 | a run in which a payment is booked and returned, so the premises above are met |
| `MatchingExample.CreditIsNotReturned` | apps/api/src/lokara_api/matching_service.py:517-608 | a reachable account in which a return names one live payment of its amount, all credit, and is a conflict |
| `MatchingExample.AutomaticPaysStranger` | apps/api/src/lokara_api/matching_service.py:697-766 | a reachable account in which an automatic match settles the debt of a renter who does not own the IBAN |
| `MatchingExample.OddDebtAbortsMatch` | apps/api/src/lokara_api/matching_service.py:352-362 | a reachable account in which matching an ordinary payment raises the uncaught error |
| `LedgerTotals.ReachableConserves` | apps/api/src/lokara_api/matching_service.py:377-433 | what came in less what went back is what the debts fell by plus the credit of payments not returned |
| `LedgerTotals.ReachableDebtConserves` | apps/api/src/lokara_api/matching_service.py:377-433 | every debt's snapshots chain from its opening to its current projection, and the cents account for the difference |
| `EngineErrors.SettleRefusedIff` | packages/matching-engine/src/lokara_matching_engine/split.py:50-106 | settling is refused exactly when the payment pays some first debts in full, each splitting without a tie, and gets to one that stops it: with the plain error at negative components or nothing expected, with a conflict where two apportionments exist |
| `EngineErrors.SettleErrorIff` | apps/api/src/lokara_api/matching_service.py:333-362 | a new booking fails with the plain error exactly so; it is a conflict exactly when no renter is named, the purpose names two periods, or components tie |
| `EngineErrors.MatchErrorIff` | apps/api/src/lokara_api/matching_service.py:697-766 | matching fails with the plain error, and a payment's match with a conflict, exactly when the automatic channel opens for a new transaction and booking the first-ranked renter fails so; not found exactly when there is no such transaction |
| `EngineErrors.DecideErrorIff` | apps/api/src/lokara_api/matching_service.py:769-844 | the same for a decision, which is a conflict also where no review awaits it |
| `EngineErrors.SplittableNeverFails` | apps/api/src/lokara_api/matching_service.py:352-362 | with splittable debts no request ever fails that way |
| `EngineErrors.AdmittedUnsplittable` | packages/db/alembic/versions/0018_receivable_components_rent_only.py:27-34 | a debt that passes the CHECKs and is rejected by the split |
| `Guards.AdmitAllGuarded` | packages/db/alembic/versions/0021_m6c3a_matching_service.py:306-387 | whoever writes, admitted entries cite evidence, reversals negate one payment, rows stay within their entry's amount |
| `Guards.AdmittedEntries` | packages/db/alembic/versions/0021_m6c3a_matching_service.py:306-387 | field by field, an admitted entry: a payment cites the first rank of an automatic or confirmed run; a reversal negates one earlier payment, alone; the rows stay within the amount |
| `Guards.AdmittedRows` | packages/db/alembic/versions/0020_m6c3_invariant_repair.py:271-420 | field by field, an admitted row: one for each debt, its signs, its renter, its components |
| `Guards.AdmittedEvidence` | packages/db/alembic/versions/0021_m6c3a_matching_service.py:135-300 | stored projections, runs and confirmations |
| `Guards.ReconcilesIff` | packages/db/alembic/versions/0021_m6c3a_matching_service.py:397-466 | what the deferred check compares |
| `Guards.GuardsKeepRenters` | packages/db/alembic/versions/0020_m6c3_invariant_repair.py:271-323 | the guards alone keep every entry and its reversal with one renter |
| `Guards.ReconciledReversalNets` | packages/db/alembic/versions/0021_m6c3a_matching_service.py:397-466 | a reconciled reversal returns what its payment assigned, and is its only one |
| `Guards.GuardsAdmitSecondPayment` | packages/db/alembic/versions/0021_m6c3a_matching_service.py:306-387 | an admitted payment is admitted a second time |
| `Guards.GuardsStoreSecondPayment` | packages/db/alembic/versions/0021_m6c3a_matching_service.py:306-466 | writes from an empty database after which one transaction has two payments and every entry reconciles |
| `AllocationCap.InsertOneByOne` | packages/db/alembic/versions/0020_m6c3_invariant_repair.py:374-420 | the row-by-row cap accepts a batch exactly when all signs fit and the total lies between nothing and the amount |
| `AllocationCap.FitsInAnyOrder` | packages/db/alembic/versions/0020_m6c3_invariant_repair.py:374-420 | so the order of insertion never matters |
| `Admission.BatchAdmitted` | packages/db/alembic/versions/0020_m6c3_invariant_repair.py:271-420 | each row that the service writes is admitted when its turn comes |
| `Admission.AllReconcile` | packages/db/alembic/versions/0021_m6c3a_matching_service.py:397-466 | the deferred reconciliation never refuses a consistent account |
| `MatchingService.Store.WriteBooking` | apps/api/src/lokara_api/matching_service.py:363-435 | the loop over the allocations, guarded row by row, is the posting of the ledger |
| `MatchingService.Store.SettlePayment` | apps/api/src/lokara_api/matching_service.py:333-435 | settling over the stored rows follows its function, with the same exceptions |
| `MatchingService.Store.ReversePayment` | apps/api/src/lokara_api/matching_service.py:517-694 | returning over the stored rows follows its function |
| `MatchingService.Store.MatchOrRollBack` | apps/api/src/lokara_api/jobs.py:210-220 | matching in a savepoint: the function's state on success, the old state otherwise, never an integrity error |
| `MatchingService.Store.DecideOrRollBack` | apps/api/src/lokara_api/matching_service.py:769-844 | the same for a decision |
| `BankSync.ImportStoresOnce` | apps/api/src/lokara_api/bank_sync.py:88-134 | an import stores exactly the new provider ids, each once, touches no stored row, and stores each new movement as it was pulled: amount, dates, IBAN, purpose, references, duplicate flag; of a repeated provider id the first |
| `BankSync.ReimportAddsNothing` | apps/api/src/lokara_api/bank_sync.py:88-134 | pulling the same movements again adds no row |
| `BankSync.ImportPhases` | apps/api/src/lokara_api/jobs.py:237-301 | over all bank accounts: the new rows are exactly the new movements of the accounts with a standing consent; each account's phase names its own rows and counts the known ones, or says why it was skipped |
| `BankSync.ImportTransactions` | apps/api/src/lokara_api/bank_sync.py:59-134 | the loop with its set of known ids is that import; without a standing consent nothing is pulled, with the reason |
| `BankSync.MatchOne` | apps/api/src/lokara_api/jobs.py:210-235 | one transaction is filed in the bucket of its ending, or in none if its amount is zero; settled counts its new entry; a refused one changes nothing |
| `BankSync.Sync` | apps/api/src/lokara_api/jobs.py:273-340 | the same; the uncaught error aborts the run exactly when it strikes at some arrival, and never with splittable receivables; otherwise every tally says how its arrivals ended in the stored rows, bucket by bucket and refusal by refusal, and reconciles with what was imported and with the new ledger entries |
| `BankSync.OrderIsPermutation` | apps/api/src/lokara_api/jobs.py:311-320 | what arrived is matched once each, in the order of booking days and then of provider ids |
| `Delivery.StubEmailGateway.Send` | packages/adapters/src/lokara_adapters/email.py:123-138 | a known key returns its receipt, a new one is accepted; one message per key |
| `Delivery.DeliveredAtMostOnce` | apps/api/src/lokara_api/jobs.py:1241-1321 | over every run with crashes: one message per key, one attempt per key, and the status event of an attempt's dispatch carries the id of that message |
| `Delivery.DispatchAnswers` | apps/api/src/lokara_api/jobs.py:1066-1290 | for every answer of a dispatch, exactly when it is given: a message is handed over exactly when the address is present and single, no bounce or complaint stands against it, the document is released and intact, the sender is in the domain, the provider can deduplicate, and no attempt was made before |
| `Delivery.MessagesWereReleased` | apps/api/src/lokara_api/jobs.py:1117-1310 | over every run, each message was first handed over by a request for a frozen document and carries its content to the renter's address of that moment |
| `Releases.ReleasedIff` | apps/api/src/lokara_api/jobs.py:1146-1221 | a document is released exactly when it is stored, hashes to its stored hash, is blocked by nothing, and its immutable source still says the same; otherwise which of these fails |
| `Releases.DispatchDocument` | apps/api/src/lokara_api/jobs.py:1066-1335 | the dispatch of a stored document follows its function with that answer |
| `Delivery.StripIs` | apps/api/src/lokara_api/jobs.py:1080-1104 | an address loses the blanks at its ends |
| `Delivery.NormalizedIs` | apps/api/src/lokara_api/jobs.py:1080-1104 | and is put in lower case |
| `Delivery.KeyText` | apps/api/src/lokara_api/jobs.py:1241-1244 | the text of the key |
| `Delivery.CommittedNeverResent` | apps/api/src/lokara_api/jobs.py:1245-1268 | a key with a committed attempt is never handed over again |
| `Delivery.NothingAfterComplaint` | apps/api/src/lokara_api/jobs.py:1102-1141 | after a committed bounce or complaint of an attempt no message to the address that the attempt names is ever accepted again |
| `Delivery.SparedIffHistory` | apps/api/src/lokara_api/jobs.py:1102-1141 | an address is never written to again, whatever follows, exactly when the history holds a bounce or complaint of an attempt that names it |
| `Delivery.BounceSparesIff` | apps/api/src/lokara_api/jobs.py:1102-1141 | a bounce spares the address that its attempt names; the one its message went to exactly when that is the same one, or another bounce names it |
| `Delivery.BounceAtAnotherAddress` | apps/api/src/lokara_api/jobs.py:1276-1321 | runs in which a message bounces, its address may be written to again, and one that received nothing never will be |
| `Delivery.NothingWhileSuppressed` | apps/api/src/lokara_api/jobs.py:1102-1141 | over every run in which nobody drops the suppression of an address by hand, no message to it is accepted |
| `Delivery.SuppressionsAreHistory` | packages/db/alembic/versions/0025_m9_guard_delivery.py:645-680 | over every run without a suppression dropped by hand, the trigger's suppressions are exactly the addresses with a bounce or complaint in the history |
| `Delivery.RecipientMatchesIff` | apps/api/src/lokara_api/jobs.py:1276-1321 | over every run, a committed attempt names the recipient of its message exactly when the renter's address at the step that first handed the key over is the one at the step that committed |
| `Delivery.AttemptHistory` | apps/api/src/lokara_api/jobs.py:1276-1321 | every committed attempt has those two steps, in that order |
| `Delivery.RecipientMatchesUnchanged` | apps/api/src/lokara_api/jobs.py:1276-1321 | so it names the recipient whenever the renter's address was left alone between them |
| `Delivery.CrashThenNewAddress` | apps/api/src/lokara_api/jobs.py:1276-1321 | the run in which it does not |
| `Delivery.KeysAreInjective` | apps/api/src/lokara_api/jobs.py:1241-1244 | different occurrences have different keys unless a renter id contains a colon |
| `Delivery.Session.DispatchRenterArtifact` | apps/api/src/lokara_api/jobs.py:1066-1335 | one dispatch over the session's rows and the gateway follows its function |
| `DaySpans.Subtract` | apps/api/src/lokara_api/person_counts.py:238-258 | the loops are the piecewise subtraction |
| `DaySpans.SubtractExact` | apps/api/src/lokara_api/person_counts.py:238-258 | the pieces hold exactly the days of the gap that no cover holds |
| `DaySpans.SubtractCanonical` | apps/api/src/lokara_api/person_counts.py:238-258 | they are ordered, non-empty and at least a day apart |
| `DaySpans.SubtractIgnoresOrder` | apps/api/src/lokara_api/person_counts.py:238-258 | the list depends on the covered days alone |
| `Occupancy.BuildUnitSegments` | packages/domain/src/lokara_domain/occupancy.py:107-158 | clipping, pairwise check with the figures of a refusal, and gap filling follow their function |
| `Occupancy.RefusedIffShared` | packages/domain/src/lokara_domain/occupancy.py:125-147 | looking at neighbours finds every overlap: refused exactly when two rows share a day of the window |
| `Occupancy.RefusedOnFirstSharedDay` | packages/domain/src/lokara_domain/occupancy.py:130-147 | the reported day is the first day of the window that two rows share |
| `Occupancy.SegmentsAreDays` | packages/domain/src/lokara_domain/occupancy.py:149-158 | the segments cover the window without gap or overlap, each day with the label of the row that holds it |
| `OccupancyRows.SegmentsAreRows` | packages/domain/src/lokara_domain/occupancy.py:149-158 | each row with a day in the window is a segment of its own, and each vacancy between rows is one |
| `OccupancyRows.ReportedFigures` | packages/domain/src/lokara_domain/occupancy.py:130-147 | the figures of a refusal: window days, days claimed by all rows, and days shared by rows next to each other |
| `OccupancyRows.InOrderIs` | packages/domain/src/lokara_domain/occupancy.py:116-129 | the rows by start, those that start together as stored |
| `Occupancy.ReportedOverlapExactIff` | packages/domain/src/lokara_domain/occupancy.py:130-147 | for every refusal: the reported overlap is at most the claimed days less the distinct days held, and equal exactly when no row is reached from further back than its neighbour |
| `Occupancy.ReportedOverlapTooSmall` | packages/domain/src/lokara_domain/occupancy.py:130-147 | three occupancy rows whose refusal reports one day too few |
| `PersonCounts.FictionalRows` | apps/api/src/lokara_api/person_counts.py:119-173 | the loops over units, gaps and pieces, with the notes on partial self-use, follow their function |
| `PersonCounts.UnitsStayApart` | apps/api/src/lokara_api/person_counts.py:139-173 | each unit has exactly its own rows and notes in the lists of the building; refused exactly when some unit is, for the first such |
| `PersonCounts.NotedIff` | apps/api/src/lokara_api/person_counts.py:147-151 | a self-use is noted exactly when it is partial and some of its window days are not rented |
| `PersonCounts.NoteIsTrueIff` | apps/api/src/lokara_api/person_counts.py:176-230 | the note's vacant days have fictional occupancy exactly when on some of them no row uses the whole unit |
| `PersonCounts.NotedWithoutRows` | apps/api/src/lokara_api/person_counts.py:176-230 | two self-uses for which they have none |
| `PersonCounts.EnteredRows` | apps/api/src/lokara_api/person_counts.py:95-107 | the loop over stored counts, clipped to their tenancies, follows its function |
| `PersonCounts.PersonDaysCountedOnce` | apps/api/src/lokara_api/person_counts.py:85-173 | every day of the window is counted at most once; by an entered row exactly when a count of a running tenancy runs, with its persons; by a fictional row exactly when vacant, not fully self-used and the mode allows it, with one person or with those of the last tenancy |
| `PersonCounts.RunningCountEntered` | apps/api/src/lokara_api/person_counts.py:95-107 | every count that runs on a day has a row with its tenancy and its persons |
| `PersonCounts.InheritsFromLastEnded` | apps/api/src/lokara_api/person_counts.py:261-287 | the tenancy whose count a vacancy inherits is the last one that ended |
| `PersonCounts.InheritsLatestCount` | apps/api/src/lokara_api/person_counts.py:280-287 | and the count is the one of that tenancy which began last |
| `UnitHistory.History` | apps/api/src/lokara_api/unit_dashboard.py:250-310 | segments newest first, contiguous from the earliest row to the day of the report, one current, beginning exactly at the start and where a begun row begins or ends; each day shows the first tenancy that runs, else the first row that does, else vacancy |
| `Agreements.AgreementFailurePeriods` | apps/api/src/lokara_api/statement_service.py:499-558 | ordered, maximal periods that hold exactly the occupied window days on which the first agreement in force is missing, does not agree, does not name the cost, or has no clause for a new one |
| `Agreements.PeriodsAreUnique` | apps/api/src/lokara_api/statement_service.py:533-558 | no other such list of periods describes those days |
| `Afa.HalfUpNearest` | packages/afa-engine/src/afa_engine/__init__.py:87-90 | the rounded value is the nearest integer, away from zero on a tie, and the only such one |
| `Afa.RunLoan` | packages/afa-engine/src/afa_engine/__init__.py:168-193 | the month-by-month loop is the recurrence; it blocks exactly when some installment repays nothing |
| `Afa.LoanFigures` | packages/afa-engine/src/afa_engine/__init__.py:168-193 | annuity and monthly interest are the nearest cent to a twelfth of the yearly rate, and the rest of the annuity is repaid |
| `Afa.BlockedOnlyAtFirst` | packages/afa-engine/src/afa_engine/__init__.py:176-184 | only the first installment can block |
| `Afa.CompareSpecial` | packages/afa-engine/src/afa_engine/__init__.py:317-328 | both runs and their differences; unavailable exactly when some installment of either run repays nothing |
| `Afa.SpecialRepaymentComparison` | packages/afa-engine/src/afa_engine/__init__.py:317-328 | the comparison fails exactly when the first baseline installment repays nothing; no month's interest is higher; closings are apart by what was repaid inside the schedule plus the interest saved |
| `Afa.FirstInstallment` | packages/afa-engine/src/afa_engine/__init__.py:168-184 | a loan without initial repayment always fails so, one that repays a cent a month never does |
| `Afa.TotalsMakeUpLoanIff` | packages/afa-engine/src/afa_engine/__init__.py:325-328 | total repayment and closing make up the loan exactly when the special repayment falls inside the schedule or is nothing |
| `Afa.BookValueClosed` | packages/afa-engine/src/afa_engine/__init__.py:196-208 | the closed form is the year-by-year depreciation |
| `Afa.SeriesRefinesYears` | packages/afa-engine/src/afa_engine/__init__.py:196-208 | annual and first-year amounts are the nearest cents; first year, full years and residual make up the basis; the book value is the residual, then zero in the final year |
| `Afa.DividesByZeroIff` | packages/afa-engine/src/afa_engine/__init__.py:196-200 | the series divides by zero exactly when basis times rate is below half a cent a year |
| `Afa.RemainingLifeResidual` | packages/afa-engine/src/afa_engine/__init__.py:309-315 | rounding over the remaining life leaves at most half a cent a year |
| `GermanFormat.InputReadsBack` | apps/web/src/lib/format.ts:9-30 | parsing a printed input value gives it back exactly when it is not negative, and null otherwise |
| `GermanFormat.DisplayReadsBack` | apps/web/src/lib/format.ts:9-46 | the same for the grouped display with its currency sign |
| `GermanFormat.MeterValueReadsBack` | apps/web/src/lib/format.ts:56-71 | the same for meter values, although trailing zeros are not printed |
| `GermanFormat.DotsMeanNothing` | apps/web/src/lib/format.ts:10-14 | every accepted spelling means the same without its dots |
| `GermanFormat.NeverNegative` | apps/web/src/lib/format.ts:10-14 | no text is read as a negative number |
| `GermanFormat.EurReadsIff` | apps/web/src/lib/format.ts:9-15 | exactly which texts are read as which amount: whole euros with or without dots, none, one or two decimals |
| `GermanFormat.MeterReadsIff` | apps/web/src/lib/format.ts:56-61 | the same for meter values with up to three decimals |
| `GermanFormat.InputPrints` | apps/web/src/lib/format.ts:25-30 | the text of an input value, a minus in front of a negative one |
| `GermanFormat.DisplayPrints` | apps/web/src/lib/format.ts:39-46 | the text of a display, grouped, with the currency sign |
| `GermanFormat.MeterPrints` | apps/web/src/lib/format.ts:64-71 | a meter value is printed with exactly the decimals that are not trailing zeros |
| `GermanFormat.NegativeMeterIff` | apps/web/src/lib/format.ts:64-71 | a negative one is its amount behind a minus exactly when it is whole |
| `GermanFormat.DigitsAre` | apps/web/src/lib/format.ts:25-46 | the digits of a number, without a leading zero |
| `GermanFormat.GroupIs` | apps/web/src/lib/format.ts:39-46 | dots every three digits from the end, none in front |
| `MeterFolds.ConsumptionByMeter` | packages/adapters/src/lokara_adapters/meter.py:135-181 | the dictionaries of latest readings yield each meter's consumption, or none |
| `MeterRows.ConsumptionIs` | packages/adapters/src/lokara_adapters/meter.py:154-181 | a consumption is the value that counts on the last day less the one that counts on the first, of two days, never negative; of several readings of a day the last recorded counts, the later one on a tie |
| `MeterFolds.DeviceReadingSegments` | packages/adapters/src/lokara_adapters/meter.py:184-255 | the loop over meters yields devices and spans in order of first appearance |
| `MeterFolds.SpansOfDevice` | packages/adapters/src/lokara_adapters/meter.py:208-254 | the returned spans of a device are the pairs of its effective readings in order, and nothing else has spans |
| `MeterRows.DeviceSpansAre` | packages/adapters/src/lokara_adapters/meter.py:218-254 | each span runs between neighbouring effective readings: whom it concerns, and register values or the estimate |
| `MeterRows.SegmentationAnswers` | packages/adapters/src/lokara_adapters/meter.py:201-216 | devices are the heat meters of units by newest reading, in order of first appearance; refused for the first of them without a positive factor |
| `MeterFolds.FoldsAgree` | packages/adapters/src/lokara_adapters/meter.py:154-255 | a returned device without estimates in its returned spans has a consumption exactly when it has a span and its spans add up to at least nothing; and it is that sum |
| `MeterFolds.FoldsIgnoreOrder` | packages/adapters/src/lokara_adapters/meter.py:154-196 | with distinct recording times neither fold of a meter depends on the order or repetition of the input |
| `MeterFolds.SegmentationsAgreeIff` | packages/adapters/src/lokara_adapters/meter.py:208-255 | with distinct recording times, two inputs of the same readings are segmented alike exactly when any two devices first appear in the same order in both, or, where a factor is bad, the same bad device appears first |
| `MeterFolds.BadFactorIff` | packages/adapters/src/lokara_adapters/meter.py:211-216 | the segmentation is refused exactly when some unit heat meter has no positive factor |
| `MeterFolds.DeviceOrderFollowsInput` | packages/adapters/src/lokara_adapters/meter.py:208-224 | two devices with one reading each, handed over either way, are segmented differently |

## Left out

- Accounts: the model is one account; row-level security, roles and cross-account edges are database machinery.
- Locking and the timing of triggers: a step is atomic; concurrent requests are not modelled.
- Allocations without snapshots from before migration 0021: the service refuses to return them; the model has none.
- Closing an IBAN (`valid_to`), tenancy parties, and changes of a receivable's other columns than its projection.
- The component rows derived for the tax export from each allocation, and the tax export itself.
- Text normalization beyond ASCII, and normalization of IBANs: the model's IBANs are already normalized.
- The collation of the database in the matching order: provider ids are compared by character code.
- BankSync.Sync: says nothing about the state after the uncaught engine error, because the caller's transaction is rolled back then.
- AllocationCap.InsertOneByOne: the sum of the stored rows is a running total; `Store.StoredRows` does the summation over the table.
- Releases.DispatchDocument: the lookup of the document by its ids and the hash function are parameters; legal confirmation and the schedules around a dispatch are not modelled.
- Delivery: another writer of status events is any event of any attempt in a run; the repository has none besides the dispatch (`apps/api/src/lokara_api/jobs.py`, line 1311).
- PersonCounts.FictionalRows: a note on partial self-use is its span; its German text is not modelled.
- UnitHistory: documents, meters and the rest of the dashboard.
- Afa: the allocation routes that are one formula each, the 15 percent guard with its measures, and the 28 digits of the decimal division inside the rounding.
- GermanFormat: numbers beyond 2^53, and spaces other than the usual ones.
- MeterFolds.DeviceReadingSegments: device evidence that is only copied (serials, rooms, reasons, sources, provenance), and non-finite factors.
- Heating and operating-cost engines, documents, HTTP, the web interface, and all imports of files.
