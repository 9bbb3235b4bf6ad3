/**
 * What the matching service does to one account's rows, as a function from state to state.
 * A conflict or an engine error leaves no state behind: the caller rolls back.
 */
module Matching {
  import opened Rows
  import opened Settlement
  import opened Scoring
  import L = Ledger

  datatype Outcome = Confirmed | Rejected | Duplicate

  /** One immutable proposal run; a run without candidates is a single row that names nobody. */
  datatype Run = Run(decision: Decision, rows: seq<Option<Score>>)

  datatype Db = Db(
    book: L.Book, transactions: seq<Transaction>, runs: map<nat, Run>, confirmations: map<nat, Outcome>,
    profiles: map<nat, Profile>, ibans: set<(nat, string)>)

  datatype Step = Done(db: Db) | Conflict | EngineError | NotFound

  // ---- Candidates and the proposal run ----------------------------------------------------------

  function Owners(ibans: set<(nat, string)>, iban: string): set<nat>
  {
    if iban == "" then {} else set p | p in ibans && p.1 == iban :: p.0
  }

  function IbansOf(ibans: set<(nat, string)>, renter: nat): set<string>
  {
    set p | p in ibans && p.0 == renter :: p.1
  }

  function OwnershipOf(ibans: set<(nat, string)>, iban: string, renter: nat): Ownership
  {
    if renter !in Owners(ibans, iban) then Ownership.Unknown
    else if |Owners(ibans, iban)| == 1 then Ownership.Unique
    else Ownership.Shared
  }

  /** Open or partial debts of renters with a matching profile. */
  function Candidates(receivables: seq<Receivable>, profiles: map<nat, Profile>, ibans: set<(nat, string)>,
                      iban: string): seq<Candidate>
  {
    if receivables == [] then []
    else
      var r := receivables[0];
      (if r.open.status != Settled && r.claim.renter in profiles
       then [Candidate(r, profiles[r.claim.renter], IbansOf(ibans, r.claim.renter),
                       OwnershipOf(ibans, iban, r.claim.renter))]
       else [])
      + Candidates(receivables[1..], profiles, ibans, iban)
  }

  function RankedRows(ranked: seq<Score>): seq<Option<Score>>
  {
    if ranked == [] then [] else [Some(ranked[0])] + RankedRows(ranked[1..])
  }

  function MakeRun(proposal: Proposal): Run
  {
    Run(proposal.decision, if proposal.ranked == [] then [None] else RankedRows(proposal.ranked))
  }

  function ProposeRun(db: Db, t: nat): Run
    requires t < |db.transactions|
  {
    MakeRun(Propose(db.transactions[t],
                    Candidates(db.book.receivables, db.profiles, db.ibans, db.transactions[t].iban)))
  }

  /** Positive evidence: the automatic channel, or a confirmed review. */
  predicate Evidence(db: Db, t: nat)
  {
    && t in db.runs
    && (db.runs[t].decision == AutoMatch
        || (db.runs[t].decision == NeedsReview && t in db.confirmations && db.confirmations[t] == Confirmed))
  }

  // ---- Settling -----------------------------------------------------------------------------------

  function OpenDebts(receivables: seq<Receivable>, renter: nat): seq<Receivable>
  {
    if receivables == [] then []
    else (if receivables[0].open.status != Settled && receivables[0].claim.renter == renter
          then [receivables[0]]
          else [])
         + OpenDebts(receivables[1..], renter)
  }

  /** The periods that the purpose text names, by the period itself or by a receivable's id. */
  function NamedPeriods(purpose: string, rows: seq<Receivable>): seq<string>
  {
    if rows == [] || purpose == "" then []
    else
      var rest, claim := NamedPeriods(purpose, rows[1..]), rows[0].claim;
      if (Contains(purpose, Comparison(claim.period)) || Contains(purpose, Comparison(claim.idText)))
         && claim.period !in rest
      then [claim.period] + rest
      else rest
  }

  function LedgerFor(entries: seq<L.Entry>, t: nat): Option<nat>
  {
    if entries == [] then None
    else if entries[|entries| - 1].proposal == Some(L.Cite(t, 1)) then Some(|entries| - 1)
    else LedgerFor(entries[..|entries| - 1], t)
  }

  /** A Nachzahlung persists no named components. */
  function PersistedParts(claim: Claim, parts: seq<int>): seq<int>
  {
    if claim.category == Nachzahlung then [0, 0, 0, 0] else parts
  }

  function Persist(receivables: seq<Receivable>, allocations: seq<Allocation>): seq<Allocation>
  {
    if allocations == [] then []
    else
      var a := allocations[0];
      (if a.receivable < |receivables|
       then [a.(parts := PersistedParts(receivables[a.receivable].claim, a.parts))]
       else [a])
      + Persist(receivables, allocations[1..])
  }

  function PaymentEntry(t: Transaction, credit: int): L.Entry
  {
    L.Entry(t.id, Some(L.Cite(t.id, 1)), L.Payment, t.amount, credit, None)
  }

  function SettlePayment(db: Db, t: nat): Step
    requires t < |db.transactions| && t in db.runs && db.runs[t].rows != []
  {
    var tx := db.transactions[t];
    if LedgerFor(db.book.entries, t).Some? then Done(db)
    else if db.runs[t].rows[0].None? then Conflict
    else
      var rows := OpenDebts(db.book.receivables, db.runs[t].rows[0].value.renter);
      var named := NamedPeriods(Comparison(tx.purpose), rows);
      if |named| > 1 then Conflict
      else match SettleSpec(tx.amount, tx.bookingDate, rows, if named == [] then None else Some(named[0]))
        case Settlement(allocations, credit) =>
          Done(db.(book := L.Post(db.book, PaymentEntry(tx, credit), Persist(db.book.receivables, allocations))))
        case Refusing(TieBreak) => Conflict
        case Refusing(BadVector) => EngineError
  }

  // ---- Returning ----------------------------------------------------------------------------------

  /** Ledger positions of the payments whose transaction resembles the return in one respect. */
  datatype Channel = EndToEnd | Mandate | IbanAmountDate

  predicate Resembles(channel: Channel, returned: Transaction, original: Transaction)
  {
    match channel
    case EndToEnd => returned.endToEnd.Some? && original.endToEnd == returned.endToEnd
    case Mandate => returned.mandate.Some? && original.mandate == returned.mandate
    case IbanAmountDate =>
      && returned.iban != "" && original.iban == returned.iban
      && original.amount == -returned.amount
      && original.bookingDate == returned.bookingDate && original.valueDate == returned.valueDate
  }

  function Matches(entries: seq<L.Entry>, transactions: seq<Transaction>, channel: Channel,
                   returned: Transaction): seq<nat>
  {
    if entries == [] then []
    else
      var n := |entries| - 1;
      Matches(entries[..n], transactions, channel, returned)
      + (if entries[n].kind == L.Payment && entries[n].transaction < |transactions|
            && Resembles(channel, returned, transactions[entries[n].transaction]) then [n] else [])
  }

  /** End-to-end reference, then mandate reference, then IBAN, amount and dates; ambiguity is refused. */
  function Resolve(db: Db, returned: Transaction): Option<nat>
  {
    var byReference := Matches(db.book.entries, db.transactions, EndToEnd, returned);
    var byMandate := Matches(db.book.entries, db.transactions, Mandate, returned);
    var byIban := Matches(db.book.entries, db.transactions, IbanAmountDate, returned);
    if |byReference| > 1 then None
    else if |byReference| == 1 then Some(byReference[0])
    else if |byMandate| > 1 then None
    else if |byMandate| == 1 then Some(byMandate[0])
    else if |byIban| == 1 then Some(byIban[0])
    else None
  }

  function ReversalFor(entries: seq<L.Entry>, t: nat): Option<nat>
  {
    if entries == [] then None
    else if entries[|entries| - 1].transaction == t && entries[|entries| - 1].kind == L.Reversal
    then Some(|entries| - 1)
    else ReversalFor(entries[..|entries| - 1], t)
  }

  predicate Reversed(entries: seq<L.Entry>, e: nat)
  {
    exists j | 0 <= j < |entries| :: entries[j].reverses == Some(e)
  }

  /** The engine resolves the pair it was handed once more, by the same three channels. */
  predicate EngineResolves(returned: Transaction, original: Transaction)
  {
    || Resembles(EndToEnd, returned, original) || Resembles(Mandate, returned, original)
    || Resembles(IbanAmountDate, returned, original)
  }

  function ReversalEntry(t: Transaction, payment: nat): L.Entry
  {
    L.Entry(t.id, None, L.Reversal, t.amount, 0, Some(payment))
  }

  function ReversePayment(db: Db, t: nat): Step
    requires t < |db.transactions|
  {
    var tx := db.transactions[t];
    if ReversalFor(db.book.entries, t).Some? then Done(db)
    else match Resolve(db, tx)
      case None => Conflict
      case Some(p) =>
        if p >= |db.book.entries| || db.book.entries[p].transaction >= |db.transactions| then Conflict
        else
          var own := L.OfEntry(db.book.rows, p);
          if Reversed(db.book.entries, p) || own == [] || !L.Unmoved(db.book, own) then Conflict
          else if !EngineResolves(tx, db.transactions[db.book.entries[p].transaction])
                  || tx.amount >= 0 || Assigned(own) + db.book.entries[p].credit != -tx.amount then Conflict
          else Done(db.(book := L.Post(db.book, ReversalEntry(tx, p), L.Mirrors(own))))
  }

  // ---- The two operations ---------------------------------------------------------------------------

  function RunMatch(db: Db, t: nat): Step
  {
    if t >= |db.transactions| then NotFound
    else if db.transactions[t].amount < 0 then ReversePayment(db, t)
    else if db.transactions[t].amount == 0 || t in db.runs then Done(db)
    else
      var run := ProposeRun(db, t);
      var proposed := db.(runs := db.runs[t := run]);
      if run.decision == AutoMatch then SettlePayment(proposed, t) else Done(proposed)
  }

  /** A confirmed review teaches the payer's IBAN. */
  function Learn(db: Db, t: nat): Db
    requires t < |db.transactions| && t in db.runs && db.runs[t].rows != []
  {
    if db.transactions[t].iban == "" || db.runs[t].rows[0].None? then db
    else db.(ibans := db.ibans + {(db.runs[t].rows[0].value.renter, db.transactions[t].iban)})
  }

  function DecideMatch(db: Db, t: nat, outcome: Outcome): Step
  {
    if t >= |db.transactions| || t !in db.runs || db.runs[t].rows == [] then NotFound
    else if db.runs[t].decision != NeedsReview then Conflict
    else if t in db.confirmations then (if db.confirmations[t] == outcome then Done(db) else Conflict)
    else
      var decided := db.(confirmations := db.confirmations[t := outcome]);
      if outcome != Confirmed then Done(decided)
      else match SettlePayment(decided, t)
        case Done(settled) => Done(Learn(settled, t))
        case other => other
  }
}
