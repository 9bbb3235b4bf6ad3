/**
 * The matching service over the stored rows: it inserts and updates them one at a time, the guards
 * look at every one, and the outcome is the state that `Matching` describes.
 */
module MatchingService {
  import opened Rows
  import opened Settlement
  import opened Scoring
  import opened Matching
  import opened MatchingInvariant
  import opened Guards
  import opened Admission
  import L = Ledger

  /** Exceptions of the service; an integrity error is a row that the database refused. */
  datatype Error = ConflictError | SplitError | NotFoundError | IntegrityError

  datatype Code = Ok | Raised(error: Error)

  /** The code and state of a call agree with the step it should take. */
  ghost predicate Follows(code: Code, state: Db, step: Step)
  {
    match step
    case Done(db) => code == Ok && state == db
    case Conflict => code == Raised(ConflictError)
    case EngineError => code == Raised(SplitError)
    case NotFound => code == Raised(NotFoundError)
  }

  class Store {
    var receivables: seq<Receivable>
    var entries: seq<L.Entry>
    var rows: seq<L.Row>
    var transactions: seq<Transaction>
    var runs: map<nat, Run>
    var confirmations: map<nat, Outcome>
    var profiles: map<nat, Profile>
    var ibans: set<(nat, string)>
    /** Each debt's projection when it was raised. */
    ghost var init: seq<Projection>

    function Book(): L.Book
      reads this
    {
      L.Book(receivables, entries, rows)
    }

    function State(): Db
      reads this
    {
      Db(L.Book(receivables, entries, rows), transactions, runs, confirmations, profiles, ibans)
    }

    ghost predicate Valid()
      reads this
    {
      Consistent(State(), init)
    }

    // ---- Guarded writes -----------------------------------------------------------------------------

    method InsertEntry(entry: L.Entry) returns (admitted: bool)
      modifies this`entries
      ensures admitted == EntryAdmitted(old(State()), entry)
      ensures State() == Admit(old(State()), AddEntry(entry))
    {
      admitted := EntryAdmitted(State(), entry);
      if admitted {
        entries := entries + [entry];
      }
    }

    /** What an entry's stored rows assign already, and whether one of them hits the receivable. */
    method StoredRows(e: nat, receivable: nat) returns (total: int, taken: bool)
      ensures total == Assigned(L.OfEntry(rows, e))
      ensures !taken <==> forall k | 0 <= k < |rows| && rows[k].entry == e :: rows[k].booked.receivable != receivable
    {
      var i := 0;
      total, taken := 0, false;
      assert rows[..0] == [];
      while i < |rows|
        invariant 0 <= i <= |rows|
        invariant total == Assigned(L.OfEntry(rows[..i], e))
        invariant !taken <==> forall k | 0 <= k < i && rows[k].entry == e :: rows[k].booked.receivable != receivable
      {
        OneMoreRow(rows, i, e);
        if rows[i].entry == e {
          total := total + rows[i].booked.paid.Total();
          taken := taken || rows[i].booked.receivable == receivable;
        }
        i := i + 1;
      }
      assert rows[..i] == rows;
    }

    method InsertRow(row: L.Row) returns (admitted: bool)
      modifies this`rows
      ensures admitted == RowAdmitted(old(State()), row)
      ensures State() == Admit(old(State()), AddRow(row))
    {
      hide SignFits, EntryRenter, ComponentsFit, WithinCap, L.OfEntry;
      if row.entry >= |entries| || row.booked.receivable >= |receivables| {
        return false;
      }
      var entry, debt := entries[row.entry], receivables[row.booked.receivable];
      var total, taken := StoredRows(row.entry, row.booked.receivable);
      admitted := !taken && SignFits(entry.kind, row.booked)
                  && WithinCap(entry.kind, entry.amount, total + row.booked.paid.Total())
                  && EntryRenter(State(), entry) == Some(debt.claim.renter)
                  && ComponentsFit(debt.claim, row.booked);
      if admitted {
        rows := rows + [row];
      }
    }

    method UpdateProjection(r: nat, p: Projection) returns (admitted: bool)
      requires r < |receivables|
      modifies this`receivables
      ensures admitted == ProjectionAdmitted(old(receivables[r]).claim, p)
      ensures receivables
           == if admitted then old(receivables)[r := old(receivables[r]).(open := p)] else old(receivables)
    {
      admitted := ProjectionAdmitted(receivables[r].claim, p);
      if admitted {
        receivables := receivables[r := receivables[r].(open := p)];
      }
    }

    method InsertRun(t: nat, run: Run) returns (admitted: bool)
      modifies this`runs
      ensures admitted == RunAdmitted(old(State()), t, run)
      ensures State() == Admit(old(State()), AddRun(t, run))
    {
      admitted := RunAdmitted(State(), t, run);
      if admitted {
        runs := runs[t := run];
      }
    }

    method InsertConfirmation(t: nat, outcome: Outcome) returns (admitted: bool)
      modifies this`confirmations
      ensures admitted == ConfirmationAdmitted(old(State()), t)
      ensures State() == Admit(old(State()), AddConfirmation(t, outcome))
    {
      admitted := ConfirmationAdmitted(State(), t);
      if admitted {
        confirmations := confirmations[t := outcome];
      }
    }

    /** Inserts an entry, then row by row its allocations and the projections they leave. */
    method WriteBooking(entry: L.Entry, allocations: seq<Allocation>) returns (admitted: bool)
      requires EntryAdmitted(State(), entry) && BatchReady(State(), entry, allocations)
      modifies this`entries, this`rows, this`receivables
      ensures admitted && State() == old(State()).(book := L.Post(old(Book()), entry, allocations))
    {
      hide EntryAdmitted, BatchReady, RowAdmitted, ProjectionAdmitted, L.Post, L.Applicable, L.RowsSound;
      ghost var before := State();
      ReversedExists(before, entry);
      var n := |entries|;
      admitted := InsertEntry(entry);
      NothingPosted(before.book, entry, allocations);
      var i := 0;
      while i < |allocations| && admitted
        invariant 0 <= i <= |allocations| && admitted
        invariant State() == before.(book := Midway(before.book, entry, allocations, i))
      {
        var a := allocations[i];
        BatchAdmitted(before, entry, allocations, i);
        MidwayKeepsTable(before, entry, allocations, i);
        NextStep(before.book, entry, allocations, i);
        admitted := InsertRow(L.Row(n, a));
        if admitted {
          admitted := UpdateProjection(a.receivable, a.after);
        }
        i := i + 1;
      }
      WholePosted(before.book, entry, allocations);
    }

    // ---- Settling and returning -------------------------------------------------------------------------

    method SettlePayment(t: nat) returns (code: Code)
      requires AwaitsBooking(State(), init, t) && Evidence(State(), t)
      modifies this`entries, this`rows, this`receivables
      ensures t < |old(transactions)| && old(runs)[t].rows != []
      ensures Follows(code, State(), Matching.SettlePayment(old(State()), t))
    {
      hide L.Inv, SettleSpec, NamedPeriods, L.Post, L.PaymentPlan;
      hide EntryAdmitted, BatchReady, ClaimsSound, EntriesTraced;
      ghost var before := State();
      RunNonempty(before, init, t);
      RunPositive(before, t);
      var tx := transactions[t];
      if LedgerFor(entries, t).Some? {
        return Ok;
      }
      if runs[t].rows[0].None? {
        return Raised(ConflictError);
      }
      var debts := OpenDebts(receivables, runs[t].rows[0].value.renter);
      var named := NamedPeriods(Comparison(tx.purpose), debts);
      if |named| > 1 {
        return Raised(ConflictError);
      }
      var result := Settle(tx.amount, tx.bookingDate, debts, if named == [] then None else Some(named[0]));
      if result.Refusing? {
        return Raised(if result.refusal == TieBreak then ConflictError else SplitError);
      }
      SettlementPlanned(before, t);
      PaymentAdmitted(before, init, t);
      var admitted := WriteBooking(PaymentEntry(tx, result.credit), Persist(receivables, result.allocations));
      code := if admitted then Ok else Raised(IntegrityError);
    }

    method ReversePayment(t: nat) returns (code: Code)
      requires Valid() && t < |transactions| && transactions[t].amount < 0
      modifies this`entries, this`rows, this`receivables
      ensures Follows(code, State(), Matching.ReversePayment(old(State()), t))
    {
      hide L.Inv, Resolve, L.Post, EntryAdmitted, BatchReady, Consistent, EngineResolves;
      ghost var before := State();
      var returned := transactions[t];
      if ReversalFor(entries, t).Some? {
        return Ok;
      }
      var original := Resolve(State(), returned);
      if original.None? {
        return Raised(ConflictError);
      }
      var p := original.value;
      ResolvedIsPayment(before, returned);
      var own := L.OfEntry(rows, p);
      if Reversed(entries, p) || own == [] {
        return Raised(ConflictError);
      }
      var i := 0;
      while i < |own|
        invariant 0 <= i <= |own|
        invariant forall k | 0 <= k < i ::
                    own[k].receivable < |receivables| && receivables[own[k].receivable].open == own[k].after
      {
        if own[i].receivable >= |receivables| || receivables[own[i].receivable].open != own[i].after {
          assert own[i] in own;
          return Raised(ConflictError);
        }
        i := i + 1;
      }
      assert L.Unmoved(Book(), own);
      if !EngineResolves(returned, transactions[entries[p].transaction])
         || Assigned(own) + entries[p].credit != -returned.amount {
        return Raised(ConflictError);
      }
      ReturnAdmitted(before, init, t);
      var admitted := WriteBooking(ReversalEntry(returned, p), L.Mirrors(own));
      code := if admitted then Ok else Raised(IntegrityError);
    }

    // ---- Requests -----------------------------------------------------------------------------------------

    method RunMatch(t: nat) returns (code: Code)
      requires Valid()
      modifies this`entries, this`rows, this`receivables, this`runs
      ensures Follows(code, State(), Matching.RunMatch(old(State()), t))
    {
      hide L.Inv, Consistent, AwaitsBooking, ProposeRun, Matching.SettlePayment, Matching.ReversePayment, RunAdmitted;
      ghost var before := State();
      if t >= |transactions| {
        return Raised(NotFoundError);
      }
      if transactions[t].amount < 0 {
        code := ReversePayment(t);
        return;
      }
      if transactions[t].amount == 0 || t in runs {
        return Ok;
      }
      var run := ProposeRun(State(), t);
      ProposalReady(before, init, t);
      var admitted := InsertRun(t, run);
      if !admitted {
        return Raised(IntegrityError);
      }
      if run.decision == AutoMatch {
        code := SettlePayment(t);
      } else {
        code := Ok;
      }
    }

    method DecideMatch(t: nat, outcome: Outcome) returns (code: Code)
      requires Valid()
      modifies this`entries, this`rows, this`receivables, this`confirmations, this`ibans
      ensures Follows(code, State(), Matching.DecideMatch(old(State()), t, outcome))
    {
      hide L.Inv, Consistent, AwaitsBooking, Matching.SettlePayment, Evidence, ConfirmationAdmitted;
      ghost var before := State();
      if t >= |transactions| || t !in runs || runs[t].rows == [] {
        return Raised(NotFoundError);
      }
      if runs[t].decision != NeedsReview {
        return Raised(ConflictError);
      }
      if t in confirmations {
        return if confirmations[t] == outcome then Ok else Raised(ConflictError);
      }
      DecisionReady(before, init, t, outcome);
      var admitted := InsertConfirmation(t, outcome);
      code := Ok;
      if admitted && outcome == Confirmed {
        code := SettlePayment(t);
        if code == Ok && transactions[t].iban != "" && runs[t].rows[0].Some? {
          ibans := ibans + {(runs[t].rows[0].value.renter, transactions[t].iban)};
        }
      }
    }

    /** A request inside a savepoint: an exception rolls every row back. */
    method MatchOrRollBack(t: nat) returns (code: Code)
      requires Valid()
      modifies this`entries, this`rows, this`receivables, this`runs
      ensures Valid()
      ensures var step := Matching.RunMatch(old(State()), t);
              && (code == Ok <==> step.Done?)
              && (code == Raised(SplitError) <==> step.EngineError?)
              && code != Raised(IntegrityError)
              && State() == if step.Done? then step.db else old(State())
    {
      hide L.Inv, Consistent, Matching.RunMatch;
      ghost var before := State();
      var savedReceivables, savedEntries, savedRows, savedRuns := receivables, entries, rows, runs;
      code := RunMatch(t);
      if code != Ok {
        receivables, entries, rows, runs := savedReceivables, savedEntries, savedRows, savedRuns;
      } else {
        RunMatchKeeps(before, init, t);
      }
    }

    method DecideOrRollBack(t: nat, outcome: Outcome) returns (code: Code)
      requires Valid()
      modifies this`entries, this`rows, this`receivables, this`confirmations, this`ibans
      ensures Valid()
      ensures var step := Matching.DecideMatch(old(State()), t, outcome);
              && (code == Ok <==> step.Done?)
              && (code == Raised(SplitError) <==> step.EngineError?)
              && code != Raised(IntegrityError)
              && State() == if step.Done? then step.db else old(State())
    {
      hide L.Inv, Consistent, Matching.DecideMatch;
      ghost var before := State();
      var savedReceivables, savedEntries, savedRows, savedConfirmations := receivables, entries, rows, confirmations;
      var savedIbans := ibans;
      code := DecideMatch(t, outcome);
      if code != Ok {
        receivables, entries, rows, confirmations := savedReceivables, savedEntries, savedRows, savedConfirmations;
        ibans := savedIbans;
      } else {
        DecideMatchKeeps(before, init, t, outcome);
      }
    }

    /** The deferred reconciliation of every entry never refuses the commit. */
    method Reconcile() returns (admitted: bool)
      requires Valid()
      ensures admitted && forall e: nat | e < |entries| :: EntryReconciles(Book(), e)
    {
      hide L.Inv, EntryReconciles;
      LedgerOf(State(), init);
      admitted := true;
      for e := 0 to |entries|
        invariant admitted && forall f: nat | f < e :: EntryReconciles(Book(), f)
      {
        AllReconcile(Book(), init, e);
        admitted := admitted && EntryReconciles(Book(), e);
      }
    }
  }

  lemma LedgerOf(db: Db, init: seq<Projection>)
    requires Consistent(db, init)
    ensures L.Inv(db.book, init)
  {
  }

  /** A new proposal run is admitted, and an automatic one is ready to be settled. */
  lemma ProposalReady(db: Db, init: seq<Projection>, t: nat)
    requires Consistent(db, init) && t < |db.transactions| && db.transactions[t].amount > 0 && t !in db.runs
    ensures var run := ProposeRun(db, t);
            && RunAdmitted(db, t, run)
            && AwaitsBooking(db.(runs := db.runs[t := run]), init, t)
            && (run.decision == AutoMatch ==> Evidence(db.(runs := db.runs[t := run]), t))
  {
    hide L.Inv, ProposeRun, EntriesTraced, RunAdmitted;
    ProposalAdmitted(db, t);
    ProposalAwaits(db, init, t);
  }

  lemma DecisionReady(db: Db, init: seq<Projection>, t: nat, outcome: Outcome)
    requires Consistent(db, init) && t in db.runs && db.runs[t].decision == NeedsReview && t !in db.confirmations
    ensures var decided := db.(confirmations := db.confirmations[t := outcome]);
            && ConfirmationAdmitted(db, t)
            && AwaitsBooking(decided, init, t)
            && (outcome == Confirmed ==> Evidence(decided, t))
  {
    hide L.Inv, EntriesTraced, AwaitsBooking;
    assert RunSound(db, t);
    DecisionAwaits(db, init, t, outcome);
  }

  lemma OneMoreRow(rows: seq<L.Row>, i: nat, e: nat)
    requires i < |rows|
    ensures Assigned(L.OfEntry(rows[..i + 1], e))
         == Assigned(L.OfEntry(rows[..i], e)) + (if rows[i].entry == e then rows[i].booked.paid.Total() else 0)
  {
    assert rows[..i + 1] == rows[..i] + [rows[i]];
    L.OfEntryConcat(rows[..i], [rows[i]], e);
    assert [rows[i]][1..] == [];
    assert L.OfEntry([rows[i]], e) == if rows[i].entry == e then [rows[i].booked] else [];
    AssignedConcat(L.OfEntry(rows[..i], e), L.OfEntry([rows[i]], e));
    assert Assigned([rows[i].booked]) == rows[i].booked.paid.Total();
  }

  lemma ReversedExists(db: Db, entry: L.Entry)
    requires EntryAdmitted(db, entry)
    ensures entry.reverses.Some? ==> entry.reverses.value < |db.book.entries|
    ensures Admit(db, AddEntry(entry))
              == db.(book := L.Book(db.book.receivables, db.book.entries + [entry], db.book.rows))
  {
  }

  lemma MidwayKeepsTable(db: Db, entry: L.Entry, allocations: seq<Allocation>, i: nat)
    requires BatchReady(db, entry, allocations) && i < |allocations|
    ensures allocations[i].receivable < |db.book.receivables| == |Midway(db.book, entry, allocations, i).receivables|
  {
  }

  lemma RunPositive(db: Db, t: nat)
    requires RunsSound(db) && t in db.runs
    ensures t < |db.transactions| && db.transactions[t].amount > 0
  {
    assert RunSound(db, t);
  }

  lemma PaymentAdmitted(db: Db, init: seq<Projection>, t: nat)
    requires AwaitsBooking(db, init, t) && Evidence(db, t) && t < |db.transactions| && db.transactions[t].amount > 0
    requires db.runs[t].rows != [] && Matching.SettlePayment(db, t).Done? && LedgerFor(db.book.entries, t).None?
    ensures db.runs[t].rows[0].Some? && SettlementOf(db, t).Settlement?
    ensures var (entry, allocations) := PlannedSettlement(db, t);
            && EntryAdmitted(db, entry) && BatchReady(db, entry, allocations)
            && Matching.SettlePayment(db, t).db == db.(book := L.Post(db.book, entry, allocations))
  {
    hide L.Inv, L.Post, BatchReady, L.PaymentPlan, SettlementOf, EntryAdmitted, ClaimsSound, EntriesTraced, RunsSound;
    SettlementPlanned(db, t);
    LedgerParts(db.book, init);
    var credit := SettlementOf(db, t).credit;
    PlanCredit(db.book, PlannedSettlement(db, t).0, PlannedSettlement(db, t).1);
    PaymentEntryAdmitted(db, t, credit);
    PaymentBatchReady(db, t, credit, PlannedSettlement(db, t).1);
  }

  lemma PlanCredit(book: L.Book, entry: L.Entry, allocations: seq<Allocation>)
    requires L.PaymentPlan(book, entry, allocations)
    ensures entry.credit >= 0
  {
  }

  lemma ReturnAdmitted(db: Db, init: seq<Projection>, t: nat)
    requires Consistent(db, init) && t < |db.transactions| && db.transactions[t].amount < 0
    requires Matching.ReversePayment(db, t).Done? && ReversalFor(db.book.entries, t).None?
    ensures Resolve(db, db.transactions[t]).Some?
    ensures var p := Resolve(db, db.transactions[t]).value;
            var entry, mirrors := ReversalEntry(db.transactions[t], p), L.Mirrors(L.OfEntry(db.book.rows, p));
            && EntryAdmitted(db, entry) && BatchReady(db, entry, mirrors)
            && Matching.ReversePayment(db, t).db == db.(book := L.Post(db.book, entry, mirrors))
  {
    hide Consistent, Matching.ReversePayment, EntryAdmitted, BatchReady, L.ReturnPlan, Resolve;
    ReturnIsPlan(db, init, t);
    var p := Resolve(db, db.transactions[t]).value;
    ReversalEntryAdmitted(db, init, t, p);
    ReturnBatchReady(db, init, t, p);
  }
}
