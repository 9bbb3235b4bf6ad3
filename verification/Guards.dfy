/**
 * The database's own rules for the ledger tables, as they stand after migration 0021: which rows
 * the CHECK constraints, unique indexes and triggers admit, whoever writes them.
 */
module Guards {
  import opened Rows
  import opened PrincipalSplit
  import opened Scoring
  import opened Matching
  import L = Ledger

  // ---- Single rows ------------------------------------------------------------------------------------

  predicate ProposalExists(db: Db, c: L.Cite)
  {
    c.transaction in db.runs && 1 <= c.rank <= |db.runs[c.transaction].rows|
  }

  /** The renter a proposal row names, if it names one. */
  function ProposalRenter(db: Db, c: L.Cite): Option<nat>
  {
    if ProposalExists(db, c) && db.runs[c.transaction].rows[c.rank - 1].Some?
    then Some(db.runs[c.transaction].rows[c.rank - 1].value.renter)
    else None
  }

  /** Positive matching evidence for a payment. */
  predicate CitesEvidence(db: Db, c: L.Cite)
  {
    ProposalExists(db, c) && c.rank == 1 && Evidence(db, c.transaction)
  }

  predicate EntryShape(entry: L.Entry)
  {
    && entry.credit >= 0
    && (entry.kind == L.Reversal <==> entry.reverses.Some?)
    && (entry.kind == L.Reversal ==> entry.amount < 0 && entry.credit == 0)
    && (entry.kind == L.Payment ==> entry.amount >= 0)
  }

  predicate EntryAdmitted(db: Db, entry: L.Entry)
  {
    var entries := db.book.entries;
    && EntryShape(entry)
    && entry.transaction < |db.transactions|
    && (entry.reverses.Some? ==>
          && entry.reverses.value < |entries|
          && entries[entry.reverses.value].kind == L.Payment
          && entry.amount == -entries[entry.reverses.value].amount
          && forall e | 0 <= e < |entries| :: entries[e].reverses != entry.reverses)
    && (entry.proposal.Some? ==>
          ProposalExists(db, entry.proposal.value) && entry.proposal.value.transaction == entry.transaction)
    && (entry.kind == L.Payment ==> entry.proposal.Some? && CitesEvidence(db, entry.proposal.value))
  }

  /** The reversed entry decides whose money it is; a proposal of the reversal's own must agree. */
  function EntryRenter(db: Db, entry: L.Entry): Option<nat>
  {
    var own := if entry.proposal.Some? then ProposalRenter(db, entry.proposal.value) else None;
    if entry.reverses.None? then own
    else if entry.reverses.value >= |db.book.entries| || db.book.entries[entry.reverses.value].proposal.None? then None
    else
      var original := ProposalRenter(db, db.book.entries[entry.reverses.value].proposal.value);
      if entry.proposal.Some? && own != original then None else original
  }

  predicate NonNegative(a: Allocation)
  {
    NO_CENTS.AtMost(a.paid) && forall i | 0 <= i < |a.parts| :: a.parts[i] >= 0
  }

  predicate NonPositive(a: Allocation)
  {
    a.paid.AtMost(NO_CENTS) && forall i | 0 <= i < |a.parts| :: a.parts[i] <= 0
  }

  predicate SignFits(kind: L.Kind, a: Allocation)
  {
    if kind == L.Payment then NonNegative(a) else NonPositive(a)
  }

  predicate WithinCap(kind: L.Kind, amount: int, total: int)
  {
    if kind == L.Payment then total <= amount else total >= amount
  }

  predicate RowAdmitted(db: Db, row: L.Row)
  {
    var book := db.book;
    && row.entry < |book.entries| && row.booked.receivable < |book.receivables|
    && (forall k | 0 <= k < |book.rows| && book.rows[k].entry == row.entry ::
        book.rows[k].booked.receivable != row.booked.receivable)
    && SignFits(book.entries[row.entry].kind, row.booked)
    && WithinCap(book.entries[row.entry].kind, book.entries[row.entry].amount,
                 Assigned(L.OfEntry(book.rows, row.entry)) + row.booked.paid.Total())
    && EntryRenter(db, book.entries[row.entry]) == Some(book.receivables[row.booked.receivable].claim.renter)
    && ComponentsFit(book.receivables[row.booked.receivable].claim, row.booked)
  }

  predicate ProjectionAdmitted(claim: Claim, p: Projection)
  {
    ProjectionChecks(p) && p.open <= claim.expected
  }

  predicate RunAdmitted(db: Db, t: nat, run: Run)
  {
    && t < |db.transactions| && t !in db.runs && run.rows != []
    && forall k | 0 <= k < |run.rows| && run.rows[k].Some? ::
         var s := run.rows[k].value;
         s.receivable < |db.book.receivables| && db.book.receivables[s.receivable].claim.renter == s.renter
  }

  predicate ConfirmationAdmitted(db: Db, t: nat)
  {
    t in db.runs && db.runs[t].rows != [] && db.runs[t].decision == NeedsReview && t !in db.confirmations
  }

  /** The deferred check at the end of a transaction. */
  predicate EntryReconciles(book: L.Book, e: nat)
    requires e < |book.entries|
  {
    var entry, total := book.entries[e], Assigned(L.OfEntry(book.rows, e));
    if entry.kind == L.Payment then entry.credit == entry.amount - total
    else entry.credit == 0 && entry.reverses.Some? && total == -Assigned(L.OfEntry(book.rows, entry.reverses.value))
  }

  // ---- Any writer -------------------------------------------------------------------------------------

  /** A row that someone tries to write. What is not admitted changes nothing. */
  datatype Write =
    | AddTransaction(transaction: Transaction)
    | AddReceivable(claim: Claim, open: Projection)
    | UpdateProjection(receivable: nat, projection: Projection)
    | AddRun(t: nat, run: Run)
    | AddConfirmation(decided: nat, outcome: Outcome)
    | AddEntry(entry: L.Entry)
    | AddRow(row: L.Row)

  function Admit(db: Db, write: Write): Db
  {
    var book := db.book;
    match write
    case AddTransaction(tx) => db.(transactions := db.transactions + [tx])
    case AddReceivable(claim, open) =>
      if ProjectionAdmitted(claim, open)
      then db.(book := book.(receivables := book.receivables + [Receivable(|book.receivables|, claim, open)])) else db
    case UpdateProjection(r, p) =>
      if r < |book.receivables| && ProjectionAdmitted(book.receivables[r].claim, p)
      then db.(book := book.(receivables := book.receivables[r := book.receivables[r].(open := p)])) else db
    case AddRun(t, run) => if RunAdmitted(db, t, run) then db.(runs := db.runs[t := run]) else db
    case AddConfirmation(t, outcome) =>
      if ConfirmationAdmitted(db, t) then db.(confirmations := db.confirmations[t := outcome]) else db
    case AddEntry(entry) =>
      if EntryAdmitted(db, entry) then db.(book := book.(entries := book.entries + [entry])) else db
    case AddRow(row) => if RowAdmitted(db, row) then db.(book := book.(rows := book.rows + [row])) else db
  }

  function AdmitAll(db: Db, writes: seq<Write>): Db
  {
    if writes == [] then db else Admit(AdmitAll(db, writes[..|writes| - 1]), writes[|writes| - 1])
  }

  const NO_ROWS := Db(L.Book([], [], []), [], map[], map[], map[], {})

  ghost predicate EntryGuarded(db: Db, e: nat)
    requires e < |db.book.entries|
  {
    var entries, entry := db.book.entries, db.book.entries[e];
    && EntryShape(entry)
    && (entry.proposal.Some? ==>
          ProposalExists(db, entry.proposal.value) && entry.proposal.value.transaction == entry.transaction)
    && (entry.kind == L.Payment ==> entry.proposal.Some? && CitesEvidence(db, entry.proposal.value))
    && (entry.reverses.Some? ==>
          && entry.reverses.value < e && entries[entry.reverses.value].kind == L.Payment
          && entry.amount == -entries[entry.reverses.value].amount)
  }

  ghost predicate RowGuarded(db: Db, row: L.Row)
  {
    && row.entry < |db.book.entries| && row.booked.receivable < |db.book.receivables|
    && SignFits(db.book.entries[row.entry].kind, row.booked)
    && EntryRenter(db, db.book.entries[row.entry]) == Some(db.book.receivables[row.booked.receivable].claim.renter)
    && ComponentsFit(db.book.receivables[row.booked.receivable].claim, row.booked)
  }

  /** Cents assigned by an entry lie between nothing and its whole amount. */
  ghost predicate CapHolds(book: L.Book, e: nat)
    requires e < |book.entries|
  {
    var amount, total := book.entries[e].amount, Assigned(L.OfEntry(book.rows, e));
    if book.entries[e].kind == L.Payment then 0 <= total <= amount else amount <= total <= 0
  }

  /** A run belongs to a stored transaction and ranks debts under their own renters. */
  ghost predicate RunGuarded(db: Db, t: nat)
    requires t in db.runs
  {
    && t < |db.transactions| && db.runs[t].rows != []
    && forall k | 0 <= k < |db.runs[t].rows| && db.runs[t].rows[k].Some? ::
         && db.runs[t].rows[k].value.receivable < |db.book.receivables|
         && db.book.receivables[db.runs[t].rows[k].value.receivable].claim.renter == db.runs[t].rows[k].value.renter
  }

  /** Only reviews are confirmed. */
  ghost predicate RunsGuarded(db: Db)
  {
    && (forall t | t in db.runs :: RunGuarded(db, t))
    && forall t | t in db.confirmations :: t in db.runs && db.runs[t].decision == NeedsReview
  }

  lemma RunsKeptGuarded(db: Db, write: Write)
    requires RunsGuarded(db)
    ensures RunsGuarded(Admit(db, write))
  {
    hide EntryAdmitted, RowAdmitted, ProjectionAdmitted;
    var after := Admit(db, write);
    forall t | t in after.runs ensures RunGuarded(after, t) {
      if t in db.runs {
        assert RunGuarded(db, t);
      }
    }
  }

  /** What the guards alone keep true, whoever writes. */
  ghost predicate Guarded(db: Db)
  {
    && (forall e: nat | e < |db.book.entries| :: EntryGuarded(db, e))
    && (forall e: nat, f: nat | e < f < |db.book.entries| && db.book.entries[e].reverses.Some? ::
          db.book.entries[e].reverses != db.book.entries[f].reverses)
    && (forall k | 0 <= k < |db.book.rows| :: RowGuarded(db, db.book.rows[k]))
    && L.UniquePairs(db.book.rows)
    && (forall e: nat | e < |db.book.entries| :: CapHolds(db.book, e))
    && (forall r | 0 <= r < |db.book.receivables| ::
          ProjectionAdmitted(db.book.receivables[r].claim, db.book.receivables[r].open))
    && RunsGuarded(db)
  }

  /** Evidence and debts once cited stay as they were. */
  ghost predicate Preserved(before: Db, after: Db)
  {
    && (forall t | t in before.runs :: t in after.runs && after.runs[t] == before.runs[t])
    && (forall t | t in before.confirmations ::
        t in after.confirmations && after.confirmations[t] == before.confirmations[t])
    && before.book.entries <= after.book.entries
    && |before.book.receivables| <= |after.book.receivables|
    && (forall r | 0 <= r < |before.book.receivables| ::
        after.book.receivables[r].claim == before.book.receivables[r].claim)
  }

  lemma EntryPreserved(before: Db, after: Db, e: nat)
    requires Preserved(before, after) && e < |before.book.entries| && EntryGuarded(before, e)
    ensures EntryGuarded(after, e)
  {
  }

  lemma RenterPreserved(before: Db, after: Db, e: nat)
    requires Preserved(before, after) && e < |before.book.entries|
    requires forall f: nat | f < |before.book.entries| :: EntryGuarded(before, f)
    ensures EntryRenter(after, before.book.entries[e]) == EntryRenter(before, before.book.entries[e])
  {
    assert EntryGuarded(before, e);
    var entry := before.book.entries[e];
    if entry.reverses.Some? {
      assert EntryGuarded(before, entry.reverses.value);
    }
  }

  lemma RowPreserved(before: Db, after: Db, row: L.Row)
    requires Preserved(before, after) && RowGuarded(before, row)
    requires forall f: nat | f < |before.book.entries| :: EntryGuarded(before, f)
    ensures RowGuarded(after, row)
  {
    RenterPreserved(before, after, row.entry);
  }

  lemma AdmitPreserves(db: Db, write: Write)
    requires Guarded(db)
    ensures Preserved(db, Admit(db, write))
  {
  }

  /** Rows bounded by the entries leave a new entry without rows. */
  lemma NewEntryEmpty(db: Db)
    requires Guarded(db)
    ensures L.OfEntry(db.book.rows, |db.book.entries|) == []
  {
    forall k | 0 <= k < |db.book.rows| ensures db.book.rows[k].entry != |db.book.entries| {
      assert RowGuarded(db, db.book.rows[k]);
    }
    L.OfEntryAbsent(db.book.rows, |db.book.entries|);
  }

  /** The cap, row by row: the admitted row extends its entry's total and no other. */
  lemma RowKeepsCaps(db: Db, row: L.Row)
    requires Guarded(db) && RowAdmitted(db, row)
    ensures forall e: nat | e < |db.book.entries| :: CapHolds(db.book.(rows := db.book.rows + [row]), e)
  {
    hide RowGuarded, EntryGuarded, EntryRenter, ComponentsFit;
    forall e: nat | e < |db.book.entries| ensures CapHolds(db.book.(rows := db.book.rows + [row]), e) {
      assert CapHolds(db.book, e);
      L.OfEntryConcat(db.book.rows, [row], e);
      assert [row][1..] == [];
      assert L.OfEntry([row], e) == if row.entry == e then [row.booked] else [];
      AssignedConcat(L.OfEntry(db.book.rows, e), L.OfEntry([row], e));
      assert Assigned([row.booked]) == row.booked.paid.Total();
    }
  }

  lemma RowKeepsGuarded(db: Db, row: L.Row)
    requires Guarded(db) && RowAdmitted(db, row)
    ensures Guarded(Admit(db, AddRow(row)))
  {
    hide CapHolds, EntryRenter, RunsGuarded;
    var after := Admit(db, AddRow(row));
    RunsKeptGuarded(db, AddRow(row));
    RowKeepsCaps(db, row);
    AdmitPreserves(db, AddRow(row));
    forall e: nat | e < |after.book.entries| ensures EntryGuarded(after, e) {
      EntryPreserved(db, after, e);
    }
    forall k | 0 <= k < |after.book.rows| ensures RowGuarded(after, after.book.rows[k]) {
      if k < |db.book.rows| {
        RowPreserved(db, after, db.book.rows[k]);
      } else {
        SameRenter(db, after, db.book.entries[row.entry]);
      }
    }
  }

  lemma SameRenter(before: Db, after: Db, entry: L.Entry)
    requires after.runs == before.runs && after.book.entries == before.book.entries
    ensures EntryRenter(after, entry) == EntryRenter(before, entry)
  {
  }

  lemma EntryKeepsGuarded(db: Db, entry: L.Entry)
    requires Guarded(db) && EntryAdmitted(db, entry)
    ensures Guarded(Admit(db, AddEntry(entry)))
  {
    hide EntryRenter, ComponentsFit, SignFits, RunsGuarded;
    RunsKeptGuarded(db, AddEntry(entry));
    var after, n := Admit(db, AddEntry(entry)), |db.book.entries|;
    AdmitPreserves(db, AddEntry(entry));
    NewEntryEmpty(db);
    forall e: nat | e < |after.book.entries| ensures EntryGuarded(after, e) && CapHolds(after.book, e) {
      if e < n {
        EntryPreserved(db, after, e);
        assert CapHolds(db.book, e);
      }
    }
    forall k | 0 <= k < |after.book.rows| ensures RowGuarded(after, after.book.rows[k]) {
      RowPreserved(db, after, db.book.rows[k]);
    }
  }

  /** Whatever is written, admitted or not, the guarded facts stay. */
  lemma AdmitKeepsGuarded(db: Db, write: Write)
    requires Guarded(db)
    ensures Guarded(Admit(db, write))
  {
    hide CapHolds, EntryGuarded, RowGuarded, ProjectionAdmitted, Guarded;
    var after := Admit(db, write);
    if write.AddEntry? && EntryAdmitted(db, write.entry) {
      EntryKeepsGuarded(db, write.entry);
    } else if write.AddRow? && RowAdmitted(db, write.row) {
      RowKeepsGuarded(db, write.row);
    } else {
      UnbookedKeepsGuarded(db, write);
    }
  }

  lemma UnbookedKeepsGuarded(db: Db, write: Write)
    requires Guarded(db)
    requires Admit(db, write).book.entries == db.book.entries && Admit(db, write).book.rows == db.book.rows
    ensures Guarded(Admit(db, write))
  {
    hide EntryGuarded, RowGuarded, EntryAdmitted, RowAdmitted, RunsGuarded;
    var after := Admit(db, write);
    RunsKeptGuarded(db, write);
    AdmitPreserves(db, write);
    forall e: nat | e < |after.book.entries| ensures EntryGuarded(after, e) && CapHolds(after.book, e) {
      EntryPreserved(db, after, e);
      assert CapHolds(db.book, e);
    }
    forall k | 0 <= k < |after.book.rows| ensures RowGuarded(after, after.book.rows[k]) {
      RowPreserved(db, after, db.book.rows[k]);
    }
  }

  lemma {:induction false} AdmitAllGuarded(writes: seq<Write>)
    ensures Guarded(AdmitAll(NO_ROWS, writes))
  {
    hide Guarded, Admit;
    if writes == [] {
      NothingGuarded();
    } else {
      AdmitAllGuarded(writes[..|writes| - 1]);
      AdmitKeepsGuarded(AdmitAll(NO_ROWS, writes[..|writes| - 1]), writes[|writes| - 1]);
    }
  }

  lemma NothingGuarded()
    ensures Guarded(NO_ROWS)
  {
  }

  // ---- What is admitted, field by field --------------------------------------------------------------------

  /** The evidence that an entry cites: a proposal row of its own transaction. */
  ghost predicate Cites(db: Db, entry: L.Entry)
  {
    && entry.proposal.Some? && entry.proposal.value.transaction == entry.transaction
    && entry.transaction in db.runs && 1 <= entry.proposal.value.rank <= |db.runs[entry.transaction].rows|
  }

  /** An entry that the guards let in, in an account in which they guarded every write. */
  ghost predicate AdmittedEntryIs(db: Db, e: nat)
    requires e < |db.book.entries|
  {
    var entry := db.book.entries[e];
    && entry.credit >= 0 && (entry.proposal.Some? ==> Cites(db, entry))
    && match entry.kind
       case Payment =>
         && entry.amount >= 0 && entry.reverses.None? && Cites(db, entry) && entry.proposal.value.rank == 1
         && (db.runs[entry.transaction].decision == AutoMatch
             || (db.runs[entry.transaction].decision == NeedsReview && entry.transaction in db.confirmations
                 && db.confirmations[entry.transaction] == Confirmed))
       case Reversal =>
         && entry.amount < 0 && entry.credit == 0 && entry.reverses.Some? && entry.reverses.value < e
         && db.book.entries[entry.reverses.value].kind == L.Payment
         && entry.amount + db.book.entries[entry.reverses.value].amount == 0
         && forall f | 0 <= f < |db.book.entries| && f != e :: db.book.entries[f].reverses != entry.reverses
  }

  /** Who pays: as the payment cites, or the returned payment; a citation of the reversal's own says the same. */
  ghost predicate PaidBy(db: Db, e: nat, renter: nat)
    requires e < |db.book.entries|
  {
    var entry := db.book.entries[e];
    var payment := if entry.reverses.Some? && entry.reverses.value < |db.book.entries|
                   then db.book.entries[entry.reverses.value] else entry;
    && payment.proposal.Some? && NamesRenter(db, payment.proposal.value, renter)
    && (entry.proposal.Some? ==> NamesRenter(db, entry.proposal.value, renter))
  }

  /** The cited proposal row is one of this renter. */
  ghost predicate NamesRenter(db: Db, c: L.Cite, renter: nat)
  {
    && c.transaction in db.runs && 1 <= c.rank <= |db.runs[c.transaction].rows|
    && db.runs[c.transaction].rows[c.rank - 1].Some?
    && db.runs[c.transaction].rows[c.rank - 1].value.renter == renter
  }

  /** A payment assigns no negative cents, a reversal no positive ones, in no tier and no component. */
  ghost predicate Signed(kind: L.Kind, a: Allocation)
  {
    match kind
    case Payment =>
      && a.paid.costs >= 0 && a.paid.interest >= 0 && a.paid.principal >= 0
      && forall i | 0 <= i < |a.parts| :: a.parts[i] >= 0
    case Reversal =>
      && a.paid.costs <= 0 && a.paid.interest <= 0 && a.paid.principal <= 0
      && forall i | 0 <= i < |a.parts| :: a.parts[i] <= 0
  }

  /** A row that the guards let in. */
  ghost predicate AdmittedRowIs(db: Db, k: nat)
    requires k < |db.book.rows|
  {
    var e, a := db.book.rows[k].entry, db.book.rows[k].booked;
    && e < |db.book.entries| && a.receivable < |db.book.receivables|
    && (forall l | 0 <= l < |db.book.rows| && l != k && db.book.rows[l].entry == e ::
          db.book.rows[l].booked.receivable != a.receivable)
    && PaidBy(db, e, db.book.receivables[a.receivable].claim.renter)
    && Signed(db.book.entries[e].kind, a)
    && (match db.book.receivables[a.receivable].claim.category
        case Rent => |a.parts| == 4 && Sum(a.parts) == a.paid.principal
        case Nachzahlung => a.parts == [0, 0, 0, 0])
  }

  lemma AdmittedEntries(writes: seq<Write>, e: nat)
    requires e < |AdmitAll(NO_ROWS, writes).book.entries|
    ensures AdmittedEntryIs(AdmitAll(NO_ROWS, writes), e)
    ensures var book := AdmitAll(NO_ROWS, writes).book;
            var total := Assigned(L.OfEntry(book.rows, e));
            match book.entries[e].kind
            case Payment => 0 <= total <= book.entries[e].amount
            case Reversal => book.entries[e].amount <= total <= 0
  {
    hide AdmitAll, RowGuarded;
    AdmitAllGuarded(writes);
    var db := AdmitAll(NO_ROWS, writes);
    assert EntryGuarded(db, e) && CapHolds(db.book, e);
    if db.book.entries[e].reverses.Some? {
      forall f: nat | f < |db.book.entries| && f != e
        ensures db.book.entries[f].reverses != db.book.entries[e].reverses
      {
        assert EntryGuarded(db, f);
      }
    }
  }

  lemma AdmittedRows(writes: seq<Write>, k: nat)
    requires k < |AdmitAll(NO_ROWS, writes).book.rows|
    ensures AdmittedRowIs(AdmitAll(NO_ROWS, writes), k)
  {
    hide AdmitAll, CapHolds, RunsGuarded;
    AdmitAllGuarded(writes);
    var db := AdmitAll(NO_ROWS, writes);
    assert RowGuarded(db, db.book.rows[k]);
    var e := db.book.rows[k].entry;
    assert EntryGuarded(db, e);
    forall l: nat | l < |db.book.rows| && l != k && db.book.rows[l].entry == e
      ensures db.book.rows[l].booked.receivable != db.book.rows[k].booked.receivable
    {
      OnePairEach(db.book.rows, k, l);
    }
  }

  lemma OnePairEach(rows: seq<L.Row>, k: nat, l: nat)
    requires L.UniquePairs(rows) && k < |rows| && l < |rows| && k != l && rows[k].entry == rows[l].entry
    ensures rows[k].booked.receivable != rows[l].booked.receivable
  {
  }

  /** A debt that the guards let in or let be changed, and a run and a confirmation likewise. */
  lemma AdmittedEvidence(writes: seq<Write>, r: nat, t: nat)
    ensures var db := AdmitAll(NO_ROWS, writes);
            r < |db.book.receivables| ==>
              var p := db.book.receivables[r].open;
              && p.tiers.costs >= 0 && p.tiers.interest >= 0 && p.tiers.principal == p.open >= 0
              && p.open <= db.book.receivables[r].claim.expected
              && (p.status == Settled <==> p.tiers.costs == 0 && p.tiers.interest == 0 && p.open == 0)
    ensures var db := AdmitAll(NO_ROWS, writes);
            && (t in db.runs ==> RunGuarded(db, t))
            && (t in db.confirmations ==> t in db.runs && db.runs[t].decision == NeedsReview)
  {
    hide AdmitAll, CapHolds, RowGuarded, EntryGuarded;
    AdmitAllGuarded(writes);
  }

  /**
   * Whoever writes, and whatever was refused: every row of an entry, and every row of the
   * reversal of that entry, hits debts of one and the same renter.
   */
  lemma GuardsKeepRenters(writes: seq<Write>, k: nat, l: nat)
    requires var book := AdmitAll(NO_ROWS, writes).book;
             && k < |book.rows| && l < |book.rows|
             && book.rows[k].entry < |book.entries| && book.rows[l].entry < |book.entries|
             && (book.rows[l].entry == book.rows[k].entry
                 || book.entries[book.rows[l].entry].reverses == Some(book.rows[k].entry))
    ensures var book := AdmitAll(NO_ROWS, writes).book;
            && book.rows[k].booked.receivable < |book.receivables|
            && book.rows[l].booked.receivable < |book.receivables|
            && book.receivables[book.rows[k].booked.receivable].claim.renter
               == book.receivables[book.rows[l].booked.receivable].claim.renter
  {
    hide AdmitAll;
    var db := AdmitAll(NO_ROWS, writes);
    AdmitAllGuarded(writes);
    assert RowGuarded(db, db.book.rows[k]) && RowGuarded(db, db.book.rows[l]);
    assert EntryGuarded(db, db.book.rows[k].entry) && EntryGuarded(db, db.book.rows[l].entry);
  }

  /** The deferred check, entry by entry: a payment's rows and credit make up its amount, a return nets. */
  lemma ReconcilesIff(book: L.Book, e: nat)
    requires e < |book.entries|
    ensures EntryReconciles(book, e) <==>
      match book.entries[e].kind
      case Payment => Assigned(L.OfEntry(book.rows, e)) + book.entries[e].credit == book.entries[e].amount
      case Reversal =>
        && book.entries[e].credit == 0 && book.entries[e].reverses.Some?
        && Assigned(L.OfEntry(book.rows, e)) + Assigned(L.OfEntry(book.rows, book.entries[e].reverses.value)) == 0
  {
  }

  /**
   * The guards fix totals but not their distribution: a reconciled reversal returns what its
   * payment assigned, in sum.
   */
  lemma ReconciledReversalNets(writes: seq<Write>, e: nat)
    requires var book := AdmitAll(NO_ROWS, writes).book;
             e < |book.entries| && book.entries[e].reverses.Some? && EntryReconciles(book, e)
    ensures var book := AdmitAll(NO_ROWS, writes).book;
            var p := book.entries[e].reverses.value;
            && p < e && book.entries[p].kind == L.Payment && book.entries[p].amount + book.entries[e].amount == 0
            && Assigned(L.OfEntry(book.rows, p)) + Assigned(L.OfEntry(book.rows, e)) == 0
            && forall f | 0 <= f < |book.entries| && f != e :: book.entries[f].reverses != Some(p)
  {
    hide AdmitAll, CapHolds, RowGuarded;
    AdmitAllGuarded(writes);
    assert EntryGuarded(AdmitAll(NO_ROWS, writes), e);
  }

  /**
   * What the guards do not do: a payment that was admitted is admitted again. That a transaction
   * is booked once is the service's own achievement.
   */
  lemma GuardsAdmitSecondPayment(db: Db, entry: L.Entry)
    requires entry.kind == L.Payment && EntryAdmitted(db, entry)
    ensures EntryAdmitted(Admit(db, AddEntry(entry)), entry)
  {
  }

  ghost predicate PaidTwice(book: L.Book, e: nat, f: nat)
  {
    && e < f < |book.entries| && book.entries[e].transaction == book.entries[f].transaction
    && book.entries[e].kind == L.Payment && book.entries[f].kind == L.Payment
    && forall k: nat | k < |book.entries| :: EntryReconciles(book, k)
  }

  const TWICE := Transaction(0, 0, "", 100, 0, 0, "", "", None, None, false)
  const DUE := Claim(0, 0, "", "", 0, 100, [100, 0, 0, 0], Rent)
  const DUE_OPEN := Projection(Tiers(0, 0, 100), 100, Open)
  const AUTOMATIC := Run(AutoMatch, [Some(Score(0, 0, 0, Signals(60, 30, TextSignals(0, 0, 0))))])
  const CREDITED := L.Entry(0, Some(L.Cite(0, 1)), L.Payment, 100, 100, None)

  lemma AdmitOneMore(writes: seq<Write>, write: Write)
    ensures AdmitAll(NO_ROWS, writes + [write]) == Admit(AdmitAll(NO_ROWS, writes), write)
  {
    assert (writes + [write])[..|writes|] == writes;
  }

  /** From no rows at all, the guards admit two payments of one transaction, and both reconcile. */
  lemma GuardsStoreSecondPayment()
    ensures exists writes, e, f :: PaidTwice(AdmitAll(NO_ROWS, writes).book, e, f)
  {
    hide AdmitAll;
    var matched := [AddTransaction(TWICE)] + [AddReceivable(DUE, DUE_OPEN)] + [AddRun(0, AUTOMATIC)];
    var db := AdmitAll(NO_ROWS, matched);
    MatchedRows();
    AdmitOneMore(matched, AddEntry(CREDITED));
    assert EntryAdmitted(db, CREDITED);
    GuardsAdmitSecondPayment(db, CREDITED);
    AdmitOneMore(matched + [AddEntry(CREDITED)], AddEntry(CREDITED));
    var book := L.Book(db.book.receivables, [CREDITED, CREDITED], []);
    assert L.OfEntry([], 0) == [] && L.OfEntry([], 1) == [];
    assert PaidTwice(book, 0, 1);
    assert AdmitAll(NO_ROWS, matched + [AddEntry(CREDITED)] + [AddEntry(CREDITED)]).book == book;
  }

  lemma MatchedRows()
    ensures AdmitAll(NO_ROWS, [AddTransaction(TWICE)] + [AddReceivable(DUE, DUE_OPEN)] + [AddRun(0, AUTOMATIC)])
         == Db(L.Book([Receivable(0, DUE, DUE_OPEN)], [], []), [TWICE], map[0 := AUTOMATIC], map[], map[], {})
  {
    assert AdmitAll(NO_ROWS, []) == NO_ROWS;
    AdmitOneMore([], AddTransaction(TWICE));
    assert [] + [AddTransaction(TWICE)] == [AddTransaction(TWICE)];
    AdmitOneMore([AddTransaction(TWICE)], AddReceivable(DUE, DUE_OPEN));
    AdmitOneMore([AddTransaction(TWICE)] + [AddReceivable(DUE, DUE_OPEN)], AddRun(0, AUTOMATIC));
  }
}
