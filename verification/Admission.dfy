/** The rows that the matching service writes always satisfy the guards of the database. */
module Admission {
  import opened Rows
  import opened Matching
  import opened MatchingInvariant
  import opened Guards
  import opened LedgerTotals
  import L = Ledger

  // ---- Posting a prefix -------------------------------------------------------------------------------

  /** The book after the entry and the first `i` allocations have been written. */
  function Midway(book: L.Book, entry: L.Entry, allocations: seq<Allocation>, i: nat): L.Book
    requires i <= |allocations|
  {
    L.Post(book, entry, allocations[..i])
  }

  lemma {:induction false} StampSnoc(e: nat, allocations: seq<Allocation>, a: Allocation)
    ensures L.Stamp(e, allocations + [a]) == L.Stamp(e, allocations) + [L.Row(e, a)]
  {
    if allocations == [] {
      assert allocations + [a] == [a];
    } else {
      StampSnoc(e, allocations[1..], a);
      assert (allocations + [a])[1..] == allocations[1..] + [a];
    }
  }

  /** Writing one more row and its projection. */
  lemma NextStep(book: L.Book, entry: L.Entry, allocations: seq<Allocation>, i: nat)
    requires i < |allocations| && allocations[i].receivable < |book.receivables|
    ensures var mid, a := Midway(book, entry, allocations, i), allocations[i];
            Midway(book, entry, allocations, i + 1)
            == L.Book(mid.receivables[a.receivable := mid.receivables[a.receivable].(open := a.after)],
                      mid.entries, mid.rows + [L.Row(|book.entries|, a)])
  {
    assert allocations[..i + 1] == allocations[..i] + [allocations[i]];
    assert allocations[..i + 1][..i] == allocations[..i];
    StampSnoc(|book.entries|, allocations[..i], allocations[i]);
  }

  lemma WholePosted(book: L.Book, entry: L.Entry, allocations: seq<Allocation>)
    ensures Midway(book, entry, allocations, |allocations|) == L.Post(book, entry, allocations)
  {
    assert allocations[..|allocations|] == allocations;
  }

  lemma NothingPosted(book: L.Book, entry: L.Entry, allocations: seq<Allocation>)
    ensures Midway(book, entry, allocations, 0) == L.Book(book.receivables, book.entries + [entry], book.rows)
  {
    assert allocations[..0] == [];
    assert book.rows + [] == book.rows;
  }

  // ---- What a row of a batch must satisfy -----------------------------------------------------------------

  /** The facts about a batch from which the guards follow for each of its rows. */
  ghost predicate BatchReady(db: Db, entry: L.Entry, allocations: seq<Allocation>)
  {
    && L.RowsSound(db.book) && L.Applicable(db.book, allocations)
    && (forall i | 0 <= i < |allocations| :: SignFits(entry.kind, allocations[i]))
    && (if entry.kind == L.Payment
        then Assigned(allocations) <= entry.amount
        else Assigned(allocations) >= entry.amount)
    && (forall i | 0 <= i < |allocations| ::
          && allocations[i].after.open <= db.book.receivables[allocations[i].receivable].claim.expected
          && EntryRenter(db, entry) == Some(db.book.receivables[allocations[i].receivable].claim.renter))
  }

  lemma {:induction false} SignedSum(kind: L.Kind, allocations: seq<Allocation>)
    requires forall i | 0 <= i < |allocations| :: SignFits(kind, allocations[i])
    ensures if kind == L.Payment then Assigned(allocations) >= 0 else Assigned(allocations) <= 0
  {
    if allocations != [] {
      SignedSum(kind, allocations[1..]);
    }
  }

  lemma PrefixWithinCap(entry: L.Entry, allocations: seq<Allocation>, i: nat)
    requires i < |allocations|
    requires forall j | 0 <= j < |allocations| :: SignFits(entry.kind, allocations[j])
    requires if entry.kind == L.Payment
             then Assigned(allocations) <= entry.amount
             else Assigned(allocations) >= entry.amount
    ensures WithinCap(entry.kind, entry.amount, Assigned(allocations[..i]) + allocations[i].paid.Total())
  {
    hide SignFits;
    var head, tail := allocations[..i], allocations[i + 1..];
    assert allocations == head + ([allocations[i]] + tail);
    AssignedConcat(head, [allocations[i]] + tail);
    AssignedConcat([allocations[i]], tail);
    assert Assigned([allocations[i]]) == allocations[i].paid.Total();
    SignedSum(entry.kind, tail);
  }

  lemma FreshPair(book: L.Book, entry: L.Entry, allocations: seq<Allocation>, i: nat)
    requires L.RowsSound(book) && L.DistinctReceivables(allocations) && i < |allocations|
    ensures var rows := Midway(book, entry, allocations, i).rows;
            forall k | 0 <= k < |rows| && rows[k].entry == |book.entries| ::
                rows[k].booked.receivable != allocations[i].receivable
  {
    hide L.RowsSound;
    L.EntryBounds(book);
    L.StampRows(|book.entries|, allocations[..i]);
  }

  lemma RenterWithEntry(db: Db, book: L.Book, entry: L.Entry)
    requires entry.reverses.Some? ==> entry.reverses.value < |db.book.entries|
    requires book.entries == db.book.entries + [entry]
    ensures EntryRenter(db.(book := book), entry) == EntryRenter(db, entry)
  {
  }

  /** Every row of a ready batch is admitted when its turn comes, and so is its projection. */
  lemma BatchAdmitted(db: Db, entry: L.Entry, allocations: seq<Allocation>, i: nat)
    requires BatchReady(db, entry, allocations) && i < |allocations|
    requires entry.reverses.Some? ==> entry.reverses.value < |db.book.entries|
    ensures var mid := db.(book := Midway(db.book, entry, allocations, i));
            && RowAdmitted(mid, L.Row(|db.book.entries|, allocations[i]))
            && allocations[i].receivable < |mid.book.receivables|
            && ProjectionAdmitted(mid.book.receivables[allocations[i].receivable].claim, allocations[i].after)
  {
    hide L.RowsSound, L.Apply, SignFits, EntryRenter, ComponentsFit, L.Moves, WithinCap;
    var a, mid := allocations[i], Midway(db.book, entry, allocations, i);
    L.ApplyKeepsClaims(db.book.receivables, allocations[..i]);
    FreshPair(db.book, entry, allocations, i);
    L.OfEntryPost(db.book, entry, allocations[..i], |db.book.entries|);
    PrefixWithinCap(entry, allocations, i);
    RenterWithEntry(db, mid, entry);
    MoveChecked(a);
  }

  lemma MoveChecked(a: Allocation)
    requires L.Moves(a)
    ensures ProjectionChecks(a.after)
  {
  }

  // ---- Payments --------------------------------------------------------------------------------------------

  lemma PaySigns(a: Allocation)
    requires L.Pays(a)
    ensures NonNegative(a) && NonPositive(L.Mirror(a)) && a.after.open <= a.before.open
  {
  }

  lemma PaymentEntryAdmitted(db: Db, t: nat, credit: int)
    requires Evidence(db, t) && t < |db.transactions| && db.transactions[t].id == t && db.transactions[t].amount > 0
    requires db.runs[t].rows != [] && credit >= 0
    ensures EntryAdmitted(db, PaymentEntry(db.transactions[t], credit))
  {
  }

  lemma PaymentBatchReady(db: Db, t: nat, credit: int, allocations: seq<Allocation>)
    requires L.RowsSound(db.book) && ClaimsSound(db.book.receivables) && RunsSound(db) && t in db.runs
    requires t < |db.transactions| && db.transactions[t].id == t
    requires db.runs[t].rows != [] && db.runs[t].rows[0].Some?
    requires L.PaymentPlan(db.book, PaymentEntry(db.transactions[t], credit), allocations)
    requires forall i | 0 <= i < |allocations| :: allocations[i].receivable < |db.book.receivables|
               && db.book.receivables[allocations[i].receivable].claim.renter == db.runs[t].rows[0].value.renter
    ensures BatchReady(db, PaymentEntry(db.transactions[t], credit), allocations)
  {
    hide L.RowsSound, ComponentsFit, L.Moves, NonNegative, L.Pays;
    var entry := PaymentEntry(db.transactions[t], credit);
    forall i | 0 <= i < |allocations|
      ensures SignFits(entry.kind, allocations[i])
      ensures allocations[i].after.open <= db.book.receivables[allocations[i].receivable].claim.expected
    {
      PaySigns(allocations[i]);
      assert ClaimChecks(db.book.receivables[allocations[i].receivable]);
    }
  }

  // ---- Returns ----------------------------------------------------------------------------------------------

  lemma ReversalEntryAdmitted(db: Db, init: seq<Projection>, t: nat, p: nat)
    requires Consistent(db, init) && t < |db.transactions|
    requires L.ReturnPlan(db.book, ReversalEntry(db.transactions[t], p), p)
    ensures EntryAdmitted(db, ReversalEntry(db.transactions[t], p))
  {
    hide L.Inv, L.Unmoved;
  }

  lemma ReturnBatchReady(db: Db, init: seq<Projection>, t: nat, p: nat)
    requires Consistent(db, init) && t < |db.transactions|
    requires L.ReturnPlan(db.book, ReversalEntry(db.transactions[t], p), p)
    ensures BatchReady(db, ReversalEntry(db.transactions[t], p), L.Mirrors(L.OfEntry(db.book.rows, p)))
  {
    hide L.Inv, L.RowsSound, ComponentsFit, L.Moves, NonPositive, L.Pays, L.Unmoved, L.Applicable, EntryRenter;
    var entry, own := ReversalEntry(db.transactions[t], p), L.OfEntry(db.book.rows, p);
    var mirrors := L.Mirrors(own);
    LedgerParts(db.book, init);
    ReturnReady(db, init, t, p);
    L.MirrorsAt(own);
    AssignedMirrors(own);
    L.PaymentBalances(db.book, init, p);
    CreditNonNegative(db.book, p);
    forall i | 0 <= i < |mirrors|
      ensures SignFits(entry.kind, mirrors[i])
      ensures mirrors[i].receivable < |db.book.receivables|
      ensures mirrors[i].after.open <= db.book.receivables[mirrors[i].receivable].claim.expected
      ensures EntryRenter(db, entry) == Some(db.book.receivables[mirrors[i].receivable].claim.renter)
    {
      assert own[i] in own;
      ReturnRow(db, init, t, p, own[i]);
    }
  }

  lemma CreditNonNegative(book: L.Book, p: nat)
    requires L.EntriesSound(book.entries) && L.LiveEntry(book.entries, p)
    ensures p < |book.entries| && book.entries[p].kind == L.Payment && book.entries[p].credit >= 0
  {
    assert L.EntrySound(book.entries, p);
  }

  lemma ReturnReady(db: Db, init: seq<Projection>, t: nat, p: nat)
    requires Consistent(db, init) && t < |db.transactions|
    requires L.ReturnPlan(db.book, ReversalEntry(db.transactions[t], p), p)
    ensures L.Applicable(db.book, L.Mirrors(L.OfEntry(db.book.rows, p)))
    ensures L.LiveEntry(db.book.entries, p) && db.transactions[t].amount == -db.book.entries[p].amount
  {
    hide L.Inv;
    L.ReturnApplicable(db.book, init, p);
  }

  /** One row of the payment, seen from its return. */
  lemma ReturnRow(db: Db, init: seq<Projection>, t: nat, p: nat, a: Allocation)
    requires Consistent(db, init) && t < |db.transactions|
    requires L.LiveEntry(db.book.entries, p) && a in L.OfEntry(db.book.rows, p)
    ensures L.Pays(a) && NonPositive(L.Mirror(a)) && a.receivable < |db.book.receivables|
    ensures a.before.open <= db.book.receivables[a.receivable].claim.expected
    ensures EntryRenter(db, ReversalEntry(db.transactions[t], p))
              == Some(db.book.receivables[a.receivable].claim.renter)
  {
    hide L.Inv;
    L.OfEntryMembers(db.book.rows, p);
    L.RowOf(db.book, init, L.Row(p, a));
    PaySigns(a);
    SnapshotInRange(db, init, p, a);
    assert EntryTraced(db, p);
  }

  /** The snapshot before a live payment shows no more than the claim. */
  lemma SnapshotInRange(db: Db, init: seq<Projection>, p: nat, a: Allocation)
    requires Consistent(db, init) && L.LiveEntry(db.book.entries, p) && a in L.OfEntry(db.book.rows, p)
    requires a.receivable < |db.book.receivables|
    ensures a.before.open <= db.book.receivables[a.receivable].claim.expected
  {
    hide L.Inv, L.Pays, EntriesTraced, ClaimsSound;
    var r := a.receivable;
    var live := L.Live(db.book, r);
    L.OfEntryMembers(db.book.rows, p);
    L.OnMembers(db.book.rows, L.LiveEntries(db.book.entries), r);
    var k :| 0 <= k < |live| && live[k] == L.Row(p, a);
    L.LivePays(db.book, init, r);
    L.StackOf(db.book, init, r);
    ChainBelow(init[r], live, db.book.receivables[r].open, k);
  }

  lemma {:induction false} ChainBelow(start: Projection, rows: seq<L.Row>, end: Projection, k: nat)
    requires L.Chain(start, rows, end) && k < |rows|
    requires forall i | 0 <= i < |rows| :: L.Pays(rows[i].booked)
    ensures rows[k].booked.before.open <= start.open
    decreases |rows|
  {
    if k > 0 {
      ChainBelow(rows[0].booked.after, rows[1..], end, k - 1);
      assert L.Pays(rows[0].booked);
    }
  }

  // ---- The end of the transaction -----------------------------------------------------------------------------

  /** Every entry of a consistent account passes the deferred reconciliation. */
  lemma AllReconcile(book: L.Book, init: seq<Projection>, e: nat)
    requires L.Inv(book, init) && e < |book.entries|
    ensures EntryReconciles(book, e)
  {
    if book.entries[e].kind == L.Payment {
      L.PaymentBalances(book, init, e);
    } else {
      MirroredTotals(book, init, e);
    }
  }

  lemma MirroredTotals(book: L.Book, init: seq<Projection>, e: nat)
    requires L.Inv(book, init) && e < |book.entries| && book.entries[e].kind == L.Reversal
    ensures book.entries[e].reverses.Some? && book.entries[e].credit == 0
    ensures Assigned(L.OfEntry(book.rows, e)) == -Assigned(L.OfEntry(book.rows, book.entries[e].reverses.value))
  {
    hide L.Inv;
    L.ReversalMirrors(book, init, e);
    AssignedMirrors(L.OfEntry(book.rows, book.entries[e].reverses.value));
  }

  // ---- Proposals ------------------------------------------------------------------------------------------------

  lemma ProposalAdmitted(db: Db, t: nat)
    requires ClaimsSound(db.book.receivables) && t < |db.transactions| && db.transactions[t].amount > 0 && t !in db.runs
    ensures RunAdmitted(db, t, ProposeRun(db, t))
  {
    hide ProposeRun, ClaimsSound;
    ProposedRunSound(db, t);
  }
}
