/**
 * What every state of an account's rows satisfies, whatever was matched, decided or returned before,
 * and the proof that each operation keeps it.
 */
module MatchingInvariant {
  import opened Rows
  import opened PrincipalSplit
  import opened Settlement
  import opened Scoring
  import opened Matching
  import L = Ledger

  /** The immutable columns of a receivable, as its CHECK constraints demand. */
  ghost predicate ClaimChecks(r: Receivable)
  {
    && |r.claim.components| == 4
    && r.open.open <= r.claim.expected
    && (r.claim.category == Rent ==> Sum(r.claim.components) == r.claim.expected)
  }

  ghost predicate ClaimsSound(receivables: seq<Receivable>)
  {
    && (forall r | 0 <= r < |receivables| ::
        receivables[r].id == r && ProjectionChecks(receivables[r].open) && ClaimChecks(receivables[r]))
    && DistinctOrder(receivables)
  }

  ghost predicate TransactionsSound(db: Db)
  {
    forall t | 0 <= t < |db.transactions| :: db.transactions[t].id == t
  }

  /** A ranked candidate names a debt together with its renter. */
  ghost predicate RunSound(db: Db, t: nat)
    requires t in db.runs
  {
    && t < |db.transactions| && db.transactions[t].amount > 0
    && db.runs[t].rows != []
    && forall k | 0 <= k < |db.runs[t].rows| && db.runs[t].rows[k].Some? ::
         var s := db.runs[t].rows[k].value;
         s.receivable < |db.book.receivables| && db.book.receivables[s.receivable].claim.renter == s.renter
  }

  ghost predicate RunsSound(db: Db)
  {
    && (forall t | t in db.runs :: RunSound(db, t))
    && (forall t | t in db.confirmations :: t in db.runs && db.runs[t].decision == NeedsReview)
  }

  /** Where an entry comes from, and whose debts its rows touch. */
  ghost predicate EntryTraced(db: Db, e: nat)
    requires e < |db.book.entries|
  {
    var entry := db.book.entries[e];
    && entry.transaction < |db.transactions|
    && entry.amount == db.transactions[entry.transaction].amount
    && match entry.kind
       case Payment =>
         && entry.proposal == Some(L.Cite(entry.transaction, 1))
         && Evidence(db, entry.transaction)
         && db.runs[entry.transaction].rows != [] && db.runs[entry.transaction].rows[0].Some?
         && RowsBelongTo(db.book, e, db.runs[entry.transaction].rows[0].value.renter)
       case Reversal => entry.proposal == None
  }

  ghost predicate RowsBelongTo(book: L.Book, e: nat, renter: nat)
  {
    forall a | a in L.OfEntry(book.rows, e) ::
      a.receivable < |book.receivables| && book.receivables[a.receivable].claim.renter == renter
  }

  ghost predicate EntriesTraced(db: Db)
  {
    && (forall e | 0 <= e < |db.book.entries| :: EntryTraced(db, e))
    && (forall e, f | 0 <= e < f < |db.book.entries| ::
        db.book.entries[e].transaction != db.book.entries[f].transaction)
  }

  ghost predicate Paid(db: Db, t: nat)
  {
    exists e ::
      0 <= e < |db.book.entries| && db.book.entries[e].kind == L.Payment && db.book.entries[e].transaction == t
  }

  /** A run with positive evidence has been booked; together with EntriesTraced, exactly then. */
  ghost predicate EvidencePaid(db: Db)
  {
    forall t | Evidence(db, t) :: Paid(db, t)
  }

  ghost predicate Consistent(db: Db, init: seq<Projection>)
  {
    && L.Inv(db.book, init)
    && ClaimsSound(db.book.receivables)
    && InitSound(db.book.receivables, init)
    && TransactionsSound(db)
    && RunsSound(db)
    && EntriesTraced(db)
    && EvidencePaid(db)
  }

  ghost predicate InitSound(receivables: seq<Receivable>, init: seq<Projection>)
  {
    |init| == |receivables| && forall r | 0 <= r < |init| :: init[r].open <= receivables[r].claim.expected
  }

  /** Consistent, except that the evidence for `t` may be waiting to be booked. */
  ghost predicate AwaitsBooking(db: Db, init: seq<Projection>, t: nat)
  {
    && L.Inv(db.book, init)
    && ClaimsSound(db.book.receivables)
    && InitSound(db.book.receivables, init)
    && TransactionsSound(db)
    && RunsSound(db)
    && EntriesTraced(db)
    && forall u | u != t && Evidence(db, u) :: Paid(db, u)
  }

  // ---- From the engine's result to a booking plan --------------------------------------------------

  lemma {:induction false} OpenDebtsMembers(receivables: seq<Receivable>, renter: nat)
    ensures forall r | r in OpenDebts(receivables, renter) :: r in receivables && r.claim.renter == renter
  {
    if receivables != [] {
      OpenDebtsMembers(receivables[1..], renter);
    }
  }

  lemma {:induction false} OpenDebtsDistinct(receivables: seq<Receivable>, renter: nat)
    requires DistinctIds(receivables)
    ensures DistinctIds(OpenDebts(receivables, renter))
  {
    if receivables != [] {
      var rest := OpenDebts(receivables[1..], renter);
      OpenDebtsDistinct(receivables[1..], renter);
      OpenDebtsMembers(receivables[1..], renter);
      forall j | 0 <= j < |rest| ensures rest[j].id != receivables[0].id {
        assert rest[j] in rest;
        LaterRow(receivables, 0, rest[j]);
      }
    }
  }

  /** Some row of the list is paid by the allocation. */
  ghost predicate PaysOneOf(a: Allocation, rows: seq<Receivable>)
  {
    exists r :: r in rows && Pays(a, r)
  }

  lemma PaysReceivable(a: Allocation, r: Receivable)
    requires Pays(a, r)
    ensures a.receivable == r.id
  {
  }

  lemma LaterRow(rows: seq<Receivable>, i: nat, r: Receivable)
    requires DistinctIds(rows) && i < |rows| && r in rows[i + 1..]
    ensures r in rows && r.id != rows[i].id
  {
    var j :| 0 <= j < |rows[i + 1..]| && rows[i + 1..][j] == r;
    assert rows[i + 1 + j] == r;
  }

  lemma HeadPayer(allocations: seq<Allocation>, rows: seq<Receivable>) returns (i: nat)
    requires PaysInOrder(allocations, rows) && allocations != []
    ensures i < |rows| && Pays(allocations[0], rows[i]) && PaysInOrder(allocations[1..], rows[i + 1..])
  {
    hide Pays;
    var k: int :| 0 <= k < |rows| && Pays(allocations[0], rows[k]) && PaysInOrder(allocations[1..], rows[k + 1..]);
    i := k;
  }

  /** A head paying row `i`, before a tail paying later rows. */
  lemma HeadBeforeTail(head: Allocation, tail: seq<Allocation>, rows: seq<Receivable>, i: nat)
    requires DistinctIds(rows) && i < |rows| && Pays(head, rows[i])
    requires forall k | 0 <= k < |tail| :: PaysOneOf(tail[k], rows[i + 1..])
    ensures PaysOneOf(head, rows)
    ensures forall k | 0 <= k < |tail| :: PaysOneOf(tail[k], rows) && tail[k].receivable != head.receivable
  {
    hide Pays;
    PaysReceivable(head, rows[i]);
    assert rows[i] in rows;
    forall k | 0 <= k < |tail| ensures PaysOneOf(tail[k], rows) && tail[k].receivable != head.receivable {
      assert PaysOneOf(tail[k], rows[i + 1..]);
      var r :| r in rows[i + 1..] && Pays(tail[k], r);
      PaysReceivable(tail[k], r);
      LaterRow(rows, i, r);
    }
  }

  lemma {:induction false} PaysInOrderAt(allocations: seq<Allocation>, rows: seq<Receivable>)
    requires PaysInOrder(allocations, rows) && DistinctIds(rows)
    ensures forall k | 0 <= k < |allocations| :: PaysOneOf(allocations[k], rows)
    ensures L.DistinctReceivables(allocations)
  {
    hide Pays, PaysInOrder, PaysOneOf;
    if allocations != [] {
      var i := HeadPayer(allocations, rows);
      var tail := allocations[1..];
      PaysInOrderAt(tail, rows[i + 1..]);
      HeadBeforeTail(allocations[0], tail, rows, i);
      assert forall k | 1 <= k < |allocations| :: allocations[k] == tail[k - 1];
    }
  }

  lemma {:induction false} PersistAt(receivables: seq<Receivable>, allocations: seq<Allocation>)
    ensures |Persist(receivables, allocations)| == |allocations|
    ensures forall k | 0 <= k < |allocations| && allocations[k].receivable < |receivables| ::
              Persist(receivables, allocations)[k]
              == var a := allocations[k]; a.(parts := PersistedParts(receivables[a.receivable].claim, a.parts))
    ensures forall k | 0 <= k < |allocations| ::
              Persist(receivables, allocations)[k]
                == allocations[k].(parts := Persist(receivables, allocations)[k].parts)
    ensures Assigned(Persist(receivables, allocations)) == Assigned(allocations)
  {
    if allocations != [] {
      PersistAt(receivables, allocations[1..]);
    }
  }

  /** The engine's allocation, with its components as they are persisted. */
  function Persisted(a: Allocation, claim: Claim): Allocation
  {
    a.(parts := PersistedParts(claim, a.parts))
  }

  lemma EnginePays(a: Allocation, r: Receivable)
    requires Pays(a, r) && ProjectionChecks(r.open) && ClaimChecks(r)
    ensures L.Pays(Persisted(a, r.claim)) && ComponentsFit(r.claim, Persisted(a, r.claim))
    ensures a.receivable == r.id && a.before == r.open
  {
    hide SplitPrincipal;
    EngineParts(a, r);
  }

  lemma EngineParts(a: Allocation, r: Receivable)
    requires Pays(a, r) && ClaimChecks(r)
    ensures |a.parts| == 4 && Sum(a.parts) == a.paid.principal
    ensures forall i | 0 <= i < |a.parts| :: a.parts[i] >= 0
  {
    var nominal, paid, expected := Nominal(r), a.paid.principal, r.claim.expected;
    SplitIsValid(nominal, paid, expected);
    forall i | 0 <= i < 4 ensures |a.parts| == 4 && Sum(a.parts) == paid && a.parts[i] >= 0 {
      SplitKeepsQuota(nominal, paid, expected, i);
    }
    SplitKeepsQuota(nominal, paid, expected, 0);
  }

  lemma SplitIsValid(nominal: seq<int>, paid: int, expected: int)
    requires SplitPrincipal(nominal, paid, expected).Split?
    ensures ValidVector(nominal, paid, expected)
  {
  }

  lemma PlanRow(receivables: seq<Receivable>, renter: nat, ordered: seq<Receivable>, a: Allocation)
    requires ClaimsSound(receivables)
    requires forall r | r in ordered :: r in OpenDebts(receivables, renter)
    requires PaysOneOf(a, ordered)
    ensures a.receivable < |receivables| && a.before == receivables[a.receivable].open
    ensures var claim := receivables[a.receivable].claim;
            L.Pays(Persisted(a, claim)) && ComponentsFit(claim, Persisted(a, claim)) && claim.renter == renter
  {
    hide Pays, L.Pays, ComponentsFit, Persisted, ClaimChecks;
    OpenDebtsMembers(receivables, renter);
    var r :| r in ordered && Pays(a, r);
    assert r in receivables;
    var i :| 0 <= i < |receivables| && receivables[i] == r;
    assert ProjectionChecks(r.open) && ClaimChecks(r);
    EnginePays(a, r);
  }

  /** What the engine returns for a renter's open debts can be booked as it stands. */
  lemma SettlementIsPlan(book: L.Book, tx: Transaction, renter: nat, designated: Option<string>)
    requires ClaimsSound(book.receivables) && tx.amount > 0
    requires SettleSpec(tx.amount, tx.bookingDate, OpenDebts(book.receivables, renter), designated).Settlement?
    ensures var result := SettleSpec(tx.amount, tx.bookingDate, OpenDebts(book.receivables, renter), designated);
            var persisted := Persist(book.receivables, result.allocations);
            && L.PaymentPlan(book, PaymentEntry(tx, result.credit), persisted)
            && forall i | 0 <= i < |persisted| ::
                 && persisted[i].receivable < |book.receivables|
                 && book.receivables[persisted[i].receivable].claim.renter == renter
  {
    hide Pays, L.Pays, SettleSpec, OrderedReceivables, ComponentsFit;
    var debts := OpenDebts(book.receivables, renter);
    var ordered := OrderedReceivables(debts, tx.bookingDate, designated);
    OrderedIsSound(book.receivables, renter, tx.bookingDate, designated);
    SettleSpecConserves(tx.amount, tx.bookingDate, debts, designated);
    var result := SettleSpec(tx.amount, tx.bookingDate, debts, designated);
    PaysInOrderAt(result.allocations, ordered);
    PersistAt(book.receivables, result.allocations);
    var persisted := Persist(book.receivables, result.allocations);
    forall k | 0 <= k < |persisted|
      ensures persisted[k].receivable < |book.receivables|
      ensures persisted[k].before == book.receivables[persisted[k].receivable].open
      ensures L.Pays(persisted[k]) && L.Moves(persisted[k])
      ensures ComponentsFit(book.receivables[persisted[k].receivable].claim, persisted[k])
      ensures book.receivables[persisted[k].receivable].claim.renter == renter
    {
      PlanRow(book.receivables, renter, ordered, result.allocations[k]);
      PaysMoves(persisted[k]);
    }
    assert L.Applicable(book, persisted) by {
      forall i, j | 0 <= i < j < |persisted| ensures persisted[i].receivable != persisted[j].receivable {
        assert persisted[i].receivable == result.allocations[i].receivable;
        assert persisted[j].receivable == result.allocations[j].receivable;
      }
    }
    var e := PaymentEntry(tx, result.credit);
    assert e.kind == L.Payment && e.reverses == None && e.amount >= 0 && e.credit >= 0;
    assert e.amount == Assigned(persisted) + e.credit;
    assert L.SameRenter(book, persisted);
    assert forall i | 0 <= i < |persisted| :: L.Pays(persisted[i]);
    PlanOf(book, e, persisted);
  }

  lemma PlanOf(book: L.Book, entry: L.Entry, allocations: seq<Allocation>)
    requires entry.kind == L.Payment && entry.reverses == None && entry.amount >= 0 && entry.credit >= 0
    requires entry.amount == Assigned(allocations) + entry.credit
    requires L.Applicable(book, allocations) && L.SameRenter(book, allocations)
    requires forall i | 0 <= i < |allocations| :: L.Pays(allocations[i])
    ensures L.PaymentPlan(book, entry, allocations)
  {
  }

  lemma PaysMoves(a: Allocation)
    requires L.Pays(a)
    ensures L.Moves(a)
  {
  }

  lemma OrderedIsSound(receivables: seq<Receivable>, renter: nat, bookingDate: int, designated: Option<string>)
    requires ClaimsSound(receivables)
    ensures var ordered := OrderedReceivables(OpenDebts(receivables, renter), bookingDate, designated);
            && DistinctIds(ordered) && AllChecked(ordered)
            && forall r | r in ordered :: r in OpenDebts(receivables, renter)
  {
    var debts := OpenDebts(receivables, renter);
    var ordered := OrderedReceivables(debts, bookingDate, designated);
    OpenDebtsMembers(receivables, renter);
    OpenDebtsDistinct(receivables, renter);
    OrderedIsPermutation(debts, bookingDate, designated);
    forall r | r in ordered ensures r in debts {
      assert r in multiset(ordered);
    }
    forall i | 0 <= i < |ordered| ensures ProjectionChecks(ordered[i].open) {
      assert ordered[i] in ordered;
      assert ordered[i] in receivables;
    }
    DistinctByMultiset(debts, ordered);
  }

  lemma DistinctByMultiset(xs: seq<Receivable>, ys: seq<Receivable>)
    requires DistinctIds(xs) && multiset(xs) == multiset(ys)
    ensures DistinctIds(ys)
  {
    forall i, j | 0 <= i < j < |ys| ensures ys[i].id != ys[j].id {
      if ys[i].id == ys[j].id {
        assert ys[i] in multiset(ys) && ys[j] in multiset(ys);
        var k :| 0 <= k < |xs| && xs[k] == ys[i];
        var l :| 0 <= l < |xs| && xs[l] == ys[j];
        assert xs[k] == xs[l];
        TwiceInMultiset(ys, i, j);
        OnceInMultiset(xs, k);
        assert false;
      }
    }
  }

  lemma TwiceInMultiset(ys: seq<Receivable>, i: nat, j: nat)
    requires i < j < |ys| && ys[i] == ys[j]
    ensures multiset(ys)[ys[i]] >= 2
  {
    assert ys == ys[..i] + [ys[i]] + ys[i + 1..j] + [ys[j]] + ys[j + 1..];
  }

  lemma OnceInMultiset(xs: seq<Receivable>, k: nat)
    requires DistinctIds(xs) && k < |xs|
    ensures multiset(xs)[xs[k]] == 1
  {
    assert xs == xs[..k] + [xs[k]] + xs[k + 1..];
    assert xs[k] !in xs[..k] && xs[k] !in xs[k + 1..];
    assert multiset(xs) == multiset(xs[..k]) + multiset{xs[k]} + multiset(xs[k + 1..]);
  }

  // ---- Booking at the level of the account ------------------------------------------------------------

  lemma {:induction false} LedgerForFinds(entries: seq<L.Entry>, t: nat)
    ensures match LedgerFor(entries, t)
      case Some(e) => e < |entries| && entries[e].proposal == Some(L.Cite(t, 1))
      case None => forall e | 0 <= e < |entries| :: entries[e].proposal != Some(L.Cite(t, 1))
  {
    if entries != [] {
      LedgerForFinds(entries[..|entries| - 1], t);
    }
  }

  lemma {:induction false} ReversalForFinds(entries: seq<L.Entry>, t: nat)
    ensures match ReversalFor(entries, t)
      case Some(e) => e < |entries| && entries[e].kind == L.Reversal && entries[e].transaction == t
      case None => forall e | 0 <= e < |entries| :: !(entries[e].kind == L.Reversal && entries[e].transaction == t)
  {
    if entries != [] {
      ReversalForFinds(entries[..|entries| - 1], t);
    }
  }

  /** Any booking that keeps the ledger invariant keeps the receivables' CHECK constraints. */
  lemma ClaimsKept(book: L.Book, init: seq<Projection>, entry: L.Entry, allocations: seq<Allocation>)
    requires ClaimsSound(book.receivables) && InitSound(book.receivables, init)
    requires L.Inv(L.Post(book, entry, allocations), init)
    ensures var after := L.Post(book, entry, allocations).receivables;
            ClaimsSound(after) && InitSound(after, init)
  {
    var post := L.Post(book, entry, allocations);
    L.ApplyKeepsClaims(book.receivables, allocations);
    forall r | 0 <= r < |post.receivables|
      ensures post.receivables[r].id == r && ProjectionChecks(post.receivables[r].open)
          && ClaimChecks(post.receivables[r])
    {
      L.OpenAtMostInitial(post, init, r);
      assert ClaimChecks(book.receivables[r]);
    }
  }

  /** Tracing survives a booking: older entries keep their rows, and rows keep their debtors. */
  lemma TraceKept(db: Db, entry: L.Entry, allocations: seq<Allocation>, e: nat)
    requires L.RowsSound(db.book) && e < |db.book.entries| && EntryTraced(db, e)
    ensures EntryTraced(db.(book := L.Post(db.book, entry, allocations)), e)
  {
    L.OfEntryPost(db.book, entry, allocations, e);
    L.ApplyKeepsClaims(db.book.receivables, allocations);
  }

  /** Adding a traced entry of a transaction that had none keeps the trace and everything booked so far. */
  lemma EntriesTracedKept(db: Db, init: seq<Projection>, entry: L.Entry, allocations: seq<Allocation>)
    requires EntriesTraced(db) && L.RowsSound(db.book)
    requires forall e | 0 <= e < |db.book.entries| :: db.book.entries[e].transaction != entry.transaction
    requires EntryTraced(db.(book := L.Post(db.book, entry, allocations)), |db.book.entries|)
    ensures EntriesTraced(db.(book := L.Post(db.book, entry, allocations)))
    ensures forall t | Paid(db, t) :: Paid(db.(book := L.Post(db.book, entry, allocations)), t)
  {
    var after := db.(book := L.Post(db.book, entry, allocations));
    forall e | 0 <= e < |after.book.entries| ensures EntryTraced(after, e) {
      if e < |db.book.entries| {
        assert EntryTraced(db, e);
        TraceKept(db, entry, allocations, e);
      }
    }
    forall t | Paid(db, t) ensures Paid(after, t) {
      var e :| 0 <= e < |db.book.entries|
               && db.book.entries[e].kind == L.Payment && db.book.entries[e].transaction == t;
      assert after.book.entries[e] == db.book.entries[e];
    }
  }

  lemma RunsKept(db: Db, entry: L.Entry, allocations: seq<Allocation>)
    requires RunsSound(db)
    ensures RunsSound(db.(book := L.Post(db.book, entry, allocations)))
  {
    var after := db.(book := L.Post(db.book, entry, allocations));
    L.ApplyKeepsClaims(db.book.receivables, allocations);
    forall t | t in after.runs ensures RunSound(after, t) {
      assert RunSound(db, t);
    }
  }

  /** An entry that cites run `t` is its payment. */
  lemma CitedIsPaid(db: Db, t: nat, e: nat)
    requires EntriesTraced(db) && e < |db.book.entries| && db.book.entries[e].proposal == Some(L.Cite(t, 1))
    ensures Paid(db, t)
  {
    assert EntryTraced(db, e);
    assert db.book.entries[e].kind == L.Payment && db.book.entries[e].transaction == t;
  }

  /** A positive transaction whose run is not cited has no entry at all. */
  lemma UncitedHasNoEntry(db: Db, t: nat)
    requires EntriesTraced(db) && L.EntriesSound(db.book.entries) && t < |db.transactions|
        && db.transactions[t].amount > 0
    requires forall e | 0 <= e < |db.book.entries| :: db.book.entries[e].proposal != Some(L.Cite(t, 1))
    ensures forall e | 0 <= e < |db.book.entries| :: db.book.entries[e].transaction != t
  {
    forall e | 0 <= e < |db.book.entries| ensures db.book.entries[e].transaction != t {
      assert EntryTraced(db, e) && L.EntrySound(db.book.entries, e);
    }
  }

  lemma PaymentTraced(db: Db, t: nat, credit: int, allocations: seq<Allocation>, renter: nat)
    requires L.RowsSound(db.book) && TransactionsSound(db) && RunsSound(db) && t < |db.transactions| && Evidence(db, t)
    requires db.runs[t].rows != [] && db.runs[t].rows[0].Some? && db.runs[t].rows[0].value.renter == renter
    requires forall i | 0 <= i < |allocations| :: allocations[i].receivable < |db.book.receivables|
               && db.book.receivables[allocations[i].receivable].claim.renter == renter
    ensures EntryTraced(db.(book := L.Post(db.book, PaymentEntry(db.transactions[t], credit), allocations)),
                        |db.book.entries|)
  {
    L.OfEntryPost(db.book, PaymentEntry(db.transactions[t], credit), allocations, |db.book.entries|);
    L.ApplyKeepsClaims(db.book.receivables, allocations);
  }

  /** The entry and the allocations that settling would book. */
  function PlannedSettlement(db: Db, t: nat): (L.Entry, seq<Allocation>)
    requires t < |db.transactions| && t in db.runs && db.runs[t].rows != [] && db.runs[t].rows[0].Some?
    requires SettlementOf(db, t).Settlement?
  {
    (PaymentEntry(db.transactions[t], SettlementOf(db, t).credit),
     Persist(db.book.receivables, SettlementOf(db, t).allocations))
  }

  function SettlementOf(db: Db, t: nat): SettleResult
    requires t < |db.transactions| && t in db.runs && db.runs[t].rows != [] && db.runs[t].rows[0].Some?
  {
    var tx, debts := db.transactions[t], OpenDebts(db.book.receivables, db.runs[t].rows[0].value.renter);
    var named := NamedPeriods(Comparison(tx.purpose), debts);
    SettleSpec(tx.amount, tx.bookingDate, debts, if named == [] then None else Some(named[0]))
  }

  /** A new settlement books exactly what the engine planned, for the first-ranked renter. */
  lemma SettlementPlanned(db: Db, t: nat)
    requires ClaimsSound(db.book.receivables) && t < |db.transactions| && db.transactions[t].amount > 0
    requires t in db.runs && db.runs[t].rows != [] && SettlePayment(db, t).Done? && LedgerFor(db.book.entries, t).None?
    ensures db.runs[t].rows[0].Some? && SettlementOf(db, t).Settlement?
    ensures var (entry, allocations) := PlannedSettlement(db, t);
            && L.PaymentPlan(db.book, entry, allocations)
            && SettlePayment(db, t).db == db.(book := L.Post(db.book, entry, allocations))
            && forall i | 0 <= i < |allocations| ::
                 allocations[i].receivable < |db.book.receivables|
                 && db.book.receivables[allocations[i].receivable].claim.renter == db.runs[t].rows[0].value.renter
  {
    hide SettleSpec, NamedPeriods, L.PaymentPlan, L.Post, ClaimsSound;
    var tx, renter := db.transactions[t], db.runs[t].rows[0].value.renter;
    var named := NamedPeriods(Comparison(tx.purpose), OpenDebts(db.book.receivables, renter));
    SettlementIsPlan(db.book, tx, renter, if named == [] then None else Some(named[0]));
  }

  /** Settling a run with evidence keeps the account consistent and books it. */
  lemma SettleKeeps(db: Db, init: seq<Projection>, t: nat)
    requires AwaitsBooking(db, init, t) && t < |db.transactions| && Evidence(db, t) && db.runs[t].rows != []
    requires SettlePayment(db, t).Done?
    ensures Consistent(SettlePayment(db, t).db, init) && Paid(SettlePayment(db, t).db, t)
  {
    hide L.Inv, L.PaymentPlan, L.Post, SettlementOf;
    assert RunSound(db, t);
    LedgerForFinds(db.book.entries, t);
    if LedgerFor(db.book.entries, t).Some? {
      CitedIsPaid(db, t, LedgerFor(db.book.entries, t).value);
    } else {
      SettlementPlanned(db, t);
      BookPlanned(db, init, t, SettlementOf(db, t).credit, PlannedSettlement(db, t).1, db.runs[t].rows[0].value.renter);
    }
  }

  lemma LedgerParts(book: L.Book, init: seq<Projection>)
    requires L.Inv(book, init)
    ensures L.RowsSound(book) && L.EntriesSound(book.entries)
  {
  }

  lemma BookPlanned(db: Db, init: seq<Projection>, t: nat, credit: int, allocations: seq<Allocation>, renter: nat)
    requires AwaitsBooking(db, init, t) && t < |db.transactions| && Evidence(db, t)
    requires db.runs[t].rows != [] && db.runs[t].rows[0].Some? && db.runs[t].rows[0].value.renter == renter
    requires forall e | 0 <= e < |db.book.entries| :: db.book.entries[e].proposal != Some(L.Cite(t, 1))
    requires db.transactions[t].id == t && db.transactions[t].amount > 0
    requires L.PaymentPlan(db.book, PaymentEntry(db.transactions[t], credit), allocations)
    requires forall i | 0 <= i < |allocations| :: allocations[i].receivable < |db.book.receivables|
               && db.book.receivables[allocations[i].receivable].claim.renter == renter
    ensures var after := db.(book := L.Post(db.book, PaymentEntry(db.transactions[t], credit), allocations));
            Consistent(after, init) && Paid(after, t)
  {
    hide L.Inv, L.PaymentPlan, RunSound, EntryTraced;
    var entry := PaymentEntry(db.transactions[t], credit);
    var after := db.(book := L.Post(db.book, entry, allocations));
    LedgerParts(db.book, init);
    UncitedHasNoEntry(db, t);
    L.PaymentKeepsInv(db.book, init, entry, allocations);
    ClaimsKept(db.book, init, entry, allocations);
    RunsKept(db, entry, allocations);
    PaymentTraced(db, t, credit, allocations, renter);
    EntriesTracedKept(db, init, entry, allocations);
    assert after.book.entries[|db.book.entries|] == entry;
    assert Paid(after, t);
    forall u | Evidence(after, u) ensures Paid(after, u) {
      assert Evidence(db, u);
    }
  }

  // ---- Returns ------------------------------------------------------------------------------------------

  lemma {:induction false} MatchesFind(entries: seq<L.Entry>, transactions: seq<Transaction>, channel: Channel,
                                       returned: Transaction)
    ensures forall p: nat :: p in Matches(entries, transactions, channel, returned) ==>
              p < |entries| && entries[p].kind == L.Payment && entries[p].transaction < |transactions|
              && Resembles(channel, returned, transactions[entries[p].transaction])
  {
    if entries != [] {
      MatchesFind(entries[..|entries| - 1], transactions, channel, returned);
    }
  }

  /** The resolved original is a payment; and the engine, resolving the pair again, always agrees. */
  lemma ResolvedIsPayment(db: Db, returned: Transaction)
    requires Resolve(db, returned).Some?
    ensures var p := Resolve(db, returned).value;
            && p < |db.book.entries| && db.book.entries[p].kind == L.Payment
            && db.book.entries[p].transaction < |db.transactions|
            && EngineResolves(returned, db.transactions[db.book.entries[p].transaction])
  {
    MatchesFind(db.book.entries, db.transactions, EndToEnd, returned);
    MatchesFind(db.book.entries, db.transactions, Mandate, returned);
    MatchesFind(db.book.entries, db.transactions, IbanAmountDate, returned);
    var p := Resolve(db, returned).value;
    assert p in Matches(db.book.entries, db.transactions, EndToEnd, returned)
        || p in Matches(db.book.entries, db.transactions, Mandate, returned)
        || p in Matches(db.book.entries, db.transactions, IbanAmountDate, returned);
  }

  /** A negative transaction without a reversal has no entry at all. */
  lemma NoEntryYet(db: Db, t: nat)
    requires EntriesTraced(db) && L.EntriesSound(db.book.entries) && t < |db.transactions|
        && db.transactions[t].amount < 0
    requires ReversalFor(db.book.entries, t).None?
    ensures forall e | 0 <= e < |db.book.entries| :: db.book.entries[e].transaction != t
  {
    ReversalForFinds(db.book.entries, t);
    forall e | 0 <= e < |db.book.entries| ensures db.book.entries[e].transaction != t {
      assert EntryTraced(db, e) && L.EntrySound(db.book.entries, e);
    }
  }

  /** A booked return satisfies the ledger's return plan. */
  lemma ReturnIsPlan(db: Db, init: seq<Projection>, t: nat)
    requires Consistent(db, init) && t < |db.transactions| && db.transactions[t].amount < 0
    requires ReversePayment(db, t).Done? && ReversalFor(db.book.entries, t).None?
    ensures Resolve(db, db.transactions[t]).Some?
    ensures var p := Resolve(db, db.transactions[t]).value;
            && L.ReturnPlan(db.book, ReversalEntry(db.transactions[t], p), p)
            && L.OfEntry(db.book.rows, p) != []
            && ReversePayment(db, t).db
               == db.(book := L.Post(db.book, ReversalEntry(db.transactions[t], p),
                                     L.Mirrors(L.OfEntry(db.book.rows, p))))
  {
    hide L.Inv, Resolve, ReversePayment;
    AcceptedReturn(db, t);
    ResolvedIsPayment(db, db.transactions[t]);
    var p := Resolve(db, db.transactions[t]).value;
    L.PaymentBalances(db.book, init, p);
    assert L.LiveEntry(db.book.entries, p);
    assert EntryTraced(db, p);
  }

  /** What an accepted return has passed. */
  ghost predicate ReturnGuards(db: Db, t: nat, p: nat)
    requires t < |db.transactions|
  {
    var own := L.OfEntry(db.book.rows, p);
    && p < |db.book.entries| && db.book.entries[p].transaction < |db.transactions|
    && !Reversed(db.book.entries, p) && own != [] && L.Unmoved(db.book, own)
    && db.transactions[t].amount < 0 && Assigned(own) + db.book.entries[p].credit == -db.transactions[t].amount
  }

  lemma AcceptedReturn(db: Db, t: nat)
    requires t < |db.transactions| && ReversePayment(db, t).Done? && ReversalFor(db.book.entries, t).None?
    ensures Resolve(db, db.transactions[t]).Some?
    ensures var p := Resolve(db, db.transactions[t]).value;
            && ReturnGuards(db, t, p)
            && ReversePayment(db, t).db
               == db.(book := L.Post(db.book, ReversalEntry(db.transactions[t], p),
                                     L.Mirrors(L.OfEntry(db.book.rows, p))))
  {
    hide Resolve, Reversed, L.Unmoved, EngineResolves, L.Post, L.OfEntry;
  }

  lemma ReverseKeeps(db: Db, init: seq<Projection>, t: nat)
    requires Consistent(db, init) && t < |db.transactions| && db.transactions[t].amount < 0
    requires ReversePayment(db, t).Done?
    ensures Consistent(ReversePayment(db, t).db, init)
  {
    hide L.Inv, ReversePayment, RunSound, EntryTraced;
    if ReversalFor(db.book.entries, t).Some? {
      RepeatedReturn(db, t);
    } else {
      ReturnIsPlan(db, init, t);
      var p := Resolve(db, db.transactions[t]).value;
      var entry, mirrors := ReversalEntry(db.transactions[t], p), L.Mirrors(L.OfEntry(db.book.rows, p));
      var after := db.(book := L.Post(db.book, entry, mirrors));
      LedgerParts(db.book, init);
      NoEntryYet(db, t);
      L.ReturnKeepsInv(db.book, init, entry, p);
      ClaimsKept(db.book, init, entry, mirrors);
      RunsKept(db, entry, mirrors);
      ReversalTraced(db, t, p, mirrors);
      EntriesTracedKept(db, init, entry, mirrors);
      forall u | Evidence(after, u) ensures Paid(after, u) {
        assert Evidence(db, u);
      }
    }
  }

  lemma RepeatedReturn(db: Db, t: nat)
    requires t < |db.transactions| && ReversalFor(db.book.entries, t).Some?
    ensures ReversePayment(db, t) == Done(db)
  {
  }

  lemma ReversalTraced(db: Db, t: nat, p: nat, mirrors: seq<Allocation>)
    requires TransactionsSound(db) && t < |db.transactions|
    ensures EntryTraced(db.(book := L.Post(db.book, ReversalEntry(db.transactions[t], p), mirrors)), |db.book.entries|)
  {
  }

  // ---- Proposal runs and decisions ----------------------------------------------------------------------

  lemma {:induction false} CandidatesMembers(receivables: seq<Receivable>, profiles: map<nat, Profile>,
                                             ibans: set<(nat, string)>, iban: string)
    ensures forall c | c in Candidates(receivables, profiles, ibans, iban) ::
              && c.receivable in receivables && c.receivable.open.status != Settled
              && c.receivable.claim.renter in profiles
              && c.profile == profiles[c.receivable.claim.renter]
              && c.ibans == IbansOf(ibans, c.receivable.claim.renter)
              && c.ownership == OwnershipOf(ibans, iban, c.receivable.claim.renter)
    ensures forall r | r in receivables && r.open.status != Settled && r.claim.renter in profiles ::
              exists c :: c in Candidates(receivables, profiles, ibans, iban) && c.receivable == r
  {
    if receivables != [] {
      var rest := Candidates(receivables[1..], profiles, ibans, iban);
      CandidatesMembers(receivables[1..], profiles, ibans, iban);
      forall r | r in receivables && r.open.status != Settled && r.claim.renter in profiles
        ensures exists c :: c in Candidates(receivables, profiles, ibans, iban) && c.receivable == r
      {
        if r == receivables[0] {
          var c := Candidates(receivables, profiles, ibans, iban)[0];
          assert c in Candidates(receivables, profiles, ibans, iban);
        } else {
          assert r in receivables[1..];
          var c :| c in rest && c.receivable == r;
          assert c in Candidates(receivables, profiles, ibans, iban);
        }
      }
    }
  }

  lemma {:induction false} RankedRowsAt(ranked: seq<Score>)
    ensures |RankedRows(ranked)| == |ranked|
    ensures forall k | 0 <= k < |ranked| :: RankedRows(ranked)[k] == Some(ranked[k])
  {
    if ranked != [] {
      RankedRowsAt(ranked[1..]);
    }
  }

  /** A fresh run names debts with their renters. */
  lemma ProposedRunSound(db: Db, t: nat)
    requires ClaimsSound(db.book.receivables) && t < |db.transactions| && db.transactions[t].amount > 0
    ensures RunSound(db.(runs := db.runs[t := ProposeRun(db, t)]), t)
  {
    var tx := db.transactions[t];
    var candidates := Candidates(db.book.receivables, db.profiles, db.ibans, tx.iban);
    var proposal := Propose(tx, candidates);
    var run := ProposeRun(db, t);
    RankedRowsAt(proposal.ranked);
    forall k | 0 <= k < |run.rows| && run.rows[k].Some?
      ensures var s := run.rows[k].value;
              s.receivable < |db.book.receivables| && db.book.receivables[s.receivable].claim.renter == s.renter
    {
      assert run.rows[k].value in proposal.ranked;
      RankedNamesDebtor(db, tx, run.rows[k].value);
    }
  }

  /** The candidates of a transaction in the current state. */
  function CandidatesFor(db: Db, tx: Transaction): seq<Candidate>
  {
    Candidates(db.book.receivables, db.profiles, db.ibans, tx.iban)
  }

  lemma RankedNamesDebtor(db: Db, tx: Transaction, s: Score)
    requires ClaimsSound(db.book.receivables)
    requires s in Propose(tx, CandidatesFor(db, tx)).ranked
    ensures s.receivable < |db.book.receivables| && db.book.receivables[s.receivable].claim.renter == s.renter
  {
    var candidates := CandidatesFor(db, tx);
    ProposedFromCandidate(tx, candidates, s);
    var i :| 0 <= i < |candidates| && s == ScoreCandidate(tx, candidates[i]);
    CandidatesMembers(db.book.receivables, db.profiles, db.ibans, tx.iban);
    assert candidates[i] in candidates;
    var j :| 0 <= j < |db.book.receivables| && db.book.receivables[j] == candidates[i].receivable;
  }

  lemma ProposedFromCandidate(tx: Transaction, candidates: seq<Candidate>, s: Score)
    requires s in Propose(tx, candidates).ranked
    ensures exists i :: 0 <= i < |candidates| && s == ScoreCandidate(tx, candidates[i])
  {
    RankedAreCandidates(tx, candidates);
  }

  /** Entries do not notice evidence that did not exist before. */
  lemma TraceIgnoresNews(db: Db, after: Db, t: nat)
    requires EntriesTraced(db) && !Evidence(db, t)
    requires after.book == db.book && after.transactions == db.transactions
    requires forall u | u != t && u in db.runs :: u in after.runs && after.runs[u] == db.runs[u]
    requires forall u | u != t && u in db.confirmations ::
        u in after.confirmations && after.confirmations[u] == db.confirmations[u]
    ensures EntriesTraced(after)
  {
    forall e | 0 <= e < |after.book.entries| ensures EntryTraced(after, e) {
      assert EntryTraced(db, e);
    }
  }

  lemma ProposalAwaits(db: Db, init: seq<Projection>, t: nat)
    requires Consistent(db, init) && t < |db.transactions| && db.transactions[t].amount > 0 && t !in db.runs
    ensures AwaitsBooking(db.(runs := db.runs[t := ProposeRun(db, t)]), init, t)
    ensures Evidence(db.(runs := db.runs[t := ProposeRun(db, t)]), t) <==> ProposeRun(db, t).decision == AutoMatch
  {
    hide L.Inv, ProposeRun, EntryTraced;
    var after := db.(runs := db.runs[t := ProposeRun(db, t)]);
    ProposedRunSound(db, t);
    forall u | u in after.runs ensures RunSound(after, u) {
      if u != t {
        assert RunSound(db, u);
      }
    }
    TraceIgnoresNews(db, after, t);
    forall u | u != t && Evidence(after, u) ensures Paid(after, u) {
      assert Evidence(db, u);
    }
  }

  lemma DecisionAwaits(db: Db, init: seq<Projection>, t: nat, outcome: Outcome)
    requires Consistent(db, init) && t in db.runs && db.runs[t].decision == NeedsReview && t !in db.confirmations
    ensures AwaitsBooking(db.(confirmations := db.confirmations[t := outcome]), init, t)
    ensures Evidence(db.(confirmations := db.confirmations[t := outcome]), t) <==> outcome == Confirmed
  {
    hide L.Inv, EntryTraced;
    var after := db.(confirmations := db.confirmations[t := outcome]);
    forall u | u in after.runs ensures RunSound(after, u) {
      assert RunSound(db, u);
    }
    TraceIgnoresNews(db, after, t);
    forall u | u != t && Evidence(after, u) ensures Paid(after, u) {
      assert Evidence(db, u);
    }
  }

  /** A settled wait: nothing to book for `t`. */
  lemma NothingToBook(db: Db, init: seq<Projection>, t: nat)
    requires AwaitsBooking(db, init, t) && !Evidence(db, t)
    ensures Consistent(db, init)
  {
  }

  lemma LearnKeeps(db: Db, init: seq<Projection>, t: nat)
    requires Consistent(db, init) && t < |db.transactions| && t in db.runs && db.runs[t].rows != []
    ensures Consistent(Learn(db, t), init)
  {
    hide L.Inv;
    var after := Learn(db, t);
    forall u | u in after.runs ensures RunSound(after, u) {
      assert RunSound(db, u);
    }
    forall e | 0 <= e < |after.book.entries| ensures EntryTraced(after, e) {
      assert EntryTraced(db, e);
    }
    forall u | Evidence(after, u) ensures Paid(after, u) {
      assert Evidence(db, u) && Paid(db, u);
    }
  }

  /** Matching any transaction, in any consistent state, leads to a consistent state. */
  lemma RunMatchKeeps(db: Db, init: seq<Projection>, t: nat)
    requires Consistent(db, init) && RunMatch(db, t).Done?
    ensures Consistent(RunMatch(db, t).db, init)
  {
    hide L.Inv, ReversePayment, SettlePayment, ProposeRun, Consistent, AwaitsBooking;
    if db.transactions[t].amount < 0 {
      ReverseKeeps(db, init, t);
    } else if !(db.transactions[t].amount == 0 || t in db.runs) {
      var proposed := db.(runs := db.runs[t := ProposeRun(db, t)]);
      ProposalAwaits(db, init, t);
      if ProposeRun(db, t).decision == AutoMatch {
        RunNonempty(proposed, init, t);
        SettleKeeps(proposed, init, t);
      } else {
        NothingToBook(proposed, init, t);
      }
    }
  }

  lemma RunNonempty(db: Db, init: seq<Projection>, t: nat)
    requires AwaitsBooking(db, init, t) && t in db.runs
    ensures t < |db.transactions| && db.runs[t].rows != []
  {
    assert RunSound(db, t);
  }

  lemma DecideMatchKeeps(db: Db, init: seq<Projection>, t: nat, outcome: Outcome)
    requires Consistent(db, init) && DecideMatch(db, t, outcome).Done?
    ensures Consistent(DecideMatch(db, t, outcome).db, init)
  {
    hide L.Inv, SettlePayment, Learn, Consistent, AwaitsBooking;
    if t !in db.confirmations {
      var decided := db.(confirmations := db.confirmations[t := outcome]);
      DecisionAwaits(db, init, t, outcome);
      if outcome == Confirmed {
        SettleKeeps(decided, init, t);
        SettleFrame(decided, t);
        LearnKeeps(SettlePayment(decided, t).db, init, t);
      } else {
        NothingToBook(decided, init, t);
      }
    }
  }

  lemma SettleFrame(db: Db, t: nat)
    requires t < |db.transactions| && t in db.runs && db.runs[t].rows != [] && SettlePayment(db, t).Done?
    ensures var after := SettlePayment(db, t).db;
            after == db.(book := after.book)
  {
  }
}
