/**
 * What one booking writes, from the stored rows alone: along which line of debts the payment runs, what
 * each of them receives, and how the principal falls on the components of a rent.
 */
module Bookings {
  import opened Numbers
  import opened Order
  import opened Rows
  import opened PrincipalSplit
  import opened Settlement
  import opened Scoring
  import opened Matching
  import opened MatchingInvariant
  import opened MatchingRuns
  import opened MatchingTheorems
  import opened MatchingEvidence
  import L = Ledger

  // ---- The components of a rent ----------------------------------------------------------------------------

  /** Each component of the claim gets its share of the principal rounded down, or one cent more. */
  ghost predicate Apportioned(components: seq<int>, expected: int, paid: int, parts: seq<int>)
    requires expected > 0
  {
    && |parts| == |components| && Sum(parts) == paid
    && (forall k | 0 <= k < |parts| ::
        parts[k] == components[k] * paid / expected || parts[k] == components[k] * paid / expected + 1)
    && (forall i, j | 0 <= i < |parts| && 0 <= j < |parts| && parts[i] > components[i] * paid / expected
                      && parts[j] == components[j] * paid / expected ::
        components[i] * paid % expected >= components[j] * paid % expected)
  }

  /**
   * What a row stores of a paid principal: for a rent its only largest-remainder apportionment over
   * the claim's own components, in their order; for a Nachzahlung nothing.
   */
  ghost predicate FairParts(claim: Claim, paid: int, parts: seq<int>)
  {
    match claim.category
    case Nachzahlung => parts == [0, 0, 0, 0]
    case Rent =>
      && claim.expected > 0 && Apportioned(claim.components, claim.expected, paid, parts)
      && (forall other | Apportioned(claim.components, claim.expected, paid, other) :: other == parts)
      && (paid == claim.expected ==> parts == claim.components)
  }

  lemma ApportionedIs(components: seq<int>, expected: int, paid: int, parts: seq<int>)
    requires expected > 0
    ensures Apportioned(components, expected, paid, parts)
       <==> Apportions(parts, Whole(components, paid, expected), Remainders(components, paid, expected), paid)
  {
    hide Sum;
    var whole, rem := Whole(components, paid, expected), Remainders(components, paid, expected);
    assert forall k | 0 <= k < |components| :: whole[k] == components[k] * paid / expected;
    assert forall k | 0 <= k < |components| :: rem[k] == components[k] * paid % expected;
  }

  /** The full principal is the components themselves. */
  lemma FullIsFair(components: seq<int>, expected: int)
    requires expected > 0 && Sum(components) == expected
    ensures Apportioned(components, expected, expected, components)
  {
    forall k | 0 <= k < |components| ensures components[k] * expected / expected == components[k] {
      FullShare(components[k], expected);
    }
  }

  lemma SplitIsFair(claim: Claim, paid: int, parts: seq<int>)
    requires claim.category == Rent && SplitPrincipal(claim.components, paid, claim.expected) == Split(parts)
    ensures FairParts(claim, paid, parts)
  {
    hide SplitPrincipal, Apportioned, Apportions, Whole, Remainders;
    SplitIsValid(claim.components, paid, claim.expected);
    SplitIffUnambiguous(claim.components, paid, claim.expected);
    forall other
      ensures Apportioned(claim.components, claim.expected, paid, other)
         <==> Apportions(other, Whole(claim.components, paid, claim.expected),
                         Remainders(claim.components, paid, claim.expected), paid)
    {
      ApportionedIs(claim.components, claim.expected, paid, other);
    }
    if paid == claim.expected {
      ValidSums(claim.components, paid, claim.expected);
      FullIsFair(claim.components, claim.expected);
    }
  }

  lemma ValidSums(components: seq<int>, paid: int, expected: int)
    requires ValidVector(components, paid, expected)
    ensures Sum(components) == expected
  {
  }

  /** An engine allocation, persisted. */
  lemma PersistedIsFair(a: Allocation, r: Receivable)
    requires Pays(a, r)
    ensures FairParts(r.claim, a.paid.principal, PersistedParts(r.claim, a.parts))
  {
    hide SplitPrincipal, FairParts;
    if r.claim.category == Rent {
      SplitIsFair(r.claim, a.paid.principal, a.parts);
    } else {
      NachzahlungIsFair(r.claim, a.paid.principal);
    }
  }

  lemma NachzahlungIsFair(claim: Claim, paid: int)
    requires claim.category == Nachzahlung
    ensures FairParts(claim, paid, [0, 0, 0, 0])
  {
  }

  // ---- The line of debts ---------------------------------------------------------------------------------------

  /** The purpose of the payment names the period of this debt, by itself or by another open debt of it. */
  ghost predicate Designated(tx: Transaction, line: seq<Receivable>, r: Receivable)
  {
    Comparison(tx.purpose) != ""
    && exists s :: s in line && Names(Comparison(tx.purpose), s) && s.claim.period == r.claim.period
  }

  /** Designated first, then older (so that what is due goes before what is not), then by id. */
  ghost predicate PaidBefore(tx: Transaction, line: seq<Receivable>, a: Receivable, b: Receivable)
  {
    || (Designated(tx, line, a) && !Designated(tx, line, b))
    || ((Designated(tx, line, a) <==> Designated(tx, line, b))
        && (a.claim.dueDate < b.claim.dueDate
            || (a.claim.dueDate == b.claim.dueDate && a.claim.idOrder < b.claim.idOrder)))
  }

  /** All unsettled debts of the renter, in the order in which the payment reaches them. */
  ghost predicate LineOf(receivables: seq<Receivable>, tx: Transaction, renter: nat, line: seq<Receivable>)
  {
    && (forall r :: r in line <==> r in receivables && r.open.status != Settled && r.claim.renter == renter)
    && forall i, j | 0 <= i < j < |line| :: PaidBefore(tx, line, line[i], line[j])
  }

  /** Two unsettled debts of the renter that the purpose names are of two periods. */
  ghost predicate TwoPeriods(receivables: seq<Receivable>, tx: Transaction, renter: nat)
  {
    Comparison(tx.purpose) != ""
    && exists r, s :: r in OpenDebts(receivables, renter) && s in OpenDebts(receivables, renter)
                      && Names(Comparison(tx.purpose), r) && Names(Comparison(tx.purpose), s)
                      && r.claim.period != s.claim.period
  }

  ghost function Line(receivables: seq<Receivable>, tx: Transaction, renter: nat): seq<Receivable>
  {
    var debts := OpenDebts(receivables, renter);
    var named := NamedPeriods(Comparison(tx.purpose), debts);
    OrderedReceivables(debts, tx.bookingDate, if named == [] then None else Some(named[0]))
  }

  lemma {:induction false} OpenDebtsOrder(receivables: seq<Receivable>, renter: nat)
    requires DistinctOrder(receivables)
    ensures DistinctOrder(OpenDebts(receivables, renter))
  {
    if receivables != [] {
      var rest := OpenDebts(receivables[1..], renter);
      OpenDebtsOrder(receivables[1..], renter);
      OpenDebtsIff(receivables[1..], renter);
      forall j | 0 <= j < |rest| ensures rest[j].claim.idOrder != receivables[0].claim.idOrder {
        assert rest[j] in rest;
        var k :| 0 <= k < |receivables[1..]| && receivables[1..][k] == rest[j];
        assert receivables[k + 1] == rest[j];
      }
    }
  }

  /** The named periods, once at most one is named. */
  lemma DesignatedIs(receivables: seq<Receivable>, tx: Transaction, renter: nat, line: seq<Receivable>, r: Receivable)
    requires forall x :: x in line <==> x in OpenDebts(receivables, renter)
    requires |NamedPeriods(Comparison(tx.purpose), OpenDebts(receivables, renter))| <= 1
    ensures var named := NamedPeriods(Comparison(tx.purpose), OpenDebts(receivables, renter));
            Designated(tx, line, r) <==> named != [] && named[0] == r.claim.period
  {
    hide Names, Comparison, OpenDebts;
    var purpose, debts := Comparison(tx.purpose), OpenDebts(receivables, renter);
    var named := NamedPeriods(purpose, debts);
    if purpose != "" {
      NamedPeriodsIff(purpose, debts);
      assert r.claim.period in named <==> named != [] && named[0] == r.claim.period;
      if s :| s in debts && s.claim.period == r.claim.period && Names(purpose, s) {
        assert s in line;
      }
    }
  }

  lemma TwoPeriodsIff(receivables: seq<Receivable>, tx: Transaction, renter: nat)
    ensures TwoPeriods(receivables, tx, renter)
       <==> |NamedPeriods(Comparison(tx.purpose), OpenDebts(receivables, renter))| > 1
  {
    hide Names, Comparison, OpenDebts;
    var purpose, debts := Comparison(tx.purpose), OpenDebts(receivables, renter);
    var named := NamedPeriods(purpose, debts);
    if purpose != "" {
      NamedPeriodsIff(purpose, debts);
      if |named| > 1 {
        assert named[0] in named && named[1] in named && named[0] != named[1];
        var r :| r in debts && r.claim.period == named[0] && Names(purpose, r);
        var s :| s in debts && s.claim.period == named[1] && Names(purpose, s);
        assert r.claim.period != s.claim.period;
      }
      if r, s :| && r in debts && s in debts && Names(purpose, r) && Names(purpose, s)
                 && r.claim.period != s.claim.period
      {
        assert r.claim.period in named && s.claim.period in named;
      }
    }
  }

  lemma LineIs(receivables: seq<Receivable>, tx: Transaction, renter: nat)
    requires ClaimsSound(receivables) && !TwoPeriods(receivables, tx, renter)
    ensures LineOf(receivables, tx, renter, Line(receivables, tx, renter))
    ensures DistinctIds(Line(receivables, tx, renter)) && AllChecked(Line(receivables, tx, renter))
  {
    hide OpenDebts, NamedPeriods, OrderedReceivables, Designated, TwoPeriods, Comparison;
    var debts := OpenDebts(receivables, renter);
    var named := NamedPeriods(Comparison(tx.purpose), debts);
    var designated := if named == [] then None else Some(named[0]);
    var line := Line(receivables, tx, renter);
    TwoPeriodsIff(receivables, tx, renter);
    OpenDebtsIff(receivables, renter);
    OpenDebtsOrder(receivables, renter);
    OrderedIsPermutation(debts, tx.bookingDate, designated);
    OrderedIsSound(receivables, renter, tx.bookingDate, designated);
    forall r ensures r in line <==> r in debts {
      assert r in multiset(line) <==> r in multiset(debts);
    }
    forall i, j | 0 <= i < j < |line| ensures PaidBefore(tx, line, line[i], line[j]) {
      DesignationThenFifo(debts, tx.bookingDate, designated, i, j);
      DesignatedIs(receivables, tx, renter, line, line[i]);
      DesignatedIs(receivables, tx, renter, line, line[j]);
    }
  }

  // ---- What each debt receives ----------------------------------------------------------------------------------

  /** The projection after `paid` cents. */
  ghost function Left(p: Projection, paid: Tiers): Projection
  {
    Projection(Tiers(p.tiers.costs - paid.costs, p.tiers.interest - paid.interest, p.tiers.principal - paid.principal),
               p.open - paid.principal, if paid == p.tiers then Settled else Partial)
  }

  /** The part of the line that a payment covers, at its `k`-th debt. */
  ghost function Receives(line: seq<Receivable>, amount: int, k: nat): Tiers
    requires k < |line|
  {
    CoveredTiers(amount, LineLength(line[..k]), line[k].open.tiers)
  }

  ghost predicate RowPays(line: seq<Receivable>, amount: int, k: nat, a: Allocation)
  {
    && k < |line| && a.receivable == line[k].id && Receives(line, amount, k) != NO_CENTS
    && a.paid == Receives(line, amount, k)
    && a.before == line[k].open && a.after == Left(line[k].open, a.paid)
    && FairParts(line[k].claim, a.paid.principal, a.parts)
  }

  /** One row for every debt that receives something, and no others. */
  ghost predicate PaysLine(line: seq<Receivable>, amount: int, own: seq<Allocation>)
  {
    && L.DistinctReceivables(own)
    && (forall a | a in own :: exists k: nat :: RowPays(line, amount, k, a))
    && forall k: nat | k < |line| && Receives(line, amount, k) != NO_CENTS ::
         exists a :: a in own && a.receivable == line[k].id
  }

  lemma {:induction false} AssignedToOwn(allocations: seq<Allocation>, a: Allocation)
    requires L.DistinctReceivables(allocations) && a in allocations
    ensures AssignedTo(allocations, a.receivable) == a.paid
  {
    if a != allocations[0] {
      var i :| 0 < i < |allocations| && allocations[i] == a;
      assert allocations[1..][i - 1] == a;
      assert allocations[0].receivable != allocations[i].receivable;
      AssignedToOwn(allocations[1..], a);
    }
  }

  lemma PaysLeaves(a: Allocation, r: Receivable)
    requires Pays(a, r) && ProjectionChecks(r.open)
    ensures a.before == r.open && a.after == Left(r.open, a.paid) && a.paid != NO_CENTS && a.receivable == r.id
  {
    hide SplitPrincipal;
  }

  lemma EngineRow(line: seq<Receivable>, amount: int, allocations: seq<Allocation>, a: Allocation)
    requires DistinctIds(line) && AllChecked(line) && amount > 0
    requires SettleFrom(line, amount).Settlement? && allocations == SettleFrom(line, amount).allocations
    requires L.DistinctReceivables(allocations) && a in allocations && PaysOneOf(a, line)
    ensures exists k: nat :: k < |line| && Pays(a, line[k])
                             && RowPays(line, amount, k, a.(parts := PersistedParts(line[k].claim, a.parts)))
  {
    hide Pays, SettleFrom, FairParts, Left, CoveredTiers, LineLength;
    var r :| r in line && Pays(a, r);
    var k: nat :| k < |line| && line[k] == r;
    PaysLeaves(a, r);
    SettlementCoversLine(line, amount, k);
    AssignedToOwn(allocations, a);
    PersistedIsFair(a, r);
    assert RowPays(line, amount, k, a.(parts := PersistedParts(r.claim, a.parts)));
  }

  lemma {:induction false} AssignedToSome(allocations: seq<Allocation>, id: nat)
    requires AssignedTo(allocations, id) != NO_CENTS
    ensures exists a :: a in allocations && a.receivable == id
  {
    if allocations[0].receivable != id {
      AssignedToSome(allocations[1..], id);
      var a :| a in allocations[1..] && a.receivable == id;
      assert a in allocations;
    } else {
      assert allocations[0] in allocations;
    }
  }

  lemma PersistedRow(receivables: seq<Receivable>, line: seq<Receivable>, amount: int, allocations: seq<Allocation>,
                     i: nat)
    requires DistinctIds(line) && AllChecked(line) && amount > 0 && SettleFrom(line, amount).Settlement?
    requires allocations == SettleFrom(line, amount).allocations && i < |allocations|
    requires L.DistinctReceivables(allocations) && PaysOneOf(allocations[i], line)
    requires forall r | r in line :: r.id < |receivables| && receivables[r.id] == r
    ensures |Persist(receivables, allocations)| == |allocations|
    ensures exists k: nat :: RowPays(line, amount, k, Persist(receivables, allocations)[i])
    ensures Persist(receivables, allocations)[i].receivable == allocations[i].receivable
  {
    hide SettleFrom, Pays, RowPays, PersistedParts;
    PersistAt(receivables, allocations);
    EngineRow(line, amount, allocations, allocations[i]);
    var a := allocations[i];
    var k: nat :| k < |line| && Pays(a, line[k])
                  && RowPays(line, amount, k, a.(parts := PersistedParts(line[k].claim, a.parts)));
    PaysReceivable(a, line[k]);
    assert line[k] in line;
  }

  /** What the engine returns, persisted, pays the line. */
  lemma PersistedPaysLine(receivables: seq<Receivable>, line: seq<Receivable>, amount: int)
    requires DistinctIds(line) && AllChecked(line) && amount > 0 && SettleFrom(line, amount).Settlement?
    requires forall r | r in line :: r.id < |receivables| && receivables[r.id] == r
    ensures PaysLine(line, amount, Persist(receivables, SettleFrom(line, amount).allocations))
    ensures SettleFrom(line, amount).credit == Max(0, amount - LineLength(line))
  {
    hide SettleFrom, Pays, PaysInOrder, RowPays, Persist, LineLength, Receives;
    var allocations := SettleFrom(line, amount).allocations;
    var own := Persist(receivables, allocations);
    CreditIsOverflow(line, amount);
    SettlementConserves(line, amount);
    PaysInOrderAt(allocations, line);
    assert |own| == |allocations| by { PersistAt(receivables, allocations); }
    forall i: nat | i < |own|
      ensures exists k: nat :: RowPays(line, amount, k, own[i])
      ensures own[i].receivable == allocations[i].receivable
    {
      PersistedRow(receivables, line, amount, allocations, i);
    }
    forall k: nat | k < |line| && Receives(line, amount, k) != NO_CENTS
      ensures exists a :: a in own && a.receivable == line[k].id
    {
      ReceivesAssigned(line, amount, k);
      AssignedToSome(allocations, line[k].id);
      var a :| a in allocations && a.receivable == line[k].id;
      var i :| 0 <= i < |allocations| && allocations[i] == a;
      assert own[i] in own;
    }
  }

  lemma ReceivesAssigned(line: seq<Receivable>, amount: int, k: nat)
    requires DistinctIds(line) && AllChecked(line) && amount > 0 && SettleFrom(line, amount).Settlement? && k < |line|
    ensures AssignedTo(SettleFrom(line, amount).allocations, line[k].id) == Receives(line, amount, k)
  {
    SettlementCoversLine(line, amount, k);
  }

  // ---- The booking ---------------------------------------------------------------------------------------------

  /**
   * The booking of a transaction for a renter: one new entry that cites the first rank and keeps the
   * overflow as credit, its rows, and the debts they name moved to their new projections; nothing else.
   */
  ghost predicate BooksAlong(before: L.Book, after: L.Book, tx: Transaction, line: seq<Receivable>)
  {
    && after.entries == before.entries + [L.Entry(tx.id, Some(L.Cite(tx.id, 1)), L.Payment, tx.amount,
                                                  Max(0, tx.amount - LineLength(line)), None)]
    && before.rows <= after.rows
    && (forall k | |before.rows| <= k < |after.rows| :: after.rows[k].entry == |before.entries|)
    && (forall k | 0 <= k < |before.rows| :: before.rows[k].entry != |before.entries|)
    && PaysLine(line, tx.amount, L.OfEntry(after.rows, |before.entries|))
    && |after.receivables| == |before.receivables|
    && forall r: nat | r < |before.receivables| :: Moved(before, after, r, L.OfEntry(after.rows, |before.entries|))
  }

  /** The debt shows the after-snapshot of the row that names it, or is as it was. */
  ghost predicate Moved(before: L.Book, after: L.Book, r: nat, own: seq<Allocation>)
    requires r < |before.receivables| == |after.receivables|
  {
    && after.receivables[r] == before.receivables[r].(open := after.receivables[r].open)
    && (forall a | a in own && a.receivable == r :: after.receivables[r].open == a.after)
    && ((forall a | a in own :: a.receivable != r) ==> after.receivables[r] == before.receivables[r])
  }

  lemma PostBooks(book: L.Book, tx: Transaction, line: seq<Receivable>, credit: int, own: seq<Allocation>)
    requires L.RowsSound(book) && PaysLine(line, tx.amount, own) && credit == Max(0, tx.amount - LineLength(line))
    ensures BooksAlong(book, L.Post(book, PaymentEntry(tx, credit), own), tx, line)
  {
    hide LineLength, RowPays, Receives;
    var after, n := L.Post(book, PaymentEntry(tx, credit), own), |book.entries|;
    L.OfEntryPost(book, PaymentEntry(tx, credit), own, n);
    L.StampRows(n, own);
    forall k | 0 <= k < |book.rows| ensures book.rows[k].entry != n {
      assert L.RowSound(book, book.rows[k]);
    }
    forall r: nat | r < |book.receivables| ensures Moved(book, after, r, own) {
      L.ApplyAt(book.receivables, own, r);
    }
  }

  /** Settling a new payment books it along the line of the renter's debts. */
  lemma SettlementBooks(db: Db, t: nat)
    requires ClaimsSound(db.book.receivables) && L.RowsSound(db.book)
    requires t < |db.transactions| && db.transactions[t].amount > 0
    requires t in db.runs && db.runs[t].rows != [] && LedgerFor(db.book.entries, t).None? && SettlePayment(db, t).Done?
    ensures db.runs[t].rows[0].Some?
    ensures var renter, after := db.runs[t].rows[0].value.renter, SettlePayment(db, t).db;
            && after == db.(book := after.book)
            && exists line :: LineOf(db.book.receivables, db.transactions[t], renter, line)
                              && BooksAlong(db.book, after.book, db.transactions[t], line)
  {
    hide SettleFrom, LineOf, OrderedReceivables, BooksAlong, L.Post, LineLength, PaysLine, L.RowsSound, ClaimsSound;
    hide L.PaymentPlan, TwoPeriods, NamedPeriods, OpenDebts;
    var tx, receivables := db.transactions[t], db.book.receivables;
    SettlementPlanned(db, t);
    var renter := db.runs[t].rows[0].value.renter;
    var line := Line(receivables, tx, renter);
    TwoPeriodsIff(receivables, tx, renter);
    LineIs(receivables, tx, renter);
    LineStored(receivables, tx, renter);
    PersistedPaysLine(receivables, line, tx.amount);
    PostBooks(db.book, tx, line, SettleFrom(line, tx.amount).credit,
              Persist(receivables, SettleFrom(line, tx.amount).allocations));
  }

  lemma LineStored(receivables: seq<Receivable>, tx: Transaction, renter: nat)
    requires ClaimsSound(receivables) && !TwoPeriods(receivables, tx, renter)
    ensures forall r | r in Line(receivables, tx, renter) :: r.id < |receivables| && receivables[r.id] == r
  {
    hide OpenDebts, NamedPeriods, OrderedReceivables, TwoPeriods, DistinctOrder, PaidBefore;
    LineIs(receivables, tx, renter);
    forall r | r in Line(receivables, tx, renter) ensures r.id < |receivables| && receivables[r.id] == r {
      var i :| 0 <= i < |receivables| && receivables[i] == r;
    }
  }

  // ---- Over whole runs -----------------------------------------------------------------------------------------

  /** Between the two states, transaction `t` was booked for the renter that its run ranks first. */
  ghost predicate BookedAlong(before: Db, after: Db, t: nat, line: seq<Receivable>)
  {
    && t < |before.transactions| && t in after.runs && after.runs[t].rows != [] && after.runs[t].rows[0].Some?
    && LineOf(before.book.receivables, before.transactions[t], after.runs[t].rows[0].value.renter, line)
    && BooksAlong(before.book, after.book, before.transactions[t], line)
  }

  lemma NoMoreThanReturn(db: Db, init: seq<Projection>, t: nat)
    requires Consistent(db, init) && t < |db.transactions| && db.transactions[t].amount < 0
             && ReversePayment(db, t).Done?
    ensures var after := ReversePayment(db, t).db.book.entries;
            || after == db.book.entries
            || (|after| == |db.book.entries| + 1 && after[|db.book.entries|].kind == L.Reversal)
  {
    hide Consistent, ReversePayment, L.ReturnPlan;
    if ReversalFor(db.book.entries, t).Some? {
      RepeatedReturn(db, t);
    } else {
      ReturnIsPlan(db, init, t);
    }
  }

  lemma AwaitingParts(db: Db, init: seq<Projection>, t: nat)
    requires AwaitsBooking(db, init, t)
    ensures ClaimsSound(db.book.receivables) && L.RowsSound(db.book) && RunsSound(db)
  {
  }

  lemma AlreadyBooked(db: Db, t: nat)
    requires t < |db.transactions| && t in db.runs && db.runs[t].rows != [] && LedgerFor(db.book.entries, t).Some?
    ensures SettlePayment(db, t) == Done(db)
  {
  }

  lemma SettleAlong(db: Db, init: seq<Projection>, t: nat)
    requires AwaitsBooking(db, init, t) && t < |db.transactions| && t in db.runs && db.runs[t].rows != []
    requires SettlePayment(db, t).Done? && SettlePayment(db, t).db.book.entries != db.book.entries
    ensures exists line :: BookedAlong(db, SettlePayment(db, t).db, t, line)
  {
    hide SettlePayment, LineOf, BooksAlong, AwaitsBooking, ClaimsSound, L.RowsSound;
    AwaitingParts(db, init, t);
    assert RunSound(db, t);
    if LedgerFor(db.book.entries, t).Some? {
      AlreadyBooked(db, t);
    }
    SettlementBooks(db, t);
    var line :| LineOf(db.book.receivables, db.transactions[t], db.runs[t].rows[0].value.renter, line)
                && BooksAlong(db.book, SettlePayment(db, t).db.book, db.transactions[t], line);
    assert BookedAlong(db, SettlePayment(db, t).db, t, line);
  }

  lemma MatchAlong(db: Db, init: seq<Projection>, t: nat)
    requires Consistent(db, init) && RunMatch(db, t).Done?
    requires var after := RunMatch(db, t).db.book.entries;
             |after| == |db.book.entries| + 1 && after[|db.book.entries|].kind == L.Payment
    ensures exists line :: BookedAlong(db, RunMatch(db, t).db, t, line)
  {
    hide SettlePayment, ReversePayment, LineOf, BooksAlong, AwaitsBooking, Consistent, ProposeRun;
    if db.transactions[t].amount < 0 {
      NoMoreThanReturn(db, init, t);
      assert false;
    }
    var proposed := db.(runs := db.runs[t := ProposeRun(db, t)]);
    ProposalAwaits(db, init, t);
    RunNonempty(proposed, init, t);
    SettleAlong(proposed, init, t);
    var line :| BookedAlong(proposed, RunMatch(db, t).db, t, line);
    assert BookedAlong(db, RunMatch(db, t).db, t, line);
  }

  lemma DecideAlong(db: Db, init: seq<Projection>, t: nat, outcome: Outcome)
    requires Consistent(db, init) && DecideMatch(db, t, outcome).Done?
    requires |DecideMatch(db, t, outcome).db.book.entries| == |db.book.entries| + 1
    ensures outcome == Confirmed
    ensures exists line :: BookedAlong(db, DecideMatch(db, t, outcome).db, t, line)
  {
    hide SettlePayment, LineOf, BooksAlong, AwaitsBooking, Consistent;
    var decided := db.(confirmations := db.confirmations[t := outcome]);
    DecisionAwaits(db, init, t, outcome);
    SettleAlong(decided, init, t);
    var line :| BookedAlong(decided, SettlePayment(decided, t).db, t, line);
    SettleFrame(decided, t);
    assert BookedAlong(db, DecideMatch(db, t, outcome).db, t, line);
  }

  /**
   * In every reachable account, a step that books a payment is a match or a confirmed decision, and
   * books it along the line of unsettled debts of the renter that the run ranks first.
   */
  lemma PaymentRunsAlongLine(a: Account, action: Action)
    requires Reachable(a) && AddsPayment(a, action)
    ensures exists t: nat, line ::
        (action == Match(t) || action == Decide(t, Confirmed)) && BookedAlong(a.db, Act(a, action).db, t, line)
  {
    hide RunMatch, DecideMatch, Reachable, BookedAlong, Sound;
    ReachableIsSound(a);
    SoundlyAlong(a, action);
  }

  lemma SoundlyAlong(a: Account, action: Action)
    requires Sound(a) && AddsPayment(a, action)
    ensures exists t: nat, line ::
        (action == Match(t) || action == Decide(t, Confirmed)) && BookedAlong(a.db, Act(a, action).db, t, line)
  {
    hide RunMatch, DecideMatch, BookedAlong, Consistent;
    match action
    case Match(t) =>
      MatchAlong(a.db, a.init, t);
      var line :| BookedAlong(a.db, RunMatch(a.db, t).db, t, line);
      assert BookedAlong(a.db, Act(a, action).db, t, line);
    case Decide(t, outcome) =>
      DecideAlong(a.db, a.init, t, outcome);
      var line :| BookedAlong(a.db, DecideMatch(a.db, t, outcome).db, t, line);
      assert BookedAlong(a.db, Act(a, action).db, t, line);
    case _ =>
      assert false;
  }

  /** The row of a payment splits the paid principal over the components of its debt. */
  ghost predicate FairRow(book: L.Book, k: nat)
    requires k < |book.rows|
  {
    var row := book.rows[k];
    row.entry < |book.entries| && book.entries[row.entry].kind == L.Payment ==>
      && row.booked.receivable < |book.receivables|
      && FairParts(book.receivables[row.booked.receivable].claim, row.booked.paid.principal, row.booked.parts)
  }

  ghost predicate FairBook(book: L.Book)
  {
    forall k: nat | k < |book.rows| :: FairRow(book, k)
  }

  lemma FairLater(before: L.Book, after: L.Book, k: nat)
    requires BookLater(before, after) && k < |before.rows| <= |after.rows| && after.rows[k] == before.rows[k]
    requires L.RowSound(before, before.rows[k]) && FairRow(before, k)
    ensures FairRow(after, k)
  {
    hide FairParts;
  }

  lemma NewRowsFair(before: L.Book, after: L.Book, tx: Transaction, line: seq<Receivable>, k: nat)
    requires BooksAlong(before, after, tx, line) && |before.rows| <= k < |after.rows|
    requires forall r | r in line :: r.id < |before.receivables| && before.receivables[r.id] == r
    ensures FairRow(after, k)
  {
    hide FairParts, LineLength, Receives, Left;
    var n, row := |before.entries|, after.rows[k];
    L.OfEntryMembers(after.rows, n);
    assert row == L.Row(n, row.booked);
    var i: nat :| RowPays(line, tx.amount, i, row.booked);
    assert line[i] in line;
    assert Moved(before, after, row.booked.receivable, L.OfEntry(after.rows, n));
  }

  lemma LineInside(receivables: seq<Receivable>, tx: Transaction, renter: nat, line: seq<Receivable>)
    requires ClaimsSound(receivables) && LineOf(receivables, tx, renter, line)
    ensures forall r | r in line :: r.id < |receivables| && receivables[r.id] == r
  {
    forall r | r in line ensures r.id < |receivables| && receivables[r.id] == r {
      var i :| 0 <= i < |receivables| && receivables[i] == r;
    }
  }

  /** Without a payment, the rows that a step adds are of a reversal. */
  lemma OtherRows(before: L.Book, after: L.Book)
    requires OneBooking(before, after)
             && !(|after.entries| == |before.entries| + 1 && after.entries[|before.entries|].kind == L.Payment)
    ensures before.rows <= after.rows
    ensures forall k | |before.rows| <= k < |after.rows| ::
              after.rows[k].entry < |after.entries| && after.entries[after.rows[k].entry].kind == L.Reversal
  {
    hide L.PaymentPlan, L.ReturnPlan;
    if entry, p: nat :| BooksReturn(before, after, entry, p) {
      var mirrors := L.Mirrors(L.OfEntry(before.rows, p));
      ReturnKind(before, entry, p) by { PlanOfReturn(before, after, entry, p); }
      L.StampRows(|before.entries|, mirrors);
    } else if entry, allocations :| BooksPayment(before, after, entry, allocations) {
      PlanInside(before, entry, allocations);
    }
  }

  lemma PlanOfReturn(before: L.Book, after: L.Book, entry: L.Entry, p: nat)
    requires BooksReturn(before, after, entry, p)
    ensures L.ReturnPlan(before, entry, p)
  {
  }

  lemma ActKeepsFair(a: Account, action: Action)
    requires Sound(a) && FairBook(a.db.book)
    ensures FairBook(Act(a, action).db.book)
  {
    hide Act, OneBooking, BookLater, L.Inv, FairRow, BooksAlong, LineOf, ClaimsSound, L.RowSound;
    var before, after := a.db.book, Act(a, action).db.book;
    ActBooks(a, action);
    ActLater(a, action);
    SoundRows(a);
    if AddsPayment(a, action) {
      SoundlyAlong(a, action);
      var t: nat, line :| (action == Match(t) || action == Decide(t, Confirmed))
                          && BookedAlong(a.db, Act(a, action).db, t, line);
      var tx := a.db.transactions[t];
      LineInside(before.receivables, tx, Act(a, action).db.runs[t].rows[0].value.renter, line);
      RowsPrefix(before, after, tx, line);
      forall k: nat | k < |after.rows| ensures FairRow(after, k) {
        if k < |before.rows| {
          FairLater(before, after, k);
        } else {
          NewRowsFair(before, after, tx, line, k);
        }
      }
    } else {
      OtherRows(before, after);
      forall k: nat | k < |after.rows| ensures FairRow(after, k) {
        if k < |before.rows| {
          FairLater(before, after, k);
        } else {
          ReversalRowFair(after, k);
        }
      }
    }
  }

  lemma RowsPrefix(before: L.Book, after: L.Book, tx: Transaction, line: seq<Receivable>)
    requires BooksAlong(before, after, tx, line)
    ensures before.rows <= after.rows
  {
  }

  lemma ReversalRowFair(book: L.Book, k: nat)
    requires k < |book.rows| && book.rows[k].entry < |book.entries|
    requires book.entries[book.rows[k].entry].kind == L.Reversal
    ensures FairRow(book, k)
  {
  }

  lemma {:induction false} PlayKeepsFair(a: Account, actions: seq<Action>)
    requires Sound(a) && FairBook(a.db.book)
    ensures FairBook(Play(a, actions).db.book)
    decreases |actions|
  {
    hide Sound, Act, FairBook;
    if actions != [] {
      ActKeepsFair(a, actions[0]);
      ActKeeps(a, actions[0]);
      PlayKeepsFair(Act(a, actions[0]), actions[1..]);
    }
  }

  /**
   * In every reachable account, each row of a payment on a rent stores the only largest-remainder
   * apportionment of its principal over that debt's components in their order, all of them in full
   * when the whole expected amount is paid; and on a Nachzahlung none.
   */
  lemma ReachableRowsAreFair(a: Account, k: nat)
    requires Reachable(a) && k < |a.db.book.rows|
    requires a.db.book.rows[k].entry < |a.db.book.entries|
    requires a.db.book.entries[a.db.book.rows[k].entry].kind == L.Payment
    ensures var row := a.db.book.rows[k].booked;
            && row.receivable < |a.db.book.receivables|
            && FairParts(a.db.book.receivables[row.receivable].claim, row.paid.principal, row.parts)
  {
    hide Act, Play, Sound, FairParts;
    var actions :| a == Play(EMPTY, actions);
    EmptyIsSound();
    PlayKeepsFair(EMPTY, actions);
    assert FairRow(a.db.book, k);
  }
}
