/**
 * The append-only payment ledger and the receivable projection it maintains: booking a payment,
 * booking its return, and what every state in between keeps.
 */
module Ledger {
  import opened PrincipalSplit
  import opened Rows

  datatype Kind = Payment | Reversal

  /** A proposal row, named by its transaction and its rank in that transaction's run. */
  datatype Cite = Cite(transaction: nat, rank: nat)

  datatype Entry = Entry(transaction: nat, proposal: Option<Cite>, kind: Kind, amount: int, credit: int,
                         reverses: Option<nat>)

  /** A payment_allocation row: an allocation stamped with the ledger entry it belongs to. */
  datatype Row = Row(entry: nat, booked: Allocation)

  datatype Book = Book(receivables: seq<Receivable>, entries: seq<Entry>, rows: seq<Row>)

  // ---- Reading the rows --------------------------------------------------------------------

  /** Rows of the given entries on one receivable, oldest first. */
  function On(rows: seq<Row>, entries: set<nat>, receivable: nat): seq<Row>
  {
    if rows == [] then []
    else (if rows[0].entry in entries && rows[0].booked.receivable == receivable then [rows[0]] else [])
         + On(rows[1..], entries, receivable)
  }

  /** The allocations of one entry. */
  function OfEntry(rows: seq<Row>, entry: nat): seq<Allocation>
  {
    if rows == [] then []
    else (if rows[0].entry == entry then [rows[0].booked] else []) + OfEntry(rows[1..], entry)
  }

  function Stamp(entry: nat, allocations: seq<Allocation>): seq<Row>
  {
    if allocations == [] then [] else [Row(entry, allocations[0])] + Stamp(entry, allocations[1..])
  }

  ghost function AllEntries(rows: seq<Row>): set<nat>
  {
    set x | x in rows :: x.entry
  }

  /** Every row on one receivable, payments and returns, oldest first. */
  ghost function History(rows: seq<Row>, receivable: nat): seq<Row>
  {
    On(rows, AllEntries(rows), receivable)
  }

  /** Payments that no reversal names. */
  ghost predicate LiveEntry(entries: seq<Entry>, e: nat)
  {
    && e < |entries| && entries[e].kind == Payment
    && forall j | 0 <= j < |entries| :: entries[j].reverses != Some(e)
  }

  ghost function LiveEntries(entries: seq<Entry>): set<nat>
  {
    set e: nat | e < |entries| && LiveEntry(entries, e)
  }

  /** Not-yet-returned payments on one receivable, oldest first. */
  ghost function Live(book: Book, receivable: nat): seq<Row>
  {
    On(book.rows, LiveEntries(book.entries), receivable)
  }

  /** Snapshots that hand over from one row to the next, from `start` to `end`. */
  ghost predicate Chain(start: Projection, rows: seq<Row>, end: Projection)
    decreases |rows|
  {
    if rows == [] then start == end
    else rows[0].booked.before == start && Chain(rows[0].booked.after, rows[1..], end)
  }

  // ---- The two bookings --------------------------------------------------------------------

  /** The receivables after the loop has written back the allocations' after-projections. */
  function Apply(receivables: seq<Receivable>, allocations: seq<Allocation>): (result: seq<Receivable>)
    ensures |result| == |receivables|
  {
    if allocations == [] then receivables
    else
      var last := allocations[|allocations| - 1];
      var rest := Apply(receivables, allocations[..|allocations| - 1]);
      if last.receivable < |rest| then rest[last.receivable := rest[last.receivable].(open := last.after)] else rest
  }

  function Post(book: Book, entry: Entry, allocations: seq<Allocation>): Book
  {
    Book(Apply(book.receivables, allocations), book.entries + [entry], book.rows + Stamp(|book.entries|, allocations))
  }

  function Negated(xs: seq<int>): seq<int>
  {
    seq(|xs|, i requires 0 <= i < |xs| => -xs[i])
  }

  /** The compensation of an allocation: negated cents, exchanged snapshots. */
  function Mirror(a: Allocation): Allocation
  {
    Allocation(a.receivable, a.paid.Negated(), Negated(a.parts), a.after, a.before)
  }

  function Mirrors(allocations: seq<Allocation>): seq<Allocation>
  {
    if allocations == [] then [] else [Mirror(allocations[0])] + Mirrors(allocations[1..])
  }

  // ---- What every reachable book satisfies --------------------------------------------------

  ghost predicate Tables(book: Book, init: seq<Projection>)
  {
    && |init| == |book.receivables|
    && (forall r | 0 <= r < |init| :: book.receivables[r].id == r && ProjectionChecks(book.receivables[r].open))
  }

  ghost predicate EntriesSound(entries: seq<Entry>)
  {
    && (forall e | 0 <= e < |entries| :: EntrySound(entries, e))
    && (forall e, f | 0 <= e < f < |entries| && entries[e].reverses.Some? :: entries[e].reverses != entries[f].reverses)
  }

  /** A reversal names one earlier payment and negates it; a payment names none. */
  ghost predicate EntrySound(entries: seq<Entry>, e: nat)
    requires e < |entries|
  {
    match entries[e].kind
    case Payment => entries[e].reverses == None && entries[e].amount >= 0 && entries[e].credit >= 0
    case Reversal =>
      && entries[e].credit == 0
      && entries[e].reverses.Some? && entries[e].reverses.value < e
      && entries[entries[e].reverses.value].kind == Payment
      && entries[e].amount == -entries[entries[e].reverses.value].amount < 0
  }

  /** The snapshots differ by exactly the booked cents, tier by tier. */
  ghost predicate Moves(a: Allocation)
  {
    && ProjectionChecks(a.before) && ProjectionChecks(a.after)
    && a.before.tiers.Minus(a.paid) == a.after.tiers
    && a.before.open - a.paid.principal == a.after.open
  }

  ghost predicate Pays(a: Allocation)
  {
    && Moves(a) && NO_CENTS.AtMost(a.paid) && a.paid.Total() > 0
    && forall i | 0 <= i < |a.parts| :: a.parts[i] >= 0
  }

  ghost predicate RowSound(book: Book, row: Row)
  {
    && row.entry < |book.entries|
    && row.booked.receivable < |book.receivables|
    && ComponentsFit(book.receivables[row.booked.receivable].claim, row.booked)
    && Moves(row.booked)
    && (book.entries[row.entry].kind == Payment ==> Pays(row.booked))
  }

  ghost predicate RowsSound(book: Book)
  {
    && (forall k | 0 <= k < |book.rows| :: RowSound(book, book.rows[k]))
    && (forall k, l | 0 <= k < l < |book.rows| && book.rows[k].entry == book.rows[l].entry ::
          book.rows[k].booked.receivable != book.rows[l].booked.receivable)
  }

  /** A reversal carries the compensations of its payment, all of them and nothing else. */
  ghost predicate Mirrored(book: Book)
    requires EntriesSound(book.entries)
  {
    forall e: nat | e < |book.entries| && book.entries[e].kind == Reversal ::
      (assert EntrySound(book.entries, e);
       OfEntry(book.rows, e) == Mirrors(OfEntry(book.rows, book.entries[e].reverses.value)))
  }

  /** Assigned cents and credit are the amount that arrived. */
  ghost predicate Balanced(book: Book)
  {
    forall e: nat | e < |book.entries| && book.entries[e].kind == Payment :: EntryBalanced(book, e)
  }

  ghost predicate EntryBalanced(book: Book, e: nat)
    requires e < |book.entries|
  {
    book.entries[e].amount == Assigned(OfEntry(book.rows, e)) + book.entries[e].credit
  }

  /** All allocations of one entry hit debts of one renter. */
  ghost predicate OneRenter(book: Book)
  {
    forall k, l | 0 <= k < |book.rows| && 0 <= l < |book.rows| && book.rows[k].entry == book.rows[l].entry ::
      && book.rows[k].booked.receivable < |book.receivables| && book.rows[l].booked.receivable < |book.receivables|
      && book.receivables[book.rows[k].booked.receivable].claim.renter
         == book.receivables[book.rows[l].booked.receivable].claim.renter
  }

  /** Each receivable's snapshots, payments and returns alike, chain from its opening to its current projection. */
  ghost predicate Chained(book: Book, init: seq<Projection>)
    requires |init| == |book.receivables|
  {
    forall r: nat | r < |init| :: Chain(init[r], History(book.rows, r), book.receivables[r].open)
  }

  /** So do the snapshots of the not-yet-returned payments alone: they form a stack. */
  ghost predicate Stacked(book: Book, init: seq<Projection>)
    requires |init| == |book.receivables|
  {
    forall r: nat | r < |init| :: Chain(init[r], Live(book, r), book.receivables[r].open)
  }

  ghost predicate Inv(book: Book, init: seq<Projection>)
  {
    && Tables(book, init)
    && EntriesSound(book.entries)
    && RowsSound(book)
    && Mirrored(book)
    && Balanced(book)
    && OneRenter(book)
    && Chained(book, init)
    && Stacked(book, init)
  }

  // ---- Lists ---------------------------------------------------------------------------------

  lemma {:induction false} OnConcat(xs: seq<Row>, ys: seq<Row>, entries: set<nat>, r: nat)
    ensures On(xs + ys, entries, r) == On(xs, entries, r) + On(ys, entries, r)
  {
    if xs == [] {
      assert xs + ys == ys;
    } else {
      OnConcat(xs[1..], ys, entries, r);
      assert (xs + ys)[1..] == xs[1..] + ys && (xs + ys)[0] == xs[0];
      var head := if xs[0].entry in entries && xs[0].booked.receivable == r then [xs[0]] else [];
      assert head + (On(xs[1..], entries, r) + On(ys, entries, r))
          == (head + On(xs[1..], entries, r)) + On(ys, entries, r);
    }
  }

  lemma {:induction false} OfEntryConcat(xs: seq<Row>, ys: seq<Row>, e: nat)
    ensures OfEntry(xs + ys, e) == OfEntry(xs, e) + OfEntry(ys, e)
  {
    if xs == [] {
      assert xs + ys == ys;
    } else {
      OfEntryConcat(xs[1..], ys, e);
      assert (xs + ys)[1..] == xs[1..] + ys && (xs + ys)[0] == xs[0];
      var head := if xs[0].entry == e then [xs[0].booked] else [];
      assert head + (OfEntry(xs[1..], e) + OfEntry(ys, e)) == (head + OfEntry(xs[1..], e)) + OfEntry(ys, e);
    }
  }

  /** Two entry sets that agree on the entries of the rows select the same rows. */
  lemma {:induction false} OnAgrees(rows: seq<Row>, a: set<nat>, b: set<nat>, r: nat)
    requires forall k | 0 <= k < |rows| :: rows[k].entry in a <==> rows[k].entry in b
    ensures On(rows, a, r) == On(rows, b, r)
  {
    if rows != [] {
      assert rows[0].entry in a <==> rows[0].entry in b;
      OnAgrees(rows[1..], a, b, r);
    }
  }

  lemma {:induction false} OnMembers(rows: seq<Row>, entries: set<nat>, r: nat)
    ensures forall x :: x in On(rows, entries, r) <==> x in rows && x.entry in entries && x.booked.receivable == r
  {
    if rows != [] {
      OnMembers(rows[1..], entries, r);
      forall x ensures x in On(rows, entries, r) <==> x in rows && x.entry in entries && x.booked.receivable == r {
        assert x in rows <==> x == rows[0] || x in rows[1..];
        assert x in On(rows[1..], entries, r) <==> x in rows[1..] && x.entry in entries && x.booked.receivable == r;
      }
    }
  }

  lemma {:induction false} OfEntryMembers(rows: seq<Row>, e: nat)
    ensures forall a :: a in OfEntry(rows, e) <==> Row(e, a) in rows
  {
    if rows != [] {
      OfEntryMembers(rows[1..], e);
      forall a ensures a in OfEntry(rows, e) <==> Row(e, a) in rows {
        assert a in OfEntry(rows[1..], e) <==> Row(e, a) in rows[1..];
        assert Row(e, a) in rows <==> Row(e, a) == rows[0] || Row(e, a) in rows[1..];
      }
    }
  }

  lemma {:induction false} StampRows(e: nat, allocations: seq<Allocation>)
    ensures |Stamp(e, allocations)| == |allocations|
    ensures forall k | 0 <= k < |allocations| :: Stamp(e, allocations)[k] == Row(e, allocations[k])
  {
    if allocations != [] {
      StampRows(e, allocations[1..]);
    }
  }

  lemma {:induction false} StampOfEntry(e: nat, allocations: seq<Allocation>, f: nat)
    ensures OfEntry(Stamp(e, allocations), f) == if f == e then allocations else []
  {
    if allocations != [] {
      StampOfEntry(e, allocations[1..], f);
      assert Stamp(e, allocations)[1..] == Stamp(e, allocations[1..]);
    }
  }

  /** What a batch of allocations on pairwise different receivables leaves on one receivable. */
  ghost predicate DistinctReceivables(allocations: seq<Allocation>)
  {
    forall i, j | 0 <= i < j < |allocations| :: allocations[i].receivable != allocations[j].receivable
  }

  lemma {:induction false} StampOn(e: nat, allocations: seq<Allocation>, entries: set<nat>, r: nat)
    requires DistinctReceivables(allocations)
    ensures e !in entries ==> On(Stamp(e, allocations), entries, r) == []
    ensures e in entries && (forall i | 0 <= i < |allocations| :: allocations[i].receivable != r) ==>
              On(Stamp(e, allocations), entries, r) == []
    ensures e in entries ==> forall i | 0 <= i < |allocations| && allocations[i].receivable == r ::
              On(Stamp(e, allocations), entries, r) == [Row(e, allocations[i])]
  {
    if allocations != [] {
      var rest := allocations[1..];
      assert Stamp(e, allocations)[1..] == Stamp(e, rest);
      assert forall i | 0 <= i < |rest| :: rest[i] == allocations[i + 1];
      StampOn(e, rest, entries, r);
      if i :| 0 <= i < |allocations| && allocations[i].receivable == r {
        assert i > 0 ==> rest[i - 1].receivable == r;
      }
    }
  }

  lemma {:induction false} ApplyAt(receivables: seq<Receivable>, allocations: seq<Allocation>, r: nat)
    requires DistinctReceivables(allocations) && r < |receivables|
    ensures var result := Apply(receivables, allocations)[r];
            && result.id == receivables[r].id && result.claim == receivables[r].claim
            && (forall i | 0 <= i < |allocations| && allocations[i].receivable == r ::
                result.open == allocations[i].after)
            && ((forall i | 0 <= i < |allocations| :: allocations[i].receivable != r) ==> result == receivables[r])
  {
    if allocations != [] {
      var n := |allocations| - 1;
      ApplyAt(receivables, allocations[..n], r);
    }
  }

  lemma {:induction false} ApplyKeepsClaims(receivables: seq<Receivable>, allocations: seq<Allocation>)
    ensures forall r | 0 <= r < |receivables| ::
              var after := Apply(receivables, allocations)[r];
              after.id == receivables[r].id && after.claim == receivables[r].claim
  {
    if allocations != [] {
      ApplyKeepsClaims(receivables, allocations[..|allocations| - 1]);
    }
  }

  lemma {:induction false} ChainSnoc(start: Projection, rows: seq<Row>, x: Row, end: Projection)
    decreases |rows|
    ensures Chain(start, rows + [x], end) <==> Chain(start, rows, x.booked.before) && x.booked.after == end
  {
    if rows == [] {
      assert rows + [x] == [x];
    } else {
      ChainSnoc(rows[0].booked.after, rows[1..], x, end);
      assert (rows + [x])[1..] == rows[1..] + [x];
    }
  }

  // ---- Last in, first out --------------------------------------------------------------------

  /** Total open cents, over all tiers. */
  ghost function Owed(p: Projection): int
  {
    p.tiers.Total()
  }

  /** Along a chain of payments the open cents fall with every row. */
  lemma {:induction false} ChainFalls(start: Projection, rows: seq<Row>, end: Projection, k: nat)
    requires Chain(start, rows, end) && k < |rows|
    requires forall i | 0 <= i < |rows| :: Pays(rows[i].booked)
    ensures Owed(end) <= Owed(rows[k].booked.after)
    ensures Owed(end) == Owed(rows[k].booked.after) ==> k == |rows| - 1
    ensures k == |rows| - 1 ==> rows[k].booked.after == end
    decreases |rows|
  {
    var rest := rows[1..];
    if rest != [] {
      ChainFalls(rows[0].booked.after, rest, end, if k == 0 then 0 else k - 1);
      assert rest[0].booked.before == rows[0].booked.after;
      assert Pays(rest[0].booked);
    }
  }

  /**
   * The guard compares values only: the stored after-snapshot against the current projection.
   * It passes on a receivable exactly when the payment is the newest not-yet-returned one there.
   */
  lemma GuardIffNewest(book: Book, init: seq<Projection>, row: Row)
    requires Inv(book, init) && row in book.rows && LiveEntry(book.entries, row.entry)
    ensures row.booked.receivable < |book.receivables|
    ensures var live := Live(book, row.booked.receivable);
            && row in live
            && (book.receivables[row.booked.receivable].open == row.booked.after <==> live[|live| - 1] == row)
  {
    hide Tables, EntriesSound, Mirrored, Balanced, OneRenter, Chained;
    RowOf(book, init, row);
    LivePays(book, init, row.booked.receivable);
    OnMembers(book.rows, LiveEntries(book.entries), row.booked.receivable);
    TopOfChain(init[row.booked.receivable], Live(book, row.booked.receivable),
               book.receivables[row.booked.receivable].open, row);
  }

  lemma TopOfChain(start: Projection, rows: seq<Row>, end: Projection, row: Row)
    requires Chain(start, rows, end) && row in rows
    requires forall i | 0 <= i < |rows| :: Pays(rows[i].booked)
    ensures end == row.booked.after <==> rows[|rows| - 1] == row
  {
    var i :| 0 <= i < |rows| && rows[i] == row;
    ChainFalls(start, rows, end, i);
    ChainFalls(start, rows, end, |rows| - 1);
  }

  lemma RowOf(book: Book, init: seq<Projection>, row: Row)
    requires Inv(book, init) && row in book.rows
    ensures RowSound(book, row) && |init| == |book.receivables|
  {
    var k :| 0 <= k < |book.rows| && book.rows[k] == row;
  }

  lemma LivePays(book: Book, init: seq<Projection>, r: nat)
    requires Inv(book, init)
    ensures forall i | 0 <= i < |Live(book, r)| :: Pays(Live(book, r)[i].booked)
  {
    var live := Live(book, r);
    OnMembers(book.rows, LiveEntries(book.entries), r);
    forall i | 0 <= i < |live| ensures Pays(live[i].booked) {
      assert live[i] in live;
      var k :| 0 <= k < |book.rows| && book.rows[k] == live[i];
      assert RowSound(book, book.rows[k]);
    }
  }

  // ---- Booking a payment keeps everything -----------------------------------------------------

  /** What a batch of allocations must say to be applied to the current projections. */
  ghost predicate Applicable(book: Book, allocations: seq<Allocation>)
  {
    && DistinctReceivables(allocations)
    && forall i | 0 <= i < |allocations| ::
         && allocations[i].receivable < |book.receivables|
         && allocations[i].before == book.receivables[allocations[i].receivable].open
         && ComponentsFit(book.receivables[allocations[i].receivable].claim, allocations[i])
         && Moves(allocations[i])
  }

  ghost predicate SameRenter(book: Book, allocations: seq<Allocation>)
    requires Applicable(book, allocations)
  {
    forall i, j | 0 <= i < |allocations| && 0 <= j < |allocations| ::
      book.receivables[allocations[i].receivable].claim.renter
        == book.receivables[allocations[j].receivable].claim.renter
  }

  ghost predicate PaymentPlan(book: Book, entry: Entry, allocations: seq<Allocation>)
  {
    && entry.kind == Payment && entry.reverses == None
    && entry.amount >= 0 && entry.credit >= 0
    && entry.amount == Assigned(allocations) + entry.credit
    && Applicable(book, allocations)
    && SameRenter(book, allocations)
    && forall i | 0 <= i < |allocations| :: Pays(allocations[i])
  }

  /** A return names a live payment whose after-snapshots are still the current projections. */
  ghost predicate ReturnPlan(book: Book, entry: Entry, payment: nat)
  {
    && entry.kind == Reversal && entry.reverses == Some(payment) && entry.credit == 0
    && LiveEntry(book.entries, payment)
    && entry.amount == -book.entries[payment].amount < 0
    && Unmoved(book, OfEntry(book.rows, payment))
  }

  /** The reversal guard: every touched receivable still shows the stored after-snapshot. */
  predicate Unmoved(book: Book, allocations: seq<Allocation>)
  {
    forall a | a in allocations ::
      a.receivable < |book.receivables| && book.receivables[a.receivable].open == a.after
  }

  lemma EntryBounds(book: Book)
    requires RowsSound(book)
    ensures forall k | 0 <= k < |book.rows| :: book.rows[k].entry < |book.entries|
    ensures OfEntry(book.rows, |book.entries|) == []
  {
    forall k | 0 <= k < |book.rows| ensures book.rows[k].entry < |book.entries| {
      assert RowSound(book, book.rows[k]);
    }
    OfEntryAbsent(book.rows, |book.entries|);
  }

  lemma {:induction false} OfEntryAbsent(rows: seq<Row>, e: nat)
    requires forall k | 0 <= k < |rows| :: rows[k].entry != e
    ensures OfEntry(rows, e) == []
  {
    if rows != [] {
      OfEntryAbsent(rows[1..], e);
    }
  }

  /** Posting adds the batch to its own entry and leaves every other entry's rows alone. */
  lemma OfEntryPost(book: Book, entry: Entry, allocations: seq<Allocation>, e: nat)
    requires RowsSound(book)
    ensures OfEntry(Post(book, entry, allocations).rows, e)
         == if e == |book.entries| then allocations else OfEntry(book.rows, e)
  {
    EntryBounds(book);
    OfEntryConcat(book.rows, Stamp(|book.entries|, allocations), e);
    StampOfEntry(|book.entries|, allocations, e);
  }

  ghost function Fresh(entry: nat, allocations: seq<Allocation>, r: nat): seq<Row>
  {
    On(Stamp(entry, allocations), {entry}, r)
  }

  lemma OnPost(book: Book, entry: Entry, allocations: seq<Allocation>, before: set<nat>, after: set<nat>, r: nat)
    requires RowsSound(book)
    requires forall k | 0 <= k < |book.rows| :: book.rows[k].entry in before <==> book.rows[k].entry in after
    ensures |book.entries| in after ==>
      On(Post(book, entry, allocations).rows, after, r)
      == On(book.rows, before, r) + Fresh(|book.entries|, allocations, r)
    ensures |book.entries| !in after && DistinctReceivables(allocations) ==>
      On(Post(book, entry, allocations).rows, after, r) == On(book.rows, before, r)
  {
    var n := |book.entries|;
    var rows := Stamp(n, allocations);
    OnConcat(book.rows, rows, after, r);
    OnAgrees(book.rows, before, after, r);
    StampRows(n, allocations);
    if n in after {
      OnAgrees(rows, after, {n}, r);
    } else if DistinctReceivables(allocations) {
      StampOn(n, allocations, after, r);
    }
  }

  lemma HistoryPost(book: Book, entry: Entry, allocations: seq<Allocation>, r: nat)
    requires RowsSound(book)
    ensures History(Post(book, entry, allocations).rows, r)
         == History(book.rows, r) + Fresh(|book.entries|, allocations, r)
  {
    var n, rows := |book.entries|, Stamp(|book.entries|, allocations);
    StampRows(n, allocations);
    assert forall x | x in book.rows :: x in book.rows + rows;
    if allocations != [] {
      assert rows[0] in book.rows + rows && rows[0].entry == n;
      OnPost(book, entry, allocations, AllEntries(book.rows), AllEntries(book.rows + rows), r);
    } else {
      assert book.rows + rows == book.rows;
    }
  }

  /** Appending the batch's row on one receivable extends its chain to the new projection. */
  lemma ChainFresh(start: Projection, rows: seq<Row>, book: Book, entry: nat, allocations: seq<Allocation>, r: nat)
    requires Applicable(book, allocations) && r < |book.receivables|
    requires Chain(start, rows, book.receivables[r].open)
    ensures Chain(start, rows + Fresh(entry, allocations, r), Apply(book.receivables, allocations)[r].open)
  {
    ApplyAt(book.receivables, allocations, r);
    StampOn(entry, allocations, {entry}, r);
    if i :| 0 <= i < |allocations| && allocations[i].receivable == r {
      ChainSnoc(start, rows, Row(entry, allocations[i]), Apply(book.receivables, allocations)[r].open);
    } else {
      assert rows + [] == rows;
    }
  }

  lemma TablesKept(book: Book, init: seq<Projection>, entry: Entry, allocations: seq<Allocation>)
    requires Tables(book, init) && Applicable(book, allocations)
    ensures Tables(Post(book, entry, allocations), init)
  {
    forall r | 0 <= r < |init|
      ensures var x := Post(book, entry, allocations).receivables[r]; x.id == r && ProjectionChecks(x.open)
    {
      ApplyAt(book.receivables, allocations, r);
    }
  }

  lemma ChainedKept(book: Book, init: seq<Projection>, entry: Entry, allocations: seq<Allocation>)
    requires RowsSound(book) && |init| == |book.receivables| && Chained(book, init) && Applicable(book, allocations)
    ensures Chained(Post(book, entry, allocations), init)
  {
    forall r: nat | r < |init|
      ensures Chain(init[r], History(Post(book, entry, allocations).rows, r),
                    Post(book, entry, allocations).receivables[r].open)
    {
      HistoryPost(book, entry, allocations, r);
      ChainFresh(init[r], History(book.rows, r), book, |book.entries|, allocations, r);
    }
  }

  lemma RowsKept(book: Book, entry: Entry, allocations: seq<Allocation>)
    requires RowsSound(book) && Applicable(book, allocations)
    requires entry.kind == Payment ==> forall i | 0 <= i < |allocations| :: Pays(allocations[i])
    ensures RowsSound(Post(book, entry, allocations))
  {
    hide Moves, Pays, ComponentsFit, Apply;
    var post, n := Post(book, entry, allocations), |book.entries|;
    StampRows(n, allocations);
    ApplyKeepsClaims(book.receivables, allocations);
    forall k | 0 <= k < |post.rows| ensures RowSound(post, post.rows[k]) {
      if k < |book.rows| {
        assert RowSound(book, book.rows[k]);
      } else {
        assert post.rows[k] == Row(n, allocations[k - |book.rows|]);
      }
    }
    PairsKept(book, allocations);
  }

  lemma PairsKept(book: Book, allocations: seq<Allocation>)
    requires RowsSound(book) && DistinctReceivables(allocations)
    ensures UniquePairs(book.rows + Stamp(|book.entries|, allocations))
  {
    hide Moves, Pays, ComponentsFit;
    var n, rows := |book.entries|, book.rows + Stamp(|book.entries|, allocations);
    StampRows(n, allocations);
    EntryBounds(book);
    forall k, l | 0 <= k < l < |rows| && rows[k].entry == rows[l].entry
      ensures rows[k].booked.receivable != rows[l].booked.receivable
    {
      if l >= |book.rows| {
        assert rows[l] == Row(n, allocations[l - |book.rows|]);
        assert k >= |book.rows|;
        assert rows[k] == Row(n, allocations[k - |book.rows|]);
      }
    }
  }

  lemma RenterKept(book: Book, entry: Entry, allocations: seq<Allocation>)
    requires RowsSound(book) && OneRenter(book) && Applicable(book, allocations) && SameRenter(book, allocations)
    ensures OneRenter(Post(book, entry, allocations))
  {
    var post, n := Post(book, entry, allocations), |book.entries|;
    StampRows(n, allocations);
    EntryBounds(book);
    forall r: nat | r < |book.receivables| ensures post.receivables[r].claim == book.receivables[r].claim {
      ApplyAt(book.receivables, allocations, r);
    }
    forall k, l | 0 <= k < |post.rows| && 0 <= l < |post.rows| && post.rows[k].entry == post.rows[l].entry
      ensures post.rows[k].booked.receivable < |post.receivables| && post.rows[l].booked.receivable < |post.receivables|
      ensures post.receivables[post.rows[k].booked.receivable].claim.renter
           == post.receivables[post.rows[l].booked.receivable].claim.renter
    {
      if k < |book.rows| {
        assert l < |book.rows|;
      } else {
        assert l >= |book.rows|;
        assert post.rows[k] == Row(n, allocations[k - |book.rows|]);
        assert post.rows[l] == Row(n, allocations[l - |book.rows|]);
      }
    }
  }

  lemma EntriesKept(book: Book, entry: Entry)
    requires EntriesSound(book.entries)
    requires entry.kind == Payment ==> entry.reverses == None && entry.amount >= 0 && entry.credit >= 0
    requires entry.kind == Reversal ==>
        entry.credit == 0 && entry.reverses.Some? && LiveEntry(book.entries, entry.reverses.value)
                                        && entry.amount == -book.entries[entry.reverses.value].amount < 0
    ensures EntriesSound(book.entries + [entry])
  {
    var entries := book.entries + [entry];
    forall e | 0 <= e < |entries| ensures EntrySound(entries, e) {
      if e < |book.entries| {
        assert EntrySound(book.entries, e);
      }
    }
  }

  lemma OthersKept(book: Book, entry: Entry, allocations: seq<Allocation>)
    requires EntriesSound(book.entries) && EntriesSound(book.entries + [entry]) && RowsSound(book)
    requires Mirrored(book) && Balanced(book)
    requires entry.kind == Payment ==> entry.amount == Assigned(allocations) + entry.credit
    requires entry.kind == Reversal ==> entry.reverses.Some? && entry.reverses.value < |book.entries|
                                        && allocations == Mirrors(OfEntry(book.rows, entry.reverses.value))
    ensures Mirrored(Post(book, entry, allocations)) && Balanced(Post(book, entry, allocations))
  {
    var post := Post(book, entry, allocations);
    forall e: nat | e < |post.entries| && post.entries[e].kind == Reversal
      ensures EntrySound(post.entries, e)
      ensures OfEntry(post.rows, e) == Mirrors(OfEntry(post.rows, post.entries[e].reverses.value))
    {
      assert EntrySound(post.entries, e);
      OfEntryPost(book, entry, allocations, e);
      OfEntryPost(book, entry, allocations, post.entries[e].reverses.value);
      if e < |book.entries| {
        assert book.entries[e].kind == Reversal && EntrySound(book.entries, e);
      }
    }
    forall e: nat | e < |post.entries| && post.entries[e].kind == Payment ensures EntryBalanced(post, e) {
      OfEntryPost(book, entry, allocations, e);
      if e < |book.entries| {
        assert EntryBalanced(book, e);
      }
    }
  }

  lemma PaymentExtendsLive(book: Book, entry: Entry)
    requires EntriesSound(book.entries) && entry.kind == Payment && entry.reverses == None
    ensures LiveEntries(book.entries + [entry]) == LiveEntries(book.entries) + {|book.entries|}
  {
    var entries, n := book.entries + [entry], |book.entries|;
    forall j | 0 <= j < n ensures entries[j].reverses != Some(n) {
      assert EntrySound(book.entries, j);
    }
    assert LiveEntry(entries, n);
    forall e: nat | e < n ensures LiveEntry(entries, e) <==> LiveEntry(book.entries, e) {
      assert entries[n].reverses != Some(e);
      assert forall j | 0 <= j < n :: entries[j] == book.entries[j];
    }
  }

  lemma StackedAfterPayment(book: Book, init: seq<Projection>, entry: Entry, allocations: seq<Allocation>)
    requires RowsSound(book) && EntriesSound(book.entries) && entry.kind == Payment && entry.reverses == None
    requires |init| == |book.receivables| && Stacked(book, init) && Applicable(book, allocations)
    ensures Stacked(Post(book, entry, allocations), init)
  {
    var post, n := Post(book, entry, allocations), |book.entries|;
    PaymentExtendsLive(book, entry);
    EntryBounds(book);
    forall r: nat | r < |init| ensures Chain(init[r], Live(post, r), post.receivables[r].open) {
      OnPost(book, entry, allocations, LiveEntries(book.entries), LiveEntries(post.entries), r);
      ChainFresh(init[r], Live(book, r), book, n, allocations, r);
    }
  }

  /** Booking a planned payment keeps the whole invariant. */
  lemma PaymentKeepsInv(book: Book, init: seq<Projection>, entry: Entry, allocations: seq<Allocation>)
    requires Inv(book, init) && PaymentPlan(book, entry, allocations)
    ensures Inv(Post(book, entry, allocations), init)
  {
    TablesKept(book, init, entry, allocations);
    EntriesKept(book, entry);
    RowsKept(book, entry, allocations);
    OthersKept(book, entry, allocations);
    RenterKept(book, entry, allocations);
    ChainedKept(book, init, entry, allocations);
    StackedAfterPayment(book, init, entry, allocations);
  }

  // ---- Booking a return keeps everything ------------------------------------------------------

  ghost predicate UniquePairs(rows: seq<Row>)
  {
    forall k, l | 0 <= k < l < |rows| && rows[k].entry == rows[l].entry ::
        rows[k].booked.receivable != rows[l].booked.receivable
  }

  lemma {:induction false} OfEntryDistinct(rows: seq<Row>, e: nat)
    requires UniquePairs(rows)
    ensures DistinctReceivables(OfEntry(rows, e))
  {
    if rows != [] {
      var rest := OfEntry(rows[1..], e);
      OfEntryDistinct(rows[1..], e);
      OfEntryMembers(rows[1..], e);
      forall j | 0 <= j < |rest| && rows[0].entry == e ensures rest[j].receivable != rows[0].booked.receivable {
        assert rest[j] in rest;
        assert Row(e, rest[j]) in rows[1..];
      }
    }
  }

  lemma {:induction false} MirrorsAt(allocations: seq<Allocation>)
    ensures |Mirrors(allocations)| == |allocations|
    ensures forall i | 0 <= i < |allocations| :: Mirrors(allocations)[i] == Mirror(allocations[i])
  {
    if allocations != [] {
      MirrorsAt(allocations[1..]);
    }
  }

  lemma MirrorMoves(a: Allocation, claim: Claim)
    requires Moves(a) && ComponentsFit(claim, a)
    ensures Moves(Mirror(a)) && ComponentsFit(claim, Mirror(a))
  {
    SumNegated(a.parts);
  }

  lemma {:induction false} SumNegated(xs: seq<int>)
    ensures Sum(Negated(xs)) == -Sum(xs)
  {
    if xs != [] {
      SumNegated(xs[1..]);
      assert Negated(xs)[1..] == Negated(xs[1..]);
    }
  }

  /** One row of a payment whose debts have not moved, and its compensation. */
  lemma UnmovedRow(book: Book, init: seq<Projection>, payment: nat, a: Allocation)
    requires Inv(book, init) && Unmoved(book, OfEntry(book.rows, payment)) && a in OfEntry(book.rows, payment)
    ensures Row(payment, a) in book.rows && a.receivable < |book.receivables|
    ensures Mirror(a).before == book.receivables[a.receivable].open && Moves(Mirror(a))
    ensures ComponentsFit(book.receivables[a.receivable].claim, Mirror(a))
  {
    hide Tables, EntriesSound, Mirrored, Balanced, OneRenter, Chained, Stacked, Moves, ComponentsFit;
    OfEntryMembers(book.rows, payment);
    RowOf(book, init, Row(payment, a));
    MirrorMoves(a, book.receivables[a.receivable].claim);
  }

  lemma ReturnApplicable(book: Book, init: seq<Projection>, payment: nat)
    requires Inv(book, init) && Unmoved(book, OfEntry(book.rows, payment))
    ensures Applicable(book, Mirrors(OfEntry(book.rows, payment)))
    ensures SameRenter(book, Mirrors(OfEntry(book.rows, payment)))
  {
    hide Tables, EntriesSound, Mirrored, Balanced, Chained, Stacked, Moves, ComponentsFit, Unmoved, Mirrors, OfEntry;
    var own := OfEntry(book.rows, payment);
    var mirrors := Mirrors(own);
    MirrorsAt(own);
    OfEntryDistinct(book.rows, payment);
    forall i | 0 <= i < |mirrors|
      ensures Row(payment, own[i]) in book.rows && mirrors[i].receivable < |book.receivables|
      ensures mirrors[i].before == book.receivables[mirrors[i].receivable].open && Moves(mirrors[i])
      ensures ComponentsFit(book.receivables[mirrors[i].receivable].claim, mirrors[i])
    {
      assert own[i] in own;
      UnmovedRow(book, init, payment, own[i]);
    }
    forall i, j | 0 <= i < |mirrors| && 0 <= j < |mirrors|
      ensures book.receivables[mirrors[i].receivable].claim.renter
                == book.receivables[mirrors[j].receivable].claim.renter
    {
      assert Row(payment, own[i]) in book.rows && Row(payment, own[j]) in book.rows;
    }
  }

  /** `less` is `on` without its only row of entry `p`, which sits at `i`. */
  ghost predicate DropsAt(on: seq<Row>, less: seq<Row>, p: nat, i: nat)
  {
    && i < |on| && on[i].entry == p
    && less == on[..i] + on[i + 1..]
    && forall j | 0 <= j < |on| && j != i :: on[j].entry != p
  }

  ghost predicate Lacks(on: seq<Row>, p: nat)
  {
    forall j | 0 <= j < |on| :: on[j].entry != p
  }

  lemma DropsAtLater(x: Row, on: seq<Row>, less: seq<Row>, p: nat, i: nat)
    requires DropsAt(on, less, p, i) && x.entry != p
    ensures DropsAt([x] + on, [x] + less, p, i + 1)
  {
    var whole := [x] + on;
    assert [x] + less == whole[..i + 1] + whole[i + 2..];
  }

  lemma HeadDrops(x: Row, on: seq<Row>, p: nat)
    requires x.entry == p && Lacks(on, p)
    ensures DropsAt([x] + on, on, p, 0)
  {
    var whole := [x] + on;
    assert on == whole[..0] + whole[1..];
  }

  /** Dropping one entry from the selection drops at most one row. */
  lemma {:induction false} OnDrop(rows: seq<Row>, entries: set<nat>, p: nat, r: nat)
    requires UniquePairs(rows)
    ensures var on, less := On(rows, entries, r), On(rows, entries - {p}, r);
            (Lacks(on, p) && less == on) || exists i: nat :: DropsAt(on, less, p, i)
  {
    if rows != [] {
      var rest := rows[1..];
      var on, less := On(rest, entries, r), On(rest, entries - {p}, r);
      OnDrop(rest, entries, p, r);
      if rows[0].entry in entries && rows[0].booked.receivable == r {
        if rows[0].entry == p {
          OnlyHead(rows, entries, p, r);
          assert less == on;
          HeadDrops(rows[0], on, p);
          assert On(rows, entries - {p}, r) == [] + less == on;
          assert On(rows, entries, r) == [rows[0]] + on;
          assert DropsAt(On(rows, entries, r), On(rows, entries - {p}, r), p, 0);
        } else if !Lacks(on, p) {
          var i: nat :| DropsAt(on, less, p, i);
          DropsAtLater(rows[0], on, less, p, i);
          assert DropsAt(On(rows, entries, r), On(rows, entries - {p}, r), p, i + 1);
        } else {
          assert Lacks([rows[0]] + on, p) && less == on;
        }
      } else {
        assert [] + on == on && [] + less == less;
      }
    }
  }

  lemma OnlyHead(rows: seq<Row>, entries: set<nat>, p: nat, r: nat)
    requires UniquePairs(rows) && rows != [] && rows[0].entry == p && rows[0].booked.receivable == r
    ensures Lacks(On(rows[1..], entries, r), p)
  {
    var rest := rows[1..];
    OnMembers(rest, entries, r);
    var on := On(rest, entries, r);
    forall j | 0 <= j < |on| ensures on[j].entry != p {
      assert on[j] in on;
      assert on[j] in rest;
    }
  }

  lemma ReturnShrinksLive(book: Book, entry: Entry, payment: nat)
    requires EntriesSound(book.entries) && entry.kind == Reversal && entry.reverses == Some(payment)
    ensures LiveEntries(book.entries + [entry]) == LiveEntries(book.entries) - {payment}
  {
    var entries, n := book.entries + [entry], |book.entries|;
    assert entries[n].reverses == Some(payment);
    forall e: nat | e < n ensures LiveEntry(entries, e) <==> LiveEntry(book.entries, e) && e != payment {
      assert forall j | 0 <= j < n :: entries[j] == book.entries[j];
    }
  }

  /** A payment whose debts have not moved is on top of the stack of each of them. */
  lemma OnTop(book: Book, init: seq<Projection>, payment: nat, a: Allocation)
    requires Inv(book, init) && LiveEntry(book.entries, payment) && a in OfEntry(book.rows, payment)
    requires Unmoved(book, OfEntry(book.rows, payment))
    ensures var live := Live(book, a.receivable); live != [] && live[|live| - 1] == Row(payment, a)
  {
    hide Inv, LiveEntry, Live;
    OfEntryMembers(book.rows, payment);
    GuardIffNewest(book, init, Row(payment, a));
  }

  lemma DropsLast(live: seq<Row>, less: seq<Row>, p: nat, i: nat)
    requires DropsAt(live, less, p, i) && live[|live| - 1].entry == p
    ensures less == live[..|live| - 1]
  {
    assert i == |live| - 1;
  }

  lemma RowsPaired(book: Book, init: seq<Projection>)
    requires Inv(book, init)
    ensures UniquePairs(book.rows)
  {
  }

  /** On one receivable, a return pops the top of the stack, or leaves it alone. */
  lemma ReturnPops(book: Book, init: seq<Projection>, payment: nat, r: nat)
    requires Inv(book, init) && LiveEntry(book.entries, payment) && r < |book.receivables|
    requires Unmoved(book, OfEntry(book.rows, payment))
    ensures var live, less := Live(book, r), On(book.rows, LiveEntries(book.entries) - {payment}, r);
            if exists a :: a in OfEntry(book.rows, payment) && a.receivable == r
            then && live != [] && live[|live| - 1].entry == payment
                 && live[|live| - 1].booked in OfEntry(book.rows, payment)
                 && live[|live| - 1].booked.receivable == r && less == live[..|live| - 1]
            else less == live
  {
    hide Inv, LiveEntry, LiveEntries, Unmoved, OfEntry, UniquePairs;
    var live, less := Live(book, r), On(book.rows, LiveEntries(book.entries) - {payment}, r);
    RowsPaired(book, init);
    OnDrop(book.rows, LiveEntries(book.entries), payment, r);
    if a :| a in OfEntry(book.rows, payment) && a.receivable == r {
      OnTop(book, init, payment, a);
      var i: nat :| DropsAt(live, less, payment, i);
      DropsLast(live, less, payment, i);
    } else {
      LiveLacks(book, payment, r);
    }
  }

  lemma LiveLacks(book: Book, payment: nat, r: nat)
    requires forall a | a in OfEntry(book.rows, payment) :: a.receivable != r
    ensures Lacks(Live(book, r), payment)
  {
    var live := Live(book, r);
    OnMembers(book.rows, LiveEntries(book.entries), r);
    OfEntryMembers(book.rows, payment);
    forall i | 0 <= i < |live| ensures live[i].entry != payment {
      var x := live[i];
      assert x in live;
      assert Row(x.entry, x.booked) in book.rows;
    }
  }

  lemma StackedAfterReturn(book: Book, init: seq<Projection>, entry: Entry, payment: nat)
    requires Inv(book, init) && ReturnPlan(book, entry, payment)
    requires var mirrors := Mirrors(OfEntry(book.rows, payment));
             Applicable(book, mirrors)
    ensures Stacked(Post(book, entry, Mirrors(OfEntry(book.rows, payment))), init)
  {
    var mirrors := Mirrors(OfEntry(book.rows, payment));
    var post := Post(book, entry, mirrors);
    ReturnShrinksLive(book, entry, payment);
    EntryBounds(book);
    forall r: nat | r < |init| ensures Chain(init[r], Live(post, r), post.receivables[r].open) {
      LiveAfterReturn(book, init, entry, payment, r);
      ReturnedProjection(book, init, payment, r);
    }
  }

  lemma LiveAfterReturn(book: Book, init: seq<Projection>, entry: Entry, payment: nat, r: nat)
    requires Inv(book, init) && ReturnPlan(book, entry, payment)
    requires Applicable(book, Mirrors(OfEntry(book.rows, payment)))
    ensures Live(Post(book, entry, Mirrors(OfEntry(book.rows, payment))), r)
         == On(book.rows, LiveEntries(book.entries) - {payment}, r)
  {
    var less := LiveEntries(book.entries) - {payment};
    ReturnShrinksLive(book, entry, payment);
    EntryBounds(book);
    OnPost(book, entry, Mirrors(OfEntry(book.rows, payment)), less, less, r);
  }

  /** What a return writes back: the payment's before-snapshot where it paid, nothing elsewhere. */
  lemma ReturnRestores(book: Book, payment: nat, r: nat)
    requires Applicable(book, Mirrors(OfEntry(book.rows, payment))) && r < |book.receivables|
    ensures forall a | a in OfEntry(book.rows, payment) && a.receivable == r ::
              Apply(book.receivables, Mirrors(OfEntry(book.rows, payment)))[r].open == a.before
    ensures (forall a | a in OfEntry(book.rows, payment) :: a.receivable != r) ==>
              Apply(book.receivables, Mirrors(OfEntry(book.rows, payment)))[r] == book.receivables[r]
  {
    var own := OfEntry(book.rows, payment);
    MirrorsAt(own);
    ApplyAt(book.receivables, Mirrors(own), r);
    forall a | a in own && a.receivable == r ensures Apply(book.receivables, Mirrors(own))[r].open == a.before {
      var i :| 0 <= i < |own| && own[i] == a;
      assert Mirrors(own)[i].receivable == r;
    }
    if forall a | a in own :: a.receivable != r {
      forall i | 0 <= i < |own| ensures Mirrors(own)[i].receivable != r {
        assert own[i] in own;
      }
    }
  }

  lemma StackOf(book: Book, init: seq<Projection>, r: nat)
    requires Inv(book, init) && r < |book.receivables|
    ensures |init| == |book.receivables| && Chain(init[r], Live(book, r), book.receivables[r].open)
  {
  }

  /** The remaining stack ends exactly in the projection that the return writes back. */
  lemma ReturnedProjection(book: Book, init: seq<Projection>, payment: nat, r: nat)
    requires Inv(book, init) && |init| == |book.receivables|
    requires LiveEntry(book.entries, payment) && r < |book.receivables|
    requires Unmoved(book, OfEntry(book.rows, payment))
    requires Applicable(book, Mirrors(OfEntry(book.rows, payment)))
    ensures Chain(init[r], On(book.rows, LiveEntries(book.entries) - {payment}, r),
                  Apply(book.receivables, Mirrors(OfEntry(book.rows, payment)))[r].open)
  {
    hide Inv, OfEntry, On, Chain, LiveEntries, LiveEntry, Unmoved, Applicable, Apply, Mirrors;
    StackOf(book, init, r);
    ReturnPops(book, init, payment, r);
    ReturnRestores(book, payment, r);
    if exists a :: a in OfEntry(book.rows, payment) && a.receivable == r {
      ChainPopped(init[r], Live(book, r), book.receivables[r].open);
    }
  }

  lemma ChainPopped(start: Projection, rows: seq<Row>, end: Projection)
    requires Chain(start, rows, end) && rows != []
    ensures Chain(start, rows[..|rows| - 1], rows[|rows| - 1].booked.before)
  {
    var top := rows[|rows| - 1];
    assert rows == rows[..|rows| - 1] + [top];
    ChainSnoc(start, rows[..|rows| - 1], top, end);
  }

  /** Booking a return that passed the guard keeps the whole invariant. */
  lemma ReturnKeepsInv(book: Book, init: seq<Projection>, entry: Entry, payment: nat)
    requires Inv(book, init) && ReturnPlan(book, entry, payment)
    ensures Inv(Post(book, entry, Mirrors(OfEntry(book.rows, payment))), init)
  {
    var mirrors := Mirrors(OfEntry(book.rows, payment));
    ReturnApplicable(book, init, payment);
    TablesKept(book, init, entry, mirrors);
    EntriesKept(book, entry);
    RowsKept(book, entry, mirrors);
    OthersKept(book, entry, mirrors);
    RenterKept(book, entry, mirrors);
    ChainedKept(book, init, entry, mirrors);
    StackedAfterReturn(book, init, entry, payment);
  }

  // ---- Conservation --------------------------------------------------------------------------

  ghost function Plus(a: Tiers, b: Tiers): Tiers
  {
    a.Plus(b)
  }

  /** Signed cents booked on one receivable. */
  ghost function Booked(rows: seq<Row>): Tiers
  {
    if rows == [] then NO_CENTS else Plus(rows[0].booked.paid, Booked(rows[1..]))
  }

  lemma {:induction false} ChainConserves(start: Projection, rows: seq<Row>, end: Projection)
    requires Chain(start, rows, end)
    requires forall i | 0 <= i < |rows| :: Moves(rows[i].booked)
    ensures start.tiers.Minus(Booked(rows)) == end.tiers
    ensures start.open - Booked(rows).principal == end.open
    decreases |rows|
  {
    if rows != [] {
      assert Moves(rows[0].booked);
      ChainConserves(rows[0].booked.after, rows[1..], end);
    }
  }

  lemma OnMoves(book: Book, init: seq<Projection>, entries: set<nat>, r: nat)
    requires Inv(book, init)
    ensures forall i | 0 <= i < |On(book.rows, entries, r)| :: Moves(On(book.rows, entries, r)[i].booked)
  {
    var on := On(book.rows, entries, r);
    OnMembers(book.rows, entries, r);
    forall i | 0 <= i < |on| ensures Moves(on[i].booked) {
      assert on[i] in on;
      RowOf(book, init, on[i]);
    }
  }

  /**
   * Nothing is created or lost on a debt: opening minus every signed allocation is the current
   * projection, tier by tier; and the not-yet-returned payments alone explain it just as well,
   * so payments and their returns net to zero.
   */
  lemma LedgerConserves(book: Book, init: seq<Projection>, r: nat)
    requires Inv(book, init) && r < |book.receivables|
    ensures r < |init|
    ensures init[r].tiers.Minus(Booked(History(book.rows, r))) == book.receivables[r].open.tiers
    ensures init[r].tiers.Minus(Booked(Live(book, r))) == book.receivables[r].open.tiers
    ensures Booked(History(book.rows, r)) == Booked(Live(book, r))
  {
    OnMoves(book, init, AllEntries(book.rows), r);
    OnMoves(book, init, LiveEntries(book.entries), r);
    ChainConserves(init[r], History(book.rows, r), book.receivables[r].open);
    ChainConserves(init[r], Live(book, r), book.receivables[r].open);
  }

  /** Payments never raise the open principal. */
  lemma {:induction false} ChainOpenFalls(start: Projection, rows: seq<Row>, end: Projection)
    requires Chain(start, rows, end)
    requires forall i | 0 <= i < |rows| :: Pays(rows[i].booked)
    ensures end.open <= start.open
    decreases |rows|
  {
    if rows != [] {
      ChainOpenFalls(rows[0].booked.after, rows[1..], end);
      assert Pays(rows[0].booked);
    }
  }

  /** No state shows more open principal than the receivable started with. */
  lemma OpenAtMostInitial(book: Book, init: seq<Projection>, r: nat)
    requires Inv(book, init) && r < |book.receivables|
    ensures r < |init| && book.receivables[r].open.open <= init[r].open
  {
    LivePays(book, init, r);
    StackOf(book, init, r);
    ChainOpenFalls(init[r], Live(book, r), book.receivables[r].open);
  }

  /** The assigned cents and the credit of a payment are the amount that arrived. */
  lemma PaymentBalances(book: Book, init: seq<Projection>, p: nat)
    requires Inv(book, init) && p < |book.entries| && book.entries[p].kind == Payment
    ensures book.entries[p].amount == Assigned(OfEntry(book.rows, p)) + book.entries[p].credit
  {
    assert EntryBalanced(book, p);
  }

  /** A reversal names one earlier payment, and its rows are that payment's compensations. */
  lemma ReversalMirrors(book: Book, init: seq<Projection>, e: nat)
    requires Inv(book, init) && e < |book.entries| && book.entries[e].kind == Reversal
    ensures book.entries[e].credit == 0 && book.entries[e].reverses.Some?
    ensures book.entries[e].reverses.value < e && book.entries[book.entries[e].reverses.value].kind == Payment
    ensures OfEntry(book.rows, e) == Mirrors(OfEntry(book.rows, book.entries[e].reverses.value))
  {
    assert EntrySound(book.entries, e);
  }
}
