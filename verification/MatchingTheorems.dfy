/**
 * What holds over whole runs: evidence and booking, last in first out, exact inverses, isolation
 * of renters, and the effect of repeating a request.
 */
module MatchingTheorems {
  import opened Rows
  import opened Settlement
  import opened Scoring
  import opened Matching
  import opened MatchingInvariant
  import opened MatchingRuns
  import L = Ledger

  // ---- Booked exactly on evidence ---------------------------------------------------------------------

  ghost predicate HasEntry(db: Db, t: nat)
  {
    exists e: nat :: e < |db.book.entries| && db.book.entries[e].transaction == t
  }

  /**
   * In every reachable account a transaction has at most one ledger entry. A positive one has
   * its entry exactly when its run is AUTO_MATCH, or NEEDS_REVIEW and confirmed; a zero one never.
   */
  lemma BookedIffEvidence(a: Account, t: nat)
    requires Reachable(a) && t < |a.db.transactions|
    ensures forall e, f | 0 <= e < |a.db.book.entries| && 0 <= f < |a.db.book.entries|
              && a.db.book.entries[e].transaction == t && a.db.book.entries[f].transaction == t :: e == f
    ensures a.db.transactions[t].amount > 0 ==>
      (HasEntry(a.db, t) <==>
        t in a.db.runs && (a.db.runs[t].decision == AutoMatch
                           || (a.db.runs[t].decision == NeedsReview
                               && t in a.db.confirmations && a.db.confirmations[t] == Confirmed)))
    ensures a.db.transactions[t].amount == 0 ==> !HasEntry(a.db, t)
    ensures a.db.transactions[t].amount < 0 ==> (HasEntry(a.db, t) <==> ReversalFor(a.db.book.entries, t).Some?)
  {
    ReachableIsSound(a);
    var db := a.db;
    ReversalForFinds(db.book.entries, t);
    if HasEntry(db, t) {
      var e: nat :| e < |db.book.entries| && db.book.entries[e].transaction == t;
      EntryKind(db, a.init, e);
    }
    if Evidence(db, t) {
      assert Paid(db, t);
    }
  }

  /** Positive entries are payments with evidence, negative ones are returns; there are no others. */
  lemma EntryKind(db: Db, init: seq<Projection>, e: nat)
    requires Consistent(db, init) && e < |db.book.entries|
    ensures var entry := db.book.entries[e];
            && entry.transaction < |db.transactions|
            && (if entry.kind == L.Payment
                then Evidence(db, entry.transaction) && db.transactions[entry.transaction].amount > 0
                else db.transactions[entry.transaction].amount < 0)
  {
    assert EntryTraced(db, e) && L.EntrySound(db.book.entries, e);
    if db.book.entries[e].kind == L.Payment {
      assert RunSound(db, db.book.entries[e].transaction);
    }
  }

  // ---- Last in, first out -------------------------------------------------------------------------------

  /** On every debt it touched, the payment is the newest one not yet returned. */
  ghost predicate NewestEverywhere(book: L.Book, p: nat)
  {
    forall x | x in L.OfEntry(book.rows, p) ::
      var live := L.Live(book, x.receivable);
      live != [] && live[|live| - 1] == L.Row(p, x)
  }

  /** The value comparison of the service accepts exactly the newest payment. */
  lemma UnmovedIffNewest(book: L.Book, init: seq<Projection>, p: nat)
    requires L.Inv(book, init) && L.LiveEntry(book.entries, p)
    ensures L.Unmoved(book, L.OfEntry(book.rows, p)) <==> NewestEverywhere(book, p)
  {
    hide L.Inv;
    L.OfEntryMembers(book.rows, p);
    forall x | x in L.OfEntry(book.rows, p)
      ensures x.receivable < |book.receivables|
      ensures var live := L.Live(book, x.receivable);
              live != [] && (book.receivables[x.receivable].open == x.after <==> live[|live| - 1] == L.Row(p, x))
    {
      L.GuardIffNewest(book, init, L.Row(p, x));
    }
  }

  /**
   * A return that was not booked before is accepted exactly when it identifies one payment that
   * is not yet returned, assigned something, carried the same amount, and is the newest on every
   * debt it touched. Otherwise it is a conflict; nothing else can happen.
   */
  lemma ReturnAcceptedIff(a: Account, t: nat)
    requires Reachable(a) && t < |a.db.transactions| && a.db.transactions[t].amount < 0
    requires ReversalFor(a.db.book.entries, t).None?
    ensures RunMatch(a.db, t).Done? <==>
      var p := Resolve(a.db, a.db.transactions[t]);
      && p.Some? && p.value < |a.db.book.entries|
      && L.LiveEntry(a.db.book.entries, p.value)
      && L.OfEntry(a.db.book.rows, p.value) != []
      && a.db.book.entries[p.value].amount == -a.db.transactions[t].amount
      && NewestEverywhere(a.db.book, p.value)
    ensures RunMatch(a.db, t).Done? || RunMatch(a.db, t).Conflict?
  {
    hide L.Inv, Resolve, NewestEverywhere, Reachable;
    ReachableIsSound(a);
    var p := Resolve(a.db, a.db.transactions[t]);
    if p.Some? {
      ResolvedIsPayment(a.db, a.db.transactions[t]);
      L.PaymentBalances(a.db.book, a.init, p.value);
      LiveIffNotReversed(a.db.book.entries, p.value);
      if L.LiveEntry(a.db.book.entries, p.value) {
        UnmovedIffNewest(a.db.book, a.init, p.value);
      }
    }
  }

  lemma LiveIffNotReversed(entries: seq<L.Entry>, p: nat)
    requires p < |entries| && entries[p].kind == L.Payment
    ensures L.LiveEntry(entries, p) <==> !Reversed(entries, p)
  {
  }

  // ---- What one step does to the book ---------------------------------------------------------------------

  ghost predicate BooksPayment(before: L.Book, after: L.Book, entry: L.Entry, allocations: seq<Allocation>)
  {
    L.PaymentPlan(before, entry, allocations) && after == L.Post(before, entry, allocations)
  }

  ghost predicate BooksReturn(before: L.Book, after: L.Book, entry: L.Entry, p: nat)
  {
    L.ReturnPlan(before, entry, p) && after == L.Post(before, entry, L.Mirrors(L.OfEntry(before.rows, p)))
  }

  /** A step books nothing, one planned payment, or one planned return. */
  ghost predicate OneBooking(before: L.Book, after: L.Book)
  {
    || (after.entries == before.entries && after.rows == before.rows && before.receivables <= after.receivables)
    || (exists entry, allocations :: BooksPayment(before, after, entry, allocations))
    || (exists entry, p: nat :: BooksReturn(before, after, entry, p))
  }

  lemma SettleBooks(db: Db, init: seq<Projection>, t: nat)
    requires AwaitsBooking(db, init, t) && t < |db.transactions| && Evidence(db, t) && db.runs[t].rows != []
    requires SettlePayment(db, t).Done?
    ensures OneBooking(db.book, SettlePayment(db, t).db.book)
  {
    hide L.Inv, L.PaymentPlan, L.Post, EntriesTraced;
    if LedgerFor(db.book.entries, t).None? {
      SettlementPlanned(db, t);
      var (entry, allocations) := PlannedSettlement(db, t);
      assert BooksPayment(db.book, SettlePayment(db, t).db.book, entry, allocations);
    }
  }

  lemma ActBooks(a: Account, action: Action)
    requires Sound(a)
    ensures OneBooking(a.db.book, Act(a, action).db.book)
  {
    hide Consistent, AwaitsBooking, SettlePayment, ReversePayment, OneBooking, ProposeRun;
    SameBook(a.db.book, a.db.book);
    match action
    case RaiseDebt(claim, open) => SameBook(a.db.book, Act(a, action).db.book);
    case SetProfile(renter, profile) =>
    case Import(tx) =>
    case Match(t) =>
      if RunMatch(a.db, t).Done? { RunMatchBooks(a.db, a.init, t); }
    case Decide(t, outcome) =>
      if DecideMatch(a.db, t, outcome).Done? { DecideMatchBooks(a.db, a.init, t, outcome); }
  }

  lemma SameBook(before: L.Book, after: L.Book)
    requires after.entries == before.entries && after.rows == before.rows && before.receivables <= after.receivables
    ensures OneBooking(before, after)
  {
  }

  lemma RunMatchBooks(db: Db, init: seq<Projection>, t: nat)
    requires Consistent(db, init) && RunMatch(db, t).Done?
    ensures OneBooking(db.book, RunMatch(db, t).db.book)
  {
    hide L.Inv, ReversePayment, SettlePayment, ProposeRun, Consistent, AwaitsBooking, OneBooking;
    SameBook(db.book, db.book);
    if db.transactions[t].amount < 0 {
      ReturnBooks(db, init, t);
    } else if !(db.transactions[t].amount == 0 || t in db.runs) {
      var proposed := db.(runs := db.runs[t := ProposeRun(db, t)]);
      ProposalAwaits(db, init, t);
      if ProposeRun(db, t).decision == AutoMatch {
        RunNonempty(proposed, init, t);
        SettleBooks(proposed, init, t);
      }
    }
  }

  lemma ReturnBooks(db: Db, init: seq<Projection>, t: nat)
    requires Consistent(db, init) && t < |db.transactions| && db.transactions[t].amount < 0
    requires ReversePayment(db, t).Done?
    ensures OneBooking(db.book, ReversePayment(db, t).db.book)
  {
    hide Consistent, ReversePayment, L.ReturnPlan, L.Post;
    if ReversalFor(db.book.entries, t).Some? {
      RepeatedReturn(db, t);
    } else {
      ReturnIsPlan(db, init, t);
      var p := Resolve(db, db.transactions[t]).value;
      assert BooksReturn(db.book, ReversePayment(db, t).db.book, ReversalEntry(db.transactions[t], p), p);
    }
  }

  lemma DecideMatchBooks(db: Db, init: seq<Projection>, t: nat, outcome: Outcome)
    requires Consistent(db, init) && DecideMatch(db, t, outcome).Done?
    ensures OneBooking(db.book, DecideMatch(db, t, outcome).db.book)
  {
    hide L.Inv, SettlePayment, Consistent, AwaitsBooking, OneBooking;
    SameBook(db.book, db.book);
    if t !in db.confirmations && outcome == Confirmed {
      var decided := db.(confirmations := db.confirmations[t := outcome]);
      DecisionAwaits(db, init, t, outcome);
      SettleBooks(decided, init, t);
    }
  }

  // ---- Nothing booked is ever rewritten --------------------------------------------------------------------

  ghost predicate BookLater(before: L.Book, after: L.Book)
  {
    && before.entries <= after.entries
    && (forall e: nat | e < |before.entries| :: L.OfEntry(after.rows, e) == L.OfEntry(before.rows, e))
    && |before.receivables| <= |after.receivables|
    && forall r | 0 <= r < |before.receivables| :: after.receivables[r].claim == before.receivables[r].claim
  }

  /** Transactions, runs and confirmations are only added. */
  ghost predicate EvidenceLater(before: Db, after: Db)
  {
    && before.transactions <= after.transactions
    && (forall t | t in before.runs :: t in after.runs && after.runs[t] == before.runs[t])
    && (forall t | t in before.confirmations ::
        t in after.confirmations && after.confirmations[t] == before.confirmations[t])
  }

  ghost predicate Later(before: Db, after: Db)
  {
    EvidenceLater(before, after) && BookLater(before.book, after.book)
  }

  lemma PostLater(book: L.Book, entry: L.Entry, allocations: seq<Allocation>)
    requires L.RowsSound(book)
    ensures BookLater(book, L.Post(book, entry, allocations))
  {
    L.ApplyKeepsClaims(book.receivables, allocations);
    forall e: nat | e < |book.entries|
      ensures L.OfEntry(L.Post(book, entry, allocations).rows, e) == L.OfEntry(book.rows, e)
    {
      L.OfEntryPost(book, entry, allocations, e);
    }
  }

  lemma BookingLater(before: L.Book, after: L.Book)
    requires L.RowsSound(before) && OneBooking(before, after)
    ensures BookLater(before, after)
  {
    hide L.PaymentPlan, L.ReturnPlan, L.Post, L.RowsSound, BookLater;
    if entry, allocations :| BooksPayment(before, after, entry, allocations) {
      PostLater(before, entry, allocations);
    } else if entry, p: nat :| BooksReturn(before, after, entry, p) {
      PostLater(before, entry, L.Mirrors(L.OfEntry(before.rows, p)));
    } else {
      UnbookedLater(before, after);
    }
  }

  lemma UnbookedLater(before: L.Book, after: L.Book)
    requires after.entries == before.entries && after.rows == before.rows && before.receivables <= after.receivables
    ensures BookLater(before, after)
  {
  }

  lemma ActLater(a: Account, action: Action)
    requires Sound(a)
    ensures Later(a.db, Act(a, action).db)
  {
    hide L.Inv, OneBooking, BookLater, ReversePayment, SettlePayment, ProposeRun;
    ActBooks(a, action);
    LedgerParts(a.db.book, a.init);
    BookingLater(a.db.book, Act(a, action).db.book);
    FramedEvidence(a, action);
  }

  lemma ReverseFrame(db: Db, t: nat)
    requires t < |db.transactions| && ReversePayment(db, t).Done?
    ensures ReversePayment(db, t).db == db.(book := ReversePayment(db, t).db.book)
  {
    hide L.Post, L.Mirrors, L.Unmoved, Resolve, ReversalFor, EngineResolves;
  }

  lemma RunMatchEvidence(db: Db, t: nat)
    requires RunMatch(db, t).Done?
    ensures EvidenceLater(db, RunMatch(db, t).db)
  {
    hide ReversePayment, SettlePayment, ProposeRun;
    if db.transactions[t].amount < 0 {
      ReverseFrame(db, t);
    } else if db.transactions[t].amount > 0 && t !in db.runs && ProposeRun(db, t).decision == AutoMatch {
      ProposedNonempty(db, t);
      SettleFrame(db.(runs := db.runs[t := ProposeRun(db, t)]), t);
    }
  }

  lemma ProposedNonempty(db: Db, t: nat)
    requires t < |db.transactions|
    ensures ProposeRun(db, t).rows != []
  {
  }

  lemma DecideMatchEvidence(db: Db, t: nat, outcome: Outcome)
    requires DecideMatch(db, t, outcome).Done?
    ensures EvidenceLater(db, DecideMatch(db, t, outcome).db)
  {
    hide SettlePayment;
    if t !in db.confirmations && outcome == Confirmed {
      SettleFrame(db.(confirmations := db.confirmations[t := outcome]), t);
    }
  }

  lemma FramedEvidence(a: Account, action: Action)
    ensures EvidenceLater(a.db, Act(a, action).db)
  {
    hide RunMatch, DecideMatch;
    match action
    case RaiseDebt(claim, open) =>
    case SetProfile(renter, profile) =>
    case Import(tx) =>
    case Match(t) =>
      if RunMatch(a.db, t).Done? { RunMatchEvidence(a.db, t); }
    case Decide(t, outcome) =>
      if DecideMatch(a.db, t, outcome).Done? { DecideMatchEvidence(a.db, t, outcome); }
  }

  lemma {:induction false} PlayLater(a: Account, actions: seq<Action>)
    requires Sound(a)
    ensures Later(a.db, Play(a, actions).db)
    decreases |actions|
  {
    hide Sound, Act, BookLater;
    SelfLater(a.db.book);
    if actions != [] {
      ActLater(a, actions[0]);
      ActKeeps(a, actions[0]);
      PlayLater(Act(a, actions[0]), actions[1..]);
      LaterTwice(a.db.book, Act(a, actions[0]).db.book, Play(a, actions).db.book);
    }
  }

  lemma SelfLater(book: L.Book)
    ensures BookLater(book, book)
  {
  }

  lemma LaterTwice(first: L.Book, second: L.Book, third: L.Book)
    requires BookLater(first, second) && BookLater(second, third)
    ensures BookLater(first, third)
  {
  }

  // ---- A return is the exact inverse of its payment ---------------------------------------------------------

  /** The action books a payment, as the newest entry. */
  ghost predicate AddsPayment(a: Account, action: Action)
  {
    var after := Act(a, action).db.book.entries;
    |after| == |a.db.book.entries| + 1 && after[|a.db.book.entries|].kind == L.Payment
  }

  /** The action books the return of entry `p`. */
  ghost predicate AddsReturnOf(a: Account, action: Action, p: nat)
  {
    var after := Act(a, action).db.book.entries;
    |after| == |a.db.book.entries| + 1 && after[|a.db.book.entries|].kind == L.Reversal
    && after[|a.db.book.entries|].reverses == Some(p)
  }

  /** A payment moves exactly the debts named by its allocations. */
  lemma PaymentMoves(book: L.Book, entry: L.Entry, allocations: seq<Allocation>, r: nat)
    requires L.PaymentPlan(book, entry, allocations) && r < |book.receivables|
    ensures var after := L.Post(book, entry, allocations).receivables[r].open;
            && (after != book.receivables[r].open <==> exists x :: x in allocations && x.receivable == r)
            && forall x | x in allocations && x.receivable == r :: x.before == book.receivables[r].open
  {
    L.ApplyAt(book.receivables, allocations, r);
    if x :| x in allocations && x.receivable == r {
      var i :| 0 <= i < |allocations| && allocations[i] == x;
      assert L.Pays(allocations[i]);
    }
  }

  lemma KindsOfBookings(before: L.Book, after: L.Book)
    requires |after.entries| == |before.entries| + 1
    ensures forall entry, allocations | BooksPayment(before, after, entry, allocations) ::
              after.entries[|before.entries|] == entry && entry.kind == L.Payment
    ensures forall entry, p: nat | BooksReturn(before, after, entry, p) ::
              after.entries[|before.entries|] == entry && entry.kind == L.Reversal && entry.reverses == Some(p)
  {
  }

  /** One more entry, of kind PAYMENT: a payment was booked. */
  lemma NewPayment(before: L.Book, after: L.Book)
    requires OneBooking(before, after) && |after.entries| == |before.entries| + 1
    requires after.entries[|before.entries|].kind == L.Payment
    ensures exists entry, allocations :: BooksPayment(before, after, entry, allocations)
  {
    hide L.PaymentPlan, L.ReturnPlan;
    KindsOfBookings(before, after);
  }

  /** One more entry, of kind REVERSAL: the named payment was returned. */
  lemma NewReturn(before: L.Book, after: L.Book)
    requires OneBooking(before, after) && |after.entries| == |before.entries| + 1
    requires after.entries[|before.entries|].kind == L.Reversal && after.entries[|before.entries|].reverses.Some?
    ensures BooksReturn(before, after, after.entries[|before.entries|], after.entries[|before.entries|].reverses.value)
  {
    hide L.PaymentPlan, L.ReturnPlan;
    KindsOfBookings(before, after);
    var entry, p: nat :| BooksReturn(before, after, entry, p);
    ReturnKind(before, entry, p);
  }

  lemma BookedPayment(a: Account, action: Action, r: nat)
    requires Sound(a) && AddsPayment(a, action)
    ensures var own := L.OfEntry(Act(a, action).db.book.rows, |a.db.book.entries|);
            && (forall x | x in own && x.receivable == r && r < |a.db.book.receivables| ::
                x.before == a.db.book.receivables[r].open)
            && (r < |a.db.book.receivables| ==>
                  r < |Act(a, action).db.book.receivables|
                  && (Act(a, action).db.book.receivables[r].open != a.db.book.receivables[r].open
                      <==> exists x :: x in own && x.receivable == r))
            && (r >= |a.db.book.receivables| ==> forall x | x in own :: x.receivable != r)
  {
    hide Sound, Act, L.PaymentPlan, L.ReturnPlan, OneBooking, L.RowsSound, L.Inv;
    ActBooks(a, action);
    SoundRows(a);
    var book, after := a.db.book, Act(a, action).db.book;
    NewPayment(book, after);
    var entry, allocations :| BooksPayment(book, after, entry, allocations);
    L.OfEntryPost(book, entry, allocations, |book.entries|);
    PlanInside(book, entry, allocations);
    if r < |book.receivables| {
      PaymentMoves(book, entry, allocations, r);
    }
  }

  lemma SoundRows(a: Account)
    requires Sound(a)
    ensures L.RowsSound(a.db.book) && L.Inv(a.db.book, a.init)
  {
  }

  lemma ReturnKind(book: L.Book, entry: L.Entry, p: nat)
    requires L.ReturnPlan(book, entry, p)
    ensures entry.kind == L.Reversal && entry.reverses == Some(p)
    ensures L.LiveEntry(book.entries, p) && L.Unmoved(book, L.OfEntry(book.rows, p))
  {
  }

  lemma PlanInside(book: L.Book, entry: L.Entry, allocations: seq<Allocation>)
    requires L.PaymentPlan(book, entry, allocations)
    ensures entry.kind == L.Payment && L.Applicable(book, allocations) && L.SameRenter(book, allocations)
    ensures forall x | x in allocations :: x.receivable < |book.receivables|
  {
  }

  /** What a booked return does to one debt: restore the payment's before-snapshot, or nothing. */
  lemma BookedReturn(a: Account, action: Action, p: nat, r: nat)
    requires Sound(a) && AddsReturnOf(a, action, p) && r < |a.db.book.receivables|
    ensures p < |a.db.book.entries| && r < |Act(a, action).db.book.receivables|
    ensures var own, after := L.OfEntry(a.db.book.rows, p), Act(a, action).db.book.receivables[r].open;
            && (forall x | x in own && x.receivable == r :: after == x.before)
            && ((forall x | x in own :: x.receivable != r) ==> after == a.db.book.receivables[r].open)
  {
    hide Sound, Act, L.PaymentPlan, L.ReturnPlan, OneBooking, L.RowsSound, L.Inv;
    ActBooks(a, action);
    SoundRows(a);
    var book, after := a.db.book, Act(a, action).db.book;
    NewReturn(book, after);
    ReturnKind(book, after.entries[|book.entries|], p);
    L.ReturnApplicable(book, a.init, p);
    L.ReturnRestores(book, p, r);
  }

  /**
   * However much is booked in between, an accepted return puts every debt that its payment
   * moved back to the exact projection before that payment, and leaves all other debts alone.
   */
  lemma ReturnUndoesPayment(before: Account, payment: Action, between: seq<Action>, action: Action, r: nat)
    requires Reachable(before) && AddsPayment(before, payment)
    requires AddsReturnOf(Play(Act(before, payment), between), action, |before.db.book.entries|)
    requires r < |Play(Act(before, payment), between).db.book.receivables|
    ensures var paid, later := Act(before, payment).db.book.receivables, Play(Act(before, payment), between);
            && r < |Act(later, action).db.book.receivables| && |before.db.book.receivables| <= |paid|
            && Act(later, action).db.book.receivables[r].open
            == if r < |before.db.book.receivables| && paid[r].open != before.db.book.receivables[r].open
               then before.db.book.receivables[r].open
               else later.db.book.receivables[r].open
  {
    hide Sound, Act, Play, Reachable;
    ReachableIsSound(before);
    var paid := Act(before, payment);
    var later := Play(paid, between);
    ActKeeps(before, payment);
    ActLater(before, payment);
    PlayKeeps(paid, between);
    PlayLater(paid, between);
    BookedPayment(before, payment, r);
    BookedReturn(later, action, |before.db.book.entries|, r);
  }

  /** The rows of a return negate the rows of its payment, debt by debt and component by component. */
  lemma ReturnMirrorsPayment(a: Account, e: nat)
    requires Reachable(a) && e < |a.db.book.entries| && a.db.book.entries[e].kind == L.Reversal
    ensures a.db.book.entries[e].reverses.Some? && a.db.book.entries[e].reverses.value < e
    ensures var p := a.db.book.entries[e].reverses.value;
            var rows, own := L.OfEntry(a.db.book.rows, p), L.OfEntry(a.db.book.rows, e);
            && a.db.book.entries[p].kind == L.Payment
            && a.db.book.entries[e].transaction < |a.db.transactions|
            && a.db.book.entries[e].amount == a.db.transactions[a.db.book.entries[e].transaction].amount
               == -a.db.book.entries[p].amount
            && a.db.book.entries[e].credit == 0 && a.db.book.entries[e].proposal.None?
            && |own| == |rows|
            && forall i | 0 <= i < |rows| ::
                 && own[i].receivable == rows[i].receivable
                 && own[i].paid == Tiers(-rows[i].paid.costs, -rows[i].paid.interest, -rows[i].paid.principal)
                 && |own[i].parts| == |rows[i].parts|
                 && (forall k | 0 <= k < |rows[i].parts| :: own[i].parts[k] == -rows[i].parts[k])
                 && own[i].before == rows[i].after && own[i].after == rows[i].before
    ensures forall f | 0 <= f < |a.db.book.entries| && f != e ::
        a.db.book.entries[f].reverses != a.db.book.entries[e].reverses
  {
    hide Sound, Reachable, L.Inv;
    ReachableIsSound(a);
    SoundRows(a);
    SoundTrace(a);
    L.ReversalMirrors(a.db.book, a.init, e);
    assert EntryTraced(a.db, e) && L.EntrySound(a.db.book.entries, e);
    L.MirrorsAt(L.OfEntry(a.db.book.rows, a.db.book.entries[e].reverses.value));
  }

  // ---- Money never crosses renters ----------------------------------------------------------------------------

  /** The renter an entry belongs to: the first-ranked renter of the payment, or of the returned payment. */
  ghost function RenterOf(db: Db, e: nat): Option<nat>
  {
    if e >= |db.book.entries| then None
    else
      var p := if db.book.entries[e].reverses.Some? then db.book.entries[e].reverses.value else e;
      if p < |db.book.entries| && db.book.entries[p].proposal.Some?
         && db.book.entries[p].proposal.value.transaction in db.runs
         && db.runs[db.book.entries[p].proposal.value.transaction].rows != []
         && db.runs[db.book.entries[p].proposal.value.transaction].rows[0].Some?
      then Some(db.runs[db.book.entries[p].proposal.value.transaction].rows[0].value.renter)
      else None
  }

  /** Every entry of a reachable account has a renter, and touches that renter's debts only. */
  lemma EntryStaysWithRenter(a: Account, e: nat)
    requires Reachable(a) && e < |a.db.book.entries|
    ensures RenterOf(a.db, e).Some?
    ensures forall x | x in L.OfEntry(a.db.book.rows, e) ::
              x.receivable < |a.db.book.receivables|
              && a.db.book.receivables[x.receivable].claim.renter == RenterOf(a.db, e).value
  {
    hide Sound, Reachable, L.Inv;
    ReachableIsSound(a);
    SoundRows(a);
    SoundTrace(a);
    var entries := a.db.book.entries;
    if entries[e].kind == L.Payment {
      PaymentRenter(a.db, e);
    } else {
      L.ReversalMirrors(a.db.book, a.init, e);
      var p := entries[e].reverses.value;
      PaymentRenter(a.db, p);
      var rows, own := L.OfEntry(a.db.book.rows, p), L.OfEntry(a.db.book.rows, e);
      L.MirrorsAt(rows);
      forall x | x in own
        ensures x.receivable < |a.db.book.receivables|
                && a.db.book.receivables[x.receivable].claim.renter == RenterOf(a.db, e).value
      {
        var i :| 0 <= i < |own| && own[i] == x;
        assert rows[i] in rows;
      }
    }
  }

  lemma SoundTrace(a: Account)
    requires Sound(a)
    ensures EntriesTraced(a.db) && L.EntriesSound(a.db.book.entries)
  {
  }

  /** A payment belongs to the first-ranked renter of its run. */
  lemma PaymentRenter(db: Db, p: nat)
    requires EntriesTraced(db) && L.EntriesSound(db.book.entries)
    requires p < |db.book.entries| && db.book.entries[p].kind == L.Payment
    ensures RenterOf(db, p).Some? && db.book.entries[p].reverses.None?
    ensures RowsBelongTo(db.book, p, RenterOf(db, p).value)
    ensures forall e | 0 <= e < |db.book.entries| && db.book.entries[e].reverses == Some(p) ::
        RenterOf(db, e) == RenterOf(db, p)
  {
    assert L.EntrySound(db.book.entries, p) && EntryTraced(db, p);
  }

  ghost predicate OnlyMoves(before: seq<Receivable>, after: seq<Receivable>, renter: nat)
  {
    && |before| <= |after|
    && forall r | 0 <= r < |before| && after[r] != before[r] :: before[r].claim.renter == renter
  }

  lemma PostMovesOneRenter(book: L.Book, entry: L.Entry, allocations: seq<Allocation>)
    requires L.Applicable(book, allocations) && L.SameRenter(book, allocations)
    ensures exists renter: nat :: OnlyMoves(book.receivables, L.Post(book, entry, allocations).receivables, renter)
  {
    var after := L.Post(book, entry, allocations).receivables;
    var renter: nat := if allocations == [] then 0 else book.receivables[allocations[0].receivable].claim.renter;
    forall r | 0 <= r < |book.receivables| && after[r] != book.receivables[r]
      ensures book.receivables[r].claim.renter == renter
    {
      L.ApplyAt(book.receivables, allocations, r);
    }
    assert OnlyMoves(book.receivables, after, renter);
  }

  /** Any one step changes the debts of at most one renter. */
  lemma StepMovesOneRenter(a: Account, action: Action)
    requires Reachable(a)
    ensures exists renter: nat :: OnlyMoves(a.db.book.receivables, Act(a, action).db.book.receivables, renter)
  {
    hide Act, Sound, Reachable, L.PaymentPlan, L.ReturnPlan, L.Post;
    ReachableIsSound(a);
    SoundRows(a);
    ActBooks(a, action);
    var book, after := a.db.book, Act(a, action).db.book;
    if entry, allocations :| BooksPayment(book, after, entry, allocations) {
      PlanInside(book, entry, allocations);
      PostMovesOneRenter(book, entry, allocations);
    } else if entry, p: nat :| BooksReturn(book, after, entry, p) {
      ReturnKind(book, entry, p);
      L.ReturnApplicable(book, a.init, p);
      PostMovesOneRenter(book, entry, L.Mirrors(L.OfEntry(book.rows, p)));
    } else {
      assert OnlyMoves(book.receivables, after.receivables, 0);
    }
  }

  // ---- Repetition ------------------------------------------------------------------------------------------------

  lemma ReversalStays(before: Db, after: Db, t: nat)
    requires Later(before, after) && ReversalFor(before.book.entries, t).Some?
    ensures ReversalFor(after.book.entries, t).Some?
  {
    ReversalForFinds(before.book.entries, t);
    ReversalForFinds(after.book.entries, t);
    var e := ReversalFor(before.book.entries, t).value;
    assert after.book.entries[e] == before.book.entries[e];
  }

  lemma ReturnLeavesReversal(db: Db, init: seq<Projection>, t: nat)
    requires Consistent(db, init) && t < |db.transactions| && db.transactions[t].amount < 0
        && ReversePayment(db, t).Done?
    ensures ReversalFor(ReversePayment(db, t).db.book.entries, t).Some?
    ensures ReversePayment(db, t).db.transactions == db.transactions
  {
    hide L.Inv, ReversePayment;
    if ReversalFor(db.book.entries, t).Some? {
      RepeatedReturn(db, t);
    } else {
      ReturnIsPlan(db, init, t);
    }
  }

  /** Once matching a transaction has succeeded, matching it again, at any later time, changes nothing. */
  lemma RepeatedMatch(a: Account, t: nat, between: seq<Action>)
    requires Reachable(a) && RunMatch(a.db, t).Done?
    ensures var later := Play(Act(a, Match(t)), between).db; RunMatch(later, t) == Done(later)
  {
    hide Reachable, Sound, Play, ReversePayment, BookLater;
    ReachableIsSound(a);
    var after := Act(a, Match(t));
    ActKeeps(a, Match(t));
    PlayLater(after, between);
    var later := Play(after, between).db;
    MatchLeaves(a, t);
    if a.db.transactions[t].amount < 0 {
      ReversalStays(after.db, later, t);
      RepeatedReturn(later, t);
    }
  }

  lemma MatchLeaves(a: Account, t: nat)
    requires Sound(a) && RunMatch(a.db, t).Done?
    ensures var after := Act(a, Match(t)).db;
            && t < |a.db.transactions| && after.transactions == a.db.transactions
            && (a.db.transactions[t].amount > 0 ==> t in after.runs)
            && (a.db.transactions[t].amount < 0 ==> ReversalFor(after.book.entries, t).Some?)
  {
    hide ReversePayment, L.Inv, ProposeRun, SettleSpec, NamedPeriods, L.Post;
    if a.db.transactions[t].amount < 0 {
      ReturnLeavesReversal(a.db, a.init, t);
    }
  }

  /** A decision is final: the same one again changes nothing, another one is a conflict. */
  lemma RepeatedDecision(a: Account, t: nat, outcome: Outcome, between: seq<Action>, again: Outcome)
    requires Reachable(a) && DecideMatch(a.db, t, outcome).Done?
    ensures var later := Play(Act(a, Decide(t, outcome)), between).db;
            DecideMatch(later, t, again) == if again == outcome then Done(later) else Conflict
  {
    hide Reachable, Sound, Play, BookLater;
    ReachableIsSound(a);
    var after := Act(a, Decide(t, outcome));
    ActKeeps(a, Decide(t, outcome));
    PlayLater(after, between);
    DecisionLeaves(a, t, outcome);
  }

  lemma DecisionLeaves(a: Account, t: nat, outcome: Outcome)
    requires DecideMatch(a.db, t, outcome).Done?
    ensures var after := Act(a, Decide(t, outcome)).db;
            && t < |after.transactions| && t in after.runs && after.runs[t].rows != []
            && after.runs[t].decision == NeedsReview
            && t in after.confirmations && after.confirmations[t] == outcome
  {
    hide SettleSpec, NamedPeriods, L.Post;
  }
}
