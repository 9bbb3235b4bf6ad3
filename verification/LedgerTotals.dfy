/** Where an account's money is: every booked cent has either reduced a debt or is held as credit. */
module LedgerTotals {
  import opened Rows
  import opened Matching
  import opened MatchingInvariant
  import opened MatchingRuns
  import opened MatchingTheorems
  import L = Ledger

  ghost function Opens(receivables: seq<Receivable>): seq<Projection>
  {
    seq(|receivables|, i requires 0 <= i < |receivables| => receivables[i].open)
  }

  /** All open cents, over all debts and tiers. */
  ghost function Debts(open: seq<Projection>): int
  {
    if open == [] then 0 else Debts(open[..|open| - 1]) + L.Owed(open[|open| - 1])
  }

  /** The signed amounts of all booked transactions. */
  ghost function Received(entries: seq<L.Entry>): int
  {
    if entries == [] then 0 else Received(entries[..|entries| - 1]) + entries[|entries| - 1].amount
  }

  /** The credit of the selected entries. */
  ghost function Credits(entries: seq<L.Entry>, selected: set<nat>): int
  {
    if entries == [] then 0
    else
      Credits(entries[..|entries| - 1], selected)
      + (if |entries| - 1 in selected then entries[|entries| - 1].credit else 0)
  }

  /** What came in, less what went back, is what debts fell by plus the credit of payments not returned. */
  ghost predicate MoneyConserved(a: Account)
  {
    Received(a.db.book.entries)
    == Debts(a.init) - Debts(Opens(a.db.book.receivables))
      + Credits(a.db.book.entries, L.LiveEntries(a.db.book.entries))
  }

  lemma {:induction false} DebtsUpdate(open: seq<Projection>, i: nat, p: Projection)
    requires i < |open|
    ensures Debts(open[i := p]) == Debts(open) - L.Owed(open[i]) + L.Owed(p)
  {
    var n := |open| - 1;
    if i < n {
      DebtsUpdate(open[..n], i, p);
      assert open[i := p][..n] == open[..n][i := p];
    } else {
      assert open[i := p][..n] == open[..n];
    }
  }

  lemma {:induction false} AppliedDebts(book: L.Book, allocations: seq<Allocation>)
    requires L.Applicable(book, allocations)
    ensures Debts(Opens(L.Apply(book.receivables, allocations)))
              == Debts(Opens(book.receivables)) - Assigned(allocations)
  {
    hide L.Moves, ComponentsFit, L.Apply, Debts, Assigned;
    if allocations != [] {
      var n := |allocations| - 1;
      var last, first := allocations[n], allocations[..n];
      AppliedDebts(book, first);
      LastApplied(book, allocations);
      var rest := L.Apply(book.receivables, first);
      DebtsUpdate(Opens(rest), last.receivable, last.after);
      AssignedConcat(first, [last]);
      assert allocations == first + [last];
      MovedCents(last);
      OneAssigned(last);
    } else {
      NothingApplied(book);
    }
  }

  lemma NothingApplied(book: L.Book)
    ensures L.Apply(book.receivables, []) == book.receivables && Assigned([]) == 0
  {
  }

  lemma OneAssigned(a: Allocation)
    ensures Assigned([a]) == a.paid.Total()
  {
    assert [a][1..] == [];
  }

  /** The last allocation replaces one projection, which the earlier ones have not touched. */
  lemma LastApplied(book: L.Book, allocations: seq<Allocation>)
    requires L.Applicable(book, allocations) && allocations != []
    ensures var n, last := |allocations| - 1, allocations[|allocations| - 1];
            var rest := L.Apply(book.receivables, allocations[..n]);
            && last.receivable < |rest| && rest[last.receivable].open == last.before && L.Moves(last)
            && Opens(L.Apply(book.receivables, allocations)) == Opens(rest)[last.receivable := last.after]
  {
    hide L.Moves, ComponentsFit;
    var n, last := |allocations| - 1, allocations[|allocations| - 1];
    L.ApplyAt(book.receivables, allocations[..n], last.receivable);
  }

  lemma MovedCents(x: Allocation)
    requires L.Moves(x)
    ensures L.Owed(x.after) == L.Owed(x.before) - x.paid.Total()
  {
  }

  lemma {:induction false} AssignedMirrors(allocations: seq<Allocation>)
    ensures Assigned(L.Mirrors(allocations)) == -Assigned(allocations)
  {
    if allocations != [] {
      AssignedMirrors(allocations[1..]);
      MirrorTotal(allocations[0]);
    }
  }

  lemma MirrorTotal(x: Allocation)
    ensures L.Mirror(x).paid.Total() == -x.paid.Total()
  {
  }

  lemma {:induction false} CreditsAgree(entries: seq<L.Entry>, a: set<nat>, b: set<nat>)
    requires forall e: nat | e < |entries| :: e in a <==> e in b
    ensures Credits(entries, a) == Credits(entries, b)
  {
    if entries != [] {
      CreditsAgree(entries[..|entries| - 1], a, b);
    }
  }

  lemma {:induction false} CreditsWithout(entries: seq<L.Entry>, selected: set<nat>, p: nat)
    requires p < |entries| && p in selected
    ensures Credits(entries, selected - {p}) == Credits(entries, selected) - entries[p].credit
  {
    var n := |entries| - 1;
    if p < n {
      CreditsWithout(entries[..n], selected, p);
    } else {
      CreditsAgree(entries[..n], selected - {p}, selected);
    }
  }

  lemma PaymentConserves(book: L.Book, after: L.Book, entry: L.Entry, allocations: seq<Allocation>)
    requires L.EntriesSound(book.entries) && BooksPayment(book, after, entry, allocations)
    ensures Received(after.entries) == Received(book.entries) + entry.amount
    ensures Debts(Opens(after.receivables)) == Debts(Opens(book.receivables)) - Assigned(allocations)
    ensures Credits(after.entries, L.LiveEntries(after.entries))
         == Credits(book.entries, L.LiveEntries(book.entries)) + entry.credit
  {
    var n := |book.entries|;
    AppliedDebts(book, allocations);
    assert after.entries[..n] == book.entries;
    L.PaymentExtendsLive(book, entry);
    CreditsAgree(book.entries, L.LiveEntries(after.entries), L.LiveEntries(book.entries));
  }

  lemma ReturnConserves(book: L.Book, init: seq<Projection>, after: L.Book, entry: L.Entry, p: nat)
    requires L.Inv(book, init) && BooksReturn(book, after, entry, p)
    ensures p < |book.entries|
    ensures Received(after.entries) == Received(book.entries) - book.entries[p].amount
    ensures Debts(Opens(after.receivables)) == Debts(Opens(book.receivables)) + Assigned(L.OfEntry(book.rows, p))
    ensures Credits(after.entries, L.LiveEntries(after.entries))
         == Credits(book.entries, L.LiveEntries(book.entries)) - book.entries[p].credit
  {
    hide L.Tables, L.RowsSound, L.Mirrored, L.Balanced, L.OneRenter, L.Chained, L.Stacked;
    var n, own := |book.entries|, L.OfEntry(book.rows, p);
    L.ReturnApplicable(book, init, p);
    AppliedDebts(book, L.Mirrors(own));
    AssignedMirrors(own);
    assert after.entries[..n] == book.entries;
    L.ReturnShrinksLive(book, entry, p);
    CreditsWithout(book.entries, L.LiveEntries(book.entries), p);
    CreditsWithReversal(book.entries, entry, L.LiveEntries(book.entries) - {p});
  }

  lemma CreditsWithReversal(entries: seq<L.Entry>, entry: L.Entry, selected: set<nat>)
    requires |entries| !in selected
    ensures Credits(entries + [entry], selected) == Credits(entries, selected)
  {
    assert (entries + [entry])[..|entries|] == entries;
  }

  lemma BookingConserves(before: Account, after: Account)
    requires Sound(before) && MoneyConserved(before) && OneBooking(before.db.book, after.db.book)
    requires after.init == before.init && |after.db.book.receivables| == |before.db.book.receivables|
    ensures MoneyConserved(after)
  {
    hide Sound, L.PaymentPlan, L.ReturnPlan, L.Inv, L.EntriesSound, L.LiveEntries, L.Post, L.RowsSound, L.LiveEntry;
    var book, next := before.db.book, after.db.book;
    SoundRows(before);
    LedgerParts(book, before.init);
    if entry, allocations :| BooksPayment(book, next, entry, allocations) {
      PaymentConserves(book, next, entry, allocations);
      PlanBalances(book, entry, allocations);
    } else if entry, p: nat :| BooksReturn(book, next, entry, p) {
      ReturnConserves(book, before.init, next, entry, p);
      ReturnKind(book, entry, p);
      LiveKind(book, p);
      L.PaymentBalances(book, before.init, p);
    } else {
      assert next.receivables == book.receivables;
    }
  }

  lemma PlanBalances(book: L.Book, entry: L.Entry, allocations: seq<Allocation>)
    requires L.PaymentPlan(book, entry, allocations)
    ensures entry.amount == Assigned(allocations) + entry.credit
  {
  }

  lemma LiveKind(book: L.Book, p: nat)
    requires L.LiveEntry(book.entries, p)
    ensures p < |book.entries| && book.entries[p].kind == L.Payment
  {
  }

  lemma ActConserves(a: Account, action: Action)
    requires Sound(a) && MoneyConserved(a)
    ensures MoneyConserved(Act(a, action))
  {
    hide Sound, MoneyConserved, RunMatch, DecideMatch, OneBooking;
    if action.RaiseDebt? {
      if DebtAdmitted(a.db.book.receivables, action.claim, action.open) {
        RaiseConserves(a, action.claim, action.open);
      }
    } else {
      ActBooks(a, action);
      ActKeeps(a, action);
      SoundLengths(a);
      SoundLengths(Act(a, action));
      BookingConserves(a, Act(a, action));
    }
  }

  lemma SoundLengths(a: Account)
    requires Sound(a)
    ensures |a.init| == |a.db.book.receivables|
  {
  }

  lemma RaiseConserves(a: Account, claim: Claim, open: Projection)
    requires MoneyConserved(a)
    ensures MoneyConserved(Raise(a, claim, open))
  {
    var after := Raise(a, claim, open);
    assert Opens(after.db.book.receivables) == Opens(a.db.book.receivables) + [open];
    assert (Opens(a.db.book.receivables) + [open])[..|a.db.book.receivables|] == Opens(a.db.book.receivables);
    assert (a.init + [open])[..|a.init|] == a.init;
  }

  lemma {:induction false} PlayConserves(a: Account, actions: seq<Action>)
    requires Sound(a) && MoneyConserved(a)
    ensures MoneyConserved(Play(a, actions))
    decreases |actions|
  {
    hide Sound, Act, MoneyConserved;
    if actions != [] {
      ActConserves(a, actions[0]);
      ActKeeps(a, actions[0]);
      PlayConserves(Act(a, actions[0]), actions[1..]);
    }
  }

  /** In every reachable account no cent is created or lost. */
  lemma ReachableConserves(a: Account)
    requires Reachable(a)
    ensures MoneyConserved(a)
  {
    hide Act, Play, Sound;
    var actions :| a == Play(EMPTY, actions);
    EmptyIsSound();
    PlayConserves(EMPTY, actions);
  }

  /**
   * And debt by debt: the opening projection less the signed allocations is the current one, tier
   * by tier; the not-yet-returned payments alone explain it as well.
   */
  lemma ReachableDebtConserves(a: Account, r: nat)
    requires Reachable(a) && r < |a.db.book.receivables|
    ensures r < |a.init|
    ensures var book := a.db.book;
            && a.init[r].tiers.Minus(L.Booked(L.History(book.rows, r))) == book.receivables[r].open.tiers
            && a.init[r].tiers.Minus(L.Booked(L.Live(book, r))) == book.receivables[r].open.tiers
            && L.Chain(a.init[r], L.History(book.rows, r), book.receivables[r].open)
            && L.Chain(a.init[r], L.Live(book, r), book.receivables[r].open)
  {
    ReachableIsSound(a);
    L.LedgerConserves(a.db.book, a.init, r);
  }
}
