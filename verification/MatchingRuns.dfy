/**
 * Whole runs of one account: debts are raised, transactions imported, matched and decided in any
 * order and as often as one likes. A step that conflicts or fails is rolled back.
 */
module MatchingRuns {
  import opened Rows
  import opened PrincipalSplit
  import opened Scoring
  import opened Matching
  import opened MatchingInvariant
  import L = Ledger

  datatype Action =
    | RaiseDebt(claim: Claim, open: Projection)
    | SetProfile(renter: nat, profile: Profile)
    | Import(transaction: Transaction)
    | Match(t: nat)
    | Decide(decided: nat, outcome: Outcome)

  /** The rows, and each debt's projection when it was raised. */
  datatype Account = Account(db: Db, init: seq<Projection>)

  const EMPTY := Account(Db(L.Book([], [], []), [], map[], map[], map[], {}), [])

  /** The CHECK constraints of the receivable table and its primary key. */
  predicate DebtAdmitted(receivables: seq<Receivable>, claim: Claim, open: Projection)
  {
    && ProjectionChecks(open) && |claim.components| == 4 && open.open <= claim.expected
    && (claim.category == Rent ==> Sum(claim.components) == claim.expected)
    && forall r | r in receivables :: r.claim.idOrder != claim.idOrder
  }

  function Raise(a: Account, claim: Claim, open: Projection): Account
  {
    var book := a.db.book;
    Account(a.db.(book := book.(receivables := book.receivables + [Receivable(|book.receivables|, claim, open)])),
            a.init + [open])
  }

  /** A step that is not done leaves nothing behind. */
  function Committed(a: Account, step: Step): Account
  {
    if step.Done? then a.(db := step.db) else a
  }

  function Act(a: Account, action: Action): Account
  {
    match action
    case RaiseDebt(claim, open) => if DebtAdmitted(a.db.book.receivables, claim, open) then Raise(a, claim, open) else a
    case SetProfile(renter, profile) => a.(db := a.db.(profiles := a.db.profiles[renter := profile]))
    case Import(tx) => a.(db := a.db.(transactions := a.db.transactions + [tx.(id := |a.db.transactions|)]))
    case Match(t) => Committed(a, RunMatch(a.db, t))
    case Decide(t, outcome) => Committed(a, DecideMatch(a.db, t, outcome))
  }

  function Play(a: Account, actions: seq<Action>): Account
    decreases |actions|
  {
    if actions == [] then a else Play(Act(a, actions[0]), actions[1..])
  }

  ghost predicate Reachable(a: Account)
  {
    exists actions :: a == Play(EMPTY, actions)
  }

  ghost predicate Sound(a: Account)
  {
    Consistent(a.db, a.init)
  }

  /** The constraints column by column: what is open adds up and fits the claim; a rent's four components add up. */
  ghost predicate FitsTable(receivables: seq<Receivable>, claim: Claim, open: Projection)
  {
    && open.tiers.costs >= 0 && open.tiers.interest >= 0 && open.open >= 0
    && open.tiers.principal == open.open <= claim.expected
    && (open.status == Settled <==> open.tiers.costs == 0 && open.tiers.interest == 0 && open.open == 0)
    && |claim.components| == 4
    && (claim.category == Rent ==>
          claim.components[0] + claim.components[1] + claim.components[2] + claim.components[3] == claim.expected)
    && forall r | r in receivables :: r.claim.idOrder != claim.idOrder
  }

  lemma SumOfFour(xs: seq<int>)
    requires |xs| == 4
    ensures Sum(xs) == xs[0] + xs[1] + xs[2] + xs[3]
  {
    assert xs[1..][1..] == xs[2..] && xs[2..][1..] == xs[3..] && xs[3..][1..] == [];
    assert Sum(xs[3..]) == xs[3] && Sum(xs[2..]) == xs[2] + xs[3];
  }

  /** A debt is raised, with its opening projection, exactly when it fits the table. */
  lemma RaisedIff(a: Account, claim: Claim, open: Projection)
    ensures var book := a.db.book;
            Act(a, RaiseDebt(claim, open))
            == if FitsTable(book.receivables, claim, open)
               then Account(a.db.(book := book.(receivables := book.receivables
                                                               + [Receivable(|book.receivables|, claim, open)])),
                            a.init + [open])
               else a
  {
    hide Sum;
    if |claim.components| == 4 {
      SumOfFour(claim.components);
    }
  }

  // ---- Every reachable account is consistent --------------------------------------------------------

  lemma RaiseKeepsRows(book: L.Book, r: Receivable)
    requires L.RowsSound(book) && L.OneRenter(book) && r.id == |book.receivables|
    ensures L.RowsSound(book.(receivables := book.receivables + [r]))
        && L.OneRenter(book.(receivables := book.receivables + [r]))
  {
    var after := book.(receivables := book.receivables + [r]);
    forall k | 0 <= k < |after.rows| ensures L.RowSound(after, after.rows[k]) {
      assert L.RowSound(book, book.rows[k]);
    }
  }

  lemma RaiseKeepsChains(book: L.Book, init: seq<Projection>, r: Receivable)
    requires L.RowsSound(book) && |init| == |book.receivables| && L.Chained(book, init) && L.Stacked(book, init)
    ensures L.Chained(book.(receivables := book.receivables + [r]), init + [r.open])
    ensures L.Stacked(book.(receivables := book.receivables + [r]), init + [r.open])
  {
    var after, opening, n := book.(receivables := book.receivables + [r]), init + [r.open], |init|;
    NoRowsYet(book, L.AllEntries(book.rows), n);
    NoRowsYet(book, L.LiveEntries(book.entries), n);
    forall i: nat | i < |opening|
      ensures L.Chain(opening[i], L.History(after.rows, i), after.receivables[i].open)
      ensures L.Chain(opening[i], L.Live(after, i), after.receivables[i].open)
    {
      assert L.Live(after, i) == L.On(book.rows, L.LiveEntries(book.entries), i);
    }
  }

  lemma {:induction false} OnNothing(rows: seq<L.Row>, entries: set<nat>, n: nat)
    requires forall k | 0 <= k < |rows| :: rows[k].booked.receivable != n
    ensures L.On(rows, entries, n) == []
  {
    if rows != [] {
      OnNothing(rows[1..], entries, n);
    }
  }

  lemma NoRowsYet(book: L.Book, entries: set<nat>, n: nat)
    requires L.RowsSound(book) && n >= |book.receivables|
    ensures L.On(book.rows, entries, n) == []
  {
    forall k | 0 <= k < |book.rows| ensures book.rows[k].booked.receivable != n {
      assert L.RowSound(book, book.rows[k]);
    }
    OnNothing(book.rows, entries, n);
  }

  lemma RaiseKeepsLedger(book: L.Book, init: seq<Projection>, r: Receivable)
    requires L.Inv(book, init) && r.id == |book.receivables| && ProjectionChecks(r.open)
    ensures L.Inv(book.(receivables := book.receivables + [r]), init + [r.open])
  {
    hide L.Chained, L.Stacked, L.OneRenter, L.RowsSound, L.EntriesSound;
    RaiseKeepsRows(book, r);
    RaiseKeepsChains(book, init, r);
    var after := book.(receivables := book.receivables + [r]);
    forall e: nat | e < |after.entries| && after.entries[e].kind == L.Payment ensures L.EntryBalanced(after, e) {
      assert L.EntryBalanced(book, e);
    }
  }

  lemma RaiseKeeps(a: Account, claim: Claim, open: Projection)
    requires Sound(a) && DebtAdmitted(a.db.book.receivables, claim, open)
    ensures Sound(Raise(a, claim, open))
  {
    hide L.Inv, EntryTraced;
    var book, after := a.db.book, Raise(a, claim, open);
    RaiseKeepsLedger(book, a.init, Receivable(|book.receivables|, claim, open));
    forall t | t in after.db.runs ensures RunSound(after.db, t) {
      assert RunSound(a.db, t);
    }
    forall e | 0 <= e < |after.db.book.entries| ensures EntryTraced(after.db, e) {
      RaiseKeepsTrace(a, claim, open, e);
    }
    forall t | Evidence(after.db, t) ensures Paid(after.db, t) {
      assert Evidence(a.db, t) && Paid(a.db, t);
    }
  }

  lemma RaiseKeepsTrace(a: Account, claim: Claim, open: Projection, e: nat)
    requires e < |a.db.book.entries| && EntryTraced(a.db, e)
    ensures EntryTraced(Raise(a, claim, open).db, e)
  {
  }

  lemma ImportKeeps(a: Account, tx: Transaction)
    requires Sound(a)
    ensures Sound(Act(a, Import(tx)))
  {
    hide L.Inv;
    var after := Act(a, Import(tx)).db;
    forall t | t in after.runs ensures RunSound(after, t) {
      assert RunSound(a.db, t);
    }
    forall e | 0 <= e < |after.book.entries| ensures EntryTraced(after, e) {
      assert EntryTraced(a.db, e);
    }
    forall t | Evidence(after, t) ensures Paid(after, t) {
      assert Evidence(a.db, t) && Paid(a.db, t);
    }
  }

  lemma ProfileKeeps(a: Account, renter: nat, profile: Profile)
    requires Sound(a)
    ensures Sound(Act(a, SetProfile(renter, profile)))
  {
    hide L.Inv;
    var after := Act(a, SetProfile(renter, profile)).db;
    forall t | t in after.runs ensures RunSound(after, t) {
      assert RunSound(a.db, t);
    }
    forall e | 0 <= e < |after.book.entries| ensures EntryTraced(after, e) {
      assert EntryTraced(a.db, e);
    }
    forall t | Evidence(after, t) ensures Paid(after, t) {
      assert Evidence(a.db, t) && Paid(a.db, t);
    }
  }

  lemma ActKeeps(a: Account, action: Action)
    requires Sound(a)
    ensures Sound(Act(a, action))
  {
    hide Consistent, RunMatch, DecideMatch;
    match action
    case RaiseDebt(claim, open) =>
      if DebtAdmitted(a.db.book.receivables, claim, open) { RaiseKeeps(a, claim, open); }
    case SetProfile(renter, profile) => ProfileKeeps(a, renter, profile);
    case Import(tx) => ImportKeeps(a, tx);
    case Match(t) =>
      if RunMatch(a.db, t).Done? { RunMatchKeeps(a.db, a.init, t); }
    case Decide(t, outcome) =>
      if DecideMatch(a.db, t, outcome).Done? { DecideMatchKeeps(a.db, a.init, t, outcome); }
  }

  lemma {:induction false} PlayKeeps(a: Account, actions: seq<Action>)
    requires Sound(a)
    ensures Sound(Play(a, actions))
    decreases |actions|
  {
    hide Sound, Act;
    if actions != [] {
      ActKeeps(a, actions[0]);
      PlayKeeps(Act(a, actions[0]), actions[1..]);
    }
  }

  /** Whatever was done, in whatever order, the rows are consistent. */
  lemma ReachableIsSound(a: Account)
    requires Reachable(a)
    ensures Sound(a)
  {
    hide Act, Play;
    var actions :| a == Play(EMPTY, actions);
    EmptyIsSound();
    PlayKeeps(EMPTY, actions);
  }

  lemma EmptyIsSound()
    ensures Sound(EMPTY)
  {
  }
}
