/**
 * One run, so that the premises of the theorems about payments and returns are seen to be met, and
 * what the code does otherwise than promised is seen to happen.
 *
 * One debt is reviewed for two payments and both are confirmed: the first settles it, the second is
 * all credit. Then a debt with a negative component is raised, and a payment of the learned IBAN arrives;
 * or, before it, a debt of another renter over just the amount of that payment.
 */
module MatchingExample {
  import opened Order
  import opened Rows
  import opened PrincipalSplit
  import opened Settlement
  import opened Scoring
  import opened Matching
  import opened MatchingRuns
  import opened MatchingInvariant
  import opened MatchingTheorems
  import opened MatchingEvidence
  import opened EngineErrors
  import L = Ledger

  const RENT := Claim(0, 7, "b", "c", 0, 100, [100, 0, 0, 0], Rent)
  const ODD_RENT := Claim(1, 7, "b", "c", 0, 100, [200, -100, 0, 0], Rent)
  const OPEN := Projection(Tiers(0, 0, 100), 100, Open)
  const PAID := Projection(NO_CENTS, 0, Settled)
  const PAYER := Profile("a", "")

  const FIRST := Transaction(0, 0, "p", 100, 0, 0, "i", "a", Some("e"), None, false)
  const FIRST_BACK := Transaction(1, 0, "r", -100, 0, 0, "i", "a", Some("e"), None, false)
  const SECOND := Transaction(2, 0, "q", 100, 0, 0, "", "a", Some("f"), None, false)
  const SECOND_BACK := Transaction(3, 0, "s", -100, 0, 0, "", "a", Some("f"), None, false)
  const THIRD := Transaction(4, 0, "t", 50, 0, 0, "i", "", None, None, false)

  const DEBT := Receivable(0, RENT, OPEN)
  const ODD_DEBT := Receivable(1, ODD_RENT, OPEN)
  const SCORE := Score(0, 7, 0, Signals(0, 30, TextSignals(15, 0, 0)))
  const REVIEW := Run(NeedsReview, [Some(SCORE)])
  const PART := Allocation(0, Tiers(0, 0, 100), [100, 0, 0, 0], OPEN, PAID)

  const SETUP := Db(L.Book([DEBT], [], []), [FIRST, FIRST_BACK, SECOND, SECOND_BACK, THIRD], map[], map[],
                    map[7 := PAYER], {})
  const PROPOSED := SETUP.(runs := map[0 := REVIEW, 2 := REVIEW])
  const PAID_BOOK := L.Book([DEBT.(open := PAID)], [PaymentEntry(FIRST, 0)], [L.Row(0, PART)])
  const BOOKED := PROPOSED.(confirmations := map[0 := Confirmed], book := PAID_BOOK, ibans := {(7, "i")})
  const CREDITED := BOOKED.(confirmations := map[0 := Confirmed, 2 := Confirmed],
                            book := PAID_BOOK.(entries := [PaymentEntry(FIRST, 0), PaymentEntry(SECOND, 100)]))
  const BURDENED := CREDITED.(book := CREDITED.book.(receivables := [DEBT.(open := PAID), ODD_DEBT]))
  const FAIR_RENT := Claim(2, 8, "b", "c", 0, 50, [50, 0, 0, 0], Rent)
  const FAIR_OPEN := Projection(Tiers(0, 0, 50), 50, Open)
  const FAIR_DEBT := Receivable(2, FAIR_RENT, FAIR_OPEN)
  const FAIR_PART := Allocation(2, Tiers(0, 0, 50), [50, 0, 0, 0], FAIR_OPEN, PAID)
  const CROWDED := BURDENED.(book := BURDENED.book.(receivables := [DEBT.(open := PAID), ODD_DEBT, FAIR_DEBT]),
                             profiles := map[7 := PAYER, 8 := PAYER])

  // ---- Step by step ---------------------------------------------------------------------------------------

  lemma ReachNext(a: Account, action: Action)
    requires Reachable(a)
    ensures Reachable(Act(a, action))
  {
    hide Act, Play;
    var actions :| a == Play(EMPTY, actions);
    PlayOneMore(EMPTY, actions, action);
  }

  lemma {:induction false} PlayOneMore(a: Account, actions: seq<Action>, action: Action)
    ensures Play(a, actions + [action]) == Act(Play(a, actions), action)
    decreases |actions|
  {
    hide Act;
    if actions == [] {
      assert actions + [action] == [action];
      assert Play(Act(a, action), [action][1..]) == Act(a, action);
    } else {
      PlayOneMore(Act(a, actions[0]), actions[1..], action);
      assert (actions + [action])[1..] == actions[1..] + [action];
    }
  }

  lemma MatchNext(a: Account, t: nat, db: Db)
    requires Reachable(a) && RunMatch(a.db, t) == Done(db)
    ensures Reachable(a.(db := db))
  {
    hide RunMatch, Reachable;
    ReachNext(a, Match(t));
  }

  lemma DecideNext(a: Account, t: nat, db: Db)
    requires Reachable(a) && DecideMatch(a.db, t, Confirmed) == Done(db)
    ensures Reachable(a.(db := db))
  {
    hide DecideMatch, Reachable;
    ReachNext(a, Decide(t, Confirmed));
  }

  lemma ImportNext(a: Account, tx: Transaction)
    requires Reachable(a) && tx.id == |a.db.transactions|
    ensures Reachable(a.(db := a.db.(transactions := a.db.transactions + [tx])))
  {
    hide Reachable;
    ReachNext(a, Import(tx));
  }

  lemma Components(claim: Claim)
    requires claim == RENT || claim == ODD_RENT
    ensures Sum(claim.components) == claim.expected == 100
  {
    var xs := claim.components;
    assert xs[1..] == [xs[1], 0, 0] && [xs[1], 0, 0][1..] == [0, 0] && [0, 0][1..] == [0] && Sum([0]) == 0;
    assert Sum([0, 0]) == 0 && Sum([xs[1], 0, 0]) == xs[1];
  }

  /** Raise the debt, set the profile, import the movements. */
  lemma SetupReached()
    ensures Reachable(Account(SETUP, [OPEN]))
  {
    hide Reachable, Sum;
    Components(RENT);
    assert EMPTY == Play(EMPTY, []);
    assert Reachable(EMPTY) by { StartReached(); }
    ReachNext(EMPTY, RaiseDebt(RENT, OPEN));
    assert DebtAdmitted([], RENT, OPEN);
    var raised := Account(Db(L.Book([DEBT], [], []), [], map[], map[], map[], {}), [OPEN]);
    assert Act(EMPTY, RaiseDebt(RENT, OPEN)) == raised;
    ReachNext(raised, SetProfile(7, PAYER));
    ImportAll(raised.(db := raised.db.(profiles := map[7 := PAYER])));
  }

  lemma StartReached()
    ensures Reachable(EMPTY)
  {
    assert EMPTY == Play(EMPTY, []);
  }

  lemma ImportAll(a: Account)
    requires Reachable(a) && a == Account(SETUP.(transactions := []), [OPEN])
    ensures Reachable(Account(SETUP, [OPEN]))
  {
    hide Reachable;
    var ts := SETUP.transactions;
    Appended(ts, 0);
    Appended(ts, 1);
    Appended(ts, 2);
    Appended(ts, 3);
    Appended(ts, 4);
    ImportNext(a, FIRST);
    ImportNext(a.(db := SETUP.(transactions := ts[..1])), FIRST_BACK);
    ImportNext(a.(db := SETUP.(transactions := ts[..2])), SECOND);
    ImportNext(a.(db := SETUP.(transactions := ts[..3])), SECOND_BACK);
    ImportNext(a.(db := SETUP.(transactions := ts[..4])), THIRD);
    assert ts[..5] == ts;
  }

  lemma Appended(ts: seq<Transaction>, k: nat)
    requires k < |ts|
    ensures ts[..k] + [ts[k]] == ts[..k + 1] && |ts[..k]| == k
    ensures ts[..0] == []
  {
  }

  lemma Texts()
    ensures Comparison("a") == "a" && Comparison("") == "" && Comparison("b") == "b" && Comparison("c") == "c"
    ensures Contains("a", "a") && !Contains("a", "b") && !Contains("a", "c")
  {
    assert Comparison(""[..]) == "";
    assert "a"[1..] == "" && "b"[1..] == "" && "c"[1..] == "";
    assert !Contains("", "b") && !Contains("", "c");
  }

  /** Both payments carry the code of the debt's renter and its amount, and end in a review. */
  lemma ProposedByMatch(db: Db, t: nat)
    requires db.book == SETUP.book && db.transactions == SETUP.transactions && db.profiles == SETUP.profiles
             && db.ibans == {}
    requires (t == 0 || t == 2) && t !in db.runs
    ensures RunMatch(db, t) == Done(db.(runs := db.runs[t := REVIEW]))
  {
    hide Candidates, ScoreAll, Propose;
    var tx := db.transactions[t];
    var c := Candidate(DEBT, PAYER, IbansOf({}, 7), OwnershipOf({}, tx.iban, 7));
    OneCandidate(tx, c);
    ProposesReview(tx, c);
    assert [SCORE][1..] == [];
    assert RankedRows([SCORE]) == [Some(SCORE)] + RankedRows([]) == [Some(SCORE)];
    assert ProposeRun(db, t) == REVIEW;
  }

  lemma OneCandidate(tx: Transaction, c: Candidate)
    requires tx == FIRST || tx == SECOND
    requires c == Candidate(DEBT, PAYER, IbansOf({}, 7), OwnershipOf({}, tx.iban, 7))
    ensures Candidates([DEBT], SETUP.profiles, {}, tx.iban) == [c] && ScoreAll(tx, [c]) == [SCORE]
  {
    Texts();
    assert [DEBT][1..] == [] && [c][1..] == [];
    assert Candidates([DEBT], SETUP.profiles, {}, tx.iban) == [c] + Candidates([], SETUP.profiles, {}, tx.iban);
    assert ScoreCandidate(tx, c) == SCORE;
    assert ScoreAll(tx, [c]) == [SCORE] + ScoreAll(tx, []);
  }

  lemma ProposesReview(tx: Transaction, c: Candidate)
    requires ScoreAll(tx, [c]) == [SCORE] && !tx.potentialDuplicate
    ensures Propose(tx, [c]) == Proposal(NeedsReview, [SCORE])
  {
    hide ScoreAll;
    assert [SCORE][1..] == [];
    assert Sort([SCORE], RankingKey()) == Insert(SCORE, Sort([], RankingKey()), RankingKey()) == [SCORE];
    assert UniqueRenters([SCORE]) == {};
    assert SCORE.Confidence() == 45;
  }

  lemma OrderSingle(r: Receivable)
    ensures OrderedReceivables([r], 0, None) == [r]
  {
    assert [r][1..] == [];
    assert WithPeriod([r], None, true) == [] + WithPeriod([], None, true) == [];
    assert WithPeriod([r], None, false) == [r] + WithPeriod([], None, false) == [r];
    var key := FifoKey(0);
    assert Sort([r], key) == Insert(r, Sort([], key), key) == [r];
    assert OrderedReceivables([r], 0, None) == [] + [r] == [r];
  }

  lemma NothingDesignated()
    ensures OpenDebts([DEBT], 7) == [DEBT] && NamedPeriods("a", [DEBT]) == []
  {
    Texts();
    assert [DEBT][1..] == [];
    assert OpenDebts([DEBT], 7) == [DEBT] + OpenDebts([], 7) == [DEBT];
    assert NamedPeriods("a", []) == [];
  }

  lemma PartPersisted()
    ensures Persist([DEBT], [PART]) == [PART]
  {
    assert [PART][1..] == [];
    assert Persist([DEBT], [PART]) == [PART] + Persist([DEBT], []);
  }

  lemma SettlesRent()
    ensures SettleSpec(100, 0, [DEBT], None) == Settlement([PART], 0)
  {
    hide OrderedReceivables;
    OrderSingle(DEBT);
    Components(RENT);
    assert [DEBT][1..] == [];
    assert SplitPrincipal(Nominal(DEBT), 100, 100) == Split(RENT.components);
    assert Allocate(DEBT, 100) == Applied(PART);
    assert SettleFrom([], 0) == Settlement([], 0);
    assert SettleFrom([DEBT], 100) == Settlement([PART] + [], 0);
  }

  lemma PostedPart()
    ensures L.Post(SETUP.book, PaymentEntry(FIRST, 0), [PART]) == PAID_BOOK
    ensures L.OfEntry(PAID_BOOK.rows, 0) == [PART]
  {
    assert [PART][1..] == [] && [PART][..0] == [];
    assert L.Apply([DEBT], []) == [DEBT];
    assert L.Apply([DEBT], [PART]) == [DEBT.(open := PAID)];
    assert L.Stamp(0, [PART]) == [L.Row(0, PART)] + L.Stamp(0, []) == [L.Row(0, PART)];
    assert [L.Row(0, PART)][1..] == [];
    assert L.OfEntry([L.Row(0, PART)], 0) == [PART] + L.OfEntry([], 0) == [PART];
  }

  lemma BookedByDecision()
    ensures DecideMatch(PROPOSED, 0, Confirmed) == Done(BOOKED)
  {
    hide SettleSpec, NamedPeriods, OpenDebts, Persist, L.Post, Contains, Comparison;
    var decided := PROPOSED.(confirmations := map[0 := Confirmed]);
    Texts();
    NothingDesignated();
    SettlesRent();
    PartPersisted();
    PostedPart();
    var settled := decided.(book := PAID_BOOK);
    assert SettlePayment(decided, 0) == Done(settled);
    assert Learn(settled, 0) == BOOKED;
  }

  /** Nothing is owed any more, so the second payment is all credit. */
  lemma CreditedByDecision()
    ensures DecideMatch(BOOKED, 2, Confirmed) == Done(CREDITED)
  {
    hide Contains, Comparison;
    var decided, entry := BOOKED.(confirmations := map[0 := Confirmed, 2 := Confirmed]), PaymentEntry(FIRST, 0);
    assert [DEBT.(open := PAID)][1..] == [];
    assert OpenDebts(PAID_BOOK.receivables, 7) == [] + OpenDebts([], 7) == [];
    assert [entry][..0] == [];
    assert LedgerFor([entry], 2) == None;
    SettlesNothing();
    PostedNothing(PaymentEntry(SECOND, 100));
    assert SettlePayment(decided, 2) == Done(CREDITED);
  }

  lemma SettlesNothing()
    ensures SettleSpec(100, 0, [], None) == Settlement([], 100)
  {
    var key := FifoKey(0);
    assert Sort([], key) == [];
    assert OrderedReceivables([], 0, None) == [] + [] == [];
  }

  lemma PostedNothing(entry: L.Entry)
    ensures L.Post(PAID_BOOK, entry, []) == PAID_BOOK.(entries := PAID_BOOK.entries + [entry])
  {
    assert L.Stamp(1, []) == [];
    assert PAID_BOOK.rows + [] == PAID_BOOK.rows;
  }

  // ---- The payment comes back -------------------------------------------------------------------------------

  lemma ReturnResolves()
    ensures Resolve(BOOKED, FIRST_BACK) == Some(0) && ReversalFor(BOOKED.book.entries, 1).None?
  {
    var entry := PaymentEntry(FIRST, 0);
    assert [entry][..0] == [];
    assert Matches([], BOOKED.transactions, EndToEnd, FIRST_BACK) == [];
    assert Matches([entry], BOOKED.transactions, EndToEnd, FIRST_BACK) == [] + [0];
    assert ReversalFor([], 1) == None;
  }

  lemma ReturnedByMatch()
    ensures RunMatch(BOOKED, 1).Done?
    ensures |RunMatch(BOOKED, 1).db.book.entries| == 2
    ensures RunMatch(BOOKED, 1).db.book.entries[1] == ReversalEntry(FIRST_BACK, 0)
  {
    hide Resolve, L.OfEntry, L.Apply, L.Stamp, L.Mirrors, ReversalFor;
    PostedPart();
    ReturnResolves();
    assert [PART][1..] == [] && Assigned([]) == 0;
    assert Assigned([PART]) == 100;
    assert L.Unmoved(BOOKED.book, [PART]);
    assert !Reversed(BOOKED.book.entries, 0);
    assert EngineResolves(FIRST_BACK, FIRST);
    assert ReversePayment(BOOKED, 1).Done?;
  }

  lemma ProposedReached()
    ensures Reachable(Account(PROPOSED, [OPEN]))
  {
    hide Reachable, RunMatch;
    SetupReached();
    ProposedByMatch(SETUP, 0);
    var one := SETUP.(runs := map[0 := REVIEW]);
    MatchNext(Account(SETUP, [OPEN]), 0, one);
    ProposedByMatch(one, 2);
    assert one.runs[2 := REVIEW] == PROPOSED.runs;
    MatchNext(Account(one, [OPEN]), 2, PROPOSED);
  }

  /** There is a reachable account, a payment booked in it, and a return of that payment. */
  lemma SomePaymentIsReturned()
    ensures exists before, payment, action ::
      && Reachable(before) && AddsPayment(before, payment)
      && AddsReturnOf(Act(before, payment), action, |before.db.book.entries|)
      && |before.db.book.receivables| == 1
  {
    hide Reachable, RunMatch, DecideMatch;
    ProposedReached();
    BookedByDecision();
    ReturnedByMatch();
    var before := Account(PROPOSED, [OPEN]);
    assert Act(before, Decide(0, Confirmed)) == Account(BOOKED, [OPEN]);
    assert AddsPayment(before, Decide(0, Confirmed));
    assert AddsReturnOf(Act(before, Decide(0, Confirmed)), Match(1), 0);
  }

  // ---- What is not promised -----------------------------------------------------------------------------------

  lemma CreditResolves()
    ensures Resolve(CREDITED, SECOND_BACK) == Some(1) && ReversalFor(CREDITED.book.entries, 3).None?
    ensures L.OfEntry(CREDITED.book.rows, 1) == []
  {
    var first, entries := PaymentEntry(FIRST, 0), CREDITED.book.entries;
    assert entries[..1] == [first] && [first][..0] == [];
    assert Matches([], CREDITED.transactions, EndToEnd, SECOND_BACK) == [];
    assert Matches([first], CREDITED.transactions, EndToEnd, SECOND_BACK) == [] + [];
    assert Matches(entries, CREDITED.transactions, EndToEnd, SECOND_BACK) == [] + [1];
    assert ReversalFor([], 3) == None && ReversalFor([first], 3) == None;
    assert [L.Row(0, PART)][1..] == [];
    assert L.OfEntry([L.Row(0, PART)], 1) == [] + L.OfEntry([], 1) == [];
  }

  lemma CreditedReached()
    ensures Reachable(Account(CREDITED, [OPEN]))
  {
    hide Reachable, DecideMatch;
    ProposedReached();
    BookedByDecision();
    DecideNext(Account(PROPOSED, [OPEN]), 0, BOOKED);
    CreditedByDecision();
    DecideNext(Account(BOOKED, [OPEN]), 2, CREDITED);
  }

  /** The return names one live payment of its amount, all credit, and is a conflict all the same. */
  ghost predicate CreditStays(a: Account, t: nat, e: nat)
  {
    && t < |a.db.transactions| && e < |a.db.book.entries|
    && Resolve(a.db, a.db.transactions[t]) == Some(e) && !Reversed(a.db.book.entries, e)
    && a.db.book.entries[e].credit == a.db.book.entries[e].amount == -a.db.transactions[t].amount
    && RunMatch(a.db, t) == Conflict
  }

  /** In a reachable account, the return of a payment that became credit altogether is refused. */
  lemma CreditIsNotReturned()
    ensures exists a, t, e :: Reachable(a) && CreditStays(a, t, e)
  {
    hide Reachable, Resolve, L.OfEntry, ReversalFor;
    CreditedReached();
    CreditResolves();
    assert ReversePayment(CREDITED, 3) == Conflict;
    assert CreditStays(Account(CREDITED, [OPEN]), 3, 1);
  }

  lemma BurdenedReached()
    ensures Reachable(Account(BURDENED, [OPEN, OPEN]))
  {
    hide Reachable, Sum;
    CreditedReached();
    Components(ODD_RENT);
    assert DebtAdmitted(CREDITED.book.receivables, ODD_RENT, OPEN);
    ReachNext(Account(CREDITED, [OPEN]), RaiseDebt(ODD_RENT, OPEN));
    assert CREDITED.book.receivables + [ODD_DEBT] == BURDENED.book.receivables;
    assert [OPEN] + [OPEN] == [OPEN, OPEN];
  }

  /** The learned IBAN belongs to the one renter, so the channel is automatic. */
  lemma ThirdIsAutomatic()
    ensures ProposeRun(BURDENED, 4).decision == AutoMatch
    ensures |ProposeRun(BURDENED, 4).rows| == 1 && ProposeRun(BURDENED, 4).rows[0].Some?
         && ProposeRun(BURDENED, 4).rows[0].value.renter == 7
  {
    Texts();
    var ibans, rows := BURDENED.ibans, BURDENED.book.receivables;
    assert Owners(ibans, "i") == {7} && IbansOf(ibans, 7) == {"i"};
    assert OwnershipOf(ibans, "i", 7) == Ownership.Unique;
    var c := Candidate(ODD_DEBT, PAYER, {"i"}, Ownership.Unique);
    assert rows[1..] == [ODD_DEBT] && [ODD_DEBT][1..] == [] && [c][1..] == [];
    var profiles := BURDENED.profiles;
    assert Candidates([ODD_DEBT], profiles, ibans, "i") == [c] + Candidates([], profiles, ibans, "i") == [c];
    assert Candidates(rows, BURDENED.profiles, ibans, "i") == [] + [c] == [c];
    var score := ScoreCandidate(THIRD, c);
    assert ScoreAll(THIRD, [c]) == [score] + ScoreAll(THIRD, []) == [score];
    ProposesAutomatic(c, score);
  }

  lemma ProposesAutomatic(c: Candidate, score: Score)
    requires ScoreAll(THIRD, [c]) == [score] && score.signals.iban == WEIGHT_UNIQUE_IBAN
    ensures Propose(THIRD, [c]) == Proposal(AutoMatch, [score])
    ensures RankedRows([score]) == [Some(score)]
  {
    hide ScoreAll;
    assert [score][1..] == [];
    assert Sort([score], RankingKey()) == Insert(score, Sort([], RankingKey()), RankingKey()) == [score];
    assert UniqueRenters([score]) == {score.renter};
    assert RankedRows([score]) == [Some(score)] + RankedRows([]);
  }

  lemma OddDebtBreaks()
    ensures SettleSpec(50, 0, [ODD_DEBT], None) == Refusing(BadVector)
  {
    hide OrderedReceivables, Allocate, Sum;
    OrderSingle(ODD_DEBT);
    Components(ODD_RENT);
    assert Nominal(ODD_DEBT)[1] == -100;
    BadVectorIff(ODD_DEBT, 50);
  }

  lemma OddDebtIsOpen()
    ensures OpenDebts(BURDENED.book.receivables, 7) == [ODD_DEBT]
  {
    var rows := BURDENED.book.receivables;
    assert rows[1..] == [ODD_DEBT] && [ODD_DEBT][1..] == [];
    assert OpenDebts([ODD_DEBT], 7) == [ODD_DEBT] + OpenDebts([], 7) == [ODD_DEBT];
    assert OpenDebts(rows, 7) == [] + [ODD_DEBT] == [ODD_DEBT];
  }

  /** In a reachable account, matching an ordinary payment raises the uncaught error. */
  lemma OddDebtAbortsMatch()
    ensures exists a, t :: Reachable(a) && RunMatch(a.db, t) == EngineError
  {
    hide Reachable, ProposeRun, SettleSpec;
    BurdenedReached();
    ThirdIsAutomatic();
    OddDebtBreaks();
    OddDebtIsOpen();
    NotBookedYet();
    var proposed := BURDENED.(runs := BURDENED.runs[4 := ProposeRun(BURDENED, 4)]);
    assert SettlePayment(proposed, 4) == EngineError;
    assert RunMatch(BURDENED, 4) == EngineError;
    assert Account(BURDENED, [OPEN, OPEN]).db == BURDENED;
  }

  lemma CrowdedReached()
    ensures Reachable(Account(CROWDED, [OPEN, OPEN, FAIR_OPEN]))
  {
    hide Reachable, Sum;
    BurdenedReached();
    FairComponents();
    var a := Account(BURDENED, [OPEN, OPEN]);
    assert DebtAdmitted(BURDENED.book.receivables, FAIR_RENT, FAIR_OPEN);
    ReachNext(a, RaiseDebt(FAIR_RENT, FAIR_OPEN));
    assert BURDENED.book.receivables + [FAIR_DEBT] == CROWDED.book.receivables;
    assert [OPEN, OPEN] + [FAIR_OPEN] == [OPEN, OPEN, FAIR_OPEN];
    var b := Account(CROWDED.(profiles := BURDENED.profiles), [OPEN, OPEN, FAIR_OPEN]);
    assert Act(a, RaiseDebt(FAIR_RENT, FAIR_OPEN)) == b;
    ReachNext(b, SetProfile(8, PAYER));
    assert BURDENED.profiles[8 := PAYER] == CROWDED.profiles;
  }

  /** Renter 7 alone owns the IBAN, so the channel is automatic. */
  lemma StrangerAutomatic()
    ensures Owners(CROWDED.ibans, "i") == {7} && ProposeRun(CROWDED, 4).decision == AutoMatch
  {
    hide ProposeRun, CanBeMatched;
    assert Owners(CROWDED.ibans, "i") == {7};
    SevenCanBeMatched();
    AutomaticIffSoleIbanOwner(CROWDED, 4);
  }

  lemma SevenCanBeMatched()
    ensures CanBeMatched(CROWDED, 7)
  {
    assert CROWDED.book.receivables[1] == ODD_DEBT;
    assert ODD_DEBT in CROWDED.book.receivables;
  }

  /** Only the debt of renter 8 fits the amount. */
  lemma SevenIsBeaten(r: Receivable)
    requires Considered(CROWDED, r) && r.claim.renter == 7
    ensures !Unbeaten(CROWDED, THIRD, 7, r)
  {
    hide Naming;
    assert CROWDED.book.receivables[2] == FAIR_DEBT;
    assert Considered(CROWDED, FAIR_DEBT);
    assert r == ODD_DEBT;
    assert !NoWorse(CROWDED, THIRD, r, FAIR_DEBT);
  }

  lemma CrowdedClaims()
    ensures ClaimsSound(CROWDED.book.receivables)
  {
    hide Reachable, L.Inv;
    CrowdedReached();
    ReachableIsSound(Account(CROWDED, [OPEN, OPEN, FAIR_OPEN]));
  }

  lemma StrangerProposed()
    ensures Owners(CROWDED.ibans, "i") == {7} && ProposeRun(CROWDED, 4).decision == AutoMatch
    ensures ProposeRun(CROWDED, 4).rows != [] && ProposeRun(CROWDED, 4).rows[0].Some?
    ensures ProposeRun(CROWDED, 4).rows[0].value.renter == 8
  {
    hide ProposeRun, Owners, Considered, Unbeaten, ClaimsSound;
    StrangerAutomatic();
    CrowdedClaims();
    AutomaticPaysOwnerIff(CROWDED, 4, 7);
    forall r | Considered(CROWDED, r) && r.claim.renter == 7 ensures !Unbeaten(CROWDED, THIRD, 7, r) {
      SevenIsBeaten(r);
    }
    ProposedRunSound(CROWDED, 4);
  }

  lemma SettlesFair()
    ensures SettleSpec(50, 0, [FAIR_DEBT], None) == Settlement([FAIR_PART], 0)
  {
    hide OrderedReceivables, Sum;
    OrderSingle(FAIR_DEBT);
    FairComponents();
    assert [FAIR_DEBT][1..] == [];
    assert SplitPrincipal(Nominal(FAIR_DEBT), 50, 50) == Split(FAIR_RENT.components);
    assert Allocate(FAIR_DEBT, 50) == Applied(FAIR_PART);
    assert SettleFrom([], 0) == Settlement([], 0);
    assert SettleFrom([FAIR_DEBT], 50) == Settlement([FAIR_PART] + [], 0);
  }

  lemma FairComponents()
    ensures Sum(FAIR_RENT.components) == 50
  {
    var xs := FAIR_RENT.components;
    assert xs[1..] == [0, 0, 0] && [0, 0, 0][1..] == [0, 0] && [0, 0][1..] == [0] && Sum([0]) == 0;
    assert Sum([0, 0]) == 0 && Sum([0, 0, 0]) == 0;
  }

  /** The automatic match of `t` pays debt `r`, whose renter is not the owner of the IBAN. */
  ghost predicate PaysStranger(a: Account, t: nat, r: nat, owner: nat)
  {
    && t < |a.db.transactions| && r < |a.db.book.receivables|
    && Owners(a.db.ibans, a.db.transactions[t].iban) == {owner} && a.db.book.receivables[r].claim.renter != owner
    && RunMatch(a.db, t).Done? && t in RunMatch(a.db, t).db.runs && RunMatch(a.db, t).db.runs[t].decision == AutoMatch
    && r < |RunMatch(a.db, t).db.book.receivables| && RunMatch(a.db, t).db.book.receivables[r].open.status == Settled
    && a.db.book.receivables[r].open.status == Open
  }

  lemma PostedFair(entry: L.Entry)
    ensures Persist(CROWDED.book.receivables, [FAIR_PART]) == [FAIR_PART]
    ensures |L.Post(CROWDED.book, entry, [FAIR_PART]).receivables| == 3
    ensures L.Post(CROWDED.book, entry, [FAIR_PART]).receivables[2] == FAIR_DEBT.(open := PAID)
  {
    var rows := CROWDED.book.receivables;
    assert [FAIR_PART][1..] == [] && [FAIR_PART][..0] == [];
    assert Persist(rows, [FAIR_PART]) == [FAIR_PART] + Persist(rows, []);
    assert L.Apply(rows, []) == rows;
    assert L.Apply(rows, [FAIR_PART]) == rows[2 := FAIR_DEBT.(open := PAID)];
  }

  /** In a reachable account, an automatic match pays the debt of a renter who does not own the IBAN. */
  lemma AutomaticPaysStranger()
    ensures exists a, t, r, owner :: Reachable(a) && PaysStranger(a, t, r, owner)
  {
    hide Reachable, ProposeRun, SettleSpec, Persist, L.Post;
    CrowdedReached();
    StrangerProposed();
    SettlesFair();
    var proposed := CROWDED.(runs := CROWDED.runs[4 := ProposeRun(CROWDED, 4)]);
    FairIsOpen();
    NotBookedYet();
    PostedFair(PaymentEntry(THIRD, 0));
    assert OpenDebts(proposed.book.receivables, proposed.runs[4].rows[0].value.renter) == [FAIR_DEBT];
    assert Comparison(THIRD.purpose) == "" && NamedPeriods("", [FAIR_DEBT]) == [];
    var paid := SettlePayment(proposed, 4);
    var persisted := Persist(CROWDED.book.receivables, [FAIR_PART]);
    assert paid == Done(proposed.(book := L.Post(proposed.book, PaymentEntry(THIRD, 0), persisted)));
    assert PaysStranger(Account(CROWDED, [OPEN, OPEN, FAIR_OPEN]), 4, 2, 7);
  }

  lemma FairIsOpen()
    ensures OpenDebts(CROWDED.book.receivables, 8) == [FAIR_DEBT]
  {
    var rows := CROWDED.book.receivables;
    assert rows[1..] == [ODD_DEBT, FAIR_DEBT] && [ODD_DEBT, FAIR_DEBT][1..] == [FAIR_DEBT] && [FAIR_DEBT][1..] == [];
    assert OpenDebts([FAIR_DEBT], 8) == [FAIR_DEBT] + OpenDebts([], 8) == [FAIR_DEBT];
    assert OpenDebts([ODD_DEBT, FAIR_DEBT], 8) == [] + [FAIR_DEBT] == [FAIR_DEBT];
    assert OpenDebts(rows, 8) == [] + [FAIR_DEBT] == [FAIR_DEBT];
  }

  lemma NotBookedYet()
    ensures LedgerFor(CREDITED.book.entries, 4) == None
  {
    var entries := CREDITED.book.entries;
    assert entries[..1][..0] == [];
    assert LedgerFor([], 4) == None;
    assert LedgerFor(entries[..1], 4) == None;
  }
}
