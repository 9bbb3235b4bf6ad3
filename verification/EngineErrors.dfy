/**
 * When settling raises the engine's plain ValueError, which the service does not turn into a
 * conflict: the CHECK constraints of the receivable table admit debts that the split rejects.
 */
module EngineErrors {
  import opened Numbers
  import opened Rows
  import opened PrincipalSplit
  import opened Settlement
  import opened Matching
  import opened MatchingInvariant
  import opened MatchingRuns
  import opened MatchingTheorems
  import opened Bookings
  import opened Scoring
  import L = Ledger

  /** A debt whose principal the split accepts for any payment. */
  ghost predicate Splittable(r: Receivable)
  {
    && r.claim.expected > 0
    && (r.claim.category == Rent ==> forall i | 0 <= i < |r.claim.components| :: r.claim.components[i] >= 0)
  }

  /** There are two largest-remainder apportionments of the principal over the components of a rent. */
  ghost predicate Ambiguous(claim: Claim, paid: int)
    requires claim.expected > 0
  {
    && claim.category == Rent
    && exists a, b :: a != b && Apportioned(claim.components, claim.expected, paid, a)
                      && Apportioned(claim.components, claim.expected, paid, b)
  }

  lemma NominalSums(r: Receivable)
    requires ClaimChecks(r)
    ensures Sum(Nominal(r)) == r.claim.expected
  {
    SumSingle(r.claim.expected);
  }

  lemma NominalSplittable(r: Receivable)
    requires ClaimChecks(r)
    ensures Splittable(r) <==> r.claim.expected > 0 && forall i | 0 <= i < |Nominal(r)| :: Nominal(r)[i] >= 0
  {
    if r.claim.category == Rent {
      assert Nominal(r) == r.claim.components;
    } else {
      assert Nominal(r) == [r.claim.expected, 0, 0, 0];
    }
  }

  lemma VectorCases(nominal: seq<int>, paid: int, expected: int)
    ensures SplitPrincipal(nominal, paid, expected) == InvalidVector <==> !ValidVector(nominal, paid, expected)
  {
  }

  lemma AmbiguousIff(claim: Claim, paid: int)
    requires claim.category == Rent && ValidVector(claim.components, paid, claim.expected)
    ensures SplitPrincipal(claim.components, paid, claim.expected) == TieBreakUnspecified <==> Ambiguous(claim, paid)
  {
    hide SplitPrincipal, Apportioned, Apportions, Whole, Remainders;
    SplitIffUnambiguous(claim.components, paid, claim.expected);
    forall parts
      ensures Apportioned(claim.components, claim.expected, paid, parts)
         <==> Apportions(parts, Whole(claim.components, paid, claim.expected),
                         Remainders(claim.components, paid, claim.expected), paid)
    {
      ApportionedIs(claim.components, claim.expected, paid, parts);
    }
  }

  /** A single component takes the whole principal, so there is nothing to tie. */
  lemma SingleNeverTies(expected: int, paid: int)
    requires ValidVector([expected, 0, 0, 0], paid, expected)
    ensures SplitPrincipal([expected, 0, 0, 0], paid, expected).Split?
  {
    hide SplitPrincipal, Sum;
    SingleWhole(expected, paid);
    SumSingle(paid);
    TrivialPayments([expected, 0, 0, 0], paid, expected);
  }

  lemma SumSingle(e: int)
    ensures Sum([e, 0, 0, 0]) == e
  {
    assert [e, 0, 0, 0][1..] == [0, 0, 0] && [0, 0, 0][1..] == [0, 0] && [0, 0][1..] == [0];
    assert Sum([0]) == 0 && Sum([0, 0]) == 0 && Sum([0, 0, 0]) == 0;
  }

  lemma SingleWhole(expected: int, paid: int)
    requires expected > 0
    ensures Whole([expected, 0, 0, 0], paid, expected) == [paid, 0, 0, 0]
  {
    FullShare(paid, expected);
    assert expected * paid == paid * expected;
    ZeroShare(paid, expected);
  }

  lemma ZeroShare(paid: int, expected: int)
    requires expected > 0
    ensures 0 * paid / expected == 0
  {
  }

  /** What the split says about a principal of the debt. */
  lemma SplitOutcome(r: Receivable, paid: int)
    requires ClaimChecks(r) && 0 <= paid <= r.claim.expected
    ensures match SplitPrincipal(Nominal(r), paid, r.claim.expected)
      case Split(_) => Splittable(r) && !Ambiguous(r.claim, paid)
      case TieBreakUnspecified => Splittable(r) && Ambiguous(r.claim, paid)
      case InvalidVector => !Splittable(r)
  {
    hide SplitPrincipal, Ambiguous, Splittable;
    NominalSums(r);
    NominalSplittable(r);
    VectorCases(Nominal(r), paid, r.claim.expected);
    if ValidVector(Nominal(r), paid, r.claim.expected) {
      if r.claim.category == Rent {
        AmbiguousIff(r.claim, paid);
      } else {
        SingleNeverTies(r.claim.expected, paid);
        NotRent(r.claim, paid);
      }
    }
  }

  lemma NotRent(claim: Claim, paid: int)
    requires claim.category == Nachzahlung && claim.expected > 0
    ensures !Ambiguous(claim, paid)
  {
  }

  /** Why a debt stops a payment with `left` cents left, if so. */
  ghost predicate StopsFor(r: Receivable, left: int, refusal: Refusal)
  {
    && r.open.tiers.Total() > 0
    && match refusal
       case BadVector => !Splittable(r)
       case TieBreak => Splittable(r) && Ambiguous(r.claim, CoveredTiers(left, 0, r.open.tiers).principal)
  }

  lemma AllocateStops(r: Receivable, available: int, refusal: Refusal)
    requires ProjectionChecks(r.open) && ClaimChecks(r) && available > 0
    ensures Allocate(r, available) == Refused(refusal) <==> StopsFor(r, available, refusal)
  {
    hide SplitPrincipal, Splittable, Ambiguous;
    var paid := Share(r.open.tiers, available);
    assert paid == CoveredTiers(available, 0, r.open.tiers);
    assert 0 <= paid.principal <= r.claim.expected;
    assert paid.Total() == 0 <==> r.open.tiers.Total() == 0;
    SplitOutcome(r, paid.principal);
  }

  /** On a debt that passes its CHECKs, exactly the unsplittable ones with something open fail. */
  lemma BadVectorIff(r: Receivable, available: int)
    requires ProjectionChecks(r.open) && ClaimChecks(r) && available > 0
    ensures Allocate(r, available) == Refused(BadVector) <==> r.open.tiers.Total() > 0 && !Splittable(r)
  {
    hide Allocate, Splittable;
    AllocateStops(r, available, BadVector);
  }

  ghost predicate AllAdmitted(rows: seq<Receivable>)
  {
    forall i | 0 <= i < |rows| :: ProjectionChecks(rows[i].open) && ClaimChecks(rows[i])
  }

  /** Paid in full, the debt does not stop the payment: nothing is open, or what is open splits without a tie. */
  ghost predicate SplitsInFull(r: Receivable)
  {
    r.open.tiers.Total() == 0 || (Splittable(r) && !Ambiguous(r.claim, r.open.tiers.principal))
  }

  /** The payment pays every debt before `k` in full and gets as far as `k`, which stops it. */
  ghost predicate StopsAt(rows: seq<Receivable>, amount: int, k: nat, refusal: Refusal)
  {
    && k < |rows| && LineLength(rows[..k]) < amount && StopsFor(rows[k], amount - LineLength(rows[..k]), refusal)
    && forall j: nat | j < k :: SplitsInFull(rows[j])
  }

  /**
   * Settling is refused exactly when the payment reaches a debt that stops it: with the uncaught
   * error at an unsplittable one, with a conflict at one whose components tie.
   */
  lemma {:induction false} SettleRefusedIff(rows: seq<Receivable>, amount: int, refusal: Refusal)
    requires AllAdmitted(rows) && amount >= 0
    ensures SettleFrom(rows, amount) == Refusing(refusal) <==> exists k :: StopsAt(rows, amount, k, refusal)
  {
    hide Allocate, Splittable, SplitsInFull, ClaimChecks, ProjectionChecks, StopsAt, StopsFor;
    RestNonNegative(rows);
    if rows != [] && amount > 0 {
      var rest, left := rows[1..], amount - Min(amount, rows[0].open.tiers.Total());
      AdmittedHead(rows);
      AllocateStops(rows[0], amount, refusal);
      FirstRound(rows[0], amount);
      SettleRefusedIff(rest, left, refusal);
      RestNonNegative(rest);
      StopsFirst(rows, amount, refusal);
      forall k: nat | 0 < k < |rows|
        ensures StopsAt(rows, amount, k, refusal)
           <==> !Allocate(rows[0], amount).Refused? && StopsAt(rest, left, k - 1, refusal)
      {
        StopsLater(rows, amount, k, refusal);
      }
      FirstOrLater(rows, amount, rest, left, refusal);
    } else {
      NothingStops(rows, amount, refusal);
    }
  }

  lemma NothingStops(rows: seq<Receivable>, amount: int, refusal: Refusal)
    requires rows == [] || amount <= 0
    requires forall k: nat | k <= |rows| :: LineLength(rows[..k]) >= 0
    ensures forall k :: !StopsAt(rows, amount, k, refusal)
  {
  }

  lemma AdmittedHead(rows: seq<Receivable>)
    requires AllAdmitted(rows) && rows != []
    ensures ProjectionChecks(rows[0].open) && ClaimChecks(rows[0]) && AllAdmitted(rows[1..])
  {
  }

  lemma FirstOrLater(rows: seq<Receivable>, amount: int, rest: seq<Receivable>, left: int, refusal: Refusal)
    requires rows != [] && rest == rows[1..]
    requires forall k: nat | 0 < k < |rows| ::
               StopsAt(rows, amount, k, refusal)
               <==> !Allocate(rows[0], amount).Refused? && StopsAt(rest, left, k - 1, refusal)
    ensures (exists k :: StopsAt(rows, amount, k, refusal))
       <==> StopsAt(rows, amount, 0, refusal)
            || (!Allocate(rows[0], amount).Refused? && exists k :: StopsAt(rest, left, k, refusal))
  {
    hide Allocate, StopsFor, SplitsInFull;
    if !Allocate(rows[0], amount).Refused? {
      if k: nat :| StopsAt(rest, left, k, refusal) {
        assert StopsAt(rows, amount, k + 1, refusal);
      }
    }
    if k: nat :| StopsAt(rows, amount, k, refusal) && k > 0 {
      assert StopsAt(rest, left, k - 1, refusal);
    }
  }

  lemma AdmittedChecked(rows: seq<Receivable>)
    requires AllAdmitted(rows)
    ensures AllChecked(rows)
  {
  }

  lemma FirstRound(r: Receivable, amount: int)
    requires ProjectionChecks(r.open) && ClaimChecks(r) && amount > 0
    ensures !Allocate(r, amount).Refused? ==> Taken(Allocate(r, amount)) == Min(amount, r.open.tiers.Total())
    ensures Min(amount, r.open.tiers.Total()) >= 0
    ensures r.open.tiers.Total() < amount ==> (Allocate(r, amount).Refused? <==> !SplitsInFull(r))
  {
    hide Allocate, StopsFor, SplitsInFull, ClaimChecks;
    HeadTakes(r, amount);
    AllocateStops(r, amount, BadVector);
    AllocateStops(r, amount, TieBreak);
    if r.open.tiers.Total() < amount {
      StopsInFull(r, amount);
      var round := Allocate(r, amount);
      assert round.Refused? ==> round.refusal == BadVector || round.refusal == TieBreak;
      assert round.Refused? <==> round == Refused(BadVector) || round == Refused(TieBreak);
    }
  }

  /** Of a debt that the payment covers, only what is open matters. */
  lemma StopsInFull(r: Receivable, left: int)
    requires ProjectionChecks(r.open) && r.open.tiers.Total() < left
    ensures StopsFor(r, left, BadVector) || StopsFor(r, left, TieBreak) <==> !SplitsInFull(r)
  {
    hide Splittable, Ambiguous;
    assert CoveredTiers(left, 0, r.open.tiers) == r.open.tiers;
  }

  lemma RestNonNegative(rows: seq<Receivable>)
    requires AllAdmitted(rows)
    ensures forall k: nat | k <= |rows| :: LineLength(rows[..k]) >= 0
  {
    forall k: nat | k <= |rows| ensures LineLength(rows[..k]) >= 0 {
      AdmittedChecked(rows[..k]);
      LineNonNegative(rows[..k]);
    }
  }

  lemma StopsFirst(rows: seq<Receivable>, amount: int, refusal: Refusal)
    requires rows != [] && amount > 0
    ensures StopsAt(rows, amount, 0, refusal) <==> StopsFor(rows[0], amount, refusal)
  {
    hide StopsFor, SplitsInFull;
    assert rows[..0] == [];
  }

  /** A later stop is a stop at the remaining debts with the remaining cents. */
  lemma StopsLater(rows: seq<Receivable>, amount: int, k: nat, refusal: Refusal)
    requires rows != [] && amount > 0 && 0 < k < |rows| && rows[0].open.tiers.Total() >= 0
    requires rows[0].open.tiers.Total() < amount ==> (Allocate(rows[0], amount).Refused? <==> !SplitsInFull(rows[0]))
    requires forall j: nat | j <= |rows[1..]| :: LineLength(rows[1..][..j]) >= 0
    ensures var left := amount - Min(amount, rows[0].open.tiers.Total());
            StopsAt(rows, amount, k, refusal)
            <==> !Allocate(rows[0], amount).Refused? && StopsAt(rows[1..], left, k - 1, refusal)
  {
    hide Allocate, StopsFor, SplitsInFull, LineLength;
    var rest, left := rows[1..], amount - Min(amount, rows[0].open.tiers.Total());
    PrefixLine(rows, k - 1);
    if rows[0].open.tiers.Total() < amount {
      assert left == amount - rows[0].open.tiers.Total();
      if StopsAt(rows, amount, k, refusal) {
        forall j: nat | j < k - 1 ensures SplitsInFull(rest[j]) {
          assert SplitsInFull(rows[j + 1]);
        }
      }
      if SplitsInFull(rows[0]) && StopsAt(rest, left, k - 1, refusal) {
        forall j: nat | j < k ensures SplitsInFull(rows[j]) {
          assert j > 0 ==> rows[j] == rest[j - 1];
        }
      }
    }
  }

  // ---- At the level of the service ----------------------------------------------------------------

  /** Settling with the renter's debts designates one period at most and reaches a debt that stops it. */
  ghost predicate BreaksFor(receivables: seq<Receivable>, tx: Transaction, renter: nat, refusal: Refusal)
  {
    && !TwoPeriods(receivables, tx, renter)
    && exists k :: StopsAt(Line(receivables, tx, renter), tx.amount, k, refusal)
  }

  lemma ReachedAdmitted(receivables: seq<Receivable>, tx: Transaction, renter: nat)
    requires ClaimsSound(receivables)
    ensures AllAdmitted(Line(receivables, tx, renter))
    ensures forall r | r in Line(receivables, tx, renter) :: r in receivables
  {
    hide NamedPeriods, OrderedReceivables, ClaimChecks, ProjectionChecks, DistinctOrder;
    var debts := OpenDebts(receivables, renter);
    var named := NamedPeriods(Comparison(tx.purpose), debts);
    var designated := if named == [] then None else Some(named[0]);
    OrderedIsSound(receivables, renter, tx.bookingDate, designated);
    OpenDebtsMembers(receivables, renter);
    var reached := Line(receivables, tx, renter);
    forall i | 0 <= i < |reached| ensures ProjectionChecks(reached[i].open) && ClaimChecks(reached[i]) {
      assert reached[i] in reached;
      var j :| 0 <= j < |receivables| && receivables[j] == reached[i];
    }
  }

  /**
   * Booking a positive transaction for the first time fails with the uncaught error exactly when the
   * payment reaches an unsplittable debt of the renter; it is a conflict exactly when no renter is
   * named, the purpose names two periods, or the payment reaches a debt whose components tie.
   */
  lemma SettleErrorIff(db: Db, t: nat)
    requires ClaimsSound(db.book.receivables) && t < |db.transactions| && db.transactions[t].amount > 0
    requires t in db.runs && db.runs[t].rows != []
    ensures SettlePayment(db, t) == EngineError <==>
      && LedgerFor(db.book.entries, t).None? && db.runs[t].rows[0].Some?
      && BreaksFor(db.book.receivables, db.transactions[t], db.runs[t].rows[0].value.renter, BadVector)
    ensures SettlePayment(db, t) == Conflict <==>
      && LedgerFor(db.book.entries, t).None?
      && (db.runs[t].rows[0].None?
          || Unbookable(db.book.receivables, db.transactions[t], db.runs[t].rows[0].value.renter))
    ensures SettlePayment(db, t) != NotFound
  {
    hide NamedPeriods, OrderedReceivables, ClaimsSound, SettleFrom, StopsAt, TwoPeriods;
    if db.runs[t].rows[0].Some? {
      var tx, renter := db.transactions[t], db.runs[t].rows[0].value.renter;
      ReachedAdmitted(db.book.receivables, tx, renter);
      TwoPeriodsIff(db.book.receivables, tx, renter);
      SettleRefusedIff(Line(db.book.receivables, tx, renter), tx.amount, BadVector);
      SettleRefusedIff(Line(db.book.receivables, tx, renter), tx.amount, TieBreak);
    }
  }

  /** The purpose names two periods, or the payment reaches a debt whose components tie. */
  ghost predicate Unbookable(receivables: seq<Receivable>, tx: Transaction, renter: nat)
  {
    TwoPeriods(receivables, tx, renter) || BreaksFor(receivables, tx, renter, TieBreak)
  }

  /** The renter whom the automatic channel would book for a transaction seen for the first time, if it opens. */
  ghost predicate Opens(db: Db, t: nat, renter: nat)
  {
    && t < |db.transactions| && db.transactions[t].amount > 0 && t !in db.runs
    && ProposeRun(db, t).decision == AutoMatch && ProposeRun(db, t).rows != []
    && ProposeRun(db, t).rows[0].Some? && ProposeRun(db, t).rows[0].value.renter == renter
  }

  /** A positive transaction is matched with the uncaught error, or a conflict, exactly so. */
  lemma MatchErrorIff(db: Db, init: seq<Projection>, t: nat)
    requires Consistent(db, init)
    ensures RunMatch(db, t) == EngineError <==>
      exists renter :: Opens(db, t, renter) && BreaksFor(db.book.receivables, db.transactions[t], renter, BadVector)
    ensures t < |db.transactions| && db.transactions[t].amount >= 0 ==>
      (RunMatch(db, t) == Conflict <==>
        exists renter :: Opens(db, t, renter) && Unbookable(db.book.receivables, db.transactions[t], renter))
    ensures RunMatch(db, t) == NotFound <==> t >= |db.transactions|
  {
    hide SettlePayment, ReversePayment, L.Inv, ClaimsSound, ProposeRun, BreaksFor, Unbookable;
    if t < |db.transactions| {
      if db.transactions[t].amount < 0 {
        ReturnNeverFails(db, t);
      } else if db.transactions[t].amount == 0 || t in db.runs {
        assert RunMatch(db, t) == Done(db);
      } else {
        var proposed := db.(runs := db.runs[t := ProposeRun(db, t)]);
        ProposedNonempty(db, t);
        NoRunNoEntry(db, t);
        SettleErrorIff(proposed, t);
        assert proposed.book == db.book;
        if ProposeRun(db, t).decision == AutoMatch {
          AutomaticNamesRenter(db, t);
          var renter := ProposeRun(db, t).rows[0].value.renter;
          assert Opens(db, t, renter);
        }
      }
    }
  }

  /** An automatic run ranks somebody. */
  lemma AutomaticNamesRenter(db: Db, t: nat)
    requires t < |db.transactions| && ProposeRun(db, t).decision == AutoMatch
    ensures ProposeRun(db, t).rows != [] && ProposeRun(db, t).rows[0].Some?
  {
    var tx := db.transactions[t];
    var proposal := Propose(tx, CandidatesFor(db, tx));
    AutomaticRanks(tx, CandidatesFor(db, tx));
    RankedRowsAt(proposal.ranked);
  }

  lemma AutomaticRanks(tx: Transaction, candidates: seq<Candidate>)
    ensures Propose(tx, candidates).decision == AutoMatch ==> Propose(tx, candidates).ranked != []
  {
    assert UniqueRenters([]) == {};
  }

  /** Without a run there is no evidence, and so no entry. */
  lemma NoRunNoEntry(db: Db, t: nat)
    requires EntriesTraced(db) && t !in db.runs
    ensures LedgerFor(db.book.entries, t).None?
  {
    LedgerForFinds(db.book.entries, t);
    forall e | 0 <= e < |db.book.entries| ensures db.book.entries[e].proposal != Some(L.Cite(t, 1)) {
      assert EntryTraced(db, e);
    }
  }

  /** The review of `t` is confirmed for the first time. */
  ghost predicate FirstConfirmed(db: Db, t: nat, outcome: Outcome)
  {
    && t < |db.transactions| && t in db.runs && db.runs[t].rows != []
    && db.runs[t].decision == NeedsReview && t !in db.confirmations && outcome == Confirmed
  }

  /** And so is a decision; where no review awaits this one, it is a conflict as well. */
  lemma DecideErrorIff(db: Db, init: seq<Projection>, t: nat, outcome: Outcome)
    requires Consistent(db, init)
    ensures DecideMatch(db, t, outcome) == EngineError <==>
      && FirstConfirmed(db, t, outcome) && db.runs[t].rows[0].Some?
      && BreaksFor(db.book.receivables, db.transactions[t], db.runs[t].rows[0].value.renter, BadVector)
    ensures DecideMatch(db, t, outcome) == Conflict <==>
      && t in db.runs
      && (db.runs[t].decision != NeedsReview
          || (t in db.confirmations && db.confirmations[t] != outcome)
          || (FirstConfirmed(db, t, outcome)
              && (db.runs[t].rows[0].None?
                  || Unbookable(db.book.receivables, db.transactions[t], db.runs[t].rows[0].value.renter))))
    ensures DecideMatch(db, t, outcome) == NotFound <==> t !in db.runs
  {
    hide SettlePayment, L.Inv, ClaimsSound, BreaksFor, Unbookable, EntriesTraced, EvidencePaid;
    if t in db.runs {
      assert RunSound(db, t);
      if t !in db.confirmations {
        var decided := db.(confirmations := db.confirmations[t := outcome]);
        UnconfirmedNoEntry(db, t);
        SettleErrorIff(decided, t);
        assert decided.book == db.book;
      }
    }
  }

  lemma UnconfirmedNoEntry(db: Db, t: nat)
    requires EntriesTraced(db) && t !in db.confirmations && t in db.runs
    ensures db.runs[t].decision == NeedsReview ==> LedgerFor(db.book.entries, t).None?
  {
    LedgerForFinds(db.book.entries, t);
    forall e | 0 <= e < |db.book.entries| && db.book.entries[e].proposal == Some(L.Cite(t, 1))
      ensures db.runs[t].decision == AutoMatch
    {
      assert EntryTraced(db, e);
    }
  }

  // ---- Splittable debts -----------------------------------------------------------------------------

  ghost predicate AllSplittable(receivables: seq<Receivable>)
  {
    forall r | r in receivables :: Splittable(r)
  }

  lemma SplittableHolds(receivables: seq<Receivable>, tx: Transaction, renter: nat)
    requires ClaimsSound(receivables) && AllSplittable(receivables)
    ensures !BreaksFor(receivables, tx, renter, BadVector)
  {
    hide Splittable, ClaimsSound;
    ReachedAdmitted(receivables, tx, renter);
    var reached := Line(receivables, tx, renter);
    forall k: nat ensures !StopsAt(reached, tx.amount, k, BadVector) {
      assert k < |reached| ==> reached[k] in reached;
    }
  }

  /** With splittable debts only, no request ever fails with the uncaught error. */
  lemma SplittableNeverFails(a: Account, t: nat, outcome: Outcome)
    requires Reachable(a) && AllSplittable(a.db.book.receivables)
    ensures RunMatch(a.db, t) != EngineError && DecideMatch(a.db, t, outcome) != EngineError
  {
    hide Reachable, RunMatch, DecideMatch, AllSplittable;
    ReachableIsSound(a);
    SplittableNoError(a.db, a.init, t, outcome);
  }

  lemma SplittableNoError(db: Db, init: seq<Projection>, t: nat, outcome: Outcome)
    requires Consistent(db, init) && AllSplittable(db.book.receivables)
    ensures RunMatch(db, t) != EngineError && DecideMatch(db, t, outcome) != EngineError
  {
    hide RunMatch, DecideMatch, BreaksFor, AllSplittable, ProposeRun, L.Inv, ClaimsSound;
    MatchErrorIff(db, init, t);
    DecideErrorIff(db, init, t, outcome);
    if t < |db.transactions| {
      forall renter ensures !BreaksFor(db.book.receivables, db.transactions[t], renter, BadVector) {
        SplittableHolds(db.book.receivables, db.transactions[t], renter);
      }
    }
  }

  /** Matching leaves every claim as it is, and so the debts splittable. */
  lemma SplittableStays(db: Db, init: seq<Projection>, t: nat)
    requires Consistent(db, init) && AllSplittable(db.book.receivables) && RunMatch(db, t).Done?
    ensures Consistent(RunMatch(db, t).db, init) && AllSplittable(RunMatch(db, t).db.book.receivables)
  {
    hide RunMatch, Consistent;
    RunMatchKeeps(db, init, t);
    ActLater(Account(db, init), Match(t));
    assert Act(Account(db, init), Match(t)).db == RunMatch(db, t).db;
    var before, after := db.book.receivables, RunMatch(db, t).db.book.receivables;
    assert |before| == |after| by {
      ReceivablesCount(db, init);
      ReceivablesCount(RunMatch(db, t).db, init);
    }
    forall r | r in after ensures Splittable(r) {
      var i :| 0 <= i < |after| && after[i] == r;
      assert before[i] in before && before[i].claim == r.claim;
      SameClaim(before[i], r);
    }
  }

  lemma SameClaim(r: Receivable, s: Receivable)
    requires r.claim == s.claim
    ensures Splittable(r) <==> Splittable(s)
  {
    assert Nominal(r) == Nominal(s);
  }

  lemma ReceivablesCount(db: Db, init: seq<Projection>)
    requires Consistent(db, init)
    ensures |db.book.receivables| == |init|
  {
  }

  lemma ReturnNeverFails(db: Db, t: nat)
    requires t < |db.transactions|
    ensures ReversePayment(db, t) != EngineError && ReversePayment(db, t) != NotFound
  {
  }

  /** The table admits an unsplittable debt: the components add up, but one of them is negative. */
  lemma AdmittedUnsplittable()
    ensures exists claim: Claim, open: Projection ::
        DebtAdmitted([], claim, open) && !Splittable(Receivable(0, claim, open))
              && SettleFrom([Receivable(0, claim, open)], 1) == Refusing(BadVector)
  {
    var claim := Claim(0, 0, "", "", 0, 100, [200, -100, 0, 0], Rent);
    var open := Projection(Tiers(0, 0, 100), 100, Open);
    var r := Receivable(0, claim, open);
    assert claim.components[1..] == [-100, 0, 0] && [-100, 0, 0][1..] == [0, 0] && [0, 0][1..] == [0] && Sum([0]) == 0;
    assert DebtAdmitted([], claim, open);
    assert claim.components[1] == -100;
    StopsFirst([r], 1, BadVector);
    assert StopsAt([r], 1, 0, BadVector);
    SettleRefusedIff([r], 1, BadVector);
  }
}
