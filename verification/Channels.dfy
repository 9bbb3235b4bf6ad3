/**
 * Which channel a new transaction ends in and how its candidates rank, from the stored rows alone and in
 * the figures of the matching contract.
 */
module Channels {
  import opened Order
  import opened Rows
  import opened Settlement
  import opened Scoring
  import opened Matching
  import opened MatchingInvariant
  import opened MatchingRuns
  import opened MatchingTheorems
  import opened MatchingEvidence

  // ---- Facts of one debt ---------------------------------------------------------------------------------------

  /** The text stands in the purpose, neither of them empty once separators are dropped. */
  ghost predicate Mentions(purpose: string, text: string)
  {
    Comparison(purpose) != "" && Comparison(text) != "" && StandsIn(Comparison(text), Comparison(purpose))
  }

  ghost predicate Holds(db: Db, renter: nat, iban: string)
  {
    iban != "" && (renter, iban) in db.ibans
  }

  ghost predicate HoldsAlone(db: Db, renter: nat, iban: string)
  {
    Holds(db, renter, iban) && forall other: nat | (other, iban) in db.ibans :: other == renter
  }

  /** Sixty for the payer's IBAN held alone, twenty for one held with others. */
  ghost function IbanWorth(db: Db, tx: Transaction, r: Receivable): int
  {
    if HoldsAlone(db, r.claim.renter, tx.iban) then 60
    else if Holds(db, r.claim.renter, tx.iban) then 20
    else 0
  }

  /** Thirty for the exact amount. */
  ghost function AmountWorth(tx: Transaction, r: Receivable): int
  {
    if tx.amount == r.open.open then 30 else 0
  }

  /** Fifteen for the renter's payment code in the purpose, otherwise ten for the surname. */
  ghost function NameWorth(db: Db, tx: Transaction, r: Receivable): int
    requires r.claim.renter in db.profiles
  {
    if Mentions(tx.purpose, db.profiles[r.claim.renter].paymentCode) then 15
    else if Mentions(tx.purpose, db.profiles[r.claim.renter].surname) then 10
    else 0
  }

  /** Five for the period. */
  ghost function PeriodWorth(tx: Transaction, r: Receivable): int
  {
    if Mentions(tx.purpose, r.claim.period) then 5 else 0
  }

  /** All facts together, a hundred at most. */
  ghost function Worth(db: Db, tx: Transaction, r: Receivable): int
    requires r.claim.renter in db.profiles
  {
    var sum := IbanWorth(db, tx, r) + AmountWorth(tx, r) + NameWorth(db, tx, r) + PeriodWorth(tx, r);
    if sum > 100 then 100 else sum
  }

  /** The proposal row of a debt. */
  ghost function ScoreOf(db: Db, tx: Transaction, r: Receivable): Score
    requires r.claim.renter in db.profiles
  {
    Score(r.id, r.claim.renter, r.claim.idOrder,
          Signals(IbanWorth(db, tx, r), AmountWorth(tx, r), TextSignals(NameWorth(db, tx, r), 0, PeriodWorth(tx, r))))
  }

  /** The amount first, then the name, then all facts together, then the id. */
  ghost predicate RanksBefore(db: Db, tx: Transaction, a: Receivable, b: Receivable)
    requires a.claim.renter in db.profiles && b.claim.renter in db.profiles
  {
    || AmountWorth(tx, a) > AmountWorth(tx, b)
    || (AmountWorth(tx, a) == AmountWorth(tx, b)
        && (NameWorth(db, tx, a) > NameWorth(db, tx, b)
            || (NameWorth(db, tx, a) == NameWorth(db, tx, b)
                && (Worth(db, tx, a) > Worth(db, tx, b)
                    || (Worth(db, tx, a) == Worth(db, tx, b) && a.claim.idOrder < b.claim.idOrder)))))
  }

  lemma WorthIsConfidence(db: Db, tx: Transaction, r: Receivable)
    requires r.claim.renter in db.profiles
    ensures ScoreOf(db, tx, r).Confidence() == Worth(db, tx, r)
  {
  }

  lemma RanksIffLess(db: Db, tx: Transaction, a: Receivable, b: Receivable)
    requires a.claim.renter in db.profiles && b.claim.renter in db.profiles
    ensures Less(RankingKey()(ScoreOf(db, tx, a)), RankingKey()(ScoreOf(db, tx, b))) <==> RanksBefore(db, tx, a, b)
  {
    hide Less, AmountWorth, NameWorth, Worth, IbanWorth, PeriodWorth;
    WorthIsConfidence(db, tx, a);
    WorthIsConfidence(db, tx, b);
    RankingLess(ScoreOf(db, tx, a), ScoreOf(db, tx, b));
  }

  // ---- The candidates are the unsettled debts ----------------------------------------------------------------------

  lemma NameSignalIs(db: Db, tx: Transaction, r: Receivable)
    requires r.claim.renter in db.profiles
    ensures CodeOrSurnameSignal(Comparison(tx.purpose), db.profiles[r.claim.renter]) == NameWorth(db, tx, r)
    ensures PeriodSignal(Comparison(tx.purpose), r.claim.period) == PeriodWorth(tx, r)
  {
    hide Comparison, Contains, StandsIn;
    var purpose, profile := Comparison(tx.purpose), db.profiles[r.claim.renter];
    ContainsIff(purpose, Comparison(profile.paymentCode));
    ContainsIff(purpose, Comparison(profile.surname));
    ContainsIff(purpose, Comparison(r.claim.period));
  }

  lemma OwnershipMeans(db: Db, renter: nat, iban: string)
    ensures OwnershipOf(db.ibans, iban, renter) == Ownership.Unique <==> HoldsAlone(db, renter, iban)
    ensures OwnershipOf(db.ibans, iban, renter) == Ownership.Unknown <==> !Holds(db, renter, iban)
  {
    var owners := Owners(db.ibans, iban);
    forall other: nat ensures other in owners <==> iban != "" && (other, iban) in db.ibans {
      if iban != "" && (other, iban) in db.ibans {
        assert (other, iban).1 == iban;
      }
    }
    if renter in owners {
      if |owners| == 1 {
        Singleton(owners, renter);
      }
      if forall other: nat | (other, iban) in db.ibans :: other == renter {
        assert owners == {renter};
      }
    }
  }

  lemma IbanSignalIs(db: Db, tx: Transaction, c: Candidate)
    requires c in CandidatesFor(db, tx)
    ensures IbanSignal(tx, c) == IbanWorth(db, tx, c.receivable)
  {
    hide OwnershipOf;
    CandidatesMembers(db.book.receivables, db.profiles, db.ibans, tx.iban);
    var renter := c.receivable.claim.renter;
    OwnershipMeans(db, renter, tx.iban);
    assert tx.iban in IbansOf(db.ibans, renter) <==> (renter, tx.iban) in db.ibans;
  }

  lemma ScoreIs(db: Db, tx: Transaction, c: Candidate)
    requires c in CandidatesFor(db, tx)
    ensures Considered(db, c.receivable) && ScoreCandidate(tx, c) == ScoreOf(db, tx, c.receivable)
  {
    hide IbanSignal, CodeOrSurnameSignal, PeriodSignal, IbanWorth, NameWorth, PeriodWorth, Comparison;
    CandidatesMembers(db.book.receivables, db.profiles, db.ibans, tx.iban);
    NameSignalIs(db, tx, c.receivable);
    IbanSignalIs(db, tx, c);
  }

  // ---- The run ---------------------------------------------------------------------------------------------------

  /** All debts that matching considers, best first. */
  ghost predicate RankingOf(db: Db, tx: Transaction, debts: seq<Receivable>)
  {
    && (forall r :: r in debts <==> Considered(db, r))
    && forall i, j | 0 <= i < j < |debts| ::
         Considered(db, debts[i]) && Considered(db, debts[j]) && RanksBefore(db, tx, debts[i], debts[j])
  }

  /** Somebody with a debt to consider holds the payer's IBAN alone. */
  ghost predicate HasOwner(db: Db, tx: Transaction)
  {
    exists r :: Considered(db, r) && HoldsAlone(db, r.claim.renter, tx.iban)
  }

  ghost function RankedDebts(db: Db, ranked: seq<Score>): seq<Receivable>
    requires forall s | s in ranked :: s.receivable < |db.book.receivables|
  {
    seq(|ranked|, i requires 0 <= i < |ranked| => assert ranked[i] in ranked; db.book.receivables[ranked[i].receivable])
  }

  lemma RankedScore(db: Db, tx: Transaction, s: Score)
    requires ClaimsSound(db.book.receivables)
    requires exists c :: c in CandidatesFor(db, tx) && s == ScoreCandidate(tx, c)
    ensures s.receivable < |db.book.receivables|
    ensures var r := db.book.receivables[s.receivable]; Considered(db, r) && s == ScoreOf(db, tx, r)
  {
    hide ScoreCandidate, DistinctOrder, ClaimChecks, ProjectionChecks, Candidates;
    var c :| c in CandidatesFor(db, tx) && s == ScoreCandidate(tx, c);
    ScoreIs(db, tx, c);
    var i :| 0 <= i < |db.book.receivables| && db.book.receivables[i] == c.receivable;
  }

  lemma RankedIs(db: Db, tx: Transaction)
    requires ClaimsSound(db.book.receivables)
    ensures var ranked := Sort(ScoreAll(tx, CandidatesFor(db, tx)), RankingKey());
            && (forall s | s in ranked :: s.receivable < |db.book.receivables|)
            && RankingOf(db, tx, RankedDebts(db, ranked))
            && forall i: nat | i < |ranked| ::
                 RankedDebts(db, ranked)[i].claim.renter in db.profiles
                 && ranked[i] == ScoreOf(db, tx, RankedDebts(db, ranked)[i])
  {
    hide ScoreCandidate, ScoreOf, RanksBefore, Less, Sort, Considered, ClaimsSound, Candidates;
    var candidates := CandidatesFor(db, tx);
    var ranked := Sort(ScoreAll(tx, candidates), RankingKey());
    RankedAreCandidates(tx, candidates);
    forall s | s in ranked
      ensures s.receivable < |db.book.receivables|
      ensures Considered(db, db.book.receivables[s.receivable])
      ensures db.book.receivables[s.receivable].claim.renter in db.profiles
      ensures s == ScoreOf(db, tx, db.book.receivables[s.receivable])
    {
      var i :| 0 <= i < |candidates| && s == ScoreCandidate(tx, candidates[i]);
      assert candidates[i] in candidates;
      RankedScore(db, tx, s);
      HasProfile(db, db.book.receivables[s.receivable]);
    }
    var debts := RankedDebts(db, ranked);
    forall i: nat | i < |ranked|
      ensures Considered(db, debts[i]) && debts[i].claim.renter in db.profiles && ranked[i] == ScoreOf(db, tx, debts[i])
    {
      assert ranked[i] in ranked;
    }
    forall r | Considered(db, r) ensures r in debts {
      ConsideredIsRanked(db, tx, r);
      var s :| s in ranked && s.receivable < |db.book.receivables| && db.book.receivables[s.receivable] == r;
      var i :| 0 <= i < |ranked| && ranked[i] == s;
      assert debts[i] == r;
    }
    RankedAscend(db, tx);
    forall i, j | 0 <= i < j < |debts| ensures RanksBefore(db, tx, debts[i], debts[j]) {
      RanksIffLess(db, tx, debts[i], debts[j]);
    }
  }

  lemma HasProfile(db: Db, r: Receivable)
    requires Considered(db, r)
    ensures r.claim.renter in db.profiles
  {
  }

  lemma RankedAscend(db: Db, tx: Transaction)
    requires ClaimsSound(db.book.receivables)
    ensures Ascending(Sort(ScoreAll(tx, CandidatesFor(db, tx)), RankingKey()), RankingKey())
  {
    CandidatesDistinct(db.book.receivables, db.profiles, db.ibans, tx.iban);
    ScoresHaveDistinctKeys(tx, CandidatesFor(db, tx));
    SortAscends(ScoreAll(tx, CandidatesFor(db, tx)), RankingKey());
  }

  lemma ConsideredIsRanked(db: Db, tx: Transaction, r: Receivable)
    requires ClaimsSound(db.book.receivables) && Considered(db, r)
    ensures exists s :: s in Sort(ScoreAll(tx, CandidatesFor(db, tx)), RankingKey())
                        && s.receivable < |db.book.receivables| && db.book.receivables[s.receivable] == r
  {
    hide ScoreCandidate, Sort, Candidates, ClaimChecks, ProjectionChecks, DistinctOrder;
    var candidates := CandidatesFor(db, tx);
    CandidatesMembers(db.book.receivables, db.profiles, db.ibans, tx.iban);
    var c :| c in candidates && c.receivable == r;
    var i :| 0 <= i < |candidates| && candidates[i] == c;
    RankedAreCandidates(tx, candidates);
    ScoreIs(db, tx, c);
    var j :| 0 <= j < |db.book.receivables| && db.book.receivables[j] == r;
    assert ScoreCandidate(tx, candidates[i]).receivable == j;
  }

  lemma OwnersMean(db: Db, renter: nat, iban: string)
    ensures Owners(db.ibans, iban) == {renter} <==> HoldsAlone(db, renter, iban)
  {
    var owners := Owners(db.ibans, iban);
    forall other: nat ensures other in owners <==> iban != "" && (other, iban) in db.ibans {
      if iban != "" && (other, iban) in db.ibans {
        assert (other, iban).1 == iban;
      }
    }
    if HoldsAlone(db, renter, iban) {
      assert owners == {renter};
    }
    if owners == {renter} {
      assert renter in owners;
    }
  }

  lemma OwnerIff(db: Db, tx: Transaction)
    ensures HasOwner(db, tx) <==> exists renter :: Owners(db.ibans, tx.iban) == {renter} && CanBeMatched(db, renter)
  {
    hide Owners, HoldsAlone;
    forall renter: nat ensures Owners(db.ibans, tx.iban) == {renter} <==> HoldsAlone(db, renter, tx.iban) {
      OwnersMean(db, renter, tx.iban);
    }
    if r :| Considered(db, r) && HoldsAlone(db, r.claim.renter, tx.iban) {
      assert CanBeMatched(db, r.claim.renter);
    }
    if renter :| Owners(db.ibans, tx.iban) == {renter} && CanBeMatched(db, renter) {
      var r :| r in db.book.receivables && r.open.status != Settled && r.claim.renter == renter;
      assert Considered(db, r);
    }
  }

  /** The first-ranked debt is worth a review: its facts add up to forty. */
  ghost predicate Reviewable(db: Db, tx: Transaction, debts: seq<Receivable>)
    requires RankingOf(db, tx, debts)
  {
    debts != [] && (assert debts[0] in debts; Worth(db, tx, debts[0]) >= 40)
  }

  /** The proposal rows are the ranked debts, or one row that names nobody. */
  ghost predicate Proposes(db: Db, tx: Transaction, debts: seq<Receivable>, rows: seq<Option<Score>>)
  {
    if debts == [] then rows == [None]
    else
      && |rows| == |debts|
      && forall i | 0 <= i < |debts| ::
           debts[i].claim.renter in db.profiles && rows[i] == Some(ScoreOf(db, tx, debts[i]))
  }

  /**
   * The run of a new transaction: it ranks every unsettled debt of a renter with a profile. It is
   * automatic exactly when the provider does not suspect a duplicate and somebody with such a debt
   * holds the IBAN alone; a review exactly when a duplicate is suspected, or nobody does and the facts
   * of the first-ranked debt are worth forty; and unmatched exactly in the rest.
   */
  lemma RunIs(db: Db, t: nat)
    requires ClaimsSound(db.book.receivables) && t < |db.transactions|
    ensures exists debts :: RunAlong(db, t, debts)
  {
    hide ScoreCandidate, ScoreOf, Sort, RankingOf, Candidates, HasOwner, Owners, CanBeMatched, ClaimsSound;
    var tx := db.transactions[t];
    RankedIs(db, tx);
    OwnerIff(db, tx);
    AutomaticIffSoleIbanOwner(db, t);
    var ranked := Sort(ScoreAll(tx, CandidatesFor(db, tx)), RankingKey());
    var debts := RankedDebts(db, ranked);
    RankedRowsAt(ranked);
    assert ProposeRun(db, t).rows == if ranked == [] then [None] else RankedRows(ranked);
    assert Proposes(db, tx, debts, ProposeRun(db, t).rows);
    ReviewIff(db, tx, ranked);
    assert RunAlong(db, t, debts);
  }

  ghost predicate RunAlong(db: Db, t: nat, debts: seq<Receivable>)
    requires t < |db.transactions|
  {
    var tx, run := db.transactions[t], ProposeRun(db, t);
    && RankingOf(db, tx, debts) && Proposes(db, tx, debts, run.rows)
    && (run.decision == AutoMatch <==> !tx.potentialDuplicate && HasOwner(db, tx))
    && (run.decision == NeedsReview <==>
          tx.potentialDuplicate || (!HasOwner(db, tx) && Reviewable(db, tx, debts)))
    && (run.decision == Unmatched <==>
          !tx.potentialDuplicate && !HasOwner(db, tx) && !Reviewable(db, tx, debts))
  }

  lemma ReviewIff(db: Db, tx: Transaction, ranked: seq<Score>)
    requires ClaimsSound(db.book.receivables) && ranked == Sort(ScoreAll(tx, CandidatesFor(db, tx)), RankingKey())
    requires forall s | s in ranked :: s.receivable < |db.book.receivables|
    requires RankingOf(db, tx, RankedDebts(db, ranked))
    requires forall i: nat | i < |ranked| ::
               RankedDebts(db, ranked)[i].claim.renter in db.profiles
               && ranked[i] == ScoreOf(db, tx, RankedDebts(db, ranked)[i])
    ensures var decision := Propose(tx, CandidatesFor(db, tx)).decision;
            var debts := RankedDebts(db, ranked);
            && (decision == NeedsReview
                <==> tx.potentialDuplicate || (decision != AutoMatch && Reviewable(db, tx, debts)))
            && (decision == Unmatched <==>
                  !tx.potentialDuplicate && decision != AutoMatch && !Reviewable(db, tx, debts))
  {
    hide ScoreCandidate, ScoreOf, Sort, RankingOf, Candidates, Worth;
    if ranked != [] {
      WorthIsConfidence(db, tx, RankedDebts(db, ranked)[0]);
      assert ranked[0] == ScoreOf(db, tx, RankedDebts(db, ranked)[0]);
    }
  }

  /**
   * What a successful match changes: a positive transaction seen for the first time gets the run above,
   * and only an automatic one moves the ledger; one of nothing, or with a run, changes nothing; and a
   * return moves the ledger alone.
   */
  lemma MatchChanges(db: Db, t: nat)
    requires ClaimsSound(db.book.receivables) && RunMatch(db, t).Done?
    ensures var after := RunMatch(db, t).db;
            && t < |db.transactions|
            && after == db.(book := after.book, runs := after.runs)
            && if db.transactions[t].amount > 0 && t !in db.runs
               then && after.runs == db.runs[t := ProposeRun(db, t)] && (exists debts :: RunAlong(db, t, debts))
                    && (ProposeRun(db, t).decision != AutoMatch ==> after.book == db.book)
               else && after.runs == db.runs
                    && (db.transactions[t].amount >= 0 ==> after.book == db.book)
  {
    hide ProposeRun, SettlePayment, ReversePayment, RunAlong, ClaimsSound;
    MatchFrame(db, t);
    RunIs(db, t);
    if db.transactions[t].amount < 0 {
      ReverseFrame(db, t);
    } else if db.transactions[t].amount > 0 && t !in db.runs && ProposeRun(db, t).decision == AutoMatch {
      ProposedNonempty(db, t);
      SettleFrame(db.(runs := db.runs[t := ProposeRun(db, t)]), t);
    }
  }
}
