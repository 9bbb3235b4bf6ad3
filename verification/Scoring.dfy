/** The matching engine's scores, their ranking, and the channel a bank transaction ends in. */
module Scoring {
  import opened Order
  import opened Rows

  const WEIGHT_UNIQUE_IBAN := 60
  const WEIGHT_AMBIGUOUS_IBAN := 20
  const WEIGHT_EXACT_AMOUNT := 30
  const WEIGHT_PAYMENT_CODE := 15
  const WEIGHT_SURNAME := 10
  const WEIGHT_PERIOD := 5
  const CONFIDENCE_CAP := 100
  const REVIEW_FLOOR := 40

  datatype Ownership = Unique | Shared | Unknown

  datatype Decision = AutoMatch | NeedsReview | Unmatched | Deduped

  datatype Profile = Profile(paymentCode: string, surname: string)

  datatype Candidate = Candidate(receivable: Receivable, profile: Profile, ibans: set<string>, ownership: Ownership)

  /** The evidence of one candidate, in ranking order; the end-to-end signal is always zero. */
  datatype Signals = Signals(iban: int, amount: int, text: TextSignals)

  datatype TextSignals = TextSignals(codeOrSurname: int, endToEnd: int, period: int)

  datatype Score = Score(receivable: nat, renter: nat, idOrder: int, signals: Signals)
  {
    function Confidence(): int
    {
      var text := signals.text;
      var sum := signals.iban + signals.amount + text.codeOrSurname + text.endToEnd + text.period;
      if sum > CONFIDENCE_CAP then CONFIDENCE_CAP else sum
    }
  }

  datatype Proposal = Proposal(decision: Decision, ranked: seq<Score>)

  // ---- Text -----------------------------------------------------------------------------------

  predicate AlphaNumeric(c: char)
  {
    '0' <= c <= '9' || 'a' <= c <= 'z' || c >= 128 as char
  }

  function Lower(c: char): char
  {
    if 'A' <= c <= 'Z' then c - 'A' + 'a' else c
  }

  /** Lower case without separators, so that codes can be looked up as substrings. */
  function Comparison(text: string): string
  {
    if text == "" then ""
    else (if AlphaNumeric(Lower(text[0])) then [Lower(text[0])] else "") + Comparison(text[1..])
  }

  predicate Contains(text: string, token: string)
  {
    token <= text || (text != "" && Contains(text[1..], token))
  }

  // ---- Scores ---------------------------------------------------------------------------------

  function IbanSignal(t: Transaction, c: Candidate): int
  {
    if t.iban == "" || t.iban !in c.ibans then 0
    else match c.ownership
      case Unique => WEIGHT_UNIQUE_IBAN
      case Shared => WEIGHT_AMBIGUOUS_IBAN
      case Unknown => 0
  }

  function CodeOrSurnameSignal(purpose: string, profile: Profile): int
  {
    var code, surname := Comparison(profile.paymentCode), Comparison(profile.surname);
    if purpose == "" then 0
    else if code != "" && Contains(purpose, code) then WEIGHT_PAYMENT_CODE
    else if surname != "" && Contains(purpose, surname) then WEIGHT_SURNAME
    else 0
  }

  function PeriodSignal(purpose: string, period: string): int
  {
    var token := Comparison(period);
    if token != "" && purpose != "" && Contains(purpose, token) then WEIGHT_PERIOD else 0
  }

  function ScoreCandidate(t: Transaction, c: Candidate): Score
  {
    var purpose := Comparison(t.purpose);
    var amount := if t.amount == c.receivable.open.open then WEIGHT_EXACT_AMOUNT else 0;
    var text := TextSignals(CodeOrSurnameSignal(purpose, c.profile), 0,
                            PeriodSignal(purpose, c.receivable.claim.period));
    Score(c.receivable.id, c.receivable.claim.renter, c.receivable.claim.idOrder,
          Signals(IbanSignal(t, c), amount, text))
  }

  function ScoreAll(t: Transaction, candidates: seq<Candidate>): seq<Score>
  {
    if candidates == [] then [] else [ScoreCandidate(t, candidates[0])] + ScoreAll(t, candidates[1..])
  }

  /** Amount first, then code or surname, then end-to-end, then confidence; the IBAN is not a rank of its own. */
  function RankingKey(): Score -> Key
  {
    (s: Score) => [-s.signals.amount, -s.signals.text.codeOrSurname, -s.signals.text.endToEnd, -s.Confidence(),
                   s.idOrder]
  }

  /** Renters holding the unique-IBAN signal. */
  function UniqueRenters(scores: seq<Score>): set<nat>
  {
    set s | s in scores && s.signals.iban == WEIGHT_UNIQUE_IBAN :: s.renter
  }

  function Propose(t: Transaction, candidates: seq<Candidate>): Proposal
  {
    var ranked := Sort(ScoreAll(t, candidates), RankingKey());
    if t.potentialDuplicate then Proposal(NeedsReview, ranked)
    else if |UniqueRenters(ranked)| == 1 then Proposal(AutoMatch, ranked)
    else if ranked == [] then Proposal(Unmatched, [])
    else if ranked[0].Confidence() >= REVIEW_FLOOR then Proposal(NeedsReview, ranked)
    else Proposal(Unmatched, ranked)
  }

  /** Dropping separators and case works character by character. */
  lemma {:induction false} ComparisonConcat(a: string, b: string)
    ensures Comparison(a + b) == Comparison(a) + Comparison(b)
  {
    if a == "" {
      assert a + b == b;
    } else {
      ComparisonConcat(a[1..], b);
      assert (a + b)[1..] == a[1..] + b;
    }
  }

  /** Digits, letters in lower case, and what lies beyond ASCII stay; capitals become small; the rest goes. */
  lemma ComparisonOfCharacter(c: char)
    ensures Comparison([c])
         == if '0' <= c <= '9' || 'a' <= c <= 'z' || c as int >= 128 then [c]
            else if 'A' <= c <= 'Z' then [(c as int + 32) as char]
            else ""
  {
    assert [c][1..] == "";
    assert Comparison("") == "";
  }

  // ---- What the channel means -------------------------------------------------------------------

  lemma {:induction false} ScoreAllMembers(t: Transaction, candidates: seq<Candidate>)
    ensures |ScoreAll(t, candidates)| == |candidates|
    ensures forall i | 0 <= i < |candidates| :: ScoreAll(t, candidates)[i] == ScoreCandidate(t, candidates[i])
  {
    if candidates != [] {
      ScoreAllMembers(t, candidates[1..]);
    }
  }

  /** Every ranked score comes from a candidate, and every candidate is ranked. */
  lemma RankedAreCandidates(t: Transaction, candidates: seq<Candidate>)
    ensures var ranked := Sort(ScoreAll(t, candidates), RankingKey());
            && |ranked| == |candidates|
            && (forall s | s in ranked :: exists i :: 0 <= i < |candidates| && s == ScoreCandidate(t, candidates[i]))
            && (forall i | 0 <= i < |candidates| :: ScoreCandidate(t, candidates[i]) in ranked)
  {
    var scores := ScoreAll(t, candidates);
    var ranked := Sort(scores, RankingKey());
    ScoreAllMembers(t, candidates);
    SortItems(scores, RankingKey());
    forall s | s in ranked ensures exists i :: 0 <= i < |candidates| && s == ScoreCandidate(t, candidates[i]) {
      assert s in scores;
    }
    forall i | 0 <= i < |candidates| ensures ScoreCandidate(t, candidates[i]) in ranked {
      assert scores[i] in scores;
    }
  }

  /** `renter` alone owns the transaction's IBAN among the candidates. */
  ghost predicate SoleOwner(t: Transaction, candidates: seq<Candidate>, renter: nat)
  {
    && (exists i :: 0 <= i < |candidates| && candidates[i].receivable.claim.renter == renter
                    && IbanSignal(t, candidates[i]) == WEIGHT_UNIQUE_IBAN)
    && (forall i | 0 <= i < |candidates| && IbanSignal(t, candidates[i]) == WEIGHT_UNIQUE_IBAN ::
          candidates[i].receivable.claim.renter == renter)
  }

  /** The automatic channel opens exactly for a sole IBAN owner, unless the provider suspects a duplicate. */
  lemma AutoMatchIffSoleOwner(t: Transaction, candidates: seq<Candidate>)
    ensures Propose(t, candidates).decision == AutoMatch
       <==> !t.potentialDuplicate && exists renter :: SoleOwner(t, candidates, renter)
  {
    var ranked := Sort(ScoreAll(t, candidates), RankingKey());
    RankedAreCandidates(t, candidates);
    var renters := UniqueRenters(ranked);
    if |renters| == 1 {
      var renter :| renter in renters;
      Singleton(renters, renter);
      assert SoleOwner(t, candidates, renter) by {
        forall i | 0 <= i < |candidates| && IbanSignal(t, candidates[i]) == WEIGHT_UNIQUE_IBAN
          ensures candidates[i].receivable.claim.renter == renter
        {
          assert ScoreCandidate(t, candidates[i]).renter in renters;
        }
      }
    }
    if renter :| SoleOwner(t, candidates, renter) {
      SoleOwnerAlone(t, candidates, renter);
    }
  }

  lemma SoleOwnerAlone(t: Transaction, candidates: seq<Candidate>, renter: nat)
    requires SoleOwner(t, candidates, renter)
    ensures UniqueRenters(Sort(ScoreAll(t, candidates), RankingKey())) == {renter}
  {
    var ranked := Sort(ScoreAll(t, candidates), RankingKey());
    RankedAreCandidates(t, candidates);
    var i :| 0 <= i < |candidates| && candidates[i].receivable.claim.renter == renter
             && IbanSignal(t, candidates[i]) == WEIGHT_UNIQUE_IBAN;
    assert ScoreCandidate(t, candidates[i]) in ranked;
    assert renter in UniqueRenters(ranked);
  }

  lemma Singleton(s: set<nat>, x: nat)
    requires |s| == 1 && x in s
    ensures s == {x}
  {
    assert |s - {x}| == 0;
    assert s == (s - {x}) + {x};
  }

  ghost predicate DistinctIdOrder(candidates: seq<Candidate>)
  {
    forall i, j | 0 <= i < j < |candidates| ::
      candidates[i].receivable.claim.idOrder != candidates[j].receivable.claim.idOrder
  }

  /** Ranks before every candidate of another renter. */
  ghost predicate Outranks(t: Transaction, candidates: seq<Candidate>, i: nat)
    requires i < |candidates|
  {
    var renter := candidates[i].receivable.claim.renter;
    forall j | 0 <= j < |candidates| && candidates[j].receivable.claim.renter != renter ::
      Less(RankingKey()(ScoreCandidate(t, candidates[i])), RankingKey()(ScoreCandidate(t, candidates[j])))
  }

  lemma ScoresHaveDistinctKeys(t: Transaction, candidates: seq<Candidate>)
    requires DistinctIdOrder(candidates)
    ensures DistinctKeys(ScoreAll(t, candidates), RankingKey())
  {
    var scores, key := ScoreAll(t, candidates), RankingKey();
    ScoreAllMembers(t, candidates);
    forall i, j | 0 <= i < j < |scores| ensures key(scores[i]) != key(scores[j]) {
      assert key(scores[i])[4] != key(scores[j])[4];
    }
  }

  /**
   * The booked candidate is the one ranked first, and the ranking looks at the amount before
   * anything else. So a payment is booked for `renter` exactly when one of their candidates
   * outranks every candidate of everybody else, whoever owns the IBAN.
   */
  lemma FirstRankIffOutranks(t: Transaction, candidates: seq<Candidate>, renter: nat)
    requires DistinctIdOrder(candidates) && candidates != []
    ensures Propose(t, candidates).ranked != []
    ensures Propose(t, candidates).ranked[0].renter == renter
       <==> exists i: nat ::
              i < |candidates| && candidates[i].receivable.claim.renter == renter && Outranks(t, candidates, i)
  {
    var key, ranked := RankingKey(), Sort(ScoreAll(t, candidates), RankingKey());
    hide ScoreCandidate, Sort, Outranks;
    RankedAreCandidates(t, candidates);
    ScoresHaveDistinctKeys(t, candidates);
    SortAscends(ScoreAll(t, candidates), key);
    var first := ranked[0];
    assert first in ranked;
    var f :| 0 <= f < |candidates| && first == ScoreCandidate(t, candidates[f]);
    FirstOutranks(t, candidates, ranked, f);
    ScoreRenter(t, candidates[f]);
    if i: nat :| i < |candidates| && candidates[i].receivable.claim.renter == renter && Outranks(t, candidates, i) {
      OutrankersAgree(t, candidates, f, i);
    }
  }

  lemma ScoreRenter(t: Transaction, c: Candidate)
    ensures ScoreCandidate(t, c).renter == c.receivable.claim.renter
  {
  }

  lemma OutrankersAgree(t: Transaction, candidates: seq<Candidate>, f: nat, i: nat)
    requires f < |candidates| && i < |candidates| && Outranks(t, candidates, f) && Outranks(t, candidates, i)
    ensures candidates[f].receivable.claim.renter == candidates[i].receivable.claim.renter
  {
    LessTotal(RankingKey()(ScoreCandidate(t, candidates[f])), RankingKey()(ScoreCandidate(t, candidates[i])));
  }

  lemma FirstOutranks(t: Transaction, candidates: seq<Candidate>, ranked: seq<Score>, f: nat)
    requires Ascending(ranked, RankingKey()) && ranked != [] && f < |candidates|
    requires ranked[0] == ScoreCandidate(t, candidates[f])
    requires forall i | 0 <= i < |candidates| :: ScoreCandidate(t, candidates[i]) in ranked
    ensures Outranks(t, candidates, f)
  {
    forall j | 0 <= j < |candidates| && candidates[j].receivable.claim.renter != candidates[f].receivable.claim.renter
      ensures Less(RankingKey()(ScoreCandidate(t, candidates[f])), RankingKey()(ScoreCandidate(t, candidates[j])))
    {
      var k :| 0 <= k < |ranked| && ranked[k] == ScoreCandidate(t, candidates[j]);
      assert ranked[k].renter != ranked[0].renter;
    }
  }

  /**
   * The design says the amount affects the allocation and not the identity. It does not hold:
   * here the sole owner of the IBAN is renter 1, the channel is automatic, and the payment goes
   * to renter 2, whose debt happens to equal the amount.
   */
  lemma AutoMatchCanBookAnotherRenter()
    ensures exists t, candidates ::
      && DistinctIdOrder(candidates)
      && SoleOwner(t, candidates, 1)
      && Propose(t, candidates).decision == AutoMatch
      && Propose(t, candidates).ranked != [] && Propose(t, candidates).ranked[0].renter == 2
  {
    var t := Transaction(0, 0, "", 500, 0, 0, "DE1", "", None, None, false);
    var owner := DemoCandidate(0, 1, 600, {"DE1"}, Ownership.Unique);
    var stranger := DemoCandidate(1, 2, 500, {}, Ownership.Unknown);
    var candidates := [owner, stranger];
    assert IbanSignal(t, candidates[0]) == WEIGHT_UNIQUE_IBAN && IbanSignal(t, candidates[1]) == 0;
    assert SoleOwner(t, candidates, 1);
    AutoMatchIffSoleOwner(t, candidates);
    var a, b := ScoreCandidate(t, owner), ScoreCandidate(t, stranger);
    assert RankingKey()(b)[0] == -30 && RankingKey()(a)[0] == 0;
    assert Less(RankingKey()(b), RankingKey()(a));
    assert Outranks(t, candidates, 1);
    FirstRankIffOutranks(t, candidates, 2);
  }

  ghost function DemoCandidate(id: nat, renter: nat, open: int, ibans: set<string>, ownership: Ownership): Candidate
  {
    Candidate(Receivable(id, Claim(id, renter, "", "", 0, open, [open, 0, 0, 0], Rent),
                         Projection(Tiers(0, 0, open), open, Open)),
              Profile("", ""), ibans, ownership)
  }
}
