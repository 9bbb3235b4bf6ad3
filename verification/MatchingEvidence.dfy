/** What the evidence behind a booking means: who is resolved, which period is named, why an IBAN is trusted. */
module MatchingEvidence {
  import opened Order
  import opened Rows
  import opened Settlement
  import opened Scoring
  import opened Matching
  import opened MatchingInvariant
  import opened MatchingRuns
  import opened MatchingTheorems
  import L = Ledger

  // ---- The original of a return ---------------------------------------------------------------------

  /** The payment resembles the return in this respect. */
  ghost predicate Similar(db: Db, channel: Channel, returned: Transaction, p: nat)
  {
    && p < |db.book.entries| && db.book.entries[p].kind == L.Payment
    && db.book.entries[p].transaction < |db.transactions|
    && var original := db.transactions[db.book.entries[p].transaction];
       match channel
       case EndToEnd => returned.endToEnd.Some? && original.endToEnd == returned.endToEnd
       case Mandate => returned.mandate.Some? && original.mandate == returned.mandate
       case IbanAmountDate =>
         && returned.iban != "" && original.iban == returned.iban && original.amount == -returned.amount
         && original.bookingDate == returned.bookingDate && original.valueDate == returned.valueDate
  }

  ghost predicate Sole(db: Db, channel: Channel, returned: Transaction, p: nat)
  {
    Similar(db, channel, returned, p) && forall q: nat | Similar(db, channel, returned, q) :: q == p
  }

  ghost predicate Nobody(db: Db, channel: Channel, returned: Transaction)
  {
    forall q: nat :: !Similar(db, channel, returned, q)
  }

  ghost predicate AscendingPositions(xs: seq<nat>)
  {
    forall i, j | 0 <= i < j < |xs| :: xs[i] < xs[j]
  }

  lemma {:induction false} MatchesAscend(entries: seq<L.Entry>, transactions: seq<Transaction>, channel: Channel,
                                         returned: Transaction)
    ensures AscendingPositions(Matches(entries, transactions, channel, returned))
    ensures forall p | p in Matches(entries, transactions, channel, returned) :: p < |entries|
    ensures forall p: nat | p < |entries| && entries[p].kind == L.Payment && entries[p].transaction < |transactions|
              && Resembles(channel, returned, transactions[entries[p].transaction]) ::
              p in Matches(entries, transactions, channel, returned)
  {
    hide Resembles;
    if entries != [] {
      var n := |entries| - 1;
      MatchesAscend(entries[..n], transactions, channel, returned);
      var before := Matches(entries[..n], transactions, channel, returned);
      forall i | 0 <= i < |before| ensures before[i] < n {
        assert before[i] in before;
      }
    }
  }

  lemma FoundAreSimilar(db: Db, channel: Channel, returned: Transaction)
    ensures var found := Matches(db.book.entries, db.transactions, channel, returned);
            && AscendingPositions(found)
            && forall p: nat :: p in found <==> Similar(db, channel, returned, p)
  {
    hide Matches;
    MatchesFind(db.book.entries, db.transactions, channel, returned);
    MatchesAscend(db.book.entries, db.transactions, channel, returned);
  }

  lemma ChannelMatches(db: Db, channel: Channel, returned: Transaction)
    ensures var found := Matches(db.book.entries, db.transactions, channel, returned);
            && (found == [] <==> Nobody(db, channel, returned))
            && (|found| == 1 ==> Sole(db, channel, returned, found[0]))
            && (|found| > 1 ==>
                  && Similar(db, channel, returned, found[0]) && Similar(db, channel, returned, found[1])
                  && found[0] != found[1])
  {
    hide Similar, Matches;
    var found := Matches(db.book.entries, db.transactions, channel, returned);
    FoundAreSimilar(db, channel, returned);
    if found == [] {
      forall q: nat ensures !Similar(db, channel, returned, q) {
        assert q !in found;
      }
    } else {
      assert found[0] in found;
      if |found| == 1 {
        forall q: nat | Similar(db, channel, returned, q) ensures q == found[0] {
          assert q in found;
        }
      } else {
        assert found[1] in found;
      }
    }
  }

  /**
   * A return resolves to a payment exactly when that payment is the only one with its end-to-end
   * reference; or nobody has that reference and it is the only one with the mandate; or nobody has
   * either and it is the only one with the same IBAN, amount and dates.
   */
  lemma ResolvesIffSole(db: Db, returned: Transaction, p: nat)
    ensures Resolve(db, returned) == Some(p) <==>
      || Sole(db, EndToEnd, returned, p)
      || (Nobody(db, EndToEnd, returned) && Sole(db, Mandate, returned, p))
      || (Nobody(db, EndToEnd, returned) && Nobody(db, Mandate, returned) && Sole(db, IbanAmountDate, returned, p))
  {
    hide Matches, Similar;
    ChannelMatches(db, EndToEnd, returned);
    ChannelMatches(db, Mandate, returned);
    ChannelMatches(db, IbanAmountDate, returned);
  }

  // ---- The designated period -----------------------------------------------------------------------------

  /** The token stands somewhere in the text. */
  ghost predicate StandsIn(token: string, text: string)
  {
    exists i: nat :: i <= |text| && token <= text[i..]
  }

  lemma {:induction false} ContainsIff(text: string, token: string)
    ensures Contains(text, token) <==> StandsIn(token, text)
  {
    assert text[0..] == text;
    if text != "" {
      ContainsIff(text[1..], token);
      if i: nat :| i <= |text| && token <= text[i..] {
        if i > 0 {
          assert text[1..][i - 1..] == text[i..];
        }
      }
      if i: nat :| i <= |text[1..]| && token <= text[1..][i..] {
        assert text[1..][i..] == text[i + 1..];
      }
    }
  }

  ghost predicate Names(purpose: string, r: Receivable)
  {
    StandsIn(Comparison(r.claim.period), purpose) || StandsIn(Comparison(r.claim.idText), purpose)
  }

  /** The designated periods are those of the named debts, each once. */
  lemma {:induction false} NamedPeriodsIff(purpose: string, rows: seq<Receivable>)
    requires purpose != ""
    ensures forall period :: period in NamedPeriods(purpose, rows)
                       <==> exists r :: r in rows && r.claim.period == period && Names(purpose, r)
    ensures forall i, j | 0 <= i < j < |NamedPeriods(purpose, rows)| ::
        NamedPeriods(purpose, rows)[i] != NamedPeriods(purpose, rows)[j]
  {
    hide Contains, Comparison, StandsIn;
    if rows != [] {
      ContainsIff(purpose, Comparison(rows[0].claim.period));
      ContainsIff(purpose, Comparison(rows[0].claim.idText));
      NamedPeriodsIff(purpose, rows[1..]);
      var rest := NamedPeriods(purpose, rows[1..]);
      forall period
        ensures period in NamedPeriods(purpose, rows) <==> exists r ::
            r in rows && r.claim.period == period && Names(purpose, r)
      {
        if r :| r in rows && r.claim.period == period && Names(purpose, r) {
          assert r == rows[0] || r in rows[1..];
        }
        if r :| r in rows[1..] && r.claim.period == period && Names(purpose, r) {
          assert r in rows;
        }
        assert rows[0] in rows;
      }
    }
  }

  /** The debts a payment may reach: the renter's own that are not settled, all of them. */
  lemma {:induction false} OpenDebtsIff(receivables: seq<Receivable>, renter: nat)
    ensures forall r :: r in OpenDebts(receivables, renter)
                  <==> r in receivables && r.open.status != Settled && r.claim.renter == renter
  {
    if receivables != [] {
      OpenDebtsIff(receivables[1..], renter);
      forall r ensures r in OpenDebts(receivables, renter)
                  <==> r in receivables && r.open.status != Settled && r.claim.renter == renter {
        assert r in receivables <==> r == receivables[0] || r in receivables[1..];
      }
    }
  }

  // ---- Why an IBAN is trusted ------------------------------------------------------------------------------

  /** Somebody confirmed a review that put this payer's IBAN with this renter. */
  ghost predicate Confirms(db: Db, u: nat, renter: nat, iban: string)
  {
    && u in db.runs && u in db.confirmations && db.confirmations[u] == Confirmed
    && u < |db.transactions| && db.transactions[u].iban == iban && iban != ""
    && db.runs[u].rows != [] && db.runs[u].rows[0].Some? && db.runs[u].rows[0].value.renter == renter
  }

  ghost predicate EveryIbanConfirmed(db: Db)
  {
    forall p | p in db.ibans :: exists u :: Confirms(db, u, p.0, p.1)
  }

  /** A transaction of the same payer that somebody confirmed. */
  ghost predicate PayerConfirmed(db: Db, iban: string)
  {
    exists u, renter :: Confirms(db, u, renter, iban)
  }

  ghost predicate EveryAutoBacked(db: Db)
  {
    forall t | t in db.runs && db.runs[t].decision == AutoMatch ::
      t < |db.transactions| && PayerConfirmed(db, db.transactions[t].iban)
  }

  ghost predicate Trusted(db: Db)
  {
    EveryIbanConfirmed(db) && EveryAutoBacked(db)
  }

  lemma ConfirmsKept(before: Db, after: Db, u: nat, renter: nat, iban: string)
    requires EvidenceLater(before, after) && Confirms(before, u, renter, iban)
    ensures Confirms(after, u, renter, iban)
  {
  }

  lemma PayerKept(before: Db, after: Db, iban: string)
    requires EvidenceLater(before, after) && PayerConfirmed(before, iban)
    ensures PayerConfirmed(after, iban)
  {
    var u, renter :| Confirms(before, u, renter, iban);
    ConfirmsKept(before, after, u, renter, iban);
  }

  /** A new automatic run rests on a confirmed IBAN of the same payer. */
  lemma AutoRestsOnIban(db: Db, t: nat)
    requires t < |db.transactions| && EveryIbanConfirmed(db) && ProposeRun(db, t).decision == AutoMatch
    ensures PayerConfirmed(db, db.transactions[t].iban)
  {
    var tx := db.transactions[t];
    var candidates := CandidatesFor(db, tx);
    AutoMatchIffSoleOwner(tx, candidates);
    var renter :| SoleOwner(tx, candidates, renter);
    var i :| 0 <= i < |candidates| && candidates[i].receivable.claim.renter == renter
             && IbanSignal(tx, candidates[i]) == WEIGHT_UNIQUE_IBAN;
    CandidatesMembers(db.book.receivables, db.profiles, db.ibans, tx.iban);
    assert candidates[i] in candidates;
    assert tx.iban in IbansOf(db.ibans, renter);
    assert (renter, tx.iban) in db.ibans;
  }

  lemma TrustKept(before: Db, after: Db)
    requires Trusted(before) && EvidenceLater(before, after) && after.ibans == before.ibans
    requires forall t | t in after.runs && t !in before.runs && after.runs[t].decision == AutoMatch ::
               t < |after.transactions| && PayerConfirmed(before, after.transactions[t].iban)
    ensures Trusted(after)
  {
    forall p | p in after.ibans ensures exists u :: Confirms(after, u, p.0, p.1) {
      var u :| Confirms(before, u, p.0, p.1);
      ConfirmsKept(before, after, u, p.0, p.1);
    }
    forall t | t in after.runs && after.runs[t].decision == AutoMatch
      ensures t < |after.transactions| && PayerConfirmed(after, after.transactions[t].iban)
    {
      PayerKept(before, after, after.transactions[t].iban);
    }
  }

  lemma RunMatchTrusted(db: Db, t: nat)
    requires Trusted(db) && RunMatch(db, t).Done?
    ensures Trusted(RunMatch(db, t).db)
  {
    hide ProposeRun, SettleSpec, NamedPeriods, L.Post, Resolve, Trusted;
    if t !in db.runs && db.transactions[t].amount > 0 && ProposeRun(db, t).decision == AutoMatch {
      TrustParts(db);
      AutoRestsOnIban(db, t);
    }
    TrustKept(db, RunMatch(db, t).db);
  }

  lemma TrustParts(db: Db)
    requires Trusted(db)
    ensures EveryIbanConfirmed(db)
  {
  }

  lemma DecideMatchTrusted(db: Db, t: nat, outcome: Outcome)
    requires Trusted(db) && DecideMatch(db, t, outcome).Done?
    ensures Trusted(DecideMatch(db, t, outcome).db)
  {
    hide SettleSpec, NamedPeriods, L.Post, Trusted, SettlePayment;
    if t !in db.confirmations {
      var decided := db.(confirmations := db.confirmations[t := outcome]);
      TrustKept(db, decided);
      if outcome == Confirmed {
        SettleFrame(decided, t);
        var settled := SettlePayment(decided, t).db;
        TrustKept(decided, settled);
        LearnTrusted(settled, t);
      }
    }
  }

  lemma LearnTrusted(db: Db, t: nat)
    requires Trusted(db) && t < |db.transactions| && t in db.runs && db.runs[t].rows != []
    requires t in db.confirmations && db.confirmations[t] == Confirmed
    ensures Trusted(Learn(db, t))
  {
    var after := Learn(db, t);
    forall p | p in after.ibans ensures exists u :: Confirms(after, u, p.0, p.1) {
      if p in db.ibans {
        var u :| Confirms(db, u, p.0, p.1);
        ConfirmsKept(db, after, u, p.0, p.1);
      } else {
        assert Confirms(after, t, p.0, p.1);
      }
    }
    forall s | s in after.runs && after.runs[s].decision == AutoMatch
      ensures s < |after.transactions| && PayerConfirmed(after, after.transactions[s].iban)
    {
      PayerKept(db, after, after.transactions[s].iban);
    }
  }

  lemma ActTrusted(a: Account, action: Action)
    requires Trusted(a.db)
    ensures Trusted(Act(a, action).db)
  {
    hide Trusted, RunMatch, DecideMatch;
    match action
    case RaiseDebt(claim, open) => TrustKept(a.db, Act(a, action).db);
    case SetProfile(renter, profile) => TrustKept(a.db, Act(a, action).db);
    case Import(tx) => TrustKept(a.db, Act(a, action).db);
    case Match(t) =>
      if RunMatch(a.db, t).Done? { RunMatchTrusted(a.db, t); }
    case Decide(t, outcome) =>
      if DecideMatch(a.db, t, outcome).Done? { DecideMatchTrusted(a.db, t, outcome); }
  }

  lemma {:induction false} PlayTrusted(a: Account, actions: seq<Action>)
    requires Trusted(a.db)
    ensures Trusted(Play(a, actions).db)
    decreases |actions|
  {
    hide Trusted, Act;
    if actions != [] {
      ActTrusted(a, actions[0]);
      PlayTrusted(Act(a, actions[0]), actions[1..]);
    }
  }

  /**
   * In every reachable account each learned IBAN was confirmed by a user for that renter, and every
   * transaction matched automatically has a payer whose IBAN a user confirmed before.
   */
  lemma AutomaticRestsOnConfirmation(a: Account)
    requires Reachable(a)
    ensures forall p | p in a.db.ibans :: exists u :: Confirms(a.db, u, p.0, p.1)
    ensures forall t | t in a.db.runs && a.db.runs[t].decision == AutoMatch ::
              t < |a.db.transactions| && PayerConfirmed(a.db, a.db.transactions[t].iban)
  {
    hide Act, Play;
    var actions :| a == Play(EMPTY, actions);
    assert Trusted(EMPTY.db);
    PlayTrusted(EMPTY, actions);
  }

  // ---- What a confirmation teaches ----------------------------------------------------------------------------

  ghost predicate EveryConfirmedLearned(db: Db)
  {
    forall u: nat, renter: nat, iban | Confirms(db, u, renter, iban) :: (renter, iban) in db.ibans
  }

  lemma MatchTeachesNothing(db: Db, t: nat)
    requires RunsSound(db) && EveryConfirmedLearned(db) && RunMatch(db, t).Done?
    ensures RunMatch(db, t).db.ibans == db.ibans && EveryConfirmedLearned(RunMatch(db, t).db)
  {
    hide ReversePayment, SettlePayment, ProposeRun, RunSound;
    var after := RunMatch(db, t).db;
    RunMatchEvidence(db, t);
    MatchFrame(db, t);
    forall u: nat, renter: nat, iban | Confirms(after, u, renter, iban) ensures (renter, iban) in db.ibans {
      assert Confirms(db, u, renter, iban);
    }
  }

  lemma MatchFrame(db: Db, t: nat)
    requires RunMatch(db, t).Done?
    ensures var after := RunMatch(db, t).db;
            after == db.(book := after.book, runs := after.runs)
  {
    hide ReversePayment, SettlePayment, ProposeRun;
    if db.transactions[t].amount < 0 {
      ReverseFrame(db, t);
    } else if db.transactions[t].amount > 0 && t !in db.runs && ProposeRun(db, t).decision == AutoMatch {
      ProposedNonempty(db, t);
      SettleFrame(db.(runs := db.runs[t := ProposeRun(db, t)]), t);
    }
  }

  /** A decision teaches the payer's IBAN exactly when it confirms a review for the first time. */
  lemma DecisionTeaches(db: Db, t: nat, outcome: Outcome)
    requires DecideMatch(db, t, outcome).Done?
    ensures t < |db.transactions| && t in db.runs && db.runs[t].rows != []
    ensures DecideMatch(db, t, outcome).db.ibans
         == db.ibans + if t !in db.confirmations && outcome == Confirmed && db.transactions[t].iban != ""
                          && db.runs[t].rows[0].Some?
                       then {(db.runs[t].rows[0].value.renter, db.transactions[t].iban)} else {}
    ensures DecideMatch(db, t, outcome).db.confirmations == db.confirmations[t := outcome]
  {
    hide SettlePayment;
    if t !in db.confirmations && outcome == Confirmed {
      SettleFrame(db.(confirmations := db.confirmations[t := outcome]), t);
    } else if t in db.confirmations {
      assert db.confirmations[t := outcome] == db.confirmations;
    }
  }

  lemma DecisionKeepsLearned(db: Db, t: nat, outcome: Outcome)
    requires RunsSound(db) && EveryConfirmedLearned(db) && DecideMatch(db, t, outcome).Done?
    ensures EveryConfirmedLearned(DecideMatch(db, t, outcome).db)
  {
    hide DecideMatch, RunSound;
    var after := DecideMatch(db, t, outcome).db;
    DecisionTeaches(db, t, outcome);
    DecideFrame(db, t, outcome);
    forall u: nat, renter: nat, iban | Confirms(after, u, renter, iban) ensures (renter, iban) in after.ibans {
      if u != t || t in db.confirmations {
        if t in db.confirmations {
          RepeatedOutcome(db, t, outcome);
        }
        assert Confirms(db, u, renter, iban);
      }
    }
  }

  lemma RepeatedOutcome(db: Db, t: nat, outcome: Outcome)
    requires DecideMatch(db, t, outcome).Done? && t in db.confirmations
    ensures db.confirmations[t] == outcome
  {
  }

  lemma DecideFrame(db: Db, t: nat, outcome: Outcome)
    requires DecideMatch(db, t, outcome).Done?
    ensures var after := DecideMatch(db, t, outcome).db;
            after == db.(book := after.book, confirmations := after.confirmations, ibans := after.ibans)
  {
    hide SettlePayment;
    if t !in db.confirmations && outcome == Confirmed {
      SettleFrame(db.(confirmations := db.confirmations[t := outcome]), t);
    }
  }

  lemma SoundRuns(a: Account)
    requires Sound(a)
    ensures RunsSound(a.db)
  {
  }

  lemma ActKeepsLearned(a: Account, action: Action)
    requires Sound(a) && EveryConfirmedLearned(a.db)
    ensures EveryConfirmedLearned(Act(a, action).db)
  {
    hide Sound, RunMatch, DecideMatch, RunSound;
    SoundRuns(a);
    match action
    case Match(t) =>
      if RunMatch(a.db, t).Done? { MatchTeachesNothing(a.db, t); }
    case Decide(t, outcome) =>
      if DecideMatch(a.db, t, outcome).Done? { DecisionKeepsLearned(a.db, t, outcome); }
    case Import(tx) =>
      ImportKeepsLearned(a, tx);
    case _ =>
      forall u: nat, renter: nat, iban | Confirms(Act(a, action).db, u, renter, iban)
        ensures (renter, iban) in a.db.ibans
      {
        assert Confirms(a.db, u, renter, iban);
      }
  }

  lemma ImportKeepsLearned(a: Account, tx: Transaction)
    requires RunsSound(a.db) && EveryConfirmedLearned(a.db)
    ensures EveryConfirmedLearned(Act(a, Import(tx)).db)
  {
    forall u: nat, renter: nat, iban | Confirms(Act(a, Import(tx)).db, u, renter, iban)
      ensures (renter, iban) in a.db.ibans
    {
      assert RunSound(a.db, u);
      assert Confirms(a.db, u, renter, iban);
    }
  }

  lemma {:induction false} PlayKeepsLearned(a: Account, actions: seq<Action>)
    requires Sound(a) && EveryConfirmedLearned(a.db)
    ensures EveryConfirmedLearned(Play(a, actions).db)
    decreases |actions|
  {
    hide Sound, Act, EveryConfirmedLearned;
    if actions != [] {
      ActKeepsLearned(a, actions[0]);
      ActKeeps(a, actions[0]);
      PlayKeepsLearned(Act(a, actions[0]), actions[1..]);
    }
  }

  /** In every reachable account an IBAN is learned for a renter exactly when a confirmed review put them together. */
  lemma LearnedIffConfirmed(a: Account, renter: nat, iban: string)
    requires Reachable(a)
    ensures (renter, iban) in a.db.ibans <==> exists u :: Confirms(a.db, u, renter, iban)
  {
    hide Act, Play, Sound, Confirms;
    AutomaticRestsOnConfirmation(a);
    var actions :| a == Play(EMPTY, actions);
    EmptyIsSound();
    assert EveryConfirmedLearned(EMPTY.db) by { NothingConfirmed(); }
    PlayKeepsLearned(EMPTY, actions);
    if (renter, iban) in a.db.ibans {
      var p := (renter, iban);
      assert exists u :: Confirms(a.db, u, p.0, p.1);
    }
  }

  lemma NothingConfirmed()
    ensures EveryConfirmedLearned(EMPTY.db)
  {
  }

  // ---- When a transaction is matched automatically ----------------------------------------------------------

  /** The renter has a matching profile and a debt that is not settled. */
  ghost predicate CanBeMatched(db: Db, renter: nat)
  {
    && renter in db.profiles
    && exists r :: r in db.book.receivables && r.open.status != Settled && r.claim.renter == renter
  }

  lemma UniqueSignal(db: Db, tx: Transaction, c: Candidate)
    requires c in CandidatesFor(db, tx)
    ensures IbanSignal(tx, c) == WEIGHT_UNIQUE_IBAN <==> Owners(db.ibans, tx.iban) == {c.receivable.claim.renter}
    ensures CanBeMatched(db, c.receivable.claim.renter)
  {
    CandidatesMembers(db.book.receivables, db.profiles, db.ibans, tx.iban);
    var renter, owners := c.receivable.claim.renter, Owners(db.ibans, tx.iban);
    if renter in owners {
      assert tx.iban in IbansOf(db.ibans, renter) by {
        assert (renter, tx.iban) in db.ibans;
      }
      if |owners| == 1 {
        Singleton(owners, renter);
      }
    }
  }

  /**
   * A transaction is matched automatically exactly when the provider does not suspect a duplicate
   * and one renter alone, who has a profile and an unsettled debt, owns its IBAN.
   */
  lemma AutomaticIffSoleIbanOwner(db: Db, t: nat)
    requires t < |db.transactions|
    ensures ProposeRun(db, t).decision == AutoMatch <==>
      && !db.transactions[t].potentialDuplicate
      && exists renter :: Owners(db.ibans, db.transactions[t].iban) == {renter} && CanBeMatched(db, renter)
  {
    hide IbanSignal, CanBeMatched, Propose;
    var tx := db.transactions[t];
    var candidates := CandidatesFor(db, tx);
    AutoMatchIffSoleOwner(tx, candidates);
    forall i | 0 <= i < |candidates|
      ensures IbanSignal(tx, candidates[i]) == WEIGHT_UNIQUE_IBAN
         <==> Owners(db.ibans, tx.iban) == {candidates[i].receivable.claim.renter}
      ensures CanBeMatched(db, candidates[i].receivable.claim.renter)
    {
      assert candidates[i] in candidates;
      UniqueSignal(db, tx, candidates[i]);
    }
    if renter :| Owners(db.ibans, tx.iban) == {renter} && CanBeMatched(db, renter) {
      var i := CandidateOf(db, tx, renter);
      assert SoleOwner(tx, candidates, renter);
    }
  }

  lemma CandidateOf(db: Db, tx: Transaction, renter: nat) returns (i: nat)
    requires CanBeMatched(db, renter)
    ensures i < |CandidatesFor(db, tx)| && CandidatesFor(db, tx)[i].receivable.claim.renter == renter
  {
    CandidatesMembers(db.book.receivables, db.profiles, db.ibans, tx.iban);
    var r :| r in db.book.receivables && r.open.status != Settled && r.claim.renter == renter;
    var c :| c in CandidatesFor(db, tx) && c.receivable == r;
    i :| i < |CandidatesFor(db, tx)| && CandidatesFor(db, tx)[i] == c;
  }

  // ---- Whom an automatic match pays --------------------------------------------------------------------------

  lemma {:induction false} CandidatesDistinct(receivables: seq<Receivable>, profiles: map<nat, Profile>,
                                              ibans: set<(nat, string)>, iban: string)
    requires DistinctOrder(receivables)
    ensures DistinctIdOrder(Candidates(receivables, profiles, ibans, iban))
  {
    if receivables != [] {
      var rest := Candidates(receivables[1..], profiles, ibans, iban);
      CandidatesDistinct(receivables[1..], profiles, ibans, iban);
      CandidatesMembers(receivables[1..], profiles, ibans, iban);
      forall j | 0 <= j < |rest| ensures rest[j].receivable.claim.idOrder != receivables[0].claim.idOrder {
        assert rest[j] in rest;
        var k :| 1 <= k < |receivables| && receivables[k] == rest[j].receivable;
      }
    }
  }

  /** The five parts of the ranking key, in their order. */
  lemma RankingLess(a: Score, b: Score)
    requires a.signals.text.endToEnd == b.signals.text.endToEnd
    ensures Less(RankingKey()(a), RankingKey()(b)) <==>
      || a.signals.amount > b.signals.amount
      || (a.signals.amount == b.signals.amount
          && (a.signals.text.codeOrSurname > b.signals.text.codeOrSurname
              || (a.signals.text.codeOrSurname == b.signals.text.codeOrSurname
                  && (a.Confidence() > b.Confidence() || (a.Confidence() == b.Confidence() && a.idOrder < b.idOrder)))))
  {
    var x, y := RankingKey()(a), RankingKey()(b);
    LessStep(x, y);
    LessStep(x[1..], y[1..]);
    LessStep(x[2..], y[2..]);
    LessStep(x[3..], y[3..]);
    LessStep(x[4..], y[4..]);
    assert !Less(x[5..], y[5..]);
    assert x[1..][1..] == x[2..] && x[2..][1..] == x[3..] && x[3..][1..] == x[4..] && x[4..][1..] == x[5..];
    assert y[1..][1..] == y[2..] && y[2..][1..] == y[3..] && y[3..][1..] == y[4..] && y[4..][1..] == y[5..];
  }

  lemma LessStep(a: Key, b: Key)
    requires a != [] && b != []
    ensures Less(a, b) <==> a[0] < b[0] || (a[0] == b[0] && Less(a[1..], b[1..]))
  {
  }

  /** A debt that matching considers. */
  ghost predicate Considered(db: Db, r: Receivable)
  {
    r in db.book.receivables && r.open.status != Settled && r.claim.renter in db.profiles
  }

  /** How well the purpose names the renter of a debt. */
  ghost function Naming(db: Db, tx: Transaction, r: Receivable): int
    requires Considered(db, r)
  {
    CodeOrSurnameSignal(Comparison(tx.purpose), db.profiles[r.claim.renter])
  }

  /** Debt `r` fits the amount where `s` does, and where they fit alike, its renter is named as well. */
  ghost predicate NoWorse(db: Db, tx: Transaction, r: Receivable, s: Receivable)
    requires Considered(db, r) && Considered(db, s)
  {
    && (tx.amount == s.open.open ==> tx.amount == r.open.open)
    && ((tx.amount == s.open.open <==> tx.amount == r.open.open) ==> Naming(db, tx, r) >= Naming(db, tx, s))
  }

  lemma OnlyOwnerSignals(db: Db, tx: Transaction, c: Candidate, owner: nat)
    requires c in CandidatesFor(db, tx) && Owners(db.ibans, tx.iban) == {owner}
    ensures IbanSignal(tx, c) == if c.receivable.claim.renter == owner then WEIGHT_UNIQUE_IBAN else 0
    ensures Considered(db, c.receivable) && c.profile == db.profiles[c.receivable.claim.renter]
  {
    CandidatesMembers(db.book.receivables, db.profiles, db.ibans, tx.iban);
    UniqueSignal(db, tx, c);
  }

  /** The IBAN outweighs what is left of the ranking once amount and naming are equal. */
  lemma OwnerRanksBefore(db: Db, tx: Transaction, owner: nat, c: Candidate, d: Candidate)
    requires c in CandidatesFor(db, tx) && d in CandidatesFor(db, tx) && Owners(db.ibans, tx.iban) == {owner}
    requires c.receivable.claim.renter == owner && d.receivable.claim.renter != owner
    requires Considered(db, c.receivable) && Considered(db, d.receivable)
    ensures Less(RankingKey()(ScoreCandidate(tx, c)), RankingKey()(ScoreCandidate(tx, d)))
       <==> NoWorse(db, tx, c.receivable, d.receivable)
  {
    hide IbanSignal, PeriodSignal, CodeOrSurnameSignal, Comparison, Less, Owners, Considered;
    OnlyOwnerSignals(db, tx, c, owner);
    OnlyOwnerSignals(db, tx, d, owner);
    SignalBounds(Comparison(tx.purpose), c);
    SignalBounds(Comparison(tx.purpose), d);
    RankingLess(ScoreCandidate(tx, c), ScoreCandidate(tx, d));
  }

  lemma SignalBounds(purpose: string, c: Candidate)
    ensures 0 <= CodeOrSurnameSignal(purpose, c.profile) <= WEIGHT_PAYMENT_CODE
    ensures 0 <= PeriodSignal(purpose, c.receivable.claim.period) <= WEIGHT_PERIOD
  {
  }

  /** No debt that matching considers, and that is not the owner's, looks better than `r`. */
  ghost predicate Unbeaten(db: Db, tx: Transaction, owner: nat, r: Receivable)
    requires Considered(db, r)
  {
    forall s | Considered(db, s) && s.claim.renter != owner :: NoWorse(db, tx, r, s)
  }

  lemma OutranksIffUnbeaten(db: Db, tx: Transaction, owner: nat, i: nat)
    requires i < |CandidatesFor(db, tx)| && Owners(db.ibans, tx.iban) == {owner}
    requires CandidatesFor(db, tx)[i].receivable.claim.renter == owner
    requires Considered(db, CandidatesFor(db, tx)[i].receivable)
    ensures Outranks(tx, CandidatesFor(db, tx), i) <==> Unbeaten(db, tx, owner, CandidatesFor(db, tx)[i].receivable)
  {
    hide NoWorse, Less, ScoreCandidate, Owners;
    var candidates := CandidatesFor(db, tx);
    CandidatesMembers(db.book.receivables, db.profiles, db.ibans, tx.iban);
    assert candidates[i] in candidates;
    forall j | 0 <= j < |candidates| && candidates[j].receivable.claim.renter != owner
      ensures Considered(db, candidates[j].receivable)
      ensures Less(RankingKey()(ScoreCandidate(tx, candidates[i])), RankingKey()(ScoreCandidate(tx, candidates[j])))
         <==> NoWorse(db, tx, candidates[i].receivable, candidates[j].receivable)
    {
      assert candidates[j] in candidates;
      OwnerRanksBefore(db, tx, owner, candidates[i], candidates[j]);
    }
    if Outranks(tx, candidates, i) {
      forall s | Considered(db, s) && s.claim.renter != owner ensures NoWorse(db, tx, candidates[i].receivable, s) {
        var c :| c in candidates && c.receivable == s;
        var j :| 0 <= j < |candidates| && candidates[j] == c;
      }
    }
  }

  /**
   * An automatic match pays the sole owner of the IBAN exactly when some debt of the owner fits the
   * amount at least as well as every debt of everybody else and, against those that fit alike, has a
   * renter whom the purpose names at least as well. The IBAN itself decides between equals only.
   */
  lemma AutomaticPaysOwnerIff(db: Db, t: nat, owner: nat)
    requires ClaimsSound(db.book.receivables) && t < |db.transactions|
    requires ProposeRun(db, t).decision == AutoMatch && Owners(db.ibans, db.transactions[t].iban) == {owner}
    ensures ProposeRun(db, t).rows != [] && ProposeRun(db, t).rows[0].Some?
    ensures ProposeRun(db, t).rows[0].value.renter == owner <==>
      exists r :: Considered(db, r) && r.claim.renter == owner && Unbeaten(db, db.transactions[t], owner, r)
  {
    hide Outranks, ScoreCandidate, IbanSignal, Unbeaten;
    var tx := db.transactions[t];
    var candidates := CandidatesFor(db, tx);
    AutoMatchIffSoleOwner(tx, candidates);
    CandidatesDistinct(db.book.receivables, db.profiles, db.ibans, tx.iban);
    var renter :| SoleOwner(tx, candidates, renter);
    assert candidates != [];
    FirstRankIffOutranks(tx, candidates, owner);
    RankedRowsAt(Propose(tx, candidates).ranked);
    SomeOutranksIff(db, tx, owner);
  }

  lemma SomeOutranksIff(db: Db, tx: Transaction, owner: nat)
    requires Owners(db.ibans, tx.iban) == {owner}
    ensures (exists i: nat :: i < |CandidatesFor(db, tx)| && CandidatesFor(db, tx)[i].receivable.claim.renter == owner
                              && Outranks(tx, CandidatesFor(db, tx), i))
       <==> exists r :: Considered(db, r) && r.claim.renter == owner && Unbeaten(db, tx, owner, r)
  {
    hide Outranks, Unbeaten, Owners;
    var candidates := CandidatesFor(db, tx);
    CandidatesMembers(db.book.receivables, db.profiles, db.ibans, tx.iban);
    if i: nat :| i < |candidates| && candidates[i].receivable.claim.renter == owner && Outranks(tx, candidates, i) {
      assert candidates[i] in candidates;
      OutranksIffUnbeaten(db, tx, owner, i);
    }
    if r :| Considered(db, r) && r.claim.renter == owner && Unbeaten(db, tx, owner, r) {
      var c :| c in candidates && c.receivable == r;
      var i: nat :| i < |candidates| && candidates[i] == c;
      OutranksIffUnbeaten(db, tx, owner, i);
    }
  }
}
