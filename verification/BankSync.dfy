/**
 * The scheduled pull: deduplicating import of every bank account, then matching what arrived, each
 * transaction in its own savepoint, with a tally per bank account.
 */
module BankSync {
  import opened Lists
  import opened Order
  import opened Rows
  import opened Scoring
  import opened Matching
  import opened MatchingInvariant
  import opened MatchingRuns
  import opened MatchingTheorems
  import opened MatchingService
  import opened EngineErrors
  import opened Settlement
  import L = Ledger

  // ---- Import -------------------------------------------------------------------------------------------

  datatype BankAccount = BankAccount(id: nat, consentExpires: Option<int>)

  datatype Skip = ConsentMissing | ConsentExpired

  datatype Phase = Skipped(reason: Skip) | Imported(ids: seq<nat>, duplicates: nat)

  /** Given, and not yet expired. */
  ghost predicate ConsentStands(account: BankAccount, now: int)
  {
    account.consentExpires.Some? && now < account.consentExpires.value
  }

  /** The provider ids already stored for one bank account. */
  function Known(transactions: seq<Transaction>, b: nat): set<string>
  {
    set t | t in transactions && t.bankAccount == b :: t.providerId
  }

  /** A pulled movement as it is stored. */
  function Stored(t: Transaction, id: nat, b: nat): Transaction
  {
    t.(id := id, bankAccount := b)
  }

  function Import(transactions: seq<Transaction>, b: nat, pull: seq<Transaction>): seq<Transaction>
  {
    if pull == [] then transactions
    else
      var before := Import(transactions, b, pull[..|pull| - 1]);
      var t := pull[|pull| - 1];
      if t.providerId in Known(before, b) then before else before + [Stored(t, |before|, b)]
  }

  ghost function ProviderIds(pull: seq<Transaction>): set<string>
  {
    set t | t in pull :: t.providerId
  }

  /** Account, bank account and provider id identify a movement. */
  ghost predicate UniqueMovements(transactions: seq<Transaction>)
  {
    forall i, j | 0 <= i < j < |transactions| ::
      transactions[i].bankAccount == transactions[j].bankAccount ==>
        transactions[i].providerId != transactions[j].providerId
  }

  /** Pulled movement `k` is new: its provider id is not stored for the bank account, nor pulled before. */
  ghost predicate Arrives(transactions: seq<Transaction>, b: nat, pull: seq<Transaction>, k: nat)
  {
    && k < |pull|
    && (forall t | t in transactions && t.bankAccount == b :: t.providerId != pull[k].providerId)
    && forall j | 0 <= j < k :: pull[j].providerId != pull[k].providerId
  }

  /** The rows after the stored ones are the new movements, in the order of the pull and as they were pulled. */
  ghost predicate ArrivedAs(transactions: seq<Transaction>, b: nat, pull: seq<Transaction>, after: seq<Transaction>,
                            sources: seq<nat>)
  {
    && (forall i, j | 0 <= i < j < |sources| :: sources[i] < sources[j])
    && (forall k: nat :: k in sources <==> Arrives(transactions, b, pull, k))
    && |after| == |transactions| + |sources| && transactions <= after
    && forall i | 0 <= i < |sources| ::
         sources[i] < |pull| && after[|transactions| + i] == Filed(pull[sources[i]], |transactions| + i, b)
  }

  /** Everything but the two ids is stored as it came: amount, dates, IBAN, purpose, references, duplicate flag. */
  ghost function Filed(t: Transaction, id: nat, b: nat): Transaction
  {
    Transaction(id, b, t.providerId, t.amount, t.bookingDate, t.valueDate, t.iban, t.purpose, t.endToEnd, t.mandate,
                t.potentialDuplicate)
  }

  lemma {:induction false} ImportArrives(transactions: seq<Transaction>, b: nat, pull: seq<Transaction>)
    ensures exists sources: seq<nat> :: ArrivedAs(transactions, b, pull, Import(transactions, b, pull), sources)
  {
    hide Known, ProviderIds, Arrives;
    if pull == [] {
      NothingArrives(transactions, b);
      assert ArrivedAs(transactions, b, pull, Import(transactions, b, pull), []);
    } else {
      var n := |pull| - 1;
      var first, before := pull[..n], Import(transactions, b, pull[..n]);
      ImportArrives(transactions, b, first);
      var sources: seq<nat> :| ArrivedAs(transactions, b, first, before, sources);
      ImportKnows(transactions, b, first);
      LastArrives(transactions, b, pull);
      forall k: nat | k < n ensures Arrives(transactions, b, pull, k) <==> Arrives(transactions, b, first, k) {
        ArrivesEarlier(transactions, b, pull, k);
      }
      forall k: nat | k >= |pull| ensures !Arrives(transactions, b, pull, k) {
        OutsidePull(transactions, b, pull, k);
      }
      forall k: nat | k >= n ensures !Arrives(transactions, b, first, k) {
        OutsidePull(transactions, b, first, k);
      }
      if pull[n].providerId in Known(before, b) {
        assert Import(transactions, b, pull) == before;
        assert ArrivedAs(transactions, b, pull, before, sources);
      } else {
        OneMoreArrives(transactions, b, pull, first, n, before, sources);
        assert Import(transactions, b, pull) == before + [Stored(pull[n], |before|, b)];
        assert ArrivedAs(transactions, b, pull, Import(transactions, b, pull), sources + [n]);
      }
    }
  }

  lemma OneMoreArrives(transactions: seq<Transaction>, b: nat, pull: seq<Transaction>, first: seq<Transaction>, n: nat,
                       before: seq<Transaction>, sources: seq<nat>)
    requires n + 1 == |pull| && first == pull[..n] && ArrivedAs(transactions, b, first, before, sources)
    requires forall k: nat :: Arrives(transactions, b, pull, k) <==> k == n || Arrives(transactions, b, first, k)
    requires forall k: nat | Arrives(transactions, b, first, k) :: k < n
    ensures ArrivedAs(transactions, b, pull, before + [Stored(pull[n], |before|, b)], sources + [n])
  {
    hide Arrives;
    var more := sources + [n];
    forall i | 0 <= i < |sources| ensures sources[i] < n {
      assert sources[i] in sources;
    }
    forall k: nat ensures k in more <==> Arrives(transactions, b, pull, k) {
      assert k in more <==> k in sources || k == n;
    }
  }

  lemma NothingArrives(transactions: seq<Transaction>, b: nat)
    ensures forall k: nat :: !Arrives(transactions, b, [], k)
  {
  }

  lemma OutsidePull(transactions: seq<Transaction>, b: nat, pull: seq<Transaction>, k: nat)
    requires k >= |pull|
    ensures !Arrives(transactions, b, pull, k)
  {
  }

  lemma ArrivesEarlier(transactions: seq<Transaction>, b: nat, pull: seq<Transaction>, k: nat)
    requires pull != [] && k < |pull| - 1
    ensures Arrives(transactions, b, pull, k) <==> Arrives(transactions, b, pull[..|pull| - 1], k)
  {
  }

  lemma LastArrives(transactions: seq<Transaction>, b: nat, pull: seq<Transaction>)
    requires pull != []
    ensures var n := |pull| - 1;
            Arrives(transactions, b, pull, n)
            <==> pull[n].providerId !in Known(transactions, b) + ProviderIds(pull[..n])
  {
    var n := |pull| - 1;
    if j :| 0 <= j < n && pull[j].providerId == pull[n].providerId {
      assert pull[..n][j] in pull[..n];
    }
    if pull[n].providerId in ProviderIds(pull[..n]) {
      var t :| t in pull[..n] && t.providerId == pull[n].providerId;
      var j :| 0 <= j < n && pull[..n][j] == t;
      assert pull[j].providerId == pull[n].providerId;
    }
  }

  /** The provider ids after an import, and where its rows belong. */
  lemma {:induction false} ImportKnows(transactions: seq<Transaction>, b: nat, pull: seq<Transaction>)
    ensures var after := Import(transactions, b, pull);
            && transactions <= after
            && Known(after, b) == Known(transactions, b) + ProviderIds(pull)
            && (UniqueMovements(transactions) ==> UniqueMovements(after))
            && (forall i | |transactions| <= i < |after| :: after[i].bankAccount == b && after[i].id == i)
  {
    hide Known, ProviderIds, UniqueMovements;
    if pull == [] {
      NoProviderIds();
    } else {
      var n := |pull| - 1;
      var first, before := pull[..n], Import(transactions, b, pull[..n]);
      ImportKnows(transactions, b, first);
      ProviderIdsNext(pull);
      if pull[n].providerId !in Known(before, b) {
        StoreOne(before, b, pull[n]);
      }
    }
  }

  /**
   * An import stores exactly the pulled provider ids on top of the known ones, each once, touches
   * no stored row, and adds rows of this bank account only: the new movements as they were pulled.
   */
  lemma ImportStoresOnce(transactions: seq<Transaction>, b: nat, pull: seq<Transaction>)
    ensures var after := Import(transactions, b, pull);
            && transactions <= after
            && Known(after, b) == Known(transactions, b) + ProviderIds(pull)
            && (UniqueMovements(transactions) ==> UniqueMovements(after))
            && (forall i | |transactions| <= i < |after| :: after[i].bankAccount == b && after[i].id == i)
            && (exists sources: seq<nat> :: ArrivedAs(transactions, b, pull, after, sources))
  {
    hide Known, ProviderIds, UniqueMovements, ArrivedAs, Import;
    ImportKnows(transactions, b, pull);
    ImportArrives(transactions, b, pull);
  }

  lemma NoProviderIds()
    ensures ProviderIds([]) == {}
  {
  }

  lemma ProviderIdsNext(pull: seq<Transaction>)
    requires pull != []
    ensures ProviderIds(pull) == ProviderIds(pull[..|pull| - 1]) + {pull[|pull| - 1].providerId}
  {
    assert pull == pull[..|pull| - 1] + [pull[|pull| - 1]];
  }

  lemma StoreOne(before: seq<Transaction>, b: nat, t: Transaction)
    requires t.providerId !in Known(before, b)
    ensures var after := before + [Stored(t, |before|, b)];
            && Known(after, b) == Known(before, b) + {t.providerId}
            && (UniqueMovements(before) ==> UniqueMovements(after))
  {
    var x := Stored(t, |before|, b);
    assert x in before + [x];
    forall i | 0 <= i < |before| && before[i].bankAccount == b ensures before[i].providerId != t.providerId {
      assert before[i] in before;
    }
  }

  lemma {:induction false} KnownAddsNothing(transactions: seq<Transaction>, b: nat, pull: seq<Transaction>)
    requires ProviderIds(pull) <= Known(transactions, b)
    ensures Import(transactions, b, pull) == transactions
  {
    if pull != [] {
      var n := |pull| - 1;
      assert pull == pull[..n] + [pull[n]];
      assert pull[n].providerId in ProviderIds(pull);
      assert ProviderIds(pull[..n]) <= ProviderIds(pull);
      KnownAddsNothing(transactions, b, pull[..n]);
    }
  }

  /** Pulling the same movements again, whatever was pulled for other accounts since, adds no row. */
  lemma ReimportAddsNothing(transactions: seq<Transaction>, b: nat, pull: seq<Transaction>, other: nat,
                            between: seq<Transaction>)
    ensures var later := Import(Import(transactions, b, pull), other, between); Import(later, b, pull) == later
  {
    var first := Import(transactions, b, pull);
    var later := Import(first, other, between);
    ImportStoresOnce(transactions, b, pull);
    ImportStoresOnce(first, other, between);
    forall x | x in ProviderIds(pull) ensures x in Known(later, b) {
      assert x in Known(first, b);
      var t :| t in first && t.bankAccount == b && t.providerId == x;
      var i :| 0 <= i < |first| && first[i] == t;
      assert later[i] == t;
    }
    KnownAddsNothing(later, b, pull);
  }

  function Range(low: nat, high: nat): seq<nat>
    requires low <= high
  {
    seq(high - low, (i: nat) => low + i)
  }

  lemma ImportKeepsValid(db: Db, init: seq<Projection>, t: Transaction, b: nat)
    requires Consistent(db, init)
    ensures Consistent(db.(transactions := db.transactions + [Stored(t, |db.transactions|, b)]), init)
  {
    hide Consistent;
    ImportKeeps(Account(db, init), t.(bankAccount := b)) by { SoundIsConsistent(Account(db, init)); }
    SoundIsConsistent(Act(Account(db, init), MatchingRuns.Import(t.(bankAccount := b))));
  }

  lemma SoundIsConsistent(a: Account)
    ensures Sound(a) <==> Consistent(a.db, a.init)
  {
  }

  method AddTransaction(store: Store, b: nat, t: Transaction) returns (id: nat)
    requires store.Valid()
    modifies store`transactions
    ensures store.Valid() && id == |old(store.transactions)|
    ensures store.transactions == old(store.transactions) + [Stored(t, id, b)]
  {
    hide Consistent, Stored;
    ImportKeepsValid(store.State(), store.init, t, b);
    id := |store.transactions|;
    store.transactions := store.transactions + [Stored(t, id, b)];
  }

  /** One pull. Without a standing consent nothing is pulled. */
  method ImportTransactions(store: Store, account: BankAccount, pull: seq<Transaction>, now: int) returns (phase: Phase)
    requires store.Valid()
    modifies store`transactions
    ensures store.Valid()
    ensures phase.Skipped? <==> !ConsentStands(account, now)
    ensures phase.Skipped? ==> phase.reason == (if account.consentExpires.None? then ConsentMissing else ConsentExpired)
    ensures phase.Skipped? ==> store.transactions == old(store.transactions)
    ensures phase.Imported? ==>
      && store.transactions == Import(old(store.transactions), account.id, pull)
      && (exists sources: seq<nat> ::
            ArrivedAs(old(store.transactions), account.id, pull, store.transactions, sources))
      && |old(store.transactions)| <= |store.transactions|
      && phase.ids == Range(|old(store.transactions)|, |store.transactions|)
      && |phase.ids| + phase.duplicates == |pull|
  {
    if account.consentExpires.None? {
      return Skipped(ConsentMissing);
    }
    if account.consentExpires.value <= now {
      return Skipped(ConsentExpired);
    }
    hide Consistent, Import, Known, Range, Stored, ArrivedAs;
    ghost var start := store.transactions;
    var known := Known(store.transactions, account.id);
    var ids, skipped, i := [], 0, 0;
    ImportNothing(start, account.id);
    RangeGrows(|start|, |start|);
    assert pull[..0] == [];
    while i < |pull|
      invariant 0 <= i <= |pull|
      invariant store.Valid()
      invariant store.transactions == Import(start, account.id, pull[..i])
      invariant known == Known(store.transactions, account.id)
      invariant |start| <= |store.transactions| && ids == Range(|start|, |store.transactions|)
      invariant |ids| + skipped == i
    {
      ImportNext(start, account.id, pull, i);
      if pull[i].providerId in known {
        skipped := skipped + 1;
      } else {
        StoreOne(store.transactions, account.id, pull[i]);
        RangeGrows(|start|, |store.transactions|);
        var id := AddTransaction(store, account.id, pull[i]);
        known := known + {pull[i].providerId};
        ids := ids + [id];
      }
      i := i + 1;
    }
    assert pull[..i] == pull;
    ImportArrives(start, account.id, pull);
    return Imported(ids, skipped);
  }

  lemma RangeGrows(low: nat, high: nat)
    requires low <= high
    ensures Range(low, high + 1) == Range(low, high) + [high]
    ensures low == high ==> Range(low, high) == []
  {
  }

  lemma ImportNothing(transactions: seq<Transaction>, b: nat)
    ensures Import(transactions, b, []) == transactions
  {
  }

  lemma ImportNext(transactions: seq<Transaction>, b: nat, pull: seq<Transaction>, i: nat)
    requires i < |pull|
    ensures var before := Import(transactions, b, pull[..i]);
            Import(transactions, b, pull[..i + 1])
            == if pull[i].providerId in Known(before, b) then before else before + [Stored(pull[i], |before|, b)]
  {
    assert pull[..i + 1][..i] == pull[..i];
  }

  // ---- Matching one transaction -----------------------------------------------------------------------------

  /** Imported and never matched: no run, no ledger entry. */
  ghost predicate Untouched(db: Db, t: nat)
  {
    && t < |db.transactions| && t !in db.runs
    && forall e | 0 <= e < |db.book.entries| :: db.book.entries[e].transaction != t
  }

  /** What the service reports back about a transaction. */
  datatype MatchResult = MatchResult(decision: Option<Decision>, event: bool, ledger: Option<nat>)

  function ResultOf(db: Db, t: nat): MatchResult
    requires t < |db.transactions|
  {
    if db.transactions[t].amount < 0 then MatchResult(None, true, ReversalFor(db.book.entries, t))
    else if t in db.runs then MatchResult(Some(db.runs[t].decision), false, LedgerFor(db.book.entries, t))
    else MatchResult(None, false, None)
  }

  /** The match of an untouched transaction books one entry of its own, or none. */
  ghost predicate BooksOwn(before: Db, after: Db, t: nat, booked: bool)
  {
    && before.book.entries <= after.book.entries
    && |after.book.entries| == |before.book.entries| + (if booked then 1 else 0)
    && (booked ==> after.book.entries[|before.book.entries|].transaction == t)
  }

  lemma ReturnBooksOwn(db: Db, init: seq<Projection>, t: nat)
    requires Consistent(db, init) && Untouched(db, t) && db.transactions[t].amount < 0 && ReversePayment(db, t).Done?
    ensures BooksOwn(db, ReversePayment(db, t).db, t, true)
    ensures ReversePayment(db, t).db == db.(book := ReversePayment(db, t).db.book)
    ensures ReversalFor(ReversePayment(db, t).db.book.entries, t).Some?
  {
    hide L.Inv, ReversePayment;
    ReversalForFinds(db.book.entries, t);
    ReturnLeavesReversal(db, init, t);
    ReturnIsPlan(db, init, t);
  }

  lemma SettleBooksOwn(db: Db, init: seq<Projection>, t: nat)
    requires AwaitsBooking(db, init, t) && Evidence(db, t) && t < |db.transactions| && db.runs[t].rows != []
    requires forall e | 0 <= e < |db.book.entries| :: db.book.entries[e].transaction != t
    requires SettlePayment(db, t).Done?
    ensures BooksOwn(db, SettlePayment(db, t).db, t, true)
    ensures SettlePayment(db, t).db == db.(book := SettlePayment(db, t).db.book)
    ensures LedgerFor(SettlePayment(db, t).db.book.entries, t).Some?
  {
    hide L.Inv, SettlePayment, SettlementOf;
    var after := SettlePayment(db, t).db;
    NothingCites(db, t);
    SettleFrame(db, t);
    RunPositive(db, t);
    SettlementPlanned(db, t);
    var entry := PlannedSettlement(db, t).0;
    assert after.book.entries[|db.book.entries|] == entry;
    LedgerForFinds(after.book.entries, t);
  }

  lemma NothingCites(db: Db, t: nat)
    requires EntriesTraced(db) && forall e | 0 <= e < |db.book.entries| :: db.book.entries[e].transaction != t
    ensures LedgerFor(db.book.entries, t).None?
  {
    LedgerForFinds(db.book.entries, t);
    forall e | 0 <= e < |db.book.entries| ensures db.book.entries[e].proposal != Some(L.Cite(t, 1)) {
      assert EntryTraced(db, e);
    }
  }

  lemma NeverDeduped(db: Db, t: nat)
    requires t < |db.transactions|
    ensures ProposeRun(db, t).decision != Deduped
  {
  }

  /** What a successful match of an untouched transaction reports and books. */
  lemma MatchReports(db: Db, init: seq<Projection>, t: nat)
    requires Consistent(db, init) && Untouched(db, t) && RunMatch(db, t).Done?
    ensures var after, result := RunMatch(db, t).db, ResultOf(RunMatch(db, t).db, t);
            && after.transactions == db.transactions
            && (forall u | u in after.runs :: u in db.runs || u == t)
            && result.event == (db.transactions[t].amount < 0)
            && (result.decision.Some? <==> db.transactions[t].amount > 0)
            && result.decision != Some(Deduped)
            && (result.ledger.Some? <==> result.event || result.decision == Some(AutoMatch))
            && BooksOwn(db, after, t, result.ledger.Some?)
  {
    hide L.Inv, ReversePayment, SettlePayment, ProposeRun, Consistent, AwaitsBooking;
    if db.transactions[t].amount < 0 {
      ReturnBooksOwn(db, init, t);
    } else if db.transactions[t].amount > 0 {
      var proposed := db.(runs := db.runs[t := ProposeRun(db, t)]);
      NeverDeduped(db, t);
      ProposalAwaits(db, init, t);
      RunNonempty(proposed, init, t);
      if ProposeRun(db, t).decision == AutoMatch {
        SettleBooksOwn(proposed, init, t);
      } else {
        TracedOf(proposed, init, t);
        NothingCites(proposed, t);
      }
    }
  }

  lemma TracedOf(db: Db, init: seq<Projection>, t: nat)
    requires AwaitsBooking(db, init, t)
    ensures EntriesTraced(db)
  {
  }

  /** The figures of a tally that the reconciliation compares. */
  datatype Counts = Counts(handled: nat, settled: nat, other: OtherCounts)

  datatype OtherCounts = OtherCounts(automatic: nat, deduped: nat)

  /** How the match of a transaction ended, as the stored rows tell. */
  datatype Ending = NoAmount | Automatic | InReview | NoMatch | Doubled | Returned | TurnedDown

  ghost function EndingOf(db: Db, t: nat): Ending
    requires t < |db.transactions|
  {
    if db.transactions[t].amount == 0 then NoAmount
    else if db.transactions[t].amount < 0 then
      if exists e :: 0 <= e < |db.book.entries| && db.book.entries[e].transaction == t then Returned else TurnedDown
    else if t !in db.runs then TurnedDown
    else match db.runs[t].decision
      case AutoMatch => Automatic
      case NeedsReview => InReview
      case Unmatched => NoMatch
      case Deduped => Doubled
  }

  datatype Buckets = Buckets(automatic: nat, review: nat, unmatched: nat, rest: MoreBuckets)

  datatype MoreBuckets = MoreBuckets(doubled: nat, returned: nat, refused: seq<nat>)

  /** One more transaction in the bucket of its ending. */
  ghost function Bucketed(b: Buckets, ending: Ending, t: nat): Buckets
  {
    match ending
    case NoAmount => b
    case Automatic => b.(automatic := b.automatic + 1)
    case InReview => b.(review := b.review + 1)
    case NoMatch => b.(unmatched := b.unmatched + 1)
    case Doubled => b.(rest := b.rest.(doubled := b.rest.doubled + 1))
    case Returned => b.(rest := b.rest.(returned := b.rest.returned + 1))
    case TurnedDown => b.(rest := b.rest.(refused := b.rest.refused + [t]))
  }

  class Tally {
    var autoMatched: nat
    var needsReview: nat
    var unmatched: nat
    var deduped: nat
    var reversed: nat
    var settled: nat
    var refused: seq<nat>

    ghost predicate Untallied()
      reads this
    {
      Handled() == 0 && settled == 0 && autoMatched == 0 && reversed == 0 && deduped == 0 && refused == []
      && needsReview == 0 && unmatched == 0
    }

    function InBuckets(): Buckets
      reads this
    {
      Buckets(autoMatched, needsReview, unmatched, MoreBuckets(deduped, reversed, refused))
    }

    constructor ()
      ensures Untallied()
    {
      autoMatched, needsReview, unmatched, deduped, reversed, settled, refused := 0, 0, 0, 0, 0, 0, [];
    }

    /** Transactions that ended in some bucket. */
    function Handled(): nat
      reads this
    {
      autoMatched + needsReview + unmatched + deduped + reversed + |refused|
    }

    function Figures(): Counts
      reads this
    {
      Counts(Handled(), settled, OtherCounts(autoMatched + reversed, deduped))
    }

    /** Files one report. */
    method File(result: MatchResult)
      modifies this
      ensures Handled() == old(Handled()) + (if result.decision.Some? then 1 else 0) + (if result.event then 1 else 0)
      ensures autoMatched == old(autoMatched) + (if result.decision == Some(AutoMatch) then 1 else 0)
      ensures needsReview == old(needsReview) + (if result.decision == Some(NeedsReview) then 1 else 0)
      ensures unmatched == old(unmatched) + (if result.decision == Some(Unmatched) then 1 else 0)
      ensures deduped == old(deduped) + (if result.decision == Some(Deduped) then 1 else 0)
      ensures reversed == old(reversed) + (if result.event then 1 else 0)
      ensures settled == old(settled) + (if result.ledger.Some? then 1 else 0)
      ensures refused == old(refused)
    {
      if result.decision.Some? {
        match result.decision.value
        case AutoMatch => autoMatched := autoMatched + 1;
        case NeedsReview => needsReview := needsReview + 1;
        case Unmatched => unmatched := unmatched + 1;
        case Deduped => deduped := deduped + 1;
      }
      if result.event {
        reversed := reversed + 1;
      }
      if result.ledger.Some? {
        settled := settled + 1;
      }
    }
  }

  /** One more transaction handled, unless its amount is zero; `booked` more entries settled. */
  ghost predicate CountsMoved(before: Counts, after: Counts, amount: int, booked: int)
  {
    && after.handled == before.handled + (if amount == 0 then 0 else 1)
    && after.settled == before.settled + booked
    && after.other.automatic == before.other.automatic + booked
    && after.other.deduped == before.other.deduped
  }

  /**
   * Matches one untouched transaction in its own savepoint and counts what happened. A refused one
   * changes nothing; the uncaught engine error ends the run.
   */
  method MatchOne(store: Store, t: nat, tally: Tally) returns (crashed: bool)
    requires store.Valid() && Untouched(store.State(), t)
    modifies store`entries, store`rows, store`receivables, store`runs, tally
    ensures store.Valid()
    ensures crashed <==> RunMatch(old(store.State()), t).EngineError?
    ensures forall u | u in store.runs :: u in old(store.runs) || u == t
    ensures BooksOwn(old(store.State()), store.State(), t, |store.entries| > |old(store.entries)|)
    ensures store.State() == if RunMatch(old(store.State()), t).Done? then RunMatch(old(store.State()), t).db
                             else old(store.State())
    ensures !crashed ==>
      && CountsMoved(old(tally.Figures()), tally.Figures(), store.transactions[t].amount,
                     |store.entries| - |old(store.entries)|)
      && tally.refused == old(tally.refused) + (if RunMatch(old(store.State()), t).Done? then [] else [t])
      && tally.InBuckets() == Bucketed(old(tally.InBuckets()), EndingOf(store.State(), t), t)
  {
    hide Consistent, RunMatch, EndingOf;
    ghost var before := store.State();
    MatchRefusal(before, t);
    var code := store.MatchOrRollBack(t);
    if code == Raised(SplitError) {
      return true;
    }
    if code != Ok {
      UntouchedEnding(before, t);
      tally.refused := tally.refused + [t];
      return false;
    }
    MatchReports(before, store.init, t);
    MatchedEnding(before, store.init, t);
    tally.File(ResultOf(store.State(), t));
    return false;
  }

  lemma UntouchedEnding(db: Db, t: nat)
    requires Untouched(db, t) && db.transactions[t].amount != 0
    ensures EndingOf(db, t) == TurnedDown
  {
  }

  /** The report of a successful match tells its ending. */
  lemma MatchedEnding(db: Db, init: seq<Projection>, t: nat)
    requires Consistent(db, init) && Untouched(db, t) && RunMatch(db, t).Done?
    ensures var after := RunMatch(db, t).db;
            t < |after.transactions|
            && var result := ResultOf(after, t);
               match EndingOf(after, t)
               case NoAmount => result.decision.None? && !result.event
               case Automatic => result.decision == Some(AutoMatch) && !result.event
               case InReview => result.decision == Some(NeedsReview) && !result.event
               case NoMatch => result.decision == Some(Unmatched) && !result.event
               case Doubled => false
               case Returned => result.decision.None? && result.event
               case TurnedDown => false
  {
    hide Consistent, RunMatch;
    MatchReports(db, init, t);
    var after := RunMatch(db, t).db;
    if after.transactions[t].amount < 0 {
      assert after.book.entries[|db.book.entries|].transaction == t;
    }
  }

  /** The match of one transaction does not change how another one ended. */
  lemma EndingStays(before: Db, after: Db, t: nat, u: nat)
    requires u < |before.transactions| && u != t && after.transactions == before.transactions
    requires EvidenceLater(before, after) && forall v | v in after.runs :: v in before.runs || v == t
    requires BooksOwn(before, after, t, |after.book.entries| > |before.book.entries|)
    ensures EndingOf(after, u) == EndingOf(before, u)
  {
    if e :| 0 <= e < |before.book.entries| && before.book.entries[e].transaction == u {
      assert after.book.entries[e].transaction == u;
    }
    if e :| 0 <= e < |after.book.entries| && after.book.entries[e].transaction == u {
      assert e < |before.book.entries|;
    }
  }

  ghost function EndsAs(db: Db, b: nat, ending: Ending): nat -> bool
  {
    (t: nat) => t < |db.transactions| && db.transactions[t].bankAccount == b && EndingOf(db, t) == ending
  }

  /** The buckets of one bank account say how its transactions among `ids` ended. */
  ghost predicate BucketsTell(buckets: Buckets, b: nat, db: Db, ids: seq<nat>)
  {
    && buckets.automatic == Count(ids, EndsAs(db, b, Automatic))
    && buckets.review == Count(ids, EndsAs(db, b, InReview))
    && buckets.unmatched == Count(ids, EndsAs(db, b, NoMatch))
    && buckets.rest.doubled == Count(ids, EndsAs(db, b, Doubled))
    && buckets.rest.returned == Count(ids, EndsAs(db, b, Returned))
    && buckets.rest.refused == Keep(ids, EndsAs(db, b, TurnedDown))
  }

  lemma BucketsCarry(buckets: Buckets, b: nat, before: Db, after: Db, ids: seq<nat>)
    requires BucketsTell(buckets, b, before, ids) && after.transactions == before.transactions
    requires forall u | u in ids && u < |before.transactions| :: EndingOf(after, u) == EndingOf(before, u)
    ensures BucketsTell(buckets, b, after, ids)
  {
    hide EndingOf, Count, Keep;
    forall ending: Ending
      ensures Count(ids, EndsAs(after, b, ending)) == Count(ids, EndsAs(before, b, ending))
      ensures Keep(ids, EndsAs(after, b, ending)) == Keep(ids, EndsAs(before, b, ending))
    {
      forall i | 0 <= i < |ids| ensures EndsAs(after, b, ending)(ids[i]) == EndsAs(before, b, ending)(ids[i]) {
        assert ids[i] in ids;
      }
      SameCount(ids, EndsAs(after, b, ending), EndsAs(before, b, ending));
      KeepAgrees(ids, EndsAs(after, b, ending), EndsAs(before, b, ending));
    }
  }

  lemma BucketsOneMore(buckets: Buckets, b: nat, db: Db, order: seq<nat>, i: nat)
    requires i < |order| && order[i] < |db.transactions| && BucketsTell(buckets, b, db, order[..i])
    ensures BucketsTell(if db.transactions[order[i]].bankAccount == b
                        then Bucketed(buckets, EndingOf(db, order[i]), order[i]) else buckets,
                        b, db, order[..i + 1])
  {
    hide EndingOf, Count, Keep;
    forall ending: Ending
      ensures Count(order[..i + 1], EndsAs(db, b, ending))
           == Count(order[..i], EndsAs(db, b, ending)) + (if EndsAs(db, b, ending)(order[i]) then 1 else 0)
    {
      CountNext(order, i, EndsAs(db, b, ending));
    }
    KeepNext(order, i, EndsAs(db, b, TurnedDown));
  }

  lemma KeepNext(order: seq<nat>, i: nat, p: nat -> bool)
    requires i < |order|
    ensures Keep(order[..i + 1], p) == Keep(order[..i], p) + (if p(order[i]) then [order[i]] else [])
  {
    assert order[..i + 1][..i] == order[..i];
  }

  /** A transaction of amount zero is never refused. */
  lemma MatchRefusal(db: Db, t: nat)
    requires t < |db.transactions|
    ensures db.transactions[t].amount == 0 ==> RunMatch(db, t).Done?
    ensures RunMatch(db, t) != NotFound
  {
    hide L.Post, NamedPeriods, SettleSpec, Resolve;
  }

  // ---- The whole run ------------------------------------------------------------------------------------------

  ghost function Count<T>(xs: seq<T>, p: T -> bool): nat
  {
    if xs == [] then 0 else Count(xs[..|xs| - 1], p) + (if p(xs[|xs| - 1]) then 1 else 0)
  }

  lemma {:induction false} CountConcat<T>(xs: seq<T>, ys: seq<T>, p: T -> bool)
    ensures Count(xs + ys, p) == Count(xs, p) + Count(ys, p)
  {
    if ys == [] {
      assert xs + ys == xs;
    } else {
      var n := |ys| - 1;
      CountConcat(xs, ys[..n], p);
      assert (xs + ys)[..|xs + ys| - 1] == xs + ys[..n];
    }
  }

  lemma {:induction false} CountAll<T>(xs: seq<T>, p: T -> bool, value: bool)
    requires forall i | 0 <= i < |xs| :: p(xs[i]) == value
    ensures Count(xs, p) == if value then |xs| else 0
  {
    if xs != [] {
      CountAll(xs[..|xs| - 1], p, value);
    }
  }

  lemma CountNext<T>(xs: seq<T>, i: nat, p: T -> bool)
    requires i < |xs|
    ensures Count(xs[..i + 1], p) == Count(xs[..i], p) + (if p(xs[i]) then 1 else 0)
  {
    assert xs[..i + 1][..i] == xs[..i];
  }

  lemma {:induction false} CountAnyOrder<T>(xs: seq<T>, ys: seq<T>, p: T -> bool)
    requires multiset(xs) == multiset(ys)
    ensures Count(xs, p) == Count(ys, p)
  {
    assert |multiset(xs)| == |multiset(ys)|;
    if xs != [] {
      assert xs == [xs[0]] + xs[1..];
      assert xs[0] in multiset(ys);
      var i :| 0 <= i < |ys| && ys[i] == xs[0];
      assert ys == ys[..i] + ([ys[i]] + ys[i + 1..]);
      CountAnyOrder(xs[1..], ys[..i] + ys[i + 1..], p) by { WithoutOne(xs, ys, i); }
      CountConcat([xs[0]], xs[1..], p);
      CountConcat(ys[..i], [ys[i]] + ys[i + 1..], p);
      CountConcat([ys[i]], ys[i + 1..], p);
      CountConcat(ys[..i], ys[i + 1..], p);
    }
  }

  lemma WithoutOne<T>(xs: seq<T>, ys: seq<T>, i: nat)
    requires multiset(xs) == multiset(ys) && xs != [] && i < |ys| && ys[i] == xs[0]
    ensures multiset(xs[1..]) == multiset(ys[..i] + ys[i + 1..])
  {
    assert xs == [xs[0]] + xs[1..];
    assert ys == ys[..i] + ([ys[i]] + ys[i + 1..]);
    assert multiset(xs[1..]) == multiset(xs) - multiset{xs[0]};
    assert multiset(ys[..i] + ys[i + 1..]) == multiset(ys) - multiset{ys[i]};
  }

  ghost function OnAccount(transactions: seq<Transaction>, b: nat): nat -> bool
  {
    (t: nat) => t < |transactions| && transactions[t].bankAccount == b
  }

  ghost function ZeroOnAccount(transactions: seq<Transaction>, b: nat): nat -> bool
  {
    (t: nat) => t < |transactions| && transactions[t].bankAccount == b && transactions[t].amount == 0
  }

  ghost function EntryOnAccount(transactions: seq<Transaction>, b: nat): L.Entry -> bool
  {
    (e: L.Entry) => e.transaction < |transactions| && transactions[e.transaction].bankAccount == b
  }

  /** The day the bank booked, then the provider's id; the end marker keeps a prefix in front. */
  function MatchKey(transactions: seq<Transaction>): nat -> Key
  {
    (t: nat) => if t < |transactions|
                then [transactions[t].bookingDate] + Codes(transactions[t].providerId) + [-1, t as int]
                else []
  }

  function Codes(text: string): seq<int>
  {
    seq(|text|, i requires 0 <= i < |text| => text[i] as int)
  }

  function MatchOrder(transactions: seq<Transaction>, start: nat): seq<nat>
    requires start <= |transactions|
  {
    Sort(Range(start, |transactions|), MatchKey(transactions))
  }

  lemma OrderIsPermutation(transactions: seq<Transaction>, start: nat)
    requires start <= |transactions|
    ensures var order := MatchOrder(transactions, start);
            && multiset(order) == multiset(Range(start, |transactions|))
            && (forall i | 0 <= i < |order| :: start <= order[i] < |transactions|)
            && (forall i, j | 0 <= i < j < |order| :: order[i] != order[j])
            && (forall i, j | 0 <= i < j < |order| ::
                  && transactions[order[i]].bookingDate <= transactions[order[j]].bookingDate
                  && (transactions[order[i]].bookingDate == transactions[order[j]].bookingDate ==>
                        transactions[order[i]].providerId == transactions[order[j]].providerId
                        || TextBefore(transactions[order[i]].providerId, transactions[order[j]].providerId)))
  {
    hide MatchKey, TextBefore;
    var ids, key := Range(start, |transactions|), MatchKey(transactions);
    var order := MatchOrder(transactions, start);
    SortItems(ids, key);
    KeysDiffer(transactions, start);
    SortAscends(ids, key);
    forall i | 0 <= i < |order| ensures start <= order[i] < |transactions| {
      assert order[i] in order;
      assert order[i] in ids;
    }
    forall i, j | 0 <= i < j < |order|
      ensures order[i] != order[j] && transactions[order[i]].bookingDate <= transactions[order[j]].bookingDate
      ensures transactions[order[i]].bookingDate == transactions[order[j]].bookingDate ==>
        transactions[order[i]].providerId == transactions[order[j]].providerId
        || TextBefore(transactions[order[i]].providerId, transactions[order[j]].providerId)
    {
      assert Less(key(order[i]), key(order[j]));
      EarlierKey(transactions, order[i], order[j]);
    }
  }

  lemma KeysDiffer(transactions: seq<Transaction>, start: nat)
    requires start <= |transactions|
    ensures DistinctKeys(Range(start, |transactions|), MatchKey(transactions))
  {
    var ids, key := Range(start, |transactions|), MatchKey(transactions);
    forall i, j | 0 <= i < j < |ids| ensures key(ids[i]) != key(ids[j]) {
      LastOfKey(transactions, ids[i]);
      LastOfKey(transactions, ids[j]);
    }
  }

  lemma EarlierKey(transactions: seq<Transaction>, s: nat, t: nat)
    requires s < |transactions| && t < |transactions|
    requires Less(MatchKey(transactions)(s), MatchKey(transactions)(t))
    ensures s != t && transactions[s].bookingDate <= transactions[t].bookingDate
    ensures transactions[s].bookingDate == transactions[t].bookingDate ==>
      transactions[s].providerId == transactions[t].providerId
      || TextBefore(transactions[s].providerId, transactions[t].providerId)
  {
    hide TextBefore;
    var x, y := MatchKey(transactions)(s), MatchKey(transactions)(t);
    LessTotal(x, y);
    if x[0] == y[0] {
      var a, b := transactions[s].providerId, transactions[t].providerId;
      assert x[1..] == Codes(a) + [-1, s as int] && y[1..] == Codes(b) + [-1, t as int];
      CodesBefore(a, b, s, t);
    }
  }

  /** Of two different texts, the one that is smaller at the first difference, or ends there. */
  ghost predicate TextBefore(a: string, b: string)
  {
    exists k: nat :: k <= |a| && k < |b| && a[..k] == b[..k] && (k == |a| || a[k] < b[k])
  }

  lemma {:induction false} CodesBefore(a: string, b: string, s: nat, t: nat)
    requires Less(Codes(a) + [-1, s as int], Codes(b) + [-1, t as int])
    ensures a == b || TextBefore(a, b)
    decreases |a|
  {
    var x, y := Codes(a) + [-1, s as int], Codes(b) + [-1, t as int];
    if a == "" {
      assert b != "" ==> TextBefore(a, b) by {
        assert b != "" ==> a[..0] == b[..0];
      }
    } else if b != "" && a[0] == b[0] {
      assert x[1..] == Codes(a[1..]) + [-1, s as int] && y[1..] == Codes(b[1..]) + [-1, t as int];
      CodesBefore(a[1..], b[1..], s, t);
      if a[1..] == b[1..] {
        assert a == [a[0]] + a[1..] && b == [b[0]] + b[1..];
      } else {
        var k: nat :| k <= |a[1..]| && k < |b[1..]| && a[1..][..k] == b[1..][..k]
                      && (k == |a[1..]| || a[1..][k] < b[1..][k]);
        assert a[..k + 1] == [a[0]] + a[1..][..k] && b[..k + 1] == [b[0]] + b[1..][..k];
        assert k + 1 == |a| || a[k + 1] < b[k + 1];
      }
    } else {
      assert x[0] == a[0] as int;
      assert a[..0] == b[..0];
    }
  }

  lemma LastOfKey(transactions: seq<Transaction>, t: nat)
    requires t < |transactions|
    ensures var key := MatchKey(transactions)(t); key != [] && key[|key| - 1] == t
  {
  }

  /** Matching in the given order, each transaction on its own. */
  function MatchAll(db: Db, ids: seq<nat>): Db
  {
    if ids == [] then db
    else
      var before := MatchAll(db, ids[..|ids| - 1]);
      var step := RunMatch(before, ids[|ids| - 1]);
      if step.Done? then step.db else before
  }

  lemma MatchNext(db: Db, ids: seq<nat>, i: nat)
    requires i < |ids|
    ensures var step := RunMatch(MatchAll(db, ids[..i]), ids[i]);
            MatchAll(db, ids[..i + 1]) == if step.Done? then step.db else MatchAll(db, ids[..i])
  {
    assert ids[..i + 1][..i] == ids[..i];
  }

  /** The uncaught engine error strikes at place `i` of the order. */
  ghost predicate FailsAt(imported: Db, order: seq<nat>, i: nat)
    requires i < |order|
  {
    RunMatch(MatchAll(imported, order[..i]), order[i]).EngineError?
  }

  lemma {:induction false} MatchAllKeepsSplittable(db: Db, init: seq<Projection>, ids: seq<nat>)
    requires Consistent(db, init) && AllSplittable(db.book.receivables)
    ensures Consistent(MatchAll(db, ids), init) && AllSplittable(MatchAll(db, ids).book.receivables)
  {
    hide Consistent, AllSplittable, RunMatch;
    if ids != [] {
      var n := |ids| - 1;
      MatchAllKeepsSplittable(db, init, ids[..n]);
      if RunMatch(MatchAll(db, ids[..n]), ids[n]).Done? {
        SplittableStays(MatchAll(db, ids[..n]), init, ids[n]);
      }
    }
  }

  lemma SplittableNeverCrashes(imported: Db, init: seq<Projection>, order: seq<nat>)
    requires Consistent(imported, init) && AllSplittable(imported.book.receivables)
    ensures forall i: nat | i < |order| :: !FailsAt(imported, order, i)
  {
    hide Consistent, AllSplittable, RunMatch, MatchAll;
    forall i: nat | i < |order| ensures !FailsAt(imported, order, i) {
      MatchAllKeepsSplittable(imported, init, order[..i]);
      SplittableNoError(MatchAll(imported, order[..i]), init, order[i], Confirmed);
    }
  }

  /** What was stored before the run has no part in it; what arrives is untouched. */
  lemma ArrivalsUntouched(db: Db, init: seq<Projection>, transactions: seq<Transaction>)
    requires Consistent(db, init) && db.transactions <= transactions
    ensures forall t: nat | |db.transactions| <= t < |transactions| :: Untouched(db.(transactions := transactions), t)
  {
    hide L.Inv;
    forall t | t in db.runs ensures t < |db.transactions| {
      assert RunSound(db, t);
    }
    forall e | 0 <= e < |db.book.entries| ensures db.book.entries[e].transaction < |db.transactions| {
      assert EntryTraced(db, e);
    }
  }

  ghost predicate DistinctAccounts(accounts: seq<BankAccount>)
  {
    forall i, j | 0 <= i < j < |accounts| :: accounts[i].id != accounts[j].id
  }

  ghost predicate HasId(accounts: seq<BankAccount>, b: nat)
  {
    exists j :: 0 <= j < |accounts| && accounts[j].id == b
  }

  lemma HasIdNext(accounts: seq<BankAccount>, k: nat, b: nat)
    requires k < |accounts|
    ensures HasId(accounts[..k + 1], b) <==> HasId(accounts[..k], b) || b == accounts[k].id
  {
    if HasId(accounts[..k], b) {
      var j :| 0 <= j < k && accounts[..k][j].id == b;
      assert accounts[..k + 1][j].id == b;
    }
    assert accounts[..k + 1][k] == accounts[k];
  }

  /** The phase of every account so far, and whose movements have arrived. */
  ghost predicate PhasesCount(accounts: seq<BankAccount>, phases: map<nat, Phase>, transactions: seq<Transaction>,
                              start: nat)
  {
    && start <= |transactions|
    && (forall b :: b in phases <==> HasId(accounts, b))
    && (forall t | start <= t < |transactions| :: transactions[t].bankAccount in phases)
    && (forall b | b in phases ::
          ImportedCount(phases[b]) == Count(Range(start, |transactions|), OnAccount(transactions, b)))
  }

  function ImportedCount(phase: Phase): nat
  {
    if phase.Skipped? then 0 else |phase.ids|
  }

  lemma PhaseCounted(accounts: seq<BankAccount>, k: nat, phases: map<nat, Phase>, before: seq<Transaction>,
                     after: seq<Transaction>, start: nat, phase: Phase)
    requires DistinctAccounts(accounts) && k < |accounts|
    requires PhasesCount(accounts[..k], phases, before, start)
    requires before <= after && ImportedCount(phase) == |after| - |before|
    requires forall i | |before| <= i < |after| :: after[i].bankAccount == accounts[k].id
    ensures PhasesCount(accounts[..k + 1], phases[accounts[k].id := phase], after, start)
  {
    var b0, phases' := accounts[k].id, phases[accounts[k].id := phase];
    var old', new' := Range(start, |before|), Range(|before|, |after|);
    assert Range(start, |after|) == old' + new';
    assert !HasId(accounts[..k], b0);
    forall b: nat ensures HasId(accounts[..k + 1], b) <==> HasId(accounts[..k], b) || b == b0 {
      HasIdNext(accounts, k, b);
    }
    forall b | b in phases' ensures ImportedCount(phases'[b]) == Count(Range(start, |after|), OnAccount(after, b)) {
      CountConcat(old', new', OnAccount(after, b));
      CountAll(new', OnAccount(after, b), b == b0);
      SameCount(old', OnAccount(before, b), OnAccount(after, b));
      if b == b0 {
        CountAll(old', OnAccount(before, b), false);
      }
    }
  }

  lemma {:induction false} SameCount<T>(xs: seq<T>, p: T -> bool, q: T -> bool)
    requires forall i | 0 <= i < |xs| :: p(xs[i]) == q(xs[i])
    ensures Count(xs, p) == Count(xs, q)
  {
    if xs != [] {
      SameCount(xs[..|xs| - 1], p, q);
    }
  }

  /** A fresh tally for every bank account. */
  ghost predicate Separate(tallies: map<nat, Tally>)
  {
    forall b, c | b in tallies && c in tallies && b != c :: tallies[b] != tallies[c]
  }

  /** What the tally of one bank account says after some of its transactions. */
  ghost predicate Reconciles(counts: Counts, b: nat, transactions: seq<Transaction>, ids: seq<nat>,
                             entries: seq<L.Entry>)
  {
    && counts.handled + Count(ids, ZeroOnAccount(transactions, b)) == Count(ids, OnAccount(transactions, b))
    && counts.settled == Count(entries, EntryOnAccount(transactions, b))
    && counts.other == OtherCounts(counts.settled, 0)
  }

  method FreshTallies(phases: map<nat, Phase>) returns (tallies: map<nat, Tally>)
    ensures tallies.Keys == phases.Keys && Separate(tallies)
    ensures forall b | b in tallies :: fresh(tallies[b]) && tallies[b].Untallied()
  {
    tallies := map[];
    var left := phases.Keys;
    while left != {}
      invariant left <= phases.Keys && tallies.Keys == phases.Keys - left && Separate(tallies)
      invariant forall b | b in tallies :: fresh(tallies[b]) && tallies[b].Untallied()
    {
      var b :| b in left;
      var tally := new Tally();
      tallies := tallies[b := tally];
      left := left - {b};
    }
  }

  /** Some account with a standing consent pulled the row as a new movement. */
  ghost predicate PulledBy(transactions: seq<Transaction>, accounts: seq<BankAccount>,
                           pulls: map<nat, seq<Transaction>>, now: int, row: Transaction, id: nat)
    requires forall j | 0 <= j < |accounts| :: accounts[j].id in pulls
  {
    exists j: nat, k: nat :: PulledAt(transactions, accounts, pulls, now, row, id, j, k)
  }

  ghost predicate PulledAt(transactions: seq<Transaction>, accounts: seq<BankAccount>,
                           pulls: map<nat, seq<Transaction>>, now: int, row: Transaction, id: nat, j: nat, k: nat)
    requires forall j | 0 <= j < |accounts| :: accounts[j].id in pulls
  {
    && j < |accounts| && ConsentStands(accounts[j], now)
    && var pull := pulls[accounts[j].id];
       k < |pull| && Arrives(transactions, accounts[j].id, pull, k) && row == Filed(pull[k], id, accounts[j].id)
  }

  /** The new rows are the new movements of the accounts with a standing consent, none missing. */
  ghost predicate AllArrived(transactions: seq<Transaction>, accounts: seq<BankAccount>,
                             pulls: map<nat, seq<Transaction>>, now: int, after: seq<Transaction>)
    requires forall j | 0 <= j < |accounts| :: accounts[j].id in pulls
  {
    && transactions <= after
    && (forall t: nat | |transactions| <= t < |after| :: PulledBy(transactions, accounts, pulls, now, after[t], t))
    && forall j: nat, k: nat | j < |accounts| && ConsentStands(accounts[j], now)
                               && Arrives(transactions, accounts[j].id, pulls[accounts[j].id], k) ::
         exists t: nat ::
           |transactions| <= t < |after| && PulledAt(transactions, accounts, pulls, now, after[t], t, j, k)
  }

  /** What other accounts pulled does not matter to this one. */
  lemma ArrivesAlike(transactions: seq<Transaction>, before: seq<Transaction>, b: nat, pull: seq<Transaction>, k: nat)
    requires transactions <= before && forall t | |transactions| <= t < |before| :: before[t].bankAccount != b
    ensures Arrives(before, b, pull, k) <==> Arrives(transactions, b, pull, k)
  {
    forall t | t in before && t.bankAccount == b ensures t in transactions {
      var i :| 0 <= i < |before| && before[i] == t;
      assert transactions[i] == t;
    }
    forall t | t in transactions ensures t in before {
      var i :| 0 <= i < |transactions| && transactions[i] == t;
      assert before[i] == t;
    }
  }

  lemma PulledLater(transactions: seq<Transaction>, accounts: seq<BankAccount>, pulls: map<nat, seq<Transaction>>,
                    now: int, n: nat, row: Transaction, id: nat, j: nat, k: nat)
    requires n <= |accounts| && forall j | 0 <= j < |accounts| :: accounts[j].id in pulls
    ensures j < n ==> (PulledAt(transactions, accounts[..n], pulls, now, row, id, j, k)
                       <==> PulledAt(transactions, accounts, pulls, now, row, id, j, k))
    ensures PulledAt(transactions, accounts[..n], pulls, now, row, id, j, k) ==> j < n
  {
  }

  /** One more account, with its own new rows behind the others'. */
  lemma NextAccountArrived(transactions: seq<Transaction>, accounts: seq<BankAccount>,
                           pulls: map<nat, seq<Transaction>>, now: int, n: nat, before: seq<Transaction>,
                           sources: seq<nat>, after: seq<Transaction>)
    requires n + 1 == |accounts| && DistinctAccounts(accounts)
    requires forall j | 0 <= j < |accounts| :: accounts[j].id in pulls
    requires AllArrived(transactions, accounts[..n], pulls, now, before) && ConsentStands(accounts[n], now)
    requires ArrivedAs(before, accounts[n].id, pulls[accounts[n].id], after, sources)
    ensures AllArrived(transactions, accounts, pulls, now, after)
  {
    hide Arrives, Filed, ConsentStands, PulledAt;
    var b, pull := accounts[n].id, pulls[accounts[n].id];
    forall t | |transactions| <= t < |before| ensures before[t].bankAccount != b {
      assert PulledBy(transactions, accounts[..n], pulls, now, before[t], t);
      var j: nat, k: nat :| PulledAt(transactions, accounts[..n], pulls, now, before[t], t, j, k);
      PulledOn(transactions, accounts[..n], pulls, now, before[t], t, j, k);
    }
    forall k: nat ensures Arrives(before, b, pull, k) <==> Arrives(transactions, b, pull, k) {
      ArrivesAlike(transactions, before, b, pull, k);
    }
    forall t: nat | |transactions| <= t < |after| ensures PulledBy(transactions, accounts, pulls, now, after[t], t) {
      if t < |before| {
        assert PulledBy(transactions, accounts[..n], pulls, now, before[t], t);
        var j: nat, k: nat :| PulledAt(transactions, accounts[..n], pulls, now, before[t], t, j, k);
        PulledLater(transactions, accounts, pulls, now, n, before[t], t, j, k);
      } else {
        var i: nat := t - |before|;
        assert sources[i] in sources;
        PulledHere(transactions, accounts, pulls, now, n, t, sources[i]);
      }
    }
    forall j: nat, k: nat | j < |accounts| && ConsentStands(accounts[j], now)
                            && Arrives(transactions, accounts[j].id, pulls[accounts[j].id], k)
      ensures exists t: nat ::
                |transactions| <= t < |after| && PulledAt(transactions, accounts, pulls, now, after[t], t, j, k)
    {
      if j < n {
        assert accounts[..n][j] == accounts[j];
        var t: nat :| |transactions| <= t < |before|
          && PulledAt(transactions, accounts[..n], pulls, now, before[t], t, j, k);
        PulledLater(transactions, accounts, pulls, now, n, before[t], t, j, k);
        assert after[t] == before[t];
      } else {
        assert k in sources;
        var i: nat :| i < |sources| && sources[i] == k;
        PulledHere(transactions, accounts, pulls, now, n, |before| + i, k);
        assert PulledAt(transactions, accounts, pulls, now, after[|before| + i], |before| + i, j, k);
      }
    }
  }

  lemma PulledOn(transactions: seq<Transaction>, accounts: seq<BankAccount>, pulls: map<nat, seq<Transaction>>,
                 now: int, row: Transaction, id: nat, j: nat, k: nat)
    requires forall j | 0 <= j < |accounts| :: accounts[j].id in pulls
    requires PulledAt(transactions, accounts, pulls, now, row, id, j, k)
    ensures j < |accounts| && row.bankAccount == accounts[j].id
  {
  }

  lemma PulledHere(transactions: seq<Transaction>, accounts: seq<BankAccount>, pulls: map<nat, seq<Transaction>>,
                   now: int, n: nat, id: nat, k: nat)
    requires n < |accounts| && forall j | 0 <= j < |accounts| :: accounts[j].id in pulls
    requires ConsentStands(accounts[n], now) && k < |pulls[accounts[n].id]|
    requires Arrives(transactions, accounts[n].id, pulls[accounts[n].id], k)
    ensures PulledAt(transactions, accounts, pulls, now, Filed(pulls[accounts[n].id][k], id, accounts[n].id), id, n, k)
  {
  }

  /** Without a standing consent nothing more is pulled. */
  lemma SameAccountsArrived(transactions: seq<Transaction>, accounts: seq<BankAccount>,
                            pulls: map<nat, seq<Transaction>>, now: int, n: nat, before: seq<Transaction>)
    requires n + 1 == |accounts| && forall j | 0 <= j < |accounts| :: accounts[j].id in pulls
    requires AllArrived(transactions, accounts[..n], pulls, now, before) && !ConsentStands(accounts[n], now)
    ensures AllArrived(transactions, accounts, pulls, now, before)
  {
    hide Arrives, Filed, ConsentStands, PulledAt;
    forall t: nat | |transactions| <= t < |before| ensures PulledBy(transactions, accounts, pulls, now, before[t], t) {
      assert PulledBy(transactions, accounts[..n], pulls, now, before[t], t);
      var j: nat, k: nat :| PulledAt(transactions, accounts[..n], pulls, now, before[t], t, j, k);
      PulledLater(transactions, accounts, pulls, now, n, before[t], t, j, k);
    }
    forall j: nat, k: nat | j < |accounts| && ConsentStands(accounts[j], now)
                            && Arrives(transactions, accounts[j].id, pulls[accounts[j].id], k)
      ensures exists t: nat ::
                |transactions| <= t < |before| && PulledAt(transactions, accounts, pulls, now, before[t], t, j, k)
    {
      assert accounts[..n][j] == accounts[j];
      var t: nat :| |transactions| <= t < |before|
        && PulledAt(transactions, accounts[..n], pulls, now, before[t], t, j, k);
      PulledLater(transactions, accounts, pulls, now, n, before[t], t, j, k);
    }
  }

  /**
   * The phase of one account: why it was skipped, or its new rows and how many of the pulled
   * movements were known.
   */
  ghost predicate PhaseIs(account: BankAccount, pull: seq<Transaction>, now: int, transactions: seq<Transaction>,
                          start: nat, phase: Phase)
  {
    if account.consentExpires.None? then phase == Skipped(ConsentMissing)
    else if account.consentExpires.value <= now then phase == Skipped(ConsentExpired)
    else
      && phase.Imported? && |phase.ids| + phase.duplicates == |pull|
      && (forall i, j | 0 <= i < j < |phase.ids| :: phase.ids[i] < phase.ids[j])
      && forall t: nat :: t in phase.ids <==> start <= t < |transactions| && transactions[t].bankAccount == account.id
  }

  /** Rows of other accounts leave a phase as it is. */
  lemma PhaseStays(account: BankAccount, pull: seq<Transaction>, now: int, before: seq<Transaction>,
                   after: seq<Transaction>, start: nat, phase: Phase)
    requires before <= after && PhaseIs(account, pull, now, before, start, phase)
    requires forall t | |before| <= t < |after| :: after[t].bankAccount != account.id
    ensures PhaseIs(account, pull, now, after, start, phase)
  {
  }

  /** The ids of one import. */
  lemma PhaseBegins(account: BankAccount, pull: seq<Transaction>, now: int, before: seq<Transaction>,
                    after: seq<Transaction>, start: nat, phase: Phase)
    requires before <= after && start <= |before|
    requires forall t | start <= t < |before| :: before[t].bankAccount != account.id
    requires forall t | |before| <= t < |after| :: after[t].bankAccount == account.id
    requires phase.Skipped? <==> !ConsentStands(account, now)
    requires phase.Skipped? ==>
               phase.reason == (if account.consentExpires.None? then ConsentMissing else ConsentExpired)
    requires phase.Skipped? ==> after == before
    requires phase.Imported? ==> phase.ids == Range(|before|, |after|) && |phase.ids| + phase.duplicates == |pull|
    ensures PhaseIs(account, pull, now, after, start, phase)
  {
    if phase.Imported? {
      forall t: nat ensures t in phase.ids <==> |before| <= t < |after| {
        if |before| <= t < |after| {
          assert phase.ids[t - |before|] == t;
        }
      }
    }
  }

  /** Importing for all accounts, one after the other. */
  method ImportPhases(store: Store, accounts: seq<BankAccount>, pulls: map<nat, seq<Transaction>>, now: int)
    returns (phases: map<nat, Phase>)
    requires store.Valid() && DistinctAccounts(accounts)
    requires forall j | 0 <= j < |accounts| :: accounts[j].id in pulls
    modifies store`transactions
    ensures store.Valid() && old(store.transactions) <= store.transactions
    ensures PhasesCount(accounts, phases, store.transactions, |old(store.transactions)|)
    ensures AllArrived(old(store.transactions), accounts, pulls, now, store.transactions)
    ensures forall j | 0 <= j < |accounts| :: accounts[j].id in phases
              && PhaseIs(accounts[j], pulls[accounts[j].id], now, store.transactions, |old(store.transactions)|,
                         phases[accounts[j].id])
    ensures UniqueMovements(old(store.transactions)) ==> UniqueMovements(store.transactions)
  {
    hide Consistent, Import, PhasesCount, UniqueMovements, AllArrived, PhaseIs, ConsentStands, Known;
    phases := map[];
    NoPhases(store.transactions);
    ghost var start := store.transactions;
    var k := 0;
    assert accounts[..0] == [];
    NobodyArrived(start, pulls, now);
    while k < |accounts|
      invariant 0 <= k <= |accounts|
      invariant store.Valid() && start <= store.transactions
      invariant PhasesCount(accounts[..k], phases, store.transactions, |start|)
      invariant AllArrived(start, accounts[..k], pulls, now, store.transactions)
      invariant forall j | 0 <= j < k :: accounts[j].id in phases
                  && PhaseIs(accounts[j], pulls[accounts[j].id], now, store.transactions, |start|,
                             phases[accounts[j].id])
      invariant UniqueMovements(start) ==> UniqueMovements(store.transactions)
    {
      ghost var before := store.transactions;
      var phase := ImportTransactions(store, accounts[k], pulls[accounts[k].id], now);
      PullGrows(before, accounts[k].id, pulls[accounts[k].id]);
      PhaseCounted(accounts, k, phases, before, store.transactions, |start|, phase);
      ArrivedNext(start, accounts, pulls, now, k, before, store.transactions);
      PhasesNext(accounts, pulls, now, k, phases, before, store.transactions, |start|, phase);
      phases := phases[accounts[k].id := phase];
      k := k + 1;
    }
    assert accounts[..k] == accounts;
  }

  lemma PullGrows(before: seq<Transaction>, b: nat, pull: seq<Transaction>)
    ensures var after := Import(before, b, pull);
            && before <= after && (UniqueMovements(before) ==> UniqueMovements(after))
            && forall t | |before| <= t < |after| :: after[t].bankAccount == b
  {
    ImportStoresOnce(before, b, pull);
  }

  lemma NobodyArrived(transactions: seq<Transaction>, pulls: map<nat, seq<Transaction>>, now: int)
    ensures AllArrived(transactions, [], pulls, now, transactions)
  {
  }

  lemma ArrivedNext(start: seq<Transaction>, accounts: seq<BankAccount>, pulls: map<nat, seq<Transaction>>, now: int,
                    k: nat, before: seq<Transaction>, after: seq<Transaction>)
    requires DistinctAccounts(accounts) && k < |accounts| && forall j | 0 <= j < |accounts| :: accounts[j].id in pulls
    requires AllArrived(start, accounts[..k], pulls, now, before)
    requires after == if ConsentStands(accounts[k], now)
                      then Import(before, accounts[k].id, pulls[accounts[k].id])
                      else before
    ensures AllArrived(start, accounts[..k + 1], pulls, now, after)
  {
    hide AllArrived, ArrivedAs, ConsentStands, Import;
    var some := accounts[..k + 1];
    assert some[..k] == accounts[..k] && some[k] == accounts[k];
    if ConsentStands(accounts[k], now) {
      ImportArrives(before, accounts[k].id, pulls[accounts[k].id]);
      var sources: seq<nat> :| ArrivedAs(before, accounts[k].id, pulls[accounts[k].id], after, sources);
      NextAccountArrived(start, some, pulls, now, k, before, sources, after);
    } else {
      SameAccountsArrived(start, some, pulls, now, k, before);
    }
  }

  lemma PhasesNext(accounts: seq<BankAccount>, pulls: map<nat, seq<Transaction>>, now: int, k: nat,
                   phases: map<nat, Phase>, before: seq<Transaction>, after: seq<Transaction>, start: nat, phase: Phase)
    requires DistinctAccounts(accounts) && k < |accounts| && forall j | 0 <= j < |accounts| :: accounts[j].id in pulls
    requires PhasesCount(accounts[..k], phases, before, start) && before <= after
    requires forall t | |before| <= t < |after| :: after[t].bankAccount == accounts[k].id
    requires phase.Skipped? <==> !ConsentStands(accounts[k], now)
    requires phase.Skipped? ==>
               phase.reason == (if accounts[k].consentExpires.None? then ConsentMissing else ConsentExpired)
    requires phase.Skipped? ==> after == before
    requires phase.Imported? ==>
               phase.ids == Range(|before|, |after|) && |phase.ids| + phase.duplicates == |pulls[accounts[k].id]|
    requires forall j | 0 <= j < k :: accounts[j].id in phases
               && PhaseIs(accounts[j], pulls[accounts[j].id], now, before, start, phases[accounts[j].id])
    ensures var phases' := phases[accounts[k].id := phase];
            forall j | 0 <= j < k + 1 :: accounts[j].id in phases'
              && PhaseIs(accounts[j], pulls[accounts[j].id], now, after, start, phases'[accounts[j].id])
  {
    hide PhaseIs, ConsentStands;
    forall t | start <= t < |before| ensures before[t].bankAccount != accounts[k].id {
      var j :| 0 <= j < k && accounts[..k][j].id == before[t].bankAccount;
      assert accounts[j].id != accounts[k].id;
    }
    PhaseBegins(accounts[k], pulls[accounts[k].id], now, before, after, start, phase);
    forall j | 0 <= j < k
      ensures PhaseIs(accounts[j], pulls[accounts[j].id], now, after, start, phases[accounts[j].id])
    {
      PhaseStays(accounts[j], pulls[accounts[j].id], now, before, after, start, phases[accounts[j].id]);
    }
  }

  lemma NoPhases(transactions: seq<Transaction>)
    ensures PhasesCount([], map[], transactions, |transactions|)
  {
  }

  /** One more transaction: its entry, if any, is counted for its own bank account. */
  lemma EntriesNext(transactions: seq<Transaction>, start: nat, before: seq<L.Entry>, after: seq<L.Entry>, t: nat,
                    b: nat)
    requires start <= |before| && before <= after && |after| <= |before| + 1 && t < |transactions|
    requires |after| > |before| ==> after[|before|].transaction == t
    ensures Count(after[start..], EntryOnAccount(transactions, b))
         == Count(before[start..], EntryOnAccount(transactions, b))
            + (if transactions[t].bankAccount == b then |after| - |before| else 0)
  {
    if |after| > |before| {
      assert after[start..][..|before| - start] == before[start..];
    } else {
      assert after == before;
    }
  }

  /** Tallies move with the transaction just matched, on its bank account only. */
  lemma CountsNext(counts: map<nat, Counts>, counts': map<nat, Counts>, db: Db, after: Db, order: seq<nat>, i: nat,
                   start: nat)
    requires i < |order| && order[i] < |db.transactions| && db.transactions == after.transactions
    requires counts.Keys == counts'.Keys && db.transactions[order[i]].bankAccount in counts
    requires start <= |db.book.entries| && BooksOwn(db, after, order[i], |after.book.entries| > |db.book.entries|)
    requires forall b | b in counts :: Reconciles(counts[b], b, db.transactions, order[..i], db.book.entries[start..])
    requires forall b | b in counts && b != db.transactions[order[i]].bankAccount :: counts'[b] == counts[b]
    requires var b := db.transactions[order[i]].bankAccount;
             CountsMoved(counts[b], counts'[b], db.transactions[order[i]].amount,
                         |after.book.entries| - |db.book.entries|)
    ensures start <= |after.book.entries|
    ensures forall b | b in counts ::
              Reconciles(counts'[b], b, db.transactions, order[..i + 1], after.book.entries[start..])
  {
    forall b | b in counts
      ensures Reconciles(counts'[b], b, db.transactions, order[..i + 1], after.book.entries[start..])
    {
      CountNext(order, i, ZeroOnAccount(db.transactions, b));
      CountNext(order, i, OnAccount(db.transactions, b));
      EntriesNext(db.transactions, start, db.book.entries, after.book.entries, order[i], b);
    }
  }

  /** Where the matching phase stands after `i` transactions. */
  ghost predicate Progress(store: Store, tallies: map<nat, Tally>, imported: Db, order: seq<nat>, i: nat)
    reads store, tallies.Values
  {
    && i <= |order|
    && store.Valid() && store.transactions == imported.transactions && imported.book.entries <= store.entries
    && store.State() == MatchAll(imported, order[..i])
    && (forall j | i <= j < |order| :: Untouched(store.State(), order[j]))
    && (forall b | b in tallies ::
          Reconciles(tallies[b].Figures(), b, imported.transactions, order[..i],
                     store.entries[|imported.book.entries|..]))
    && (forall b | b in tallies :: BucketsTell(tallies[b].InBuckets(), b, store.State(), order[..i]))
  }

  ghost function BucketsOf(tallies: map<nat, Tally>): map<nat, Buckets>
    reads tallies.Values
  {
    map b | b in tallies :: tallies[b].InBuckets()
  }

  ghost function Figures(tallies: map<nat, Tally>): map<nat, Counts>
    reads tallies.Values
  {
    map b | b in tallies :: tallies[b].Figures()
  }

  /** Matches the next transaction and files it with the tally of its bank account. */
  method MatchTurn(store: Store, tallies: map<nat, Tally>, ghost imported: Db, order: seq<nat>, i: nat)
    returns (crashed: bool)
    requires Separate(tallies) && i < |order| && Progress(store, tallies, imported, order, i)
    requires forall k, l | 0 <= k < l < |order| :: order[k] != order[l]
    requires order[i] < |store.transactions| && store.transactions[order[i]].bankAccount in tallies
    modifies store`entries, store`rows, store`receivables, store`runs, tallies[store.transactions[order[i]].bankAccount]
    ensures store.Valid() && imported.book.entries <= store.entries
    ensures crashed <==> FailsAt(imported, order, i)
    ensures !crashed ==> Progress(store, tallies, imported, order, i + 1)
  {
    hide Progress, Consistent, Reconciles, MatchAll, RunMatch, Untouched, BooksOwn, CountsMoved, Tally.Figures;
    hide Tally.InBuckets, BucketsTell, EndingOf, Bucketed;
    ProgressParts(store, tallies, imported, order, i);
    ghost var before, counts, buckets := store.State(), Figures(tallies), BucketsOf(tallies);
    TallyOf(tallies, store.transactions[order[i]].bankAccount);
    crashed := MatchOne(store, order[i], tallies[store.transactions[order[i]].bankAccount]);
    OwnPrefix(before, store.State(), order[i]);
    if !crashed {
      StillUntouched(before, store.State(), order, i);
      CountsNext(counts, Figures(tallies), before, store.State(), order, i, |imported.book.entries|);
      StepEvidence(before, store.State(), order[i]);
      BucketsNext(buckets, BucketsOf(tallies), before, store.State(), order, i);
      MatchNext(imported, order, i);
      ProgressMade(store, tallies, imported, order, i + 1);
    }
  }

  /** A step of the matching phase only adds evidence. */
  lemma StepEvidence(before: Db, after: Db, t: nat)
    requires after == if RunMatch(before, t).Done? then RunMatch(before, t).db else before
    ensures EvidenceLater(before, after)
  {
    hide RunMatch;
    if RunMatch(before, t).Done? {
      RunMatchEvidence(before, t);
    }
  }

  /** The buckets move with the transaction just matched, on its bank account only. */
  lemma BucketsNext(buckets: map<nat, Buckets>, buckets': map<nat, Buckets>, db: Db, after: Db, order: seq<nat>, i: nat)
    requires i < |order| && order[i] < |db.transactions| && db.transactions == after.transactions
    requires forall k, l | 0 <= k < l < |order| :: order[k] != order[l]
    requires EvidenceLater(db, after) && forall v | v in after.runs :: v in db.runs || v == order[i]
    requires BooksOwn(db, after, order[i], |after.book.entries| > |db.book.entries|)
    requires buckets.Keys == buckets'.Keys
    requires forall b | b in buckets :: BucketsTell(buckets[b], b, db, order[..i])
    requires forall b | b in buckets && b != db.transactions[order[i]].bankAccount :: buckets'[b] == buckets[b]
    requires var b := db.transactions[order[i]].bankAccount;
             b in buckets && buckets'[b] == Bucketed(buckets[b], EndingOf(after, order[i]), order[i])
    ensures forall b | b in buckets' :: BucketsTell(buckets'[b], b, after, order[..i + 1])
  {
    hide BucketsTell, EndingOf, Bucketed, BooksOwn;
    forall b | b in buckets' ensures BucketsTell(buckets'[b], b, after, order[..i + 1]) {
      forall u | u in order[..i] && u < |db.transactions| ensures EndingOf(after, u) == EndingOf(db, u) {
        EndingStays(db, after, order[i], u);
      }
      BucketsCarry(buckets[b], b, db, after, order[..i]);
      BucketsOneMore(buckets[b], b, after, order, i);
    }
  }

  lemma ProgressMade(store: Store, tallies: map<nat, Tally>, imported: Db, order: seq<nat>, i: nat)
    requires i <= |order|
    requires store.Valid() && store.transactions == imported.transactions && imported.book.entries <= store.entries
    requires store.State() == MatchAll(imported, order[..i])
    requires forall j | i <= j < |order| :: Untouched(store.State(), order[j])
    requires forall b | b in Figures(tallies) ::
               Reconciles(Figures(tallies)[b], b, imported.transactions, order[..i],
                          store.entries[|imported.book.entries|..])
    requires forall b | b in BucketsOf(tallies) :: BucketsTell(BucketsOf(tallies)[b], b, store.State(), order[..i])
    ensures Progress(store, tallies, imported, order, i)
  {
    hide Consistent, Reconciles, MatchAll, Untouched, BucketsTell;
    forall b | b in tallies ensures BucketsTell(tallies[b].InBuckets(), b, store.State(), order[..i]) {
      assert BucketsOf(tallies)[b] == tallies[b].InBuckets();
    }
    forall b | b in tallies
      ensures Reconciles(tallies[b].Figures(), b, imported.transactions, order[..i],
                         store.entries[|imported.book.entries|..])
    {
      assert Figures(tallies)[b] == tallies[b].Figures();
    }
  }

  lemma TallyOf(tallies: map<nat, Tally>, b: nat)
    requires b in tallies
    ensures tallies[b] in tallies.Values
  {
  }

  lemma OwnPrefix(before: Db, after: Db, t: nat)
    requires BooksOwn(before, after, t, |after.book.entries| > |before.book.entries|)
    ensures before.book.entries <= after.book.entries
  {
  }

  method MatchImported(store: Store, tallies: map<nat, Tally>, ghost imported: Db, order: seq<nat>)
    returns (crashed: bool)
    requires Separate(tallies) && Progress(store, tallies, imported, order, 0)
    requires forall k, l | 0 <= k < l < |order| :: order[k] != order[l]
    requires forall k | 0 <= k < |order| ::
               order[k] < |store.transactions| && store.transactions[order[k]].bankAccount in tallies
    modifies store`entries, store`rows, store`receivables, store`runs, tallies.Values
    ensures store.Valid() && imported.book.entries <= store.entries
    ensures crashed <==> exists i: nat :: i < |order| && FailsAt(imported, order, i)
    ensures !crashed ==> Progress(store, tallies, imported, order, |order|)
  {
    hide Progress, Consistent, Separate, FailsAt;
    crashed := false;
    var i := 0;
    ProgressParts(store, tallies, imported, order, 0);
    while i < |order| && !crashed
      invariant 0 <= i <= |order|
      invariant store.Valid() && store.transactions == old(store.transactions) && imported.book.entries <= store.entries
      invariant !crashed ==> Progress(store, tallies, imported, order, i)
      invariant crashed <==> exists j: nat :: j < i && FailsAt(imported, order, j)
    {
      crashed := MatchTurn(store, tallies, imported, order, i);
      i := i + 1;
    }
  }

  lemma ProgressParts(store: Store, tallies: map<nat, Tally>, imported: Db, order: seq<nat>, i: nat)
    requires Progress(store, tallies, imported, order, i)
    ensures store.Valid() && store.transactions == imported.transactions && imported.book.entries <= store.entries
    ensures forall j | i <= j < |order| :: Untouched(store.State(), order[j])
    ensures store.State() == MatchAll(imported, order[..i])
    ensures forall b | b in Figures(tallies) ::
              Reconciles(Figures(tallies)[b], b, imported.transactions, order[..i],
                         store.entries[|imported.book.entries|..])
    ensures forall b | b in BucketsOf(tallies) :: BucketsTell(BucketsOf(tallies)[b], b, store.State(), order[..i])
    ensures i == |order| ==> store.State() == MatchAll(imported, order)
    ensures i == |order| ==> forall b | b in tallies :: BucketsTell(tallies[b].InBuckets(), b, store.State(), order)
    ensures i == |order| ==> forall b | b in tallies ::
              Reconciles(tallies[b].Figures(), b, imported.transactions, order,
                         store.entries[|imported.book.entries|..])
  {
    assert order[..|order|] == order;
  }

  lemma ProgressStarts(store: Store, tallies: map<nat, Tally>, order: seq<nat>)
    requires store.Valid()
    requires forall j | 0 <= j < |order| :: Untouched(store.State(), order[j])
    requires forall b | b in tallies :: tallies[b].Untallied()
    ensures Progress(store, tallies, store.State(), order, 0)
  {
    assert order[..0] == [];
    NothingTallied(tallies, store.transactions, store.entries);
    NothingMatched(store.State());
  }

  /**
   * Pull every bank account, then match what arrived, in the order in which the bank booked. The
   * uncaught engine error ends the run exactly when it strikes at some arrival, after those before it;
   * with splittable debts it never does. Otherwise every bank account reconciles: what was imported
   * is what was matched, left for review, left unmatched, returned or refused, plus the zero amounts;
   * and what was settled is exactly the new ledger entries of its transactions.
   */
  method Sync(store: Store, accounts: seq<BankAccount>, pulls: map<nat, seq<Transaction>>, now: int)
    returns (crashed: bool, phases: map<nat, Phase>, tallies: map<nat, Tally>)
    requires store.Valid() && DistinctAccounts(accounts)
    requires forall j | 0 <= j < |accounts| :: accounts[j].id in pulls
    modifies store`transactions, store`entries, store`rows, store`receivables, store`runs
    ensures store.Valid() && old(store.transactions) <= store.transactions && old(store.entries) <= store.entries
    ensures PhasesCount(accounts, phases, store.transactions, |old(store.transactions)|)
    ensures AllArrived(old(store.transactions), accounts, pulls, now, store.transactions)
    ensures forall j | 0 <= j < |accounts| :: accounts[j].id in phases
              && PhaseIs(accounts[j], pulls[accounts[j].id], now, store.transactions, |old(store.transactions)|,
                         phases[accounts[j].id])
    ensures tallies.Keys == phases.Keys
    ensures var imported := old(store.State()).(transactions := store.transactions);
            var order := MatchOrder(store.transactions, |old(store.transactions)|);
            crashed <==> exists i: nat :: i < |order| && FailsAt(imported, order, i)
    ensures AllSplittable(old(store.receivables)) ==> !crashed
    ensures !crashed ==>
      store.State() == MatchAll(old(store.State()).(transactions := store.transactions),
                                MatchOrder(store.transactions, |old(store.transactions)|))
    ensures !crashed ==> forall b | b in phases ::
      && tallies[b].Handled()
         + Count(Range(|old(store.transactions)|, |store.transactions|), ZeroOnAccount(store.transactions, b))
         == ImportedCount(phases[b])
      && tallies[b].settled == tallies[b].autoMatched + tallies[b].reversed
         == Count(store.entries[|old(store.entries)|..], EntryOnAccount(store.transactions, b))
      && tallies[b].deduped == 0
      && BucketsTell(tallies[b].InBuckets(), b, store.State(),
                     MatchOrder(store.transactions, |old(store.transactions)|))
  {
    hide AllArrived, PhaseIs, BucketsTell;
    hide Consistent, PhasesCount, MatchOrder, MatchAll, Reconciles, Progress, Separate, Untouched, Tally.Untallied;
    hide FailsAt, AllSplittable;
    var start := |store.transactions|;
    ghost var before := store.State();
    phases := ImportPhases(store, accounts, pulls, now);
    tallies := FreshTallies(phases);
    var order := MatchOrder(store.transactions, start);
    ghost var imported := store.State();
    OrderIsPermutation(store.transactions, start);
    ArrivalsUntouched(before, store.init, store.transactions);
    PhasesKnown(accounts, phases, store.transactions, start);
    ProgressStarts(store, tallies, order);
    if AllSplittable(imported.book.receivables) {
      SplittableNeverCrashes(imported, store.init, order);
    }
    crashed := MatchImported(store, tallies, imported, order);
    if !crashed {
      ProgressParts(store, tallies, imported, order, |order|);
      forall b | b in phases
        ensures tallies[b].Handled() + Count(Range(start, |store.transactions|), ZeroOnAccount(store.transactions, b))
                == ImportedCount(phases[b])
        ensures tallies[b].settled == tallies[b].autoMatched + tallies[b].reversed
                == Count(store.entries[|before.book.entries|..], EntryOnAccount(store.transactions, b))
        ensures tallies[b].deduped == 0
        ensures BucketsTell(tallies[b].InBuckets(), b, store.State(), order)
      {
        Reconciled(tallies[b].Figures(), b, store.transactions, order, start, store.entries[|before.book.entries|..]);
        PhaseOf(accounts, phases, store.transactions, start, b);
      }
    }
  }

  lemma PhasesKnown(accounts: seq<BankAccount>, phases: map<nat, Phase>, transactions: seq<Transaction>, start: nat)
    requires PhasesCount(accounts, phases, transactions, start)
    ensures start <= |transactions| && forall t | start <= t < |transactions| :: transactions[t].bankAccount in phases
  {
  }

  lemma PhaseOf(accounts: seq<BankAccount>, phases: map<nat, Phase>, transactions: seq<Transaction>, start: nat, b: nat)
    requires PhasesCount(accounts, phases, transactions, start) && b in phases
    ensures start <= |transactions|
    ensures ImportedCount(phases[b]) == Count(Range(start, |transactions|), OnAccount(transactions, b))
  {
  }

  lemma NothingTallied(tallies: map<nat, Tally>, transactions: seq<Transaction>, entries: seq<L.Entry>)
    requires forall b | b in tallies :: tallies[b].Untallied()
    ensures forall b | b in tallies :: Reconciles(tallies[b].Figures(), b, transactions, [], entries[|entries|..])
  {
  }

  lemma NothingMatched(db: Db)
    ensures MatchAll(db, []) == db
  {
  }

  lemma StillUntouched(before: Db, after: Db, order: seq<nat>, i: nat)
    requires i < |order| && forall k, l | 0 <= k < l < |order| :: order[k] != order[l]
    requires after.transactions == before.transactions
    requires forall u | u in after.runs :: u in before.runs || u == order[i]
    requires BooksOwn(before, after, order[i], |after.book.entries| > |before.book.entries|)
    requires forall j | i <= j < |order| :: Untouched(before, order[j])
    ensures forall j | i < j < |order| :: Untouched(after, order[j])
  {
  }

  lemma Reconciled(counts: Counts, b: nat, transactions: seq<Transaction>, order: seq<nat>, start: nat,
                   entries: seq<L.Entry>)
    requires start <= |transactions| && order == MatchOrder(transactions, start)
    requires Reconciles(counts, b, transactions, order, entries)
    ensures counts.handled + Count(Range(start, |transactions|), ZeroOnAccount(transactions, b))
         == Count(Range(start, |transactions|), OnAccount(transactions, b))
    ensures counts.settled == Count(entries, EntryOnAccount(transactions, b))
    ensures counts.other == OtherCounts(counts.settled, 0)
  {
    OrderIsPermutation(transactions, start);
    CountAnyOrder(order, Range(start, |transactions|), ZeroOnAccount(transactions, b));
    CountAnyOrder(order, Range(start, |transactions|), OnAccount(transactions, b));
  }
}
