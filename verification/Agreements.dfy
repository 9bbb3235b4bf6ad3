/** Days on which a cost may not be passed to a renter, for want of a sufficient agreement. */
module Agreements {
  import opened Numbers
  import opened Rows
  import opened DaySpans

  datatype Agreement = Agreement(from: int, to: Option<int>, agreed: bool, named: set<string>, newCostClause: bool)
  {
    predicate Holds(day: int) { from <= day && (to.None? || day < to.value) }
  }

  /** What the cost asks of an agreement. */
  datatype Cost = Cost(namingRequired: bool, catalogueId: string, isNew: bool)

  /** The first agreement in force decides. */
  function Active(agreements: seq<Agreement>, day: int): Option<Agreement>
  {
    if agreements == [] then None
    else if agreements[0].Holds(day) then Some(agreements[0])
    else Active(agreements[1..], day)
  }

  predicate Insufficient(agreements: seq<Agreement>, cost: Cost, day: int)
  {
    var active := Active(agreements, day);
    || active.None?
    || !active.value.agreed
    || (cost.namingRequired && cost.catalogueId !in active.value.named)
    || (cost.isNew && !active.value.newCostClause)
  }

  /**
   * No agreement is in force, or the first that is does not agree the allocation, does not name a cost
   * that must be named, or has no clause for a new one.
   */
  ghost predicate Lacks(agreements: seq<Agreement>, cost: Cost, day: int)
  {
    || (forall i | 0 <= i < |agreements| :: !InForce(agreements[i], day))
    || exists i :: 0 <= i < |agreements| && InForce(agreements[i], day)
                   && (forall j | 0 <= j < i :: !InForce(agreements[j], day))
                   && (!agreements[i].agreed
                       || (cost.namingRequired && cost.catalogueId !in agreements[i].named)
                       || (cost.isNew && !agreements[i].newCostClause))
  }

  ghost predicate InForce(agreement: Agreement, day: int)
  {
    agreement.from <= day && (agreement.to == None || day < agreement.to.value)
  }

  lemma {:induction false} ActiveIsFirst(agreements: seq<Agreement>, day: int)
    ensures match Active(agreements, day)
      case Some(a) => exists i :: 0 <= i < |agreements| && agreements[i] == a && InForce(a, day)
                                  && forall j | 0 <= j < i :: !InForce(agreements[j], day)
      case None => forall i | 0 <= i < |agreements| :: !InForce(agreements[i], day)
  {
    if agreements != [] && !agreements[0].Holds(day) {
      ActiveIsFirst(agreements[1..], day);
      if Active(agreements, day).Some? {
        var i :| 0 <= i < |agreements[1..]| && agreements[1..][i] == Active(agreements, day).value
                 && InForce(agreements[1..][i], day) && forall j | 0 <= j < i :: !InForce(agreements[1..][j], day);
        forall j | 0 <= j < i + 1 ensures !InForce(agreements[j], day) {
          assert j > 0 ==> agreements[j] == agreements[1..][j - 1];
        }
        assert agreements[i + 1] == Active(agreements, day).value;
      } else {
        forall i | 0 <= i < |agreements| ensures !InForce(agreements[i], day) {
          assert i > 0 ==> agreements[i] == agreements[1..][i - 1];
        }
      }
    }
  }

  lemma InsufficientIs(agreements: seq<Agreement>, cost: Cost, day: int)
    ensures Insufficient(agreements, cost, day) <==> Lacks(agreements, cost, day)
  {
    hide InForce;
    ActiveIsFirst(agreements, day);
    if Active(agreements, day).Some? {
      var i :| 0 <= i < |agreements| && agreements[i] == Active(agreements, day).value && InForce(agreements[i], day)
               && forall j | 0 <= j < i :: !InForce(agreements[j], day);
      forall k | 0 <= k < |agreements| && InForce(agreements[k], day)
                 && (forall j | 0 <= j < k :: !InForce(agreements[j], day))
        ensures k == i
      {
      }
    }
  }

  /** The days of the window on which the tenancy runs. */
  function Occupied(from: int, to: Option<int>, window: Span): Span
  {
    Span(Max(window.from, from), if to.None? then window.to else Min(window.to, to.value))
  }

  /** The bad days, ascending. */
  method BadDays(agreements: seq<Agreement>, cost: Cost, occupied: Span) returns (days: seq<int>)
    ensures forall i, j | 0 <= i < j < |days| :: days[i] < days[j]
    ensures forall day :: day in days <==> occupied.Holds(day) && Insufficient(agreements, cost, day)
  {
    days := [];
    var day := occupied.from;
    while day < occupied.to
      invariant occupied.from <= day && (day <= occupied.to || day == occupied.from)
      invariant forall i, j | 0 <= i < j < |days| :: days[i] < days[j]
      invariant forall d :: d in days <==> occupied.from <= d < day && Insufficient(agreements, cost, d)
      decreases occupied.to - day
    {
      assert forall i | 0 <= i < |days| :: days[i] in days;
      if Insufficient(agreements, cost, day) {
        days := days + [day];
      }
      day := day + 1;
    }
  }

  /** Appending a later day keeps runs maximal: it lengthens the last run or opens a new one. */
  function Extended(runs: seq<Span>, day: int): seq<Span>
  {
    if runs == [] || runs[|runs| - 1].to != day then runs + [Span(day, day + 1)]
    else runs[..|runs| - 1] + [Span(runs[|runs| - 1].from, day + 1)]
  }

  /** A day behind the last run opens a new one. */
  lemma NewRun(runs: seq<Span>, low: int, day: int)
    requires Canonical(runs) && Within(runs, low, day) && low <= day
    requires runs != [] ==> runs[|runs| - 1].to != day
    ensures Canonical(Extended(runs, day)) && Within(Extended(runs, day), low, day + 1)
    ensures forall d :: Covered(d, Extended(runs, day)) <==> Covered(d, runs) || d == day
  {
    hide Canonical, Within, Covered;
    var next := Span(day, day + 1);
    assert Extended(runs, day) == runs + [next];
    LaterRun(runs, low, day);
    CoverDay(runs, next, day);
  }

  lemma LaterRun(runs: seq<Span>, low: int, day: int)
    requires Canonical(runs) && Within(runs, low, day) && low <= day
    requires runs != [] ==> runs[|runs| - 1].to != day
    ensures Canonical(runs + [Span(day, day + 1)]) && Within(runs + [Span(day, day + 1)], low, day + 1)
  {
    var after, n := runs + [Span(day, day + 1)], |runs|;
    assert after[n] == Span(day, day + 1);
    forall i | 0 <= i < n ensures after[i] == runs[i] && runs[i].to < day {
      assert runs[i].NonEmpty() && runs[n - 1].NonEmpty() && runs[i].to <= day;
    }
  }

  lemma CoverDay(runs: seq<Span>, next: Span, day: int)
    requires next == Span(day, day + 1)
    ensures forall d :: Covered(d, runs + [next]) <==> Covered(d, runs) || d == day
  {
    hide Covered;
    forall d ensures Covered(d, runs + [next]) <==> Covered(d, runs) || d == day {
      CoveredConcat(d, runs, [next]);
      CoveredOne(d, next);
    }
  }

  lemma CoveredOne(day: int, span: Span)
    ensures Covered(day, [span]) <==> span.Holds(day)
  {
    HoldsCovered([span], 0, day);
  }

  /** A day right behind the last run lengthens it. */
  lemma LongerRun(runs: seq<Span>, low: int, day: int)
    requires Canonical(runs) && Within(runs, low, day) && runs != [] && runs[|runs| - 1].to == day
    ensures Canonical(Extended(runs, day)) && Within(Extended(runs, day), low, day + 1)
    ensures forall d :: Covered(d, Extended(runs, day)) <==> Covered(d, runs) || d == day
  {
    var n := |runs| - 1;
    var last := Span(runs[n].from, day + 1);
    assert runs == runs[..n] + [runs[n]];
    assert runs[n].NonEmpty();
    forall d ensures Covered(d, runs[..n] + [last]) <==> Covered(d, runs) || d == day {
      CoveredConcat(d, runs[..n], [last]);
      CoveredConcat(d, runs[..n], [runs[n]]);
      CoveredOne(d, last);
      CoveredOne(d, runs[n]);
    }
  }

  lemma ExtendKeepsCanonical(runs: seq<Span>, low: int, day: int)
    requires Canonical(runs) && Within(runs, low, day) && low <= day
    ensures Canonical(Extended(runs, day)) && Within(Extended(runs, day), low, day + 1)
    ensures forall d :: Covered(d, Extended(runs, day)) <==> Covered(d, runs) || d == day
  {
    hide Canonical, Within, Covered, Extended;
    if runs == [] || runs[|runs| - 1].to != day {
      NewRun(runs, low, day);
    } else {
      LongerRun(runs, low, day);
    }
  }

  /** Ascending days as maximal runs. */
  method Compress(days: seq<int>) returns (runs: seq<Span>)
    requires forall i, j | 0 <= i < j < |days| :: days[i] < days[j]
    ensures Canonical(runs)
    ensures forall d :: Covered(d, runs) <==> d in days
  {
    runs := [];
    var i := 0;
    NothingCompressed(days);
    while i < |days|
      invariant 0 <= i <= |days|
      invariant Compressed(days, i, runs)
    {
      CompressNext(days, i, runs);
      if runs == [] || runs[|runs| - 1].to != days[i] {
        runs := runs + [Span(days[i], days[i] + 1)];
      } else {
        var previous := runs[|runs| - 1];
        runs := runs[..|runs| - 1];
        runs := runs + [Span(previous.from, days[i] + 1)];
      }
      i := i + 1;
    }
    assert days[..i] == days;
  }

  /** The runs of the first `i` days. */
  ghost predicate Compressed(days: seq<int>, i: nat, runs: seq<Span>)
    requires i <= |days|
  {
    && Canonical(runs) && (forall d :: Covered(d, runs) <==> d in days[..i])
    && (if i == 0 then runs == [] else Within(runs, days[0], days[i - 1] + 1))
  }

  lemma NothingCompressed(days: seq<int>)
    ensures Compressed(days, 0, [])
  {
  }

  lemma CompressNext(days: seq<int>, i: nat, runs: seq<Span>)
    requires i < |days| && forall j, k | 0 <= j < k < |days| :: days[j] < days[k]
    requires Compressed(days, i, runs)
    ensures Compressed(days, i + 1, Extended(runs, days[i]))
  {
    hide Canonical, Covered, Extended;
    ExtendKeepsCanonical(runs, days[0], days[i]);
    assert days[..i + 1] == days[..i] + [days[i]];
  }

  /**
   * The reported periods are ordered, apart and maximal, and hold exactly the occupied days of the
   * window on which no agreement in force is sufficient.
   */
  method AgreementFailurePeriods(agreements: seq<Agreement>, cost: Cost, from: int, to: Option<int>, window: Span)
    returns (periods: seq<Span>)
    ensures Canonical(periods)
    ensures forall day :: Covered(day, periods) <==>
              window.from <= day < window.to && from <= day && (to == None || day < to.value)
              && Lacks(agreements, cost, day)
  {
    forall day ensures Insufficient(agreements, cost, day) <==> Lacks(agreements, cost, day) {
      InsufficientIs(agreements, cost, day);
    }
    var days := BadDays(agreements, cost, Occupied(from, to, window));
    periods := Compress(days);
  }

  /** No other list of periods, ordered and apart, describes the same days. */
  lemma PeriodsAreUnique(agreements: seq<Agreement>, cost: Cost, occupied: Span, periods: seq<Span>, other: seq<Span>)
    requires Canonical(periods) && Canonical(other)
    requires forall day :: Covered(day, periods) <==> occupied.Holds(day) && Lacks(agreements, cost, day)
    requires forall day :: Covered(day, other) <==> occupied.Holds(day) && Lacks(agreements, cost, day)
    ensures periods == other
  {
    CanonicalUnique(periods, other);
  }
}
