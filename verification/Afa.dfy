/** Depreciation and loan arithmetic of the AfA engine, in exact cents. */
module Afa {
  import opened Numbers
  import opened PrincipalSplit

  // ---- Rounding ---------------------------------------------------------------------------------------

  /** Half up, away from zero on a tie. */
  function HalfUp(n: int, d: int): int
    requires d > 0
  {
    if n >= 0 then (2 * n + d) / (2 * d) else -((-2 * n + d) / (2 * d))
  }

  /** `q` is nearest to n/d, and on a tie the one farther from zero. */
  ghost predicate Nearest(q: int, n: int, d: int)
    requires d > 0
  {
    if n >= 0 then -d <= 2 * (n - d * q) < d else -d < 2 * (n - d * q) <= d
  }

  lemma HalfUpNear(n: int, d: int)
    requires d > 0
    ensures Nearest(HalfUp(n, d), n, d)
  {
    var m := if n >= 0 then n else -n;
    var q := (2 * m + d) / (2 * d);
    assert 2 * m + d == 2 * d * q + (2 * m + d) % (2 * d);
    assert 2 * d * q == 2 * (d * q);
    assert d * -q == -(d * q);
  }

  lemma HalfUpNearest(n: int, d: int)
    requires d > 0
    ensures Nearest(HalfUp(n, d), n, d)
    ensures forall q :: Nearest(q, n, d) ==> q == HalfUp(n, d)
  {
    hide HalfUp, Nearest;
    HalfUpNear(n, d);
    forall p | Nearest(p, n, d) ensures p == HalfUp(n, d) {
      NearestUnique(p, HalfUp(n, d), n, d);
    }
  }

  lemma NearestUnique(p: int, q: int, n: int, d: int)
    requires d > 0 && Nearest(p, n, d) && Nearest(q, n, d)
    ensures p == q
  {
    if p < q {
      Grows(p + 1, q, d);
      Distribute(d, p, 1);
    } else if q < p {
      Grows(q + 1, p, d);
      Distribute(d, q, 1);
    }
  }

  lemma HalfUpMonotone(n: int, m: int, d: int)
    requires d > 0 && n <= m
    ensures HalfUp(n, d) <= HalfUp(m, d)
  {
    HalfUpNearest(n, d);
    HalfUpNearest(m, d);
    var p, q := HalfUp(n, d), HalfUp(m, d);
    if q < p {
      Grows(q + 1, p, d);
      Distribute(d, q, 1);
    }
  }

  // ---- The loan -----------------------------------------------------------------------------------------

  const MONTHLY := 120000

  datatype Terms = Terms(nominal: int, interestBp: int, repaymentBp: int)

  /** A payment besides the annuity, before the given installment. */
  datatype Special = NoSpecial | Before(installment: int, amount: int)

  datatype Loan = HardBlock | Schedule(annuity: int, interests: seq<int>, repayments: seq<int>, closing: int)

  function Annuity(t: Terms): int
  {
    HalfUp(t.nominal * (t.interestBp + t.repaymentBp), MONTHLY)
  }

  function SpecialAt(s: Special, installment: int): int
  {
    if s.Before? && s.installment == installment then s.amount else 0
  }

  /** The balance on which installment `k` computes its interest. */
  function Bearing(t: Terms, s: Special, k: nat): int
    requires k >= 1
    decreases k, 0
  {
    Balance(t, s, k - 1) - SpecialAt(s, k)
  }

  function Interest(t: Terms, s: Special, k: nat): int
    requires k >= 1
    decreases k, 1
  {
    HalfUp(Bearing(t, s, k) * t.interestBp, MONTHLY)
  }

  /** The balance after `k` installments. */
  function Balance(t: Terms, s: Special, k: nat): int
    decreases k, 2
  {
    if k == 0 then t.nominal else Bearing(t, s, k) - (Annuity(t) - Interest(t, s, k))
  }

  predicate Blocked(t: Terms, s: Special, k: nat)
    requires k >= 1
  {
    Annuity(t) - Interest(t, s, k) <= 0
  }

  ghost function Interests(t: Terms, s: Special, count: nat): seq<int>
  {
    seq(count, i requires 0 <= i < count => Interest(t, s, i + 1))
  }

  ghost function Repayments(t: Terms, s: Special, count: nat): seq<int>
  {
    seq(count, i requires 0 <= i < count => Annuity(t) - Interest(t, s, i + 1))
  }

  /** The month-by-month loop; an installment that repays nothing blocks the whole schedule. */
  method RunLoan(t: Terms, count: nat, s: Special) returns (loan: Loan)
    ensures loan.HardBlock? <==> exists k: nat :: 1 <= k <= count && Blocked(t, s, k)
    ensures loan.Schedule? ==>
              loan == Schedule(Annuity(t), Interests(t, s, count), Repayments(t, s, count), Balance(t, s, count))
  {
    var annuity, balance := Annuity(t), t.nominal;
    var interests, repayments := [], [];
    var installment := 1;
    while installment <= count
      invariant 1 <= installment <= count + 1
      invariant balance == Balance(t, s, installment - 1)
      invariant interests == Interests(t, s, installment - 1)
      invariant repayments == Repayments(t, s, installment - 1)
      invariant forall k: nat | 1 <= k < installment :: !Blocked(t, s, k)
    {
      if s.Before? && s.installment == installment {
        balance := balance - s.amount;
      }
      var interest := HalfUp(balance * t.interestBp, MONTHLY);
      var repayment := annuity - interest;
      assert interest == Interest(t, s, installment);
      if repayment <= 0 {
        assert Blocked(t, s, installment);
        return HardBlock;
      }
      interests := interests + [interest];
      repayments := repayments + [repayment];
      balance := balance - repayment;
      installment := installment + 1;
    }
    return Schedule(annuity, interests, repayments, balance);
  }

  /**
   * The figures of a loan: the annuity is the nearest cent to a twelfth of interest and initial repayment
   * on the nominal; each month bears the nearest cent to a twelfth of the interest on what is left after a
   * special repayment before it; and the rest of the annuity is repaid, unless there is none.
   */
  lemma LoanFigures(t: Terms, s: Special, k: nat)
    requires k >= 1
    ensures Nearest(Annuity(t), t.nominal * (t.interestBp + t.repaymentBp), 120000)
    ensures Balance(t, s, 0) == t.nominal
    ensures var bearing := Balance(t, s, k - 1) - (if s.Before? && s.installment == k then s.amount else 0);
            && Nearest(Interest(t, s, k), bearing * t.interestBp, 120000)
            && Balance(t, s, k) == bearing - (Annuity(t) - Interest(t, s, k))
            && (Blocked(t, s, k) <==> Annuity(t) <= Interest(t, s, k))
  {
    HalfUpNearest(t.nominal * (t.interestBp + t.repaymentBp), 120000);
    HalfUpNearest(Bearing(t, s, k) * t.interestBp, 120000);
  }

  lemma InterestMonotone(t: Terms, a: int, b: int)
    requires t.interestBp >= 0 && a <= b
    ensures HalfUp(a * t.interestBp, MONTHLY) <= HalfUp(b * t.interestBp, MONTHLY)
  {
    Grows(a, b, t.interestBp);
    HalfUpMonotone(a * t.interestBp, b * t.interestBp, MONTHLY);
  }

  /** Once the first installment repays something, every later one repays at least as much. */
  lemma {:induction false} InterestFalls(t: Terms, s: Special, k: nat)
    requires t.interestBp >= 0 && (s.Before? ==> s.amount >= 0) && !Blocked(t, s, 1) && k >= 1
    ensures Interest(t, s, k) <= Interest(t, s, 1)
    ensures !Blocked(t, s, k)
  {
    if k > 1 {
      InterestFalls(t, s, k - 1);
      BearingFalls(t, s, k);
      InterestMonotone(t, Bearing(t, s, k), Bearing(t, s, k - 1));
    }
  }

  lemma BearingFalls(t: Terms, s: Special, k: nat)
    requires k > 1 && !Blocked(t, s, k - 1) && (s.Before? ==> s.amount >= 0)
    ensures Bearing(t, s, k) <= Bearing(t, s, k - 1)
  {
    assert Balance(t, s, k - 1) == Bearing(t, s, k - 1) - (Annuity(t) - Interest(t, s, k - 1));
  }

  /** So a schedule can only be blocked by its first installment. */
  lemma BlockedOnlyAtFirst(t: Terms, s: Special, count: nat)
    requires t.interestBp >= 0 && (s.Before? ==> s.amount >= 0) && count >= 1
    ensures (exists k: nat :: 1 <= k <= count && Blocked(t, s, k)) <==> Blocked(t, s, 1)
  {
    if !Blocked(t, s, 1) {
      forall k: nat | 1 <= k <= count ensures !Blocked(t, s, k) {
        InterestFalls(t, s, k);
      }
    }
  }

  // ---- Two runs of one loan -------------------------------------------------------------------------------

  /** With the special repayment, no balance and no month's interest is higher than without. */
  lemma {:induction false} SpecialNeverCostsMore(t: Terms, s: Special, k: nat)
    requires t.interestBp >= 0 && s.Before? && s.amount >= 0 && k >= 1
    ensures Bearing(t, s, k) <= Bearing(t, NoSpecial, k)
    ensures Interest(t, s, k) <= Interest(t, NoSpecial, k)
  {
    if k > 1 {
      SpecialNeverCostsMore(t, s, k - 1);
      StepDown(t, s, k);
    }
    InterestMonotone(t, Bearing(t, s, k), Bearing(t, NoSpecial, k));
  }

  lemma StepDown(t: Terms, s: Special, k: nat)
    requires k > 1 && s.Before? && s.amount >= 0
    requires Bearing(t, s, k - 1) <= Bearing(t, NoSpecial, k - 1)
        && Interest(t, s, k - 1) <= Interest(t, NoSpecial, k - 1)
    ensures Bearing(t, s, k) <= Bearing(t, NoSpecial, k)
  {
    assert Balance(t, s, k - 1) == Bearing(t, s, k - 1) - (Annuity(t) - Interest(t, s, k - 1));
    assert Balance(t, NoSpecial, k - 1) == Bearing(t, NoSpecial, k - 1) - (Annuity(t) - Interest(t, NoSpecial, k - 1));
  }

  ghost function TotalInterest(t: Terms, s: Special, count: nat): int
  {
    if count == 0 then 0 else TotalInterest(t, s, count - 1) + Interest(t, s, count)
  }

  ghost function TotalRepayment(t: Terms, s: Special, count: nat): int
  {
    if count == 0 then 0 else TotalRepayment(t, s, count - 1) + (Annuity(t) - Interest(t, s, count))
  }

  lemma {:induction false} TotalsAreSums(t: Terms, s: Special, count: nat)
    ensures Sum(Interests(t, s, count)) == TotalInterest(t, s, count)
    ensures Sum(Repayments(t, s, count)) == TotalRepayment(t, s, count)
  {
    if count > 0 {
      TotalsAreSums(t, s, count - 1);
      assert Interests(t, s, count) == Interests(t, s, count - 1) + [Interest(t, s, count)];
      assert Repayments(t, s, count) == Repayments(t, s, count - 1) + [Annuity(t) - Interest(t, s, count)];
      SumAppend(Interests(t, s, count - 1), Interest(t, s, count));
      SumAppend(Repayments(t, s, count - 1), Annuity(t) - Interest(t, s, count));
    }
  }

  /** What the special repayment has taken off by installment `k`. */
  ghost function SpecialBy(s: Special, k: int): int
  {
    if s.Before? && 1 <= s.installment <= k then s.amount else 0
  }

  lemma {:induction false} BalanceIsRemainder(t: Terms, s: Special, count: nat)
    ensures Balance(t, s, count) == t.nominal - SpecialBy(s, count) - TotalRepayment(t, s, count)
    ensures TotalRepayment(t, s, count) - TotalRepayment(t, NoSpecial, count)
         == TotalInterest(t, NoSpecial, count) - TotalInterest(t, s, count)
  {
    hide Annuity, Interest;
    if count > 0 {
      BalanceIsRemainder(t, s, count - 1);
    }
  }

  /** The figures of the comparison; None where the program raises KeyError. */
  datatype Comparison = Unavailable | Compared(saving: int, totalRepayment: int, closing: int, baselineClosing: int)

  method CompareSpecial(t: Terms, count: nat, s: Special) returns (result: Comparison)
    requires s.Before?
    ensures result.Unavailable? <==>
      exists k: nat :: 1 <= k <= count && (Blocked(t, s, k) || Blocked(t, NoSpecial, k))
    ensures result.Compared? ==>
      result == Compared(TotalInterest(t, NoSpecial, count) - TotalInterest(t, s, count),
                         TotalRepayment(t, s, count) + s.amount, Balance(t, s, count), Balance(t, NoSpecial, count))
  {
    var loan := RunLoan(t, count, s);
    var baseline := RunLoan(t, count, NoSpecial);
    if loan.HardBlock? || baseline.HardBlock? {
      return Unavailable;
    }
    TotalsAreSums(t, s, count);
    TotalsAreSums(t, NoSpecial, count);
    return Compared(Sum(baseline.interests) - Sum(loan.interests), Sum(loan.repayments) + s.amount, loan.closing,
                    baseline.closing);
  }

  /**
   * Two runs of one loan: if the baseline is not blocked, neither is the special run; no month's
   * interest is higher; and the closing balances differ by the special repayment, if it falls inside
   * the schedule, plus the interest saved, which is never negative. The comparison is unavailable
   * exactly when the first baseline installment repays nothing.
   */
  lemma SpecialRepaymentComparison(t: Terms, count: nat, s: Special)
    requires t.interestBp >= 0 && s.Before? && s.amount >= 0
    ensures (exists k: nat :: 1 <= k <= count && (Blocked(t, s, k) || Blocked(t, NoSpecial, k)))
       <==> count >= 1 && Blocked(t, NoSpecial, 1)
    ensures forall k: nat | 1 <= k <= count :: Interest(t, s, k) <= Interest(t, NoSpecial, k)
    ensures Balance(t, NoSpecial, count) - Balance(t, s, count)
         == SpecialBy(s, count) + (TotalInterest(t, NoSpecial, count) - TotalInterest(t, s, count))
    ensures TotalInterest(t, NoSpecial, count) >= TotalInterest(t, s, count)
    ensures Balance(t, s, count) + (TotalRepayment(t, s, count) + SpecialBy(s, count)) == t.nominal
  {
    forall k: nat | 1 <= k <= count
      ensures Interest(t, s, k) <= Interest(t, NoSpecial, k)
      ensures Blocked(t, s, k) ==> Blocked(t, NoSpecial, k)
    {
      SpecialNeverCostsMore(t, s, k);
    }
    if count >= 1 {
      BlockedOnlyAtFirst(t, NoSpecial, count);
    }
    BalanceIsRemainder(t, s, count);
    BalanceIsRemainder(t, NoSpecial, count);
    InterestTotals(t, s, count);
  }

  /**
   * A loan without repayment is always blocked, so that its comparison always fails; a loan that
   * repays a cent a month, over the nominal, never is.
   */
  lemma FirstInstallment(t: Terms)
    ensures t.repaymentBp == 0 ==> Blocked(t, NoSpecial, 1)
    ensures t.nominal >= 0 && t.interestBp >= 0 && t.nominal * t.repaymentBp >= MONTHLY ==> !Blocked(t, NoSpecial, 1)
  {
    var interest, repayment := t.nominal * t.interestBp, t.nominal * t.repaymentBp;
    assert Bearing(t, NoSpecial, 1) == t.nominal;
    assert Annuity(t) == HalfUp(interest + repayment, MONTHLY) by {
      Distribute(t.nominal, t.interestBp, t.repaymentBp);
    }
    if t.nominal >= 0 && t.interestBp >= 0 && repayment >= MONTHLY {
      Grows(0, t.interestBp, t.nominal);
      HalfUpMonotone(interest + MONTHLY, interest + repayment, MONTHLY);
      assert HalfUp(interest + MONTHLY, MONTHLY) == HalfUp(interest, MONTHLY) + 1;
    }
  }

  lemma {:induction false} InterestTotals(t: Terms, s: Special, count: nat)
    requires t.interestBp >= 0 && s.Before? && s.amount >= 0
    ensures TotalInterest(t, s, count) <= TotalInterest(t, NoSpecial, count)
  {
    if count > 0 {
      InterestTotals(t, s, count - 1);
      SpecialNeverCostsMore(t, s, count);
    }
  }

  /**
   * The reported total repayment and the closing balance make up the loan exactly when the special
   * repayment falls inside the schedule, or is nothing.
   */
  lemma TotalsMakeUpLoanIff(t: Terms, count: nat, s: Special)
    requires s.Before?
    ensures Balance(t, s, count) + (TotalRepayment(t, s, count) + s.amount) == t.nominal
       <==> 1 <= s.installment <= count || s.amount == 0
  {
    BalanceIsRemainder(t, s, count);
  }

  // ---- The depreciation series -------------------------------------------------------------------------------

  function Annual(basis: int, rateBp: int): int
  {
    HalfUp(basis * rateBp, 10000)
  }

  function FirstYear(annual: int, month: int): int
  {
    HalfUp(annual * (13 - month), 12)
  }

  /** Book value at the end of the y-th year: depreciate by the annual amount until nothing is left. */
  function BookValue(basis: int, first: int, annual: int, y: nat): int
  {
    if y == 0 then basis - first
    else
      var before := BookValue(basis, first, annual, y - 1);
      if before <= annual then 0 else before - annual
  }

  datatype Series = DivisionByZero | Series(first: int, annual: int, fullYears: int, residual: int, finalYear: int)

  function SeriesOf(basis: int, rateBp: int, month: int, startYear: int): Series
  {
    var annual := Annual(basis, rateBp);
    var first := FirstYear(annual, month);
    if annual == 0 then DivisionByZero
    else
      Series(first, annual, FloorDiv(basis - first, annual), basis - first - annual * FloorDiv(basis - first, annual),
             startYear + FloorDiv(basis - first, annual) + 1)
  }

  /** Python's quotient, rounded down also for a negative divisor. */
  function FloorDiv(n: int, d: int): int
    requires d != 0
  {
    if d > 0 then n / d else -n / -d
  }

  /** The engine divides by zero exactly when the annual amount rounds to nothing. */
  lemma DividesByZeroIff(basis: int, rateBp: int, month: int, startYear: int)
    requires basis >= 0 && rateBp >= 0
    ensures SeriesOf(basis, rateBp, month, startYear).DivisionByZero? <==> basis * rateBp < 5000
  {
    Grows(0, basis, rateBp);
    HalfUpNearest(basis * rateBp, 10000);
  }

  /** With a rate of at most the whole, a full first year never exceeds the basis. */
  lemma FirstYearFits(basis: int, rateBp: int, month: int)
    requires basis >= 0 && 0 <= rateBp <= 10000 && 1 <= month <= 12
    ensures 0 <= FirstYear(Annual(basis, rateBp), month) <= Annual(basis, rateBp) <= basis
  {
    var annual := Annual(basis, rateBp);
    Grows(0, basis, rateBp);
    Grows(rateBp, 10000, basis);
    HalfUpMonotone(0, basis * rateBp, 10000);
    HalfUpMonotone(basis * rateBp, basis * 10000, 10000);
    Exactly(basis, 10000);
    Grows(1, 13 - month, annual);
    Grows(13 - month, 12, annual);
    HalfUpMonotone(0, annual * (13 - month), 12);
    HalfUpMonotone(annual * (13 - month), annual * 12, 12);
    Exactly(annual, 12);
  }

  lemma Exactly(q: int, d: int)
    requires d > 0
    ensures HalfUp(q * d, d) == q && HalfUp(0, d) == 0
  {
    HalfUpNearest(q * d, d);
    HalfUpNearest(0, d);
    assert Nearest(q, q * d, d) && Nearest(0, 0, d);
  }

  /** The closed form is the year-by-year depreciation, for every year. */
  lemma {:induction false} BookValueClosed(basis: int, first: int, annual: int, y: nat)
    requires annual > 0 && first <= basis
    ensures BookValue(basis, first, annual, y)
         == if y <= (basis - first) / annual then basis - first - annual * y else 0
  {
    var count := (basis - first) / annual;
    assert basis - first == annual * count + (basis - first) % annual;
    if y > 0 {
      BookValueClosed(basis, first, annual, y - 1);
      Distribute(annual, y - 1, 1);
      if y <= count {
        Grows(y, count, annual);
      } else if y - 1 == count {
        Distribute(annual, count, 1);
      }
    }
  }

  /**
   * The annual amount is the nearest cent to the rate's share of the basis, the first year's to its
   * months of that. First year, full years and residual make up the basis; the residual is less than a year's
   * amount; the book value after the full years is the residual and zero in the final year, in
   * which something is still depreciated exactly when there is a residual.
   */
  lemma SeriesRefinesYears(basis: int, rateBp: int, month: int, startYear: int)
    requires basis >= 0 && 0 <= rateBp <= 10000 && 1 <= month <= 12
    requires SeriesOf(basis, rateBp, month, startYear).Series?
    ensures var s := SeriesOf(basis, rateBp, month, startYear);
            && s.first + s.fullYears * s.annual + s.residual == basis
            && 0 <= s.residual < s.annual && s.fullYears >= 0
            && s.finalYear == startYear + s.fullYears + 1
            && Nearest(s.annual, basis * rateBp, 10000) && Nearest(s.first, s.annual * (13 - month), 12)
            && BookValue(basis, s.first, s.annual, s.fullYears) == s.residual
            && BookValue(basis, s.first, s.annual, s.fullYears + 1) == 0
            && (forall y: nat | y < s.fullYears :: BookValue(basis, s.first, s.annual, y) > 0)
            && (BookValue(basis, s.first, s.annual, s.fullYears) > 0 <==> s.residual > 0)
  {
    hide HalfUp, BookValue;
    FirstYearFits(basis, rateBp, month);
    HalfUpNearest(basis * rateBp, 10000);
    HalfUpNearest(Annual(basis, rateBp) * (13 - month), 12);
    var s := SeriesOf(basis, rateBp, month, startYear);
    SeriesYears(basis, s.first, s.annual);
  }

  lemma SeriesYears(basis: int, first: int, annual: int)
    requires annual > 0 && first <= basis
    ensures var count, residual := (basis - first) / annual, basis - first - annual * ((basis - first) / annual);
            && first + count * annual + residual == basis
            && 0 <= residual < annual && count >= 0
            && BookValue(basis, first, annual, count) == residual
            && BookValue(basis, first, annual, count + 1) == 0
            && forall y: nat | y < count :: BookValue(basis, first, annual, y) > 0
  {
    hide BookValue;
    var count := (basis - first) / annual;
    assert basis - first == annual * count + (basis - first) % annual;
    BookValueClosed(basis, first, annual, count);
    BookValueClosed(basis, first, annual, count + 1);
    forall y: nat | y < count ensures BookValue(basis, first, annual, y) > 0 {
      BookValueClosed(basis, first, annual, y);
      Grows(y + 1, count, annual);
      Distribute(annual, y, 1);
    }
  }

  /** Rounding the annual amount of a remaining life leaves at most half a cent a year, either way. */
  lemma RemainingLifeResidual(basis: int, years: int)
    requires years > 0
    ensures var residual := basis - HalfUp(basis, years) * years; -years <= 2 * residual <= years
  {
    HalfUpNearest(basis, years);
  }
}
