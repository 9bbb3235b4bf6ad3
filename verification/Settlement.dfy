/**
 * The settlement engine: which debts one payment pays, in which order, and how much of each.
 */
module Settlement {
  import opened Numbers
  import opened Order
  import opened Rows
  import opened PrincipalSplit

  datatype Refusal = TieBreak | BadVector

  datatype AllocationResult = Nothing | Applied(allocation: Allocation) | Refused(refusal: Refusal)

  datatype SettleResult = Settlement(allocations: seq<Allocation>, credit: int) | Refusing(refusal: Refusal)

  /** Due before not due, then older first; the id closes the key. */
  function FifoKey(bookingDate: int): Receivable -> Key
  {
    (r: Receivable) => [if r.claim.dueDate <= bookingDate then 0 else 1, r.claim.dueDate, r.claim.idOrder]
  }

  function WithPeriod(rows: seq<Receivable>, period: Option<string>, wanted: bool): seq<Receivable>
  {
    if rows == [] then []
    else (if (Some(rows[0].claim.period) == period) == wanted then [rows[0]] else [])
         + WithPeriod(rows[1..], period, wanted)
  }

  /** The designated period first, then first in first out. */
  function OrderedReceivables(rows: seq<Receivable>, bookingDate: int, designated: Option<string>): seq<Receivable>
  {
    Sort(WithPeriod(rows, designated, true), FifoKey(bookingDate))
    + Sort(WithPeriod(rows, designated, false), FifoKey(bookingDate))
  }

  /** A Nachzahlung has no named components; its principal travels whole in the first bucket. */
  function Nominal(r: Receivable): seq<int>
  {
    if r.claim.category == Nachzahlung then [r.claim.expected, 0, 0, 0] else r.claim.components
  }

  /** Costs, then interest, then principal. */
  function Share(open: Tiers, available: int): Tiers
  {
    var costs := Min(available, Max(open.costs, 0));
    var interest := Min(available - costs, Max(open.interest, 0));
    var principal := Min(available - costs - interest, Max(open.principal, 0));
    Tiers(costs, interest, principal)
  }

  /** The principal that remains open is derived from `open`, not from the principal tier. */
  function Reduced(p: Projection, paid: Tiers): Projection
  {
    var open := p.open - paid.principal;
    var costs, interest := p.tiers.costs - paid.costs, p.tiers.interest - paid.interest;
    var paidOff := open == 0 && costs == 0 && interest == 0;
    Projection(Tiers(costs, interest, open), open, if paidOff then Settled else Partial)
  }

  function Allocate(r: Receivable, available: int): AllocationResult
  {
    var paid := Share(r.open.tiers, available);
    if paid.Total() == 0 then Nothing
    else
      match SplitPrincipal(Nominal(r), paid.principal, r.claim.expected)
      case Split(parts) => Applied(Allocation(r.id, paid, parts, r.open, Reduced(r.open, paid)))
      case TieBreakUnspecified => Refused(TieBreak)
      case InvalidVector => Refused(BadVector)
  }

  function SettleFrom(rows: seq<Receivable>, remaining: int): SettleResult
  {
    if rows == [] || remaining == 0 then Settlement([], remaining)
    else
      var round := Allocate(rows[0], remaining);
      if round.Refused? then Refusing(round.refusal)
      else Prepend(Booked(round), SettleFrom(rows[1..], remaining - Taken(round)))
  }

  /** The allocation a round books, if any, and the cents it takes. */
  function Booked(round: AllocationResult): seq<Allocation>
  {
    if round.Applied? then [round.allocation] else []
  }

  function Taken(round: AllocationResult): int
  {
    if round.Applied? then round.allocation.paid.Total() else 0
  }

  function Prepend(head: seq<Allocation>, rest: SettleResult): SettleResult
  {
    match rest
    case Settlement(allocations, credit) => Settlement(head + allocations, credit)
    case Refusing(_) => rest
  }

  lemma PrependAssociates(first: seq<Allocation>, second: seq<Allocation>, rest: SettleResult)
    ensures Prepend(first, Prepend(second, rest)) == Prepend(first + second, rest)
  {
    if rest.Settlement? {
      assert first + (second + rest.allocations) == (first + second) + rest.allocations;
    }
  }

  function SettleSpec(amount: int, bookingDate: int, rows: seq<Receivable>, designated: Option<string>): SettleResult
  {
    SettleFrom(OrderedReceivables(rows, bookingDate, designated), amount)
  }

  /** One turn of the loop keeps the whole settlement the same. */
  lemma TurnOfLoop(rows: seq<Receivable>, i: nat, allocations: seq<Allocation>, remaining: int)
    requires i < |rows| && remaining != 0
    ensures Prepend(allocations, SettleFrom(rows[i..], remaining))
         == var round := Allocate(rows[i], remaining);
            if round.Refused? then Refusing(round.refusal)
            else Prepend(allocations + Booked(round), SettleFrom(rows[i + 1..], remaining - Taken(round)))
  {
    hide Allocate;
    var rest, round := rows[i..], Allocate(rows[i], remaining);
    assert rest[0] == rows[i] && rest[1..] == rows[i + 1..];
    PrependAssociates(allocations, Booked(round), SettleFrom(rows[i + 1..], remaining - Taken(round)));
  }

  lemma EndOfLoop(rows: seq<Receivable>, allocations: seq<Allocation>, remaining: int)
    requires rows == [] || remaining == 0
    ensures Prepend(allocations, SettleFrom(rows, remaining)) == Settlement(allocations, remaining)
  {
    assert allocations + [] == allocations;
  }

  /** The engine's loop over the ordered debts, against the recursive definition. */
  method Settle(amount: int, bookingDate: int, rows: seq<Receivable>, designated: Option<string>)
    returns (result: SettleResult)
    requires amount >= 0
    ensures result == SettleSpec(amount, bookingDate, rows, designated)
  {
    hide Allocate, SettleFrom;
    var ordered := OrderedReceivables(rows, bookingDate, designated);
    var allocations, remaining := [], amount;
    var i := 0;
    PrependNothing(SettleFrom(ordered, amount));
    while i < |ordered| && remaining != 0
      invariant 0 <= i <= |ordered|
      invariant SettleFrom(ordered, amount) == Prepend(allocations, SettleFrom(ordered[i..], remaining))
    {
      TurnOfLoop(ordered, i, allocations, remaining);
      var round := Allocate(ordered[i], remaining);
      if round.Refused? {
        return Refusing(round.refusal);
      }
      allocations := allocations + Booked(round);
      remaining := remaining - Taken(round);
      i := i + 1;
    }
    EndOfLoop(ordered[i..], allocations, remaining);
    return Settlement(allocations, remaining);
  }

  lemma PrependNothing(rest: SettleResult)
    ensures Prepend([], rest) == rest
  {
    if rest.Settlement? {
      assert [] + rest.allocations == rest.allocations;
    }
  }

  // ---- The line of debt -----------------------------------------------------------------

  /**
   * Lay every open cent of the ordered debts end to end: first debt's costs, interest,
   * principal, then the second debt's, and so on. A payment of `amount` covers the line
   * from its start; a tier that starts at `offset` receives this much of it.
   */
  ghost function Covered(amount: int, offset: int, length: int): int
  {
    Max(0, Min(length, amount - offset))
  }

  ghost function LineLength(rows: seq<Receivable>): int
  {
    if rows == [] then 0 else rows[0].open.tiers.Total() + LineLength(rows[1..])
  }

  ghost function AssignedTo(allocations: seq<Allocation>, id: nat): Tiers
  {
    if allocations == [] then NO_CENTS
    else if allocations[0].receivable == id then allocations[0].paid
    else AssignedTo(allocations[1..], id)
  }

  ghost predicate DistinctIds(rows: seq<Receivable>)
  {
    forall i, j | 0 <= i < j < |rows| :: rows[i].id != rows[j].id
  }

  ghost predicate AllChecked(rows: seq<Receivable>)
  {
    forall i | 0 <= i < |rows| :: ProjectionChecks(rows[i].open)
  }

  ghost predicate OnlyTouches(allocations: seq<Allocation>, rows: seq<Receivable>)
  {
    forall a | a in allocations :: exists i :: 0 <= i < |rows| && rows[i].id == a.receivable
  }

  lemma {:induction false} NotTouched(allocations: seq<Allocation>, id: nat)
    requires forall a | a in allocations :: a.receivable != id
    ensures AssignedTo(allocations, id) == NO_CENTS
  {
    if allocations != [] {
      NotTouched(allocations[1..], id);
    }
  }

  lemma {:induction false} SettleTouches(rows: seq<Receivable>, remaining: int)
    requires SettleFrom(rows, remaining).Settlement?
    ensures OnlyTouches(SettleFrom(rows, remaining).allocations, rows)
  {
    hide Allocate;
    if rows != [] && remaining != 0 {
      SettleTouches(rows[1..], remaining - Taken(Allocate(rows[0], remaining)));
      AllocateTouches(rows[0], remaining);
    }
  }

  lemma AllocateTouches(r: Receivable, remaining: int)
    ensures forall a | a in Booked(Allocate(r, remaining)) :: a.receivable == r.id
  {
  }

  lemma {:induction false} LineNonNegative(rows: seq<Receivable>)
    requires AllChecked(rows)
    ensures LineLength(rows) >= 0
  {
    if rows != [] {
      LineNonNegative(rows[1..]);
    }
  }

  /** One round of the loop: what the first debt takes, and what is left for the others. */
  lemma SettleStep(rows: seq<Receivable>, amount: int)
    requires rows != [] && amount > 0 && ProjectionChecks(rows[0].open)
    requires SettleFrom(rows, amount).Settlement?
    ensures var tail := SettleFrom(rows[1..], amount - Min(amount, rows[0].open.tiers.Total()));
            && !Allocate(rows[0], amount).Refused?
            && tail.Settlement?
            && SettleFrom(rows, amount) == Prepend(Booked(Allocate(rows[0], amount)), tail)
  {
    hide Allocate;
    HeadTakes(rows[0], amount);
  }

  /** The credit is the part of the payment that reaches past the end of the line. */
  lemma {:induction false} CreditIsOverflow(rows: seq<Receivable>, amount: int)
    requires AllChecked(rows) && amount >= 0 && SettleFrom(rows, amount).Settlement?
    ensures SettleFrom(rows, amount).credit == Max(0, amount - LineLength(rows))
  {
    hide Allocate;
    LineNonNegative(rows);
    if rows != [] && amount != 0 {
      SettleStep(rows, amount);
      LineNonNegative(rows[1..]);
      CreditIsOverflow(rows[1..], amount - Min(amount, rows[0].open.tiers.Total()));
    }
  }

  ghost function CoveredTiers(amount: int, offset: int, open: Tiers): Tiers
  {
    Tiers(Covered(amount, offset, open.costs), Covered(amount, offset + open.costs, open.interest),
          Covered(amount, offset + open.costs + open.interest, open.principal))
  }

  /** One round, seen from one debt. */
  lemma RoundAssigns(rows: seq<Receivable>, amount: int, id: nat)
    requires rows != [] && amount > 0 && ProjectionChecks(rows[0].open)
    requires SettleFrom(rows, amount).Settlement?
    ensures var tail := SettleFrom(rows[1..], amount - Min(amount, rows[0].open.tiers.Total()));
            && tail.Settlement?
            && AssignedTo(SettleFrom(rows, amount).allocations, id)
            == if id == rows[0].id && rows[0].open.tiers.Total() > 0 then CoveredTiers(amount, 0, rows[0].open.tiers)
               else AssignedTo(tail.allocations, id)
  {
    hide Allocate, SettleFrom;
    SettleStep(rows, amount);
    HeadTakes(rows[0], amount);
    var tail := SettleFrom(rows[1..], amount - Min(amount, rows[0].open.tiers.Total()));
    AssignedToFirst(Booked(Allocate(rows[0], amount)), tail.allocations, id);
    if Allocate(rows[0], amount).Applied? {
      HeadCoversLine(rows[0], amount);
    }
  }

  /** The first debt gets nothing from the later rounds. */
  lemma LaterRoundsSpare(rows: seq<Receivable>, left: int)
    requires DistinctIds(rows) && rows != [] && SettleFrom(rows[1..], left).Settlement?
    ensures AssignedTo(SettleFrom(rows[1..], left).allocations, rows[0].id) == NO_CENTS
  {
    hide Allocate, SettleFrom;
    SettleTouches(rows[1..], left);
    NotTouched(SettleFrom(rows[1..], left).allocations, rows[0].id);
  }

  lemma PrefixLine(rows: seq<Receivable>, j: nat)
    requires rows != [] && j <= |rows[1..]|
    ensures LineLength(rows[..j + 1]) == rows[0].open.tiers.Total() + LineLength(rows[1..][..j])
  {
    assert rows[..j + 1] == [rows[0]] + rows[1..][..j];
  }

  lemma EmptyLine(rows: seq<Receivable>)
    ensures LineLength(rows[..0]) == 0
  {
  }

  /**
   * The settlement of a payment is the covered prefix of the line of debt, tier by tier and
   * debt by debt.
   */
  lemma {:induction false} SettlementCoversLine(rows: seq<Receivable>, amount: int, k: nat)
    requires DistinctIds(rows) && AllChecked(rows) && amount >= 0
    requires SettleFrom(rows, amount).Settlement? && k < |rows|
    ensures AssignedTo(SettleFrom(rows, amount).allocations, rows[k].id)
         == CoveredTiers(amount, LineLength(rows[..k]), rows[k].open.tiers)
  {
    hide Allocate, SettleFrom, AssignedTo, LineLength;
    if amount == 0 {
      SettleNothing(rows);
      LineNonNegative(rows[..k]);
      NotTouched([], rows[k].id);
    } else {
      RoundAssigns(rows, amount, rows[k].id);
      var rest, left := rows[1..], amount - Min(amount, rows[0].open.tiers.Total());
      if k == 0 {
        LaterRoundsSpare(rows, left);
        EmptyLine(rows);
      } else {
        SettlementCoversLine(rest, left, k - 1);
        PrefixLine(rows, k - 1);
        LineNonNegative(rest[..k - 1]);
        CoverShift(amount, rows[0].open.tiers.Total(), LineLength(rest[..k - 1]), rows[k].open.tiers);
      }
    }
  }

  lemma SettleNothing(rows: seq<Receivable>)
    ensures SettleFrom(rows, 0) == Settlement([], 0)
  {
  }

  lemma AssignedToFirst(head: seq<Allocation>, tail: seq<Allocation>, id: nat)
    requires |head| <= 1
    ensures AssignedTo(head + tail, id)
         == if head != [] && head[0].receivable == id then head[0].paid else AssignedTo(tail, id)
  {
    if head == [] {
      assert head + tail == tail;
    } else {
      assert (head + tail)[1..] == tail;
    }
  }

  lemma CoverShift(amount: int, used: int, offset: int, open: Tiers)
    requires amount >= 0 && used >= 0 && offset >= 0 && NO_CENTS.AtMost(open)
    ensures CoveredTiers(amount - Min(amount, used), offset, open) == CoveredTiers(amount, used + offset, open)
  {
  }

  lemma HeadTakes(r: Receivable, amount: int)
    requires ProjectionChecks(r.open) && amount > 0
    ensures match Allocate(r, amount)
      case Nothing => r.open.tiers.Total() == 0
      case Applied(a) =>
        && a.receivable == r.id && a.paid.Total() == Min(amount, r.open.tiers.Total())
        && a.paid.Total() > 0
      case Refused(_) => true
  {
  }

  lemma HeadCoversLine(r: Receivable, amount: int)
    requires ProjectionChecks(r.open) && amount > 0 && Allocate(r, amount).Applied?
    ensures Allocate(r, amount).allocation.paid == CoveredTiers(amount, 0, r.open.tiers)
  {
  }

  /** No later debt receives a cent while an earlier one is still open. */
  lemma EarlierDebtsFirst(rows: seq<Receivable>, amount: int, i: nat, j: nat)
    requires DistinctIds(rows) && AllChecked(rows) && amount >= 0
    requires SettleFrom(rows, amount).Settlement? && i < j < |rows|
    requires AssignedTo(SettleFrom(rows, amount).allocations, rows[j].id) != NO_CENTS
    ensures AssignedTo(SettleFrom(rows, amount).allocations, rows[i].id) == rows[i].open.tiers
  {
    SettlementCoversLine(rows, amount, i);
    SettlementCoversLine(rows, amount, j);
    LineSplit(rows[..j], i);
    assert rows[..j][..i] == rows[..i];
  }

  lemma {:induction false} LineSplit(rows: seq<Receivable>, i: nat)
    requires AllChecked(rows) && i < |rows|
    ensures LineLength(rows) >= LineLength(rows[..i]) + rows[i].open.tiers.Total()
  {
    if i == 0 {
      LineNonNegative(rows[1..]);
    } else {
      LineSplit(rows[1..], i - 1);
      assert rows[..i] == [rows[0]] + rows[1..][..i - 1];
    }
  }

  /** What every allocation of a settlement says about the debt it pays. */
  ghost predicate Pays(a: Allocation, r: Receivable)
  {
    && a.receivable == r.id
    && a.before == r.open
    && NO_CENTS.AtMost(a.paid) && a.paid.AtMost(r.open.tiers)
    && a.paid.Total() > 0
    && a.after.tiers == r.open.tiers.Minus(a.paid)
    && ProjectionChecks(a.after) && a.after.status != Open
    && SplitPrincipal(Nominal(r), a.paid.principal, r.claim.expected) == Split(a.parts)
  }

  /** Allocations pay a subsequence of the ordered debts, each at most once. */
  ghost predicate PaysInOrder(allocations: seq<Allocation>, rows: seq<Receivable>)
  {
    if allocations == [] then true
    else exists i | 0 <= i < |rows| :: Pays(allocations[0], rows[i]) && PaysInOrder(allocations[1..], rows[i + 1..])
  }

  /** Nothing is created or lost: assigned cents and credit are the payment. */
  lemma {:induction false} SettlementConserves(rows: seq<Receivable>, amount: int)
    requires AllChecked(rows) && amount >= 0
    requires SettleFrom(rows, amount).Settlement?
    ensures var result := SettleFrom(rows, amount);
            && Assigned(result.allocations) + result.credit == amount
            && result.credit >= 0
            && PaysInOrder(result.allocations, rows)
  {
    hide Allocate;
    if rows != [] && amount != 0 {
      var left := amount - Min(amount, rows[0].open.tiers.Total());
      SettleStep(rows, amount);
      HeadTakes(rows[0], amount);
      SettlementConserves(rows[1..], left);
      var head, tail := Booked(Allocate(rows[0], amount)), SettleFrom(rows[1..], left).allocations;
      AssignedConcat(head, tail);
      if head == [] {
        assert head + tail == tail;
        PaysLater(tail, rows);
      } else {
        HeadPays(rows[0], amount);
        assert (head + tail)[1..] == tail && (head + tail)[0] == head[0];
      }
    }
  }

  lemma SettleSpecConserves(amount: int, bookingDate: int, rows: seq<Receivable>, designated: Option<string>)
    requires AllChecked(OrderedReceivables(rows, bookingDate, designated)) && amount >= 0
    requires SettleSpec(amount, bookingDate, rows, designated).Settlement?
    ensures var result := SettleSpec(amount, bookingDate, rows, designated);
            && Assigned(result.allocations) + result.credit == amount
            && result.credit >= 0
            && PaysInOrder(result.allocations, OrderedReceivables(rows, bookingDate, designated))
  {
    SettlementConserves(OrderedReceivables(rows, bookingDate, designated), amount);
  }

  lemma HeadPays(r: Receivable, amount: int)
    requires ProjectionChecks(r.open) && amount > 0 && Allocate(r, amount).Applied?
    ensures Pays(Allocate(r, amount).allocation, r)
  {
  }

  lemma PaysLater(allocations: seq<Allocation>, rows: seq<Receivable>)
    requires rows != [] && PaysInOrder(allocations, rows[1..])
    ensures PaysInOrder(allocations, rows)
  {
    if allocations != [] {
      var i :| 0 <= i < |rows[1..]| && Pays(allocations[0], rows[1..][i])
               && PaysInOrder(allocations[1..], rows[1..][i + 1..]);
      assert rows[1..][i + 1..] == rows[i + 2..] && rows[1..][i] == rows[i + 1];
    }
  }

  // ---- Order of the input rows ------------------------------------------------------------

  ghost predicate DistinctOrder(rows: seq<Receivable>)
  {
    forall i, j | 0 <= i < j < |rows| :: rows[i].claim.idOrder != rows[j].claim.idOrder
  }

  lemma {:induction false} WithPeriodItems(rows: seq<Receivable>, period: Option<string>, wanted: bool)
    ensures forall r :: multiset(WithPeriod(rows, period, wanted))[r]
                     == if (Some(r.claim.period) == period) == wanted then multiset(rows)[r] else 0
  {
    if rows != [] {
      WithPeriodItems(rows[1..], period, wanted);
      assert rows == [rows[0]] + rows[1..];
    }
  }

  lemma {:induction false} WithPeriodDistinct(rows: seq<Receivable>, period: Option<string>, wanted: bool,
                                              bookingDate: int)
    requires DistinctOrder(rows)
    ensures DistinctKeys(WithPeriod(rows, period, wanted), FifoKey(bookingDate))
    ensures forall r | r in WithPeriod(rows, period, wanted) :: r in rows
  {
    if rows != [] {
      WithPeriodDistinct(rows[1..], period, wanted, bookingDate);
      var rest, key := WithPeriod(rows[1..], period, wanted), FifoKey(bookingDate);
      forall r | r in rest ensures key(r) != key(rows[0]) {
        assert r in rows[1..];
        var j :| 1 <= j < |rows| && rows[j] == r;
        assert key(r)[2] != key(rows[0])[2];
      }
    }
  }

  /** The result does not depend on the order in which the caller hands over the debts. */
  lemma SettleIgnoresRowOrder(amount: int, bookingDate: int, rows: seq<Receivable>, other: seq<Receivable>,
                              designated: Option<string>)
    requires multiset(rows) == multiset(other) && DistinctOrder(rows) && DistinctOrder(other)
    ensures SettleSpec(amount, bookingDate, rows, designated) == SettleSpec(amount, bookingDate, other, designated)
  {
    GroupIgnoresRowOrder(bookingDate, rows, other, designated, true);
    GroupIgnoresRowOrder(bookingDate, rows, other, designated, false);
  }

  lemma GroupIgnoresRowOrder(bookingDate: int, rows: seq<Receivable>, other: seq<Receivable>,
                             designated: Option<string>, wanted: bool)
    requires multiset(rows) == multiset(other) && DistinctOrder(rows) && DistinctOrder(other)
    ensures Sort(WithPeriod(rows, designated, wanted), FifoKey(bookingDate))
         == Sort(WithPeriod(other, designated, wanted), FifoKey(bookingDate))
  {
    var xs, ys := WithPeriod(rows, designated, wanted), WithPeriod(other, designated, wanted);
    WithPeriodItems(rows, designated, wanted);
    WithPeriodItems(other, designated, wanted);
    assert multiset(xs) == multiset(ys);
    WithPeriodDistinct(rows, designated, wanted, bookingDate);
    WithPeriodDistinct(other, designated, wanted, bookingDate);
    SortIgnoresInputOrder(xs, ys, FifoKey(bookingDate));
  }

  /** Ordering loses no debt and repeats none. */
  lemma OrderedIsPermutation(rows: seq<Receivable>, bookingDate: int, designated: Option<string>)
    ensures multiset(OrderedReceivables(rows, bookingDate, designated)) == multiset(rows)
  {
    WithPeriodItems(rows, designated, true);
    WithPeriodItems(rows, designated, false);
    SortItems(WithPeriod(rows, designated, true), FifoKey(bookingDate));
    SortItems(WithPeriod(rows, designated, false), FifoKey(bookingDate));
    var ordered := OrderedReceivables(rows, bookingDate, designated);
    forall r ensures multiset(ordered)[r] == multiset(rows)[r] {
    }
  }

  /**
   * Designated debts come first; within each group a due debt precedes one not yet due, and
   * an older due date precedes a newer one; the id decides between equals.
   */
  lemma DesignationThenFifo(rows: seq<Receivable>, bookingDate: int, designated: Option<string>, i: nat, j: nat)
    requires DistinctOrder(rows)
    requires i < j < |OrderedReceivables(rows, bookingDate, designated)|
    ensures var ordered := OrderedReceivables(rows, bookingDate, designated);
            var a, b := ordered[i], ordered[j];
            && (Some(b.claim.period) == designated ==> Some(a.claim.period) == designated)
            && ((Some(a.claim.period) == designated <==> Some(b.claim.period) == designated) ==>
                  && a.claim.dueDate <= b.claim.dueDate
                  && (b.claim.dueDate <= bookingDate ==> a.claim.dueDate <= bookingDate)
                  && (a.claim.dueDate == b.claim.dueDate ==> a.claim.idOrder < b.claim.idOrder))
  {
    var first := Sort(WithPeriod(rows, designated, true), FifoKey(bookingDate));
    var second := Sort(WithPeriod(rows, designated, false), FifoKey(bookingDate));
    GroupAscends(rows, bookingDate, designated, true);
    GroupAscends(rows, bookingDate, designated, false);
    ConcatAscends(first, second, bookingDate, designated, i, j);
  }

  lemma ConcatAscends(first: seq<Receivable>, second: seq<Receivable>, bookingDate: int, designated: Option<string>,
                      i: nat, j: nat)
    requires Ascending(first, FifoKey(bookingDate)) && Ascending(second, FifoKey(bookingDate))
    requires forall r | r in first :: Some(r.claim.period) == designated
    requires forall r | r in second :: Some(r.claim.period) != designated
    requires i < j < |first + second|
    ensures var a, b := (first + second)[i], (first + second)[j];
            && (Some(b.claim.period) == designated ==> Some(a.claim.period) == designated)
            && ((Some(a.claim.period) == designated <==> Some(b.claim.period) == designated) ==>
                  && a.claim.dueDate <= b.claim.dueDate
                  && (b.claim.dueDate <= bookingDate ==> a.claim.dueDate <= bookingDate)
                  && (a.claim.dueDate == b.claim.dueDate ==> a.claim.idOrder < b.claim.idOrder))
  {
    if j < |first| {
      FifoMeaning(first[i], first[j], bookingDate);
    } else if i >= |first| {
      FifoMeaning(second[i - |first|], second[j - |first|], bookingDate);
    }
  }

  lemma GroupAscends(rows: seq<Receivable>, bookingDate: int, designated: Option<string>, wanted: bool)
    requires DistinctOrder(rows)
    ensures var sorted := Sort(WithPeriod(rows, designated, wanted), FifoKey(bookingDate));
            && Ascending(sorted, FifoKey(bookingDate))
            && forall r | r in sorted :: (Some(r.claim.period) == designated) == wanted
  {
    var group := WithPeriod(rows, designated, wanted);
    WithPeriodItems(rows, designated, wanted);
    WithPeriodDistinct(rows, designated, wanted, bookingDate);
    SortItems(group, FifoKey(bookingDate));
    SortAscends(group, FifoKey(bookingDate));
    var sorted := Sort(group, FifoKey(bookingDate));
    forall r | r in sorted ensures (Some(r.claim.period) == designated) == wanted {
      assert r in multiset(sorted);
      assert multiset(group)[r] > 0;
    }
  }

  lemma FifoMeaning(a: Receivable, b: Receivable, bookingDate: int)
    requires Less(FifoKey(bookingDate)(a), FifoKey(bookingDate)(b))
    ensures a.claim.dueDate <= b.claim.dueDate && (b.claim.dueDate <= bookingDate ==> a.claim.dueDate <= bookingDate)
    ensures a.claim.dueDate == b.claim.dueDate ==> a.claim.idOrder < b.claim.idOrder
  {
    var x, y := FifoKey(bookingDate)(a), FifoKey(bookingDate)(b);
    assert x[0] < y[0] || (x[0] == y[0] && Less(x[1..], y[1..]));
    assert x[1..][0] == a.claim.dueDate && y[1..][0] == b.claim.dueDate;
    assert x[1..][1..] == [a.claim.idOrder] && y[1..][1..] == [b.claim.idOrder];
    assert Less([a.claim.idOrder], [b.claim.idOrder]) <==> a.claim.idOrder < b.claim.idOrder by {
      assert [a.claim.idOrder][1..] == [] && [b.claim.idOrder][1..] == [];
    }
  }
}
