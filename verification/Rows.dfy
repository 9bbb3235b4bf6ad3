/**
 * The account-scoped rows of the payment ledger: receivables with their mutable open projection,
 * immutable bank transactions, and append-only ledger evidence.
 *
 * A row's `id` is its position in its table. Where the program orders rows by their random
 * string id, the model uses the field `idOrder`.
 */
module Rows {
  import opened PrincipalSplit

  datatype Option<+T> = None | Some(value: T)

  datatype Status = Open | Partial | Settled

  datatype Category = Rent | Nachzahlung

  /** Cents of one debt by tier, in the order in which a payment reaches them. */
  datatype Tiers = Tiers(costs: int, interest: int, principal: int)
  {
    /** The empty reads clause only keeps the verifier from evaluating totals of constants by itself. */
    function Total(): int
      reads {}
    {
      costs + interest + principal
    }
    function Plus(other: Tiers): Tiers
    {
      Tiers(costs + other.costs, interest + other.interest, principal + other.principal)
    }
    function Minus(other: Tiers): Tiers
    {
      Tiers(costs - other.costs, interest - other.interest, principal - other.principal)
    }
    function Negated(): Tiers { Tiers(-costs, -interest, -principal) }
    predicate AtMost(other: Tiers)
    {
      costs <= other.costs && interest <= other.interest && principal <= other.principal
    }
  }

  const NO_CENTS := Tiers(0, 0, 0)

  /** The five mutable columns of a receivable; also the before/after snapshot of an allocation. */
  datatype Projection = Projection(tiers: Tiers, open: int, status: Status)

  /** The columns of a receivable that never change. */
  datatype Claim = Claim(
    idOrder: int, renter: nat, period: string, idText: string, dueDate: int, expected: int,
    components: seq<int>, category: Category)

  datatype Receivable = Receivable(id: nat, claim: Claim, open: Projection)

  datatype Transaction = Transaction(
    id: nat, bankAccount: nat, providerId: string, amount: int, bookingDate: int, valueDate: int,
    iban: string, purpose: string, endToEnd: Option<string>, mandate: Option<string>, potentialDuplicate: bool)

  /** What one payment or return does to one receivable. */
  datatype Allocation = Allocation(
    receivable: nat, paid: Tiers, parts: seq<int>, before: Projection, after: Projection)

  function Assigned(allocations: seq<Allocation>): int
  {
    if allocations == [] then 0 else allocations[0].paid.Total() + Assigned(allocations[1..])
  }

  lemma {:induction false} AssignedConcat(xs: seq<Allocation>, ys: seq<Allocation>)
    ensures Assigned(xs + ys) == Assigned(xs) + Assigned(ys)
  {
    if xs == [] {
      assert xs + ys == ys;
    } else {
      AssignedConcat(xs[1..], ys);
      assert (xs + ys)[1..] == xs[1..] + ys;
    }
  }

  /** Rent is split into its four components; a Nachzahlung carries none. */
  predicate ComponentsFit(claim: Claim, a: Allocation)
  {
    && |a.parts| == 4
    && (if claim.category == Rent then Sum(a.parts) == a.paid.principal else a.parts == [0, 0, 0, 0])
  }

  /** ck_receivable_open_components and ck_receivable_settled_has_nothing_open. */
  predicate ProjectionChecks(p: Projection)
  {
    && NO_CENTS.AtMost(p.tiers)
    && p.tiers.principal == p.open
    && (p.status == Settled <==> p.open == 0 && p.tiers.costs == 0 && p.tiers.interest == 0)
  }
}
