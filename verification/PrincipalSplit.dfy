/**
 * The principal split of the matching engine: largest-remainder apportionment that refuses
 * an ambiguous cent instead of choosing an order.
 */
module PrincipalSplit {
  import opened Numbers
  import opened Lists
  import opened Order

  datatype SplitResult =
    | Split(parts: seq<int>)
    | TieBreakUnspecified
    | InvalidVector

  function Sum(xs: seq<int>): int
  {
    if xs == [] then 0 else xs[0] + Sum(xs[1..])
  }

  predicate ValidVector(nominal: seq<int>, paid: int, expected: int)
  {
    && (forall i | 0 <= i < |nominal| :: nominal[i] >= 0)
    && expected > 0
    && Sum(nominal) == expected
    && 0 <= paid <= expected
  }

  function Scaled(nominal: seq<int>, paid: int): seq<int>
  {
    seq(|nominal|, i requires 0 <= i < |nominal| => nominal[i] * paid)
  }

  function Whole(nominal: seq<int>, paid: int, expected: int): seq<int>
    requires expected > 0
  {
    seq(|nominal|, i requires 0 <= i < |nominal| => nominal[i] * paid / expected)
  }

  function Remainders(nominal: seq<int>, paid: int, expected: int): seq<int>
    requires expected > 0
  {
    seq(|nominal|, i requires 0 <= i < |nominal| => nominal[i] * paid % expected)
  }

  /** Larger remainder first; equal remainders keep their position, as a stable sort does. */
  function RemainderKey(remainders: seq<int>): nat -> Key
  {
    (i: nat) => [if i < |remainders| then -remainders[i] else 0, i]
  }

  function Positions(n: nat): seq<nat>
  {
    seq(n, (i: nat) => i)
  }

  function ByRemainder(remainders: seq<int>): seq<nat>
  {
    Sort(Positions(|remainders|), RemainderKey(remainders))
  }

  function Reconcile(whole: seq<int>, winners: seq<nat>): seq<int>
  {
    seq(|whole|, i requires 0 <= i < |whole| => whole[i] + (if i in winners then 1 else 0))
  }

  function SplitPrincipal(nominal: seq<int>, paid: int, expected: int): SplitResult
  {
    if !ValidVector(nominal, paid, expected) then InvalidVector
    else if paid == 0 then Split(seq(|nominal|, i => 0))
    else if paid == expected then Split(nominal)
    else
      var whole := Whole(nominal, paid, expected);
      var remainders := Remainders(nominal, paid, expected);
      var cents := paid - Sum(whole);
      if cents == 0 then Split(whole)
      else
        var order := ByRemainder(remainders);
        BoundaryExists(nominal, paid, expected);
        if remainders[order[cents - 1]] == remainders[order[cents]] then TieBreakUnspecified
        else Split(Reconcile(whole, order[..cents]))
  }

  // ---- What a largest-remainder apportionment is -------------------------------------

  /**
   * Each component gets its exact share rounded down, or one cent more; the cents add up;
   * and no component with a smaller remainder is rounded up before one with a larger.
   */
  ghost predicate Apportions(parts: seq<int>, whole: seq<int>, remainders: seq<int>, paid: int)
  {
    && |parts| == |whole| == |remainders|
    && Sum(parts) == paid
    && (forall i | 0 <= i < |parts| :: parts[i] == whole[i] || parts[i] == whole[i] + 1)
    && (forall i, j | 0 <= i < |parts| && 0 <= j < |parts| && parts[i] > whole[i] && parts[j] == whole[j] ::
          remainders[i] >= remainders[j])
  }

  // ---- Sums ---------------------------------------------------------------------------

  lemma {:induction false} SumScaled(xs: seq<int>, factor: int)
    ensures Sum(Scaled(xs, factor)) == Sum(xs) * factor
  {
    if xs != [] {
      SumScaled(xs[1..], factor);
      assert Scaled(xs, factor)[1..] == Scaled(xs[1..], factor);
    }
  }

  /** Exact shares are whole cents plus remainders. */
  lemma {:induction false} SumDivMod(nominal: seq<int>, paid: int, expected: int)
    requires expected > 0
    ensures Sum(Scaled(nominal, paid))
         == expected * Sum(Whole(nominal, paid, expected)) + Sum(Remainders(nominal, paid, expected))
  {
    if nominal != [] {
      SumDivMod(nominal[1..], paid, expected);
      assert Scaled(nominal, paid)[1..] == Scaled(nominal[1..], paid);
      assert Whole(nominal, paid, expected)[1..] == Whole(nominal[1..], paid, expected);
      assert Remainders(nominal, paid, expected)[1..] == Remainders(nominal[1..], paid, expected);
      Distribute(expected, nominal[0] * paid / expected, Sum(Whole(nominal[1..], paid, expected)));
    }
  }

  lemma {:induction false} SumBounds(xs: seq<int>, low: int, high: int)
    requires forall i | 0 <= i < |xs| :: low <= xs[i] <= high
    ensures |xs| * low <= Sum(xs) <= |xs| * high
  {
    if xs != [] {
      SumBounds(xs[1..], low, high);
    }
  }

  lemma {:induction false} SumAppend(xs: seq<int>, x: int)
    ensures Sum(xs + [x]) == Sum(xs) + x
  {
    if xs != [] {
      SumAppend(xs[1..], x);
      assert (xs + [x])[1..] == xs[1..] + [x];
    }
  }

  /** The positions a vector rounds up. */
  ghost function Ups(parts: seq<int>, whole: seq<int>): set<nat>
    requires |parts| == |whole|
  {
    set i: nat | i < |parts| && parts[i] > whole[i]
  }

  /** A vector of whole cents and single extra cents totals the whole cents plus their number. */
  lemma {:induction false} SumUps(parts: seq<int>, whole: seq<int>)
    requires |parts| == |whole|
    requires forall i | 0 <= i < |parts| :: parts[i] == whole[i] || parts[i] == whole[i] + 1
    ensures Sum(parts) == Sum(whole) + |Ups(parts, whole)|
  {
    if parts == [] {
      assert Ups(parts, whole) == {};
    } else {
      var n := |parts| - 1;
      SumUps(parts[..n], whole[..n]);
      SumAppend(parts[..n], parts[n]);
      SumAppend(whole[..n], whole[n]);
      assert parts == parts[..n] + [parts[n]] && whole == whole[..n] + [whole[n]];
      LastUp(parts, whole);
    }
  }

  lemma LastUp(parts: seq<int>, whole: seq<int>)
    requires |parts| == |whole| && parts != []
    ensures var n := |parts| - 1;
            |Ups(parts, whole)| == |Ups(parts[..n], whole[..n])| + (if parts[n] > whole[n] then 1 else 0)
  {
    hide Ups;
    var n := |parts| - 1;
    var before := Ups(parts[..n], whole[..n]);
    forall i: nat ensures i in Ups(parts, whole) <==> i in before || (i == n && parts[n] > whole[n]) {
      UpsAt(parts, whole, n, i);
    }
    assert n !in before by { UpsAt(parts, whole, n, n); }
    assert Ups(parts, whole) == if parts[n] > whole[n] then before + {n} else before;
  }

  lemma UpsAt(parts: seq<int>, whole: seq<int>, n: nat, i: nat)
    requires n <= |parts| == |whole|
    ensures i in Ups(parts, whole) <==> i < |parts| && parts[i] > whole[i]
    ensures i in Ups(parts[..n], whole[..n]) <==> i < n && parts[i] > whole[i]
  {
  }

  /** The cents left over are fewer than the components, so the contender always exists. */
  lemma BoundaryExists(nominal: seq<int>, paid: int, expected: int)
    requires ValidVector(nominal, paid, expected)
    ensures var cents := paid - Sum(Whole(nominal, paid, expected));
            && 0 <= cents
            && (cents > 0 ==> cents < |nominal|)
    ensures var order := ByRemainder(Remainders(nominal, paid, expected));
            |order| == |nominal| && forall i | 0 <= i < |order| :: order[i] < |nominal|
  {
    var rem := Remainders(nominal, paid, expected);
    var cents := paid - Sum(Whole(nominal, paid, expected));
    SumScaled(nominal, paid);
    SumDivMod(nominal, paid, expected);
    SumBounds(rem, 0, expected - 1);
    Distribute(expected, cents, Sum(Whole(nominal, paid, expected)));
    assert cents * expected == Sum(rem);
    Distribute(|nominal|, expected, -1);
    MulMonotone(cents, 0, expected);
    MulMonotone(cents, |nominal|, expected);
    var ids := Positions(|rem|);
    SortItems(ids, RemainderKey(rem));
    forall i | 0 <= i < |nominal| ensures ByRemainder(rem)[i] < |nominal| {
      assert ByRemainder(rem)[i] in ids;
    }
  }

  // ---- The split is the largest-remainder vector, exactly when there is only one ---------

  lemma {:induction false} DistinctCount(xs: seq<nat>)
    requires Distinct(xs)
    ensures |Members(xs)| == |xs|
  {
    if xs != [] {
      DistinctCount(xs[1..]);
      assert xs[0] !in Members(xs[1..]);
      assert Members(xs) == {xs[0]} + Members(xs[1..]);
    }
  }

  ghost function Members(xs: seq<nat>): set<nat>
  {
    set x | x in xs
  }

  lemma PrefixMembers(xs: seq<nat>, k: nat)
    requires k <= |xs|
    ensures forall m | 0 <= m < k :: xs[m] in xs[..k]
    ensures forall x | x in xs[..k] :: exists m :: 0 <= m < k && xs[m] == x
  {
    forall m | 0 <= m < k ensures xs[m] in xs[..k] {
      assert xs[..k][m] == xs[m];
    }
  }

  /** A ranking of all positions, larger remainders first. */
  ghost predicate Ranking(order: seq<nat>, remainders: seq<int>)
  {
    && |order| == |remainders|
    && Distinct(order)
    && (forall i | 0 <= i < |order| :: order[i] < |remainders|)
    && (forall p: nat | p < |remainders| :: p in order)
    && (forall i, j | 0 <= i <= j < |order| :: remainders[order[i]] >= remainders[order[j]])
  }

  lemma RemainderOrder(remainders: seq<int>)
    ensures Ranking(ByRemainder(remainders), remainders)
  {
    var ids, key := Positions(|remainders|), RemainderKey(remainders);
    var order := ByRemainder(remainders);
    SortItems(ids, key);
    SortAscends(ids, key);
    forall p: nat | p < |remainders| ensures p in order {
      assert ids[p] == p;
    }
    forall i | 0 <= i < |order| ensures order[i] < |remainders| {
      assert order[i] in ids;
    }
    forall i, j | 0 <= i < j < |order|
      ensures remainders[order[i]] >= remainders[order[j]] && order[i] != order[j]
    {
      var a, b := key(order[i]), key(order[j]);
      assert Less(a, b);
      LessTotal(a, b);
      assert a[0] == -remainders[order[i]] && b[0] == -remainders[order[j]];
    }
  }

  /** Rounding up the right number of positions with the largest remainders apportions. */
  lemma WinnersApportion(whole: seq<int>, remainders: seq<int>, paid: int, winners: seq<nat>)
    requires |whole| == |remainders| && Distinct(winners)
    requires |winners| == paid - Sum(whole)
    requires forall i | i in winners :: i < |whole|
    requires forall i, j: nat | i in winners && j < |whole| && j !in winners :: remainders[i] >= remainders[j]
    ensures Apportions(Reconcile(whole, winners), whole, remainders, paid)
  {
    var parts := Reconcile(whole, winners);
    SumUps(parts, whole);
    DistinctCount(winners);
    assert Ups(parts, whole) == Members(winners);
  }

  lemma TopApportions(whole: seq<int>, remainders: seq<int>, paid: int, order: seq<nat>, cents: nat)
    requires |whole| == |remainders| && Ranking(order, remainders)
    requires cents == paid - Sum(whole) && cents <= |order|
    ensures Apportions(Reconcile(whole, order[..cents]), whole, remainders, paid)
  {
    PrefixMembers(order, cents);
    forall i, j: nat | i in order[..cents] && j < |whole| && j !in order[..cents]
      ensures remainders[i] >= remainders[j]
    {
      assert j in order;
      var m :| 0 <= m < |order| && order[m] == j;
    }
    WinnersApportion(whole, remainders, paid, order[..cents]);
  }

  /** At a tie, handing the last cent to the contender instead is just as good. */
  lemma RunnerUpApportions(whole: seq<int>, remainders: seq<int>, paid: int, order: seq<nat>, cents: nat)
    requires |whole| == |remainders| && Ranking(order, remainders)
    requires cents == paid - Sum(whole) && 0 < cents < |order|
    requires remainders[order[cents - 1]] == remainders[order[cents]]
    ensures var other := Reconcile(whole, order[..cents - 1] + [order[cents]]);
            other != Reconcile(whole, order[..cents]) && Apportions(other, whole, remainders, paid)
  {
    var swapped := order[..cents - 1] + [order[cents]];
    PrefixMembers(order, cents - 1);
    PrefixMembers(order, cents);
    assert swapped[cents - 1] == order[cents];
    forall i, j: nat | i in swapped && j < |whole| && j !in swapped ensures remainders[i] >= remainders[j] {
      assert j in order;
      var m :| 0 <= m < |order| && order[m] == j;
      assert m >= cents - 1 && m != cents;
    }
    WinnersApportion(whole, remainders, paid, swapped);
    var c := order[cents];
    assert c !in order[..cents] && c in swapped;
    assert Reconcile(whole, swapped)[c] != Reconcile(whole, order[..cents])[c];
  }

  /** With a clear gap at the boundary, every apportionment rounds up exactly the top ranks. */
  lemma UpsAreTop(whole: seq<int>, remainders: seq<int>, paid: int, order: seq<nat>, cents: nat, parts: seq<int>)
    requires Ranking(order, remainders) && Apportions(parts, whole, remainders, paid)
    requires cents == paid - Sum(whole) && cents <= |order|
    requires 0 < cents < |order| ==> remainders[order[cents - 1]] > remainders[order[cents]]
    ensures Ups(parts, whole) == Members(order[..cents])
  {
    var top, ups := Members(order[..cents]), Ups(parts, whole);
    DistinctCount(order[..cents]);
    SumUps(parts, whole);
    TopIsLarger(remainders, order, cents);
    if j :| j in ups && j !in top {
      MissingWinner(ups, top, j);
      assert false;
    }
    SameSize(ups, top);
  }

  lemma ClearBoundaryUnique(whole: seq<int>, remainders: seq<int>, paid: int, order: seq<nat>, cents: nat,
                            parts: seq<int>)
    requires Ranking(order, remainders) && Apportions(parts, whole, remainders, paid)
    requires cents == paid - Sum(whole) && cents <= |order|
    requires 0 < cents < |order| ==> remainders[order[cents - 1]] > remainders[order[cents]]
    ensures parts == Reconcile(whole, order[..cents])
  {
    UpsAreTop(whole, remainders, paid, order, cents, parts);
    forall i: nat | i < |parts| ensures parts[i] == Reconcile(whole, order[..cents])[i] {
      assert i in Ups(parts, whole) <==> i in Members(order[..cents]);
    }
  }

  lemma TopIsLarger(remainders: seq<int>, order: seq<nat>, cents: nat)
    requires Ranking(order, remainders) && cents <= |order|
    requires 0 < cents < |order| ==> remainders[order[cents - 1]] > remainders[order[cents]]
    ensures forall i, j: nat | i in order[..cents] && j < |remainders| && j !in order[..cents] ::
        remainders[i] > remainders[j]
  {
    PrefixMembers(order, cents);
    forall i, j: nat | i in order[..cents] && j < |remainders| && j !in order[..cents]
      ensures remainders[i] > remainders[j]
    {
      assert j in order;
      var l :| 0 <= l < cents && order[l] == i;
      var m :| cents <= m < |order| && order[m] == j;
    }
  }

  lemma MissingWinner(a: set<nat>, b: set<nat>, extra: nat)
    requires |a| == |b| && extra in a && extra !in b
    ensures exists i :: i in b && i !in a
  {
    if forall i | i in b :: i in a {
      SubsetSize(b, a - {extra});
    }
  }

  lemma {:induction false} SubsetSize(a: set<nat>, b: set<nat>)
    requires a <= b
    ensures |a| <= |b|
  {
    if a != {} {
      var x :| x in a;
      SubsetSize(a - {x}, b - {x});
    }
  }

  lemma SameSize(a: set<nat>, b: set<nat>)
    requires a <= b && |a| == |b|
    ensures a == b
  {
    if x :| x in b && x !in a {
      SubsetSize(a, b - {x});
    }
  }

  /**
   * The engine splits exactly when one largest-remainder vector exists, and then returns it;
   * it raises the tie-break refusal exactly when two different vectors would both be one.
   */
  lemma SplitIffUnambiguous(nominal: seq<int>, paid: int, expected: int)
    requires ValidVector(nominal, paid, expected)
    ensures Decides(SplitPrincipal(nominal, paid, expected),
                    Whole(nominal, paid, expected), Remainders(nominal, paid, expected), paid)
  {
    var whole, rem := Whole(nominal, paid, expected), Remainders(nominal, paid, expected);
    BoundaryExists(nominal, paid, expected);
    RemainderOrder(rem);
    SplitCases(nominal, paid, expected);
    SplitUnderRanking(whole, rem, paid, ByRemainder(rem), paid - Sum(whole));
  }

  /** `result` is the only apportionment, or a refusal because there are two. */
  ghost predicate Decides(result: SplitResult, whole: seq<int>, remainders: seq<int>, paid: int)
  {
    match result
    case Split(parts) =>
      && Apportions(parts, whole, remainders, paid)
      && forall other | Apportions(other, whole, remainders, paid) :: other == parts
    case TieBreakUnspecified =>
      exists a, b :: a != b && Apportions(a, whole, remainders, paid) && Apportions(b, whole, remainders, paid)
    case InvalidVector => false
  }

  ghost predicate Tied(remainders: seq<int>, order: seq<nat>, cents: nat)
    requires cents == 0 || cents < |order|
    requires forall i | 0 <= i < |order| :: order[i] < |remainders|
  {
    cents > 0 && remainders[order[cents - 1]] == remainders[order[cents]]
  }

  ghost function SplitByRanking(whole: seq<int>, remainders: seq<int>, paid: int): SplitResult
    requires var cents := paid - Sum(whole); 0 <= cents && (cents == 0 || cents < |remainders|)
    requires Ranking(ByRemainder(remainders), remainders)
  {
    var order, cents := ByRemainder(remainders), paid - Sum(whole);
    if Tied(remainders, order, cents) then TieBreakUnspecified else Split(Reconcile(whole, order[..cents]))
  }

  lemma SplitCases(nominal: seq<int>, paid: int, expected: int)
    requires ValidVector(nominal, paid, expected)
    requires var cents := paid - Sum(Whole(nominal, paid, expected)); 0 <= cents && (cents > 0 ==> cents < |nominal|)
    requires Ranking(ByRemainder(Remainders(nominal, paid, expected)), Remainders(nominal, paid, expected))
    ensures SplitPrincipal(nominal, paid, expected)
         == SplitByRanking(Whole(nominal, paid, expected), Remainders(nominal, paid, expected), paid)
  {
    TrivialPayments(nominal, paid, expected);
    var order := ByRemainder(Remainders(nominal, paid, expected));
    assert order[..0] == [];
  }

  lemma SplitUnderRanking(whole: seq<int>, remainders: seq<int>, paid: int, order: seq<nat>, cents: nat)
    requires |whole| == |remainders| && Ranking(order, remainders)
    requires cents == paid - Sum(whole) && (cents == 0 || cents < |order|)
    ensures if Tied(remainders, order, cents)
            then exists a, b ::
                   a != b && Apportions(a, whole, remainders, paid) && Apportions(b, whole, remainders, paid)
            else && Apportions(Reconcile(whole, order[..cents]), whole, remainders, paid)
                 && forall other | Apportions(other, whole, remainders, paid) ::
                     other == Reconcile(whole, order[..cents])
  {
    TopApportions(whole, remainders, paid, order, cents);
    if Tied(remainders, order, cents) {
      RunnerUpApportions(whole, remainders, paid, order, cents);
    } else {
      forall other | Apportions(other, whole, remainders, paid) ensures other == Reconcile(whole, order[..cents]) {
        ClearBoundaryUnique(whole, remainders, paid, order, cents, other);
      }
    }
  }

  lemma DivisionUnique(n: int, d: int, q: int, r: int)
    requires d > 0 && n == d * q + r && 0 <= r < d
    ensures n / d == q && n % d == r
  {
    var q', r' := n / d, n % d;
    assert n == d * q' + r';
    Distribute(d, q, -q');
    MulMonotone(q - q', 1, d);
    MulMonotone(-1, q - q', d);
  }

  lemma FullShare(a: int, expected: int)
    requires expected > 0
    ensures a * expected / expected == a
  {
    DivisionUnique(a * expected, expected, a, 0);
  }

  /** Paying nothing, everything, or only whole shares hands out no extra cent. */
  lemma TrivialPayments(nominal: seq<int>, paid: int, expected: int)
    requires ValidVector(nominal, paid, expected)
    ensures paid == 0 || paid == expected || paid == Sum(Whole(nominal, paid, expected)) ==>
      SplitPrincipal(nominal, paid, expected) == Split(Reconcile(Whole(nominal, paid, expected), []))
      && paid == Sum(Whole(nominal, paid, expected))
  {
    var whole := Whole(nominal, paid, expected);
    assert Reconcile(whole, []) == whole;
    if paid == expected {
      forall i | 0 <= i < |nominal| ensures whole[i] == nominal[i] {
        FullShare(nominal[i], expected);
      }
      assert whole == nominal;
    } else if paid == 0 {
      SumBounds(whole, 0, 0);
      assert whole == seq(|nominal|, i => 0);
    }
  }

  /** Every accepted component stays within one cent of its exact share and is never negative. */
  lemma SplitKeepsQuota(nominal: seq<int>, paid: int, expected: int, i: nat)
    requires ValidVector(nominal, paid, expected) && i < |nominal|
    requires SplitPrincipal(nominal, paid, expected).Split?
    ensures var parts := SplitPrincipal(nominal, paid, expected).parts;
            && |parts| == |nominal| && Sum(parts) == paid
            && -expected < parts[i] * expected - nominal[i] * paid <= expected
            && 0 <= parts[i]
  {
    SplitIffUnambiguous(nominal, paid, expected);
    QuotaOf(nominal[i], paid, expected);
  }

  lemma QuotaOf(share: int, paid: int, expected: int)
    requires share >= 0 && paid >= 0 && expected > 0
    ensures var q := share * paid / expected;
            && 0 <= q
            && -expected < q * expected - share * paid <= 0
            && 0 < (q + 1) * expected - share * paid <= expected
  {
    var n := share * paid;
    assert n >= 0;
    var q := n / expected;
    assert n == expected * q + n % expected;
    Distribute(expected, q, 1);
    MulMonotone(-1, q, expected);
  }
}
