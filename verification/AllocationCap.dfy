/** The allocation cap: a trigger that looks at one inserted row at a time, and the batch rule it amounts to. */
module AllocationCap {
  import opened Rows
  import opened Guards
  import L = Ledger

  /** The trigger on one row, given the cents that the entry's other rows already assign. */
  predicate Accepts(kind: L.Kind, amount: int, already: int, a: Allocation)
  {
    SignFits(kind, a) && WithinCap(kind, amount, already + a.paid.Total())
  }

  /** Inserting the rows one after the other; a refused row aborts the whole. */
  method InsertOneByOne(kind: L.Kind, amount: int, rows: seq<Allocation>) returns (accepted: bool)
    requires if kind == L.Payment then amount >= 0 else amount <= 0
    ensures accepted <==> BatchFits(kind, amount, rows)
  {
    var already, i := 0, 0;
    assert rows[..0] == [];
    while i < |rows|
      invariant 0 <= i <= |rows|
      invariant already == Assigned(rows[..i])
      invariant BatchFits(kind, amount, rows[..i])
    {
      NextRow(kind, amount, rows[..i], rows[i]);
      assert rows[..i + 1] == rows[..i] + [rows[i]];
      if !Accepts(kind, amount, already, rows[i]) {
        assert rows == rows[..i + 1] + rows[i + 1..];
        PrefixFits(kind, amount, rows[..i + 1], rows[i + 1..]);
        return false;
      }
      AssignedConcat(rows[..i], [rows[i]]);
      assert Assigned([rows[i]]) == rows[i].paid.Total();
      already := already + rows[i].paid.Total();
      i := i + 1;
    }
    assert rows[..i] == rows;
    return true;
  }

  /** All signs fit the kind of the entry, and the total lies between nothing and its amount. */
  ghost predicate BatchFits(kind: L.Kind, amount: int, rows: seq<Allocation>)
  {
    && (forall a | a in rows :: Signed(kind, a))
    && (if kind == L.Payment then 0 <= Assigned(rows) <= amount else amount <= Assigned(rows) <= 0)
  }

  lemma {:induction false} SignedTotal(kind: L.Kind, rows: seq<Allocation>)
    requires forall a | a in rows :: Signed(kind, a)
    ensures if kind == L.Payment then Assigned(rows) >= 0 else Assigned(rows) <= 0
  {
    if rows != [] {
      assert Signed(kind, rows[0]);
      SignedTotal(kind, rows[1..]);
    }
  }

  lemma NextRow(kind: L.Kind, amount: int, rows: seq<Allocation>, a: Allocation)
    requires BatchFits(kind, amount, rows)
    ensures BatchFits(kind, amount, rows + [a]) <==> Accepts(kind, amount, Assigned(rows), a)
  {
    AssignedConcat(rows, [a]);
    assert Assigned([a]) == a.paid.Total();
    assert a in rows + [a];
  }

  /** Rows of one sign never bring a total back under the cap. */
  lemma PrefixFits(kind: L.Kind, amount: int, rows: seq<Allocation>, more: seq<Allocation>)
    ensures BatchFits(kind, amount, rows + more) ==> BatchFits(kind, amount, rows)
  {
    if BatchFits(kind, amount, rows + more) {
      AssignedConcat(rows, more);
      forall a | a in rows ensures Signed(kind, a) {
        assert a in rows + more;
      }
      forall a | a in more ensures Signed(kind, a) {
        assert a in rows + more;
      }
      SignedTotal(kind, rows);
      SignedTotal(kind, more);
    }
  }

  lemma TakeOut<T>(xs: seq<T>, i: nat, rest: multiset<T>)
    requires i < |xs| && multiset(xs) == multiset{xs[i]} + rest
    ensures multiset(xs[..i] + xs[i + 1..]) == rest
  {
    assert xs == xs[..i] + ([xs[i]] + xs[i + 1..]);
    assert multiset(xs) == multiset(xs[..i]) + (multiset{xs[i]} + multiset(xs[i + 1..]));
    assert multiset(xs[..i] + xs[i + 1..]) == multiset(xs) - multiset{xs[i]};
    assert multiset{xs[i]} + rest - multiset{xs[i]} == rest;
  }

  lemma AssignedTakeOut(rows: seq<Allocation>, i: nat)
    requires i < |rows|
    ensures Assigned(rows) == Assigned([rows[i]]) + Assigned(rows[..i] + rows[i + 1..])
  {
    var first, last := rows[..i], rows[i + 1..];
    assert rows == first + ([rows[i]] + last);
    AssignedConcat(first, [rows[i]] + last);
    AssignedConcat([rows[i]], last);
    AssignedConcat(first, last);
  }

  lemma FindItem<T>(xs: seq<T>, ys: seq<T>) returns (i: nat)
    requires multiset(xs) == multiset(ys) && xs != []
    ensures i < |ys| && ys[i] == xs[0]
    ensures multiset(ys[..i] + ys[i + 1..]) == multiset(xs[1..])
    ensures xs == [xs[0]] + xs[1..]
  {
    assert xs == [xs[0]] + xs[1..];
    assert xs[0] in multiset(ys);
    i :| i < |ys| && ys[i] == xs[0];
    TakeOut(ys, i, multiset(xs[1..]));
  }

  lemma {:induction false} AssignedAnyOrder(rows: seq<Allocation>, other: seq<Allocation>)
    requires multiset(rows) == multiset(other)
    ensures Assigned(rows) == Assigned(other)
  {
    hide Assigned;
    if rows == [] {
      assert |multiset(other)| == 0;
    } else {
      var i := FindItem(rows, other);
      AssignedAnyOrder(rows[1..], other[..i] + other[i + 1..]);
      AssignedTakeOut(other, i);
      AssignedConcat([rows[0]], rows[1..]);
    }
  }

  /** So the order in which the rows of one entry are inserted never matters. */
  lemma FitsInAnyOrder(kind: L.Kind, amount: int, rows: seq<Allocation>, other: seq<Allocation>)
    requires multiset(rows) == multiset(other)
    ensures BatchFits(kind, amount, rows) <==> BatchFits(kind, amount, other)
  {
    AssignedAnyOrder(rows, other);
    forall a ensures a in rows <==> a in other {
      assert a in rows <==> a in multiset(rows);
      assert a in other <==> a in multiset(other);
    }
  }
}
