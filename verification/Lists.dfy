/** Lists: what a test keeps of one, and the order in which its items stand. */
module Lists {

  function Keep<T>(xs: seq<T>, p: T -> bool): seq<T>
  {
    if xs == [] then [] else Keep(xs[..|xs| - 1], p) + (if p(xs[|xs| - 1]) then [xs[|xs| - 1]] else [])
  }

  lemma {:induction false} KeepMembers<T(!new)>(xs: seq<T>, p: T -> bool)
    ensures forall x :: x in Keep(xs, p) <==> x in xs && p(x)
  {
    if xs != [] {
      var n := |xs| - 1;
      KeepMembers(xs[..n], p);
      assert xs == xs[..n] + [xs[n]];
    }
  }

  lemma {:induction false} KeepConcat<T(!new)>(xs: seq<T>, ys: seq<T>, p: T -> bool)
    ensures Keep(xs + ys, p) == Keep(xs, p) + Keep(ys, p)
  {
    if ys == [] {
      assert xs + ys == xs;
    } else {
      var n := |ys| - 1;
      KeepConcat(xs, ys[..n], p);
      assert (xs + ys)[..|xs + ys| - 1] == xs + ys[..n];
    }
  }

  lemma {:induction false} KeepAll<T(!new)>(xs: seq<T>, p: T -> bool, all: bool)
    requires forall i | 0 <= i < |xs| :: p(xs[i]) == all
    ensures Keep(xs, p) == if all then xs else []
  {
    if xs != [] {
      var n := |xs| - 1;
      KeepAll(xs[..n], p, all);
      assert xs == xs[..n] + [xs[n]];
    }
  }

  lemma {:induction false} KeepAgrees<T(!new)>(xs: seq<T>, p: T -> bool, q: T -> bool)
    requires forall i | 0 <= i < |xs| :: p(xs[i]) == q(xs[i])
    ensures Keep(xs, p) == Keep(xs, q)
  {
    if xs != [] {
      KeepAgrees(xs[..|xs| - 1], p, q);
    }
  }

  ghost predicate Distinct<T>(xs: seq<T>)
  {
    forall i, j | 0 <= i < j < |xs| :: xs[i] != xs[j]
  }

  lemma {:induction false} KeepDistinct<T(!new)>(xs: seq<T>, p: T -> bool)
    requires Distinct(xs)
    ensures Distinct(Keep(xs, p))
  {
    if xs != [] {
      var n := |xs| - 1;
      KeepDistinct(xs[..n], p);
      KeepMembers(xs[..n], p);
      var before := Keep(xs[..n], p);
      forall i | 0 <= i < |before| ensures before[i] != xs[n] {
        assert before[i] in before;
      }
    }
  }

  /** `a` stands somewhere before `b`. */
  ghost predicate Precedes<T(!new)>(xs: seq<T>, a: T, b: T)
  {
    exists i, j :: 0 <= i < j < |xs| && xs[i] == a && xs[j] == b
  }

  lemma HeadIn<T(!new)>(xs: seq<T>)
    ensures xs == [] || xs[0] in xs
  {
  }

  lemma HeadBefore<T(!new)>(xs: seq<T>, j: int)
    requires 0 < j < |xs|
    ensures Precedes(xs, xs[0], xs[j])
  {
  }

  lemma NothingBeforeHead<T(!new)>(xs: seq<T>, a: T)
    requires Distinct(xs) && xs != []
    ensures !Precedes(xs, a, xs[0])
  {
  }

  lemma PrecedesNext<T(!new)>(xs: seq<T>, x: T, a: T, b: T)
    ensures Precedes(xs + [x], a, b) <==> Precedes(xs, a, b) || (a in xs && b == x)
  {
    var ys := xs + [x];
    if i, j :| 0 <= i < j < |xs| && xs[i] == a && xs[j] == b {
      assert ys[i] == a && ys[j] == b;
    }
    if a in xs && b == x {
      var i :| 0 <= i < |xs| && xs[i] == a;
      assert ys[i] == a && ys[|xs|] == b;
    }
  }

  lemma {:induction false} KeepPrecedes<T(!new)>(xs: seq<T>, p: T -> bool, a: T, b: T)
    ensures Precedes(Keep(xs, p), a, b) <==> p(a) && p(b) && Precedes(xs, a, b)
  {
    if xs != [] {
      var n := |xs| - 1;
      KeepPrecedes(xs[..n], p, a, b);
      KeepMembers(xs[..n], p);
      PrecedesNext(xs[..n], xs[n], a, b);
      PrecedesNext(Keep(xs[..n], p), xs[n], a, b);
      assert xs == xs[..n] + [xs[n]];
      assert Keep(xs[..n], p) + [] == Keep(xs[..n], p);
    }
  }

  lemma FirstsAgree<T(!new)>(xs: seq<T>, ys: seq<T>)
    requires Distinct(xs) && xs != [] && ys != [] && xs[0] in ys
    requires forall a, b | Precedes(ys, a, b) :: Precedes(xs, a, b)
    ensures xs[0] == ys[0]
  {
    var j :| 0 <= j < |ys| && ys[j] == xs[0];
    NothingBeforeHead(xs, ys[0]);
    if j > 0 {
      HeadBefore(ys, j);
    }
  }

  lemma PrecedesTail<T(!new)>(xs: seq<T>, a: T, b: T)
    requires Distinct(xs) && xs != []
    ensures Precedes(xs[1..], a, b) <==> Precedes(xs, a, b) && a != xs[0]
  {
    if i, j :| 0 <= i < j < |xs[1..]| && xs[1..][i] == a && xs[1..][j] == b {
      assert xs[i + 1] == a && xs[j + 1] == b;
    }
    if a != xs[0] {
      if i, j :| 0 <= i < j < |xs| && xs[i] == a && xs[j] == b {
        assert xs[1..][i - 1] == a && xs[1..][j - 1] == b;
      }
    }
  }

  lemma TailMember<T(!new)>(xs: seq<T>, x: T)
    requires Distinct(xs) && xs != []
    ensures x in xs[1..] <==> x in xs && x != xs[0]
  {
  }

  lemma NoMember<T(!new)>(xs: seq<T>)
    requires forall x :: x !in xs
    ensures xs == []
  {
    HeadIn(xs);
  }

  /** Lists without repetition of the same items in the same order are the same list. */
  lemma {:induction false} SameOrder<T(!new)>(xs: seq<T>, ys: seq<T>)
    requires Distinct(xs) && Distinct(ys) && forall x :: x in xs <==> x in ys
    requires forall a, b :: Precedes(xs, a, b) <==> Precedes(ys, a, b)
    ensures xs == ys
  {
    if xs == [] {
      NoMember(ys);
    } else {
      assert xs[0] in ys;
      FirstsAgree(xs, ys);
      forall x ensures x in xs[1..] <==> x in ys[1..] {
        TailMember(xs, x);
        TailMember(ys, x);
      }
      forall a, b ensures Precedes(xs[1..], a, b) <==> Precedes(ys[1..], a, b) {
        PrecedesTail(xs, a, b);
        PrecedesTail(ys, a, b);
      }
      SameOrder(xs[1..], ys[1..]);
      assert xs == [xs[0]] + xs[1..] && ys == [ys[0]] + ys[1..];
    }
  }

  lemma HeadPrecedes<T(!new)>(xs: seq<T>, m: T)
    requires Distinct(xs) && xs != []
    ensures xs[0] == m <==> m in xs && forall b | b in xs && b != m :: Precedes(xs, m, b)
  {
    if xs[0] == m {
      forall b | b in xs && b != m ensures Precedes(xs, m, b) {
        var j :| 0 <= j < |xs| && xs[j] == b;
      }
    } else if m in xs {
      HeadIn(xs);
      NothingBeforeHead(xs, m);
    }
  }
}
