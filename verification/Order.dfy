/** Total orders by integer keys, and the sort that the engines apply to them. */
module Order {

  /** Keys are compared like Python tuples of integers: first difference decides. */
  type Key = seq<int>

  predicate Less(a: Key, b: Key)
  {
    if a == [] || b == [] then a == [] && b != []
    else a[0] < b[0] || (a[0] == b[0] && Less(a[1..], b[1..]))
  }

  lemma {:induction false} LessTotal(a: Key, b: Key)
    ensures Less(a, b) || Less(b, a) || a == b
    ensures !(Less(a, b) && Less(b, a))
    ensures !Less(a, a)
  {
    if a != [] {
      if b != [] {
        LessTotal(a[1..], b[1..]);
        assert a == [a[0]] + a[1..] && b == [b[0]] + b[1..];
      }
      LessTotal(a[1..], a[1..]);
    }
  }

  lemma {:induction false} LessTransitive(a: Key, b: Key, c: Key)
    requires Less(a, b) && Less(b, c)
    ensures Less(a, c)
  {
    if a != [] && a[0] == b[0] == c[0] {
      LessTransitive(a[1..], b[1..], c[1..]);
    }
  }

  /** Ascending by key, strictly: no two items share a key. */
  ghost predicate Ascending<T>(xs: seq<T>, key: T -> Key)
  {
    forall i, j | 0 <= i < j < |xs| :: Less(key(xs[i]), key(xs[j]))
  }

  ghost predicate DistinctKeys<T>(xs: seq<T>, key: T -> Key)
  {
    forall i, j | 0 <= i < j < |xs| :: key(xs[i]) != key(xs[j])
  }

  function Insert<T>(x: T, xs: seq<T>, key: T -> Key): (ys: seq<T>)
  {
    if xs == [] || Less(key(x), key(xs[0])) then [x] + xs
    else [xs[0]] + Insert(x, xs[1..], key)
  }

  function Sort<T>(xs: seq<T>, key: T -> Key): (ys: seq<T>)
  {
    if xs == [] then [] else Insert(xs[0], Sort(xs[1..], key), key)
  }

  lemma {:induction false} InsertItems<T>(x: T, xs: seq<T>, key: T -> Key)
    ensures multiset(Insert(x, xs, key)) == multiset([x]) + multiset(xs)
  {
    if !(xs == [] || Less(key(x), key(xs[0]))) {
      InsertItems(x, xs[1..], key);
      assert xs == [xs[0]] + xs[1..];
    }
  }

  /** Sorting neither drops, invents nor duplicates an item. */
  lemma {:induction false} SortItems<T>(xs: seq<T>, key: T -> Key)
    ensures multiset(Sort(xs, key)) == multiset(xs)
    ensures |Sort(xs, key)| == |xs|
    ensures forall x :: x in Sort(xs, key) <==> x in xs
  {
    if xs != [] {
      SortItems(xs[1..], key);
      InsertItems(xs[0], Sort(xs[1..], key), key);
      assert xs == [xs[0]] + xs[1..];
    }
    assert |multiset(Sort(xs, key))| == |multiset(xs)|;
    forall x ensures x in Sort(xs, key) <==> x in xs {
      assert x in Sort(xs, key) <==> x in multiset(Sort(xs, key));
      assert x in xs <==> x in multiset(xs);
    }
  }

  lemma {:induction false} InsertAscends<T>(x: T, xs: seq<T>, key: T -> Key)
    requires Ascending(xs, key)
    requires forall y | y in xs :: key(y) != key(x)
    ensures Ascending(Insert(x, xs, key), key)
  {
    if xs == [] {
    } else if Less(key(x), key(xs[0])) {
      forall j | 0 <= j < |xs| ensures Less(key(x), key(xs[j])) {
        if j > 0 { LessTransitive(key(x), key(xs[0]), key(xs[j])); }
      }
    } else {
      LessTotal(key(x), key(xs[0]));
      InsertAscends(x, xs[1..], key);
      var rest := Insert(x, xs[1..], key);
      InsertItems(x, xs[1..], key);
      forall j | 0 <= j < |rest| ensures Less(key(xs[0]), key(rest[j])) {
        assert rest[j] in multiset(rest);
        assert rest[j] == x || rest[j] in xs[1..];
      }
    }
  }

  lemma {:induction false} SortAscends<T>(xs: seq<T>, key: T -> Key)
    requires DistinctKeys(xs, key)
    ensures Ascending(Sort(xs, key), key)
  {
    if xs != [] {
      SortAscends(xs[1..], key);
      SortItems(xs[1..], key);
      var rest := Sort(xs[1..], key);
      forall y | y in rest ensures key(y) != key(xs[0]) {
        assert y in multiset(rest);
        assert y in xs[1..];
        var j :| 1 <= j < |xs| && xs[j] == y;
      }
      InsertAscends(xs[0], rest, key);
    }
  }

  /** Two ascending lists of the same items are the same list. */
  lemma {:induction false} AscendingUnique<T>(xs: seq<T>, ys: seq<T>, key: T -> Key)
    requires Ascending(xs, key) && Ascending(ys, key)
    requires multiset(xs) == multiset(ys)
    ensures xs == ys
  {
    assert |multiset(xs)| == |multiset(ys)|;
    if xs != [] {
      SameFirst(xs, ys, key);
      assert xs == [xs[0]] + xs[1..] && ys == [ys[0]] + ys[1..];
      assert multiset(xs[1..]) == multiset(xs) - multiset([xs[0]]);
      assert multiset(ys[1..]) == multiset(ys) - multiset([ys[0]]);
      AscendingUnique(xs[1..], ys[1..], key);
    }
  }

  lemma SameFirst<T>(xs: seq<T>, ys: seq<T>, key: T -> Key)
    requires Ascending(xs, key) && Ascending(ys, key)
    requires multiset(xs) == multiset(ys) && xs != [] && ys != []
    ensures xs[0] == ys[0]
  {
    assert xs[0] in multiset(ys) && ys[0] in multiset(xs);
    var i :| 0 <= i < |ys| && ys[i] == xs[0];
    var j :| 0 <= j < |xs| && xs[j] == ys[0];
    LessTotal(key(xs[0]), key(ys[0]));
  }

  /** With pairwise different keys the sorted list does not depend on the input order. */
  lemma SortIgnoresInputOrder<T>(xs: seq<T>, ys: seq<T>, key: T -> Key)
    requires multiset(xs) == multiset(ys)
    requires DistinctKeys(xs, key) && DistinctKeys(ys, key)
    ensures Sort(xs, key) == Sort(ys, key)
  {
    SortItems(xs, key);
    SortItems(ys, key);
    SortAscends(xs, key);
    SortAscends(ys, key);
    AscendingUnique(Sort(xs, key), Sort(ys, key), key);
  }
}
