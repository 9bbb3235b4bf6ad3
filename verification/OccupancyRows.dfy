/** What the timeline and its refusal say in terms of the occupancy rows: which segments, which figures. */
module OccupancyRows {
  import opened Numbers
  import opened Order
  import opened Rows
  import opened DaySpans
  import opened Occupancy

  // ---- The segments ------------------------------------------------------------------------------------------

  /** The window days of a row, as a span. */
  ghost predicate ClipsTo(row: Occupant, window: Span, span: Span)
  {
    && span.from < span.to
    && forall day :: span.from <= day < span.to <==> window.from <= day < window.to && row.Holds(day)
  }

  ghost predicate BordersRow(rows: seq<Occupant>, window: Span, day: int)
  {
    exists i, span :: 0 <= i < |rows| && ClipsTo(rows[i], window, span) && (day == span.from || day == span.to)
  }

  lemma {:induction false} RowsAreFilled(rows: seq<Claimed>, window: Span)
    ensures forall i | 0 <= i < |rows| :: Segment(rows[i].tenancy, rows[i].span) in Filled(rows, window)
  {
    if rows != [] {
      RowsAreFilled(rows[..|rows| - 1], window);
      assert forall i | 0 <= i < |rows| - 1 :: rows[i] == rows[..|rows| - 1][i];
    }
  }

  ghost predicate Borders(rows: seq<Claimed>, window: Span, day: int)
  {
    day == window.from || exists i :: 0 <= i < |rows| && (day == rows[i].span.from || day == rows[i].span.to)
  }

  lemma {:induction false} FilledStarts(rows: seq<Claimed>, window: Span)
    ensures forall s | s in Filled(rows, window) :: Borders(rows, window, s.span.from)
    ensures Borders(rows, window, Cursor(rows, window))
  {
    if rows != [] {
      var n := |rows| - 1;
      FilledStarts(rows[..n], window);
      forall day | Borders(rows[..n], window, day) ensures Borders(rows, window, day) {
        if i :| 0 <= i < n && (day == rows[..n][i].span.from || day == rows[..n][i].span.to) {
          assert rows[i] == rows[..n][i];
        }
      }
      assert Borders(rows, window, rows[n].span.from) && Borders(rows, window, rows[n].span.to);
    }
  }

  lemma ClippedClips(c: Claimed, rows: seq<Occupant>, window: Span)
    requires Clipped(c, rows, window)
    ensures c.place < |rows| && ClipsTo(rows[c.place], window, c.span) && c.tenancy == rows[c.place].tenancy
  {
    assert forall day :: c.span.Holds(day) <==> c.span.from <= day < c.span.to;
    assert forall day :: window.Holds(day) <==> window.from <= day < window.to;
  }

  lemma ClipsOnce(row: Occupant, window: Span, a: Span, b: Span)
    requires ClipsTo(row, window, a) && ClipsTo(row, window, b)
    ensures a == b
  {
    assert row.Holds(a.from) && row.Holds(b.from);
    assert row.Holds(a.to - 1) && row.Holds(b.to - 1);
  }

  /**
   * Every row with a day in the window is a segment of its own, and apart from the window's first day a
   * segment starts only where such a row starts or ends: so each vacancy is one segment.
   */
  lemma SegmentsAreRows(rows: seq<Occupant>, window: Span)
    requires window.NonEmpty() && Built(rows, window).Segments?
    ensures forall i, span | 0 <= i < |rows| && ClipsTo(rows[i], window, span) ::
              Segment(rows[i].tenancy, span) in Built(rows, window).segments
    ensures forall s | s in Built(rows, window).segments ::
              s.span.from == window.from || BordersRow(rows, window, s.span.from)
  {
    hide InOrder, ClipsTo, Clipped;
    var sorted := InOrder(rows, window);
    SortedRows(rows, window);
    RowsAreFilled(sorted, window);
    FilledStarts(sorted, window);
    forall i, span | 0 <= i < |rows| && ClipsTo(rows[i], window, span)
      ensures Segment(rows[i].tenancy, span) in Built(rows, window).segments
    {
      RowIsSorted(rows, window, i, span);
      var j :| 0 <= j < |sorted| && sorted[j].tenancy == rows[i].tenancy && sorted[j].span == span;
    }
    forall s | s in Built(rows, window).segments
      ensures s.span.from == window.from || BordersRow(rows, window, s.span.from)
    {
      var day := s.span.from;
      if day != window.from {
        var i :| 0 <= i < |sorted| && (day == sorted[i].span.from || day == sorted[i].span.to);
        ClippedClips(sorted[i], rows, window);
      }
    }
  }

  lemma RowIsSorted(rows: seq<Occupant>, window: Span, i: nat, span: Span)
    requires i < |rows| && ClipsTo(rows[i], window, span)
    ensures var sorted := InOrder(rows, window);
            exists j :: 0 <= j < |sorted| && sorted[j].tenancy == rows[i].tenancy && sorted[j].span == span
  {
    hide InOrder, Clip, ClipsTo, Clipped;
    SortedRows(rows, window);
    ClipsPlace(rows, window, i, span);
    var c :| c in Clip(rows, window) && c.place == i;
    var sorted := InOrder(rows, window);
    assert c in sorted;
    var j :| 0 <= j < |sorted| && sorted[j] == c;
    assert Clipped(sorted[j], rows, window);
    ClippedClips(c, rows, window);
    ClipsOnce(rows[i], window, span, c.span);
  }

  // ---- The figures of a refusal ----------------------------------------------------------------------------------

  /** The window days that a row claims. */
  ghost function DaysIn(row: Occupant, window: Span): set<int>
  {
    set day | window.from <= day < window.to && row.Holds(day)
  }

  /** All of them, row by row. */
  ghost function AllDaysIn(rows: seq<Occupant>, window: Span): nat
  {
    if rows == [] then 0 else AllDaysIn(rows[..|rows| - 1], window) + |DaysIn(rows[|rows| - 1], window)|
  }

  /** The days that each row, by start, shares with the one before it. */
  ghost function SharedWithPrevious(sorted: seq<Claimed>): nat
  {
    if |sorted| < 2 then 0
    else
      var n := |sorted| - 1;
      SharedWithPrevious(sorted[..n])
      + |DaysFrom(sorted[n - 1].span.from, sorted[n - 1].span.to) * DaysFrom(sorted[n].span.from, sorted[n].span.to)|
  }

  lemma SharedDays(a: Span, b: Span)
    requires a.from <= b.from
    ensures |DaysFrom(a.from, a.to) * DaysFrom(b.from, b.to)| == Max(0, Min(a.to, b.to) - b.from)
  {
    assert DaysFrom(a.from, a.to) * DaysFrom(b.from, b.to) == DaysFrom(b.from, Min(a.to, b.to));
    CountDays(b.from, Min(a.to, b.to));
  }

  lemma {:induction false} PairTotalIs(sorted: seq<Claimed>)
    requires forall i, j | 0 <= i < j < |sorted| :: sorted[i].span.from <= sorted[j].span.from
    ensures PairTotal(sorted) == SharedWithPrevious(sorted)
  {
    hide DaysFrom;
    if |sorted| >= 2 {
      var n := |sorted| - 1;
      PairTotalIs(sorted[..n]);
      SharedDays(sorted[n - 1].span, sorted[n].span);
    }
  }

  lemma ClippedDays(row: Occupant, window: Span)
    ensures var span := Span(Max(row.from, window.from), EndIn(row.to, window));
            |DaysIn(row, window)| == Max(0, span.to - span.from)
  {
    var span := Span(Max(row.from, window.from), EndIn(row.to, window));
    forall day ensures day in DaysIn(row, window) <==> day in DaysFrom(span.from, span.to) {
      assert Span(span.from, span.to).Holds(day) <==> span.from <= day < span.to;
    }
    assert DaysIn(row, window) == DaysFrom(span.from, span.to);
    CountDays(span.from, span.to);
  }

  lemma {:induction false} ClaimedIs(rows: seq<Occupant>, window: Span)
    ensures ClaimedDays(Clip(rows, window)) == AllDaysIn(rows, window)
  {
    hide DaysIn;
    if rows != [] {
      var n := |rows| - 1;
      ClaimedIs(rows[..n], window);
      ClippedDays(rows[n], window);
      var before, span := Clip(rows[..n], window), Span(Max(rows[n].from, window.from), EndIn(rows[n].to, window));
      if span.NonEmpty() {
        assert (before + [Claimed(rows[n].tenancy, span, n)])[..|before|] == before;
      } else {
        assert before + [] == before;
      }
    }
  }

  lemma {:induction false} ClaimedConcat(xs: seq<Claimed>, ys: seq<Claimed>)
    ensures ClaimedDays(xs + ys) == ClaimedDays(xs) + ClaimedDays(ys)
  {
    if ys == [] {
      assert xs + ys == xs;
    } else {
      var n := |ys| - 1;
      ClaimedConcat(xs, ys[..n]);
      assert (xs + ys)[..|xs + ys| - 1] == xs + ys[..n];
    }
  }

  lemma {:induction false} ClaimedInAnyOrder(xs: seq<Claimed>, ys: seq<Claimed>)
    requires multiset(xs) == multiset(ys)
    ensures ClaimedDays(xs) == ClaimedDays(ys)
  {
    hide ClaimedDays;
    if xs == [] {
      assert |multiset(ys)| == 0;
    } else {
      var i := TakeFirst(xs, ys);
      ClaimedInAnyOrder(xs[1..], ys[..i] + ys[i + 1..]);
      ClaimedConcat([xs[0]], xs[1..]);
      ClaimedConcat(ys[..i], [ys[i]] + ys[i + 1..]);
      ClaimedConcat([ys[i]], ys[i + 1..]);
      ClaimedConcat(ys[..i], ys[i + 1..]);
    }
  }

  lemma TakeFirst(xs: seq<Claimed>, ys: seq<Claimed>) returns (i: nat)
    requires multiset(xs) == multiset(ys) && xs != []
    ensures i < |ys| && ys[i] == xs[0] && multiset(ys[..i] + ys[i + 1..]) == multiset(xs[1..])
    ensures xs == [xs[0]] + xs[1..] && ys == ys[..i] + ([ys[i]] + ys[i + 1..])
  {
    assert xs == [xs[0]] + xs[1..];
    assert xs[0] in multiset(ys);
    i :| i < |ys| && ys[i] == xs[0];
    assert ys == ys[..i] + ([ys[i]] + ys[i + 1..]);
    assert multiset(ys) == multiset(ys[..i]) + (multiset{ys[i]} + multiset(ys[i + 1..]));
    assert multiset(ys[..i] + ys[i + 1..]) == multiset(ys) - multiset{ys[i]};
    assert multiset(xs) == multiset{xs[0]} + multiset(xs[1..]);
    assert multiset(xs[1..]) == multiset(xs) - multiset{xs[0]};
  }

  /**
   * The figures of a refusal: the days of the window, the days that all rows claim in it, and the days
   * that each row, by start, shares with the one directly before it.
   */
  lemma ReportedFigures(rows: seq<Occupant>, window: Span)
    requires Built(rows, window).Overlaps?
    ensures var error := Built(rows, window).error;
            && error.totals.available == window.to - window.from
            && error.totals.claimed == AllDaysIn(rows, window)
            && error.twice == SharedWithPrevious(InOrder(rows, window))
  {
    hide Clip, ClaimedDays, PairTotal, AllDaysIn, SharedWithPrevious;
    SortedByStart(rows, window);
    PairTotalIs(InOrder(rows, window));
    ClaimedIs(rows, window);
    SortItems(Clip(rows, window), StartKey());
    ClaimedInAnyOrder(InOrder(rows, window), Clip(rows, window));
  }

  /** The rows by start are the clipped rows; of two that start together the one stored first goes first. */
  lemma InOrderIs(rows: seq<Occupant>, window: Span)
    ensures var sorted := InOrder(rows, window);
            && (forall i | 0 <= i < |sorted| ::
                  sorted[i].place < |rows| && ClipsTo(rows[sorted[i].place], window, sorted[i].span)
                  && sorted[i].tenancy == rows[sorted[i].place].tenancy)
            && (forall k: nat, span | k < |rows| && ClipsTo(rows[k], window, span) ::
                  exists i :: 0 <= i < |sorted| && sorted[i].place == k)
            && forall i, j | 0 <= i < j < |sorted| ::
                 sorted[i].span.from < sorted[j].span.from
                 || (sorted[i].span.from == sorted[j].span.from && sorted[i].place < sorted[j].place)
  {
    hide ClipsTo, Clip, Clipped;
    var sorted, clipped := InOrder(rows, window), Clip(rows, window);
    SortedRows(rows, window);
    forall i | 0 <= i < |sorted|
      ensures sorted[i].place < |rows| && ClipsTo(rows[sorted[i].place], window, sorted[i].span)
      ensures sorted[i].tenancy == rows[sorted[i].place].tenancy
    {
      ClippedClips(sorted[i], rows, window);
    }
    forall k: nat, span | k < |rows| && ClipsTo(rows[k], window, span)
      ensures exists i :: 0 <= i < |sorted| && sorted[i].place == k
    {
      ClipsPlace(rows, window, k, span);
      var c :| c in clipped && c.place == k;
      assert c in sorted;
    }
    SortedByPlace(rows, window);
  }

  lemma ClipsPlace(rows: seq<Occupant>, window: Span, k: nat, span: Span)
    requires k < |rows| && ClipsTo(rows[k], window, span)
    ensures exists c :: c in Clip(rows, window) && c.place == k
  {
    hide Clip, ClipsTo, Clipped;
    ClipMeans(rows, window);
    ClipsStart(rows[k], window, span);
  }

  lemma ClipsStart(row: Occupant, window: Span, span: Span)
    requires ClipsTo(row, window, span)
    ensures window.Holds(span.from) && row.Holds(span.from)
  {
    assert row.Holds(span.from);
  }

  lemma SortedByPlace(rows: seq<Occupant>, window: Span)
    ensures var sorted := InOrder(rows, window);
            forall i, j | 0 <= i < j < |sorted| ::
              sorted[i].span.from < sorted[j].span.from
              || (sorted[i].span.from == sorted[j].span.from && sorted[i].place < sorted[j].place)
  {
    hide Clip, Less;
    var clipped, key := Clip(rows, window), StartKey();
    ClipMeans(rows, window);
    forall i, j | 0 <= i < j < |clipped| ensures key(clipped[i]) != key(clipped[j]) {
      assert key(clipped[i])[1] != key(clipped[j])[1];
    }
    SortAscends(clipped, key);
    var sorted := Sort(clipped, key);
    forall i, j | 0 <= i < j < |sorted|
      ensures sorted[i].span.from < sorted[j].span.from
              || (sorted[i].span.from == sorted[j].span.from && sorted[i].place < sorted[j].place)
    {
      PairLess(key(sorted[i]), key(sorted[j]));
    }
  }

  lemma PairLess(a: Key, b: Key)
    requires |a| == |b| == 2 && Less(a, b)
    ensures a[0] < b[0] || (a[0] == b[0] && a[1] < b[1])
  {
    assert a[1..] == [a[1]] && b[1..] == [b[1]];
    assert [a[1]][1..] == [] && [b[1]][1..] == [];
    assert Less([a[1]], [b[1]]) <==> a[1] < b[1];
  }
}
