/** The occupancy timeline of one unit in a billing window: clipped rows, a block on overlap, gaps as vacancy. */
module Occupancy {
  import opened Numbers
  import opened Order
  import opened Rows
  import opened DaySpans

  /** A row of the timeline; without a tenancy it is the landlord's own use. An open end is None. */
  datatype Occupant = Occupant(tenancy: Option<nat>, from: int, to: Option<int>)
  {
    predicate Holds(day: int) { from <= day && (to.None? || day < to.value) }
  }

  /** A row clipped to the window, with its place in the input. */
  datatype Claimed = Claimed(tenancy: Option<nat>, span: Span, place: nat)

  datatype Segment = Segment(tenancy: Option<nat>, span: Span)

  /** What a refusal reports: the first day claimed twice, the days counted as claimed twice, and the totals. */
  datatype Overlap = Overlap(day: int, twice: int, totals: Totals)

  datatype Totals = Totals(available: int, claimed: int)

  datatype Timeline = Overlaps(error: Overlap) | Segments(segments: seq<Segment>)

  function EndIn(to: Option<int>, window: Span): int
  {
    if to.None? then window.to else Min(to.value, window.to)
  }

  /** Rows without a day in the window are dropped. */
  function Clip(rows: seq<Occupant>, window: Span): seq<Claimed>
  {
    if rows == [] then []
    else
      var n := |rows| - 1;
      var span := Span(Max(rows[n].from, window.from), EndIn(rows[n].to, window));
      Clip(rows[..n], window) + (if span.NonEmpty() then [Claimed(rows[n].tenancy, span, n)] else [])
  }

  /** A stable sort by start. */
  function StartKey(): Claimed -> Key
  {
    (c: Claimed) => [c.span.from, c.place]
  }

  /** Days of the later row that its direct predecessor claims too. */
  function PairOverlap(previous: Claimed, next: Claimed): int
  {
    Max(0, Min(previous.span.to, next.span.to) - next.span.from)
  }

  function PairTotal(rows: seq<Claimed>): int
  {
    if |rows| < 2 then 0 else PairTotal(rows[..|rows| - 1]) + PairOverlap(rows[|rows| - 2], rows[|rows| - 1])
  }

  /** The start of the first row that begins before the one in front of it has ended. */
  function FirstClash(rows: seq<Claimed>): Option<int>
  {
    if |rows| < 2 then None
    else
      var n := |rows| - 1;
      if FirstClash(rows[..n]).Some? then FirstClash(rows[..n])
      else if rows[n].span.from < rows[n - 1].span.to then Some(rows[n].span.from)
      else None
  }

  function ClaimedDays(rows: seq<Claimed>): int
  {
    if rows == [] then 0 else ClaimedDays(rows[..|rows| - 1]) + (rows[|rows| - 1].span.to - rows[|rows| - 1].span.from)
  }

  /** Where the timeline stands after some rows. */
  function Cursor(rows: seq<Claimed>, window: Span): int
  {
    if rows == [] then window.from else rows[|rows| - 1].span.to
  }

  function Filled(rows: seq<Claimed>, window: Span): seq<Segment>
  {
    if rows == [] then []
    else
      var n := |rows| - 1;
      Filled(rows[..n], window)
      + (if rows[n].span.from > Cursor(rows[..n], window)
         then [Segment(None, Span(Cursor(rows[..n], window), rows[n].span.from))] else [])
      + [Segment(rows[n].tenancy, rows[n].span)]
  }

  function Ended(segments: seq<Segment>, cursor: int, window: Span): seq<Segment>
  {
    segments + (if cursor < window.to then [Segment(None, Span(cursor, window.to))] else [])
  }

  /** No row starts before the one in front of it has ended. */
  predicate Orderly(rows: seq<Claimed>)
  {
    forall i | 0 < i < |rows| :: rows[i - 1].span.to <= rows[i].span.from
  }

  /** The clipped rows by start. */
  function InOrder(rows: seq<Occupant>, window: Span): seq<Claimed>
  {
    Sort(Clip(rows, window), StartKey())
  }

  function Built(rows: seq<Occupant>, window: Span): Timeline
  {
    var sorted := InOrder(rows, window);
    match FirstClash(sorted)
    case None => Segments(Ended(Filled(sorted, window), Cursor(sorted, window), window))
    case Some(day) => Overlaps(Overlap(day, PairTotal(sorted), Totals(window.to - window.from, ClaimedDays(sorted))))
  }

  method BuildUnitSegments(rows: seq<Occupant>, window: Span) returns (timeline: Timeline)
    ensures timeline == Built(rows, window)
  {
    var clipped, i := [], 0;
    assert rows[..0] == [];
    while i < |rows|
      invariant 0 <= i <= |rows|
      invariant clipped == Clip(rows[..i], window)
    {
      assert rows[..i + 1][..i] == rows[..i];
      var span := Span(Max(rows[i].from, window.from), EndIn(rows[i].to, window));
      if span.NonEmpty() {
        clipped := clipped + [Claimed(rows[i].tenancy, span, i)];
      }
      i := i + 1;
    }
    assert rows[..i] == rows;
    var sorted := Sort(clipped, StartKey());
    var total, clash := SumPairs(sorted);
    if clash.Some? {
      var claimed := SumDays(sorted);
      return Overlaps(Overlap(clash.value, total, Totals(window.to - window.from, claimed)));
    }
    var segments := FillGaps(sorted, window);
    return Segments(segments);
  }

  method SumPairs(rows: seq<Claimed>) returns (total: int, clash: Option<int>)
    ensures total == PairTotal(rows) && clash == FirstClash(rows)
  {
    total, clash := 0, None;
    if rows == [] {
      return;
    }
    var i := 1;
    while i < |rows|
      invariant 1 <= i <= |rows|
      invariant total == PairTotal(rows[..i]) && clash == FirstClash(rows[..i])
    {
      assert rows[..i + 1][..i] == rows[..i];
      if rows[i].span.from < rows[i - 1].span.to && clash.None? {
        clash := Some(rows[i].span.from);
      }
      total := total + PairOverlap(rows[i - 1], rows[i]);
      i := i + 1;
    }
    assert rows[..i] == rows;
  }

  method SumDays(rows: seq<Claimed>) returns (total: int)
    ensures total == ClaimedDays(rows)
  {
    total := 0;
    var i := 0;
    assert rows[..0] == [];
    while i < |rows|
      invariant 0 <= i <= |rows|
      invariant total == ClaimedDays(rows[..i])
    {
      assert rows[..i + 1][..i] == rows[..i];
      total := total + (rows[i].span.to - rows[i].span.from);
      i := i + 1;
    }
    assert rows[..i] == rows;
  }

  method FillGaps(rows: seq<Claimed>, window: Span) returns (segments: seq<Segment>)
    ensures segments == Ended(Filled(rows, window), Cursor(rows, window), window)
  {
    segments := [];
    var cursor, i := window.from, 0;
    assert rows[..0] == [];
    while i < |rows|
      invariant 0 <= i <= |rows|
      invariant segments == Filled(rows[..i], window) && cursor == Cursor(rows[..i], window)
    {
      assert rows[..i + 1][..i] == rows[..i];
      if rows[i].span.from > cursor {
        segments := segments + [Segment(None, Span(cursor, rows[i].span.from))];
      }
      segments := segments + [Segment(rows[i].tenancy, rows[i].span)];
      cursor := rows[i].span.to;
      i := i + 1;
    }
    assert rows[..i] == rows;
    if cursor < window.to {
      segments := segments + [Segment(None, Span(cursor, window.to))];
    }
  }

  // ---- The clipped rows ---------------------------------------------------------------------------------

  ghost predicate Clipped(c: Claimed, rows: seq<Occupant>, window: Span)
  {
    && c.place < |rows| && c.tenancy == rows[c.place].tenancy && c.span.NonEmpty()
    && window.from <= c.span.from && c.span.to <= window.to
    && forall day :: c.span.Holds(day) <==> window.Holds(day) && rows[c.place].Holds(day)
  }

  lemma {:induction false} ClipMeans(rows: seq<Occupant>, window: Span)
    ensures forall i | 0 <= i < |Clip(rows, window)| :: Clipped(Clip(rows, window)[i], rows, window)
    ensures forall i, j | 0 <= i < j < |Clip(rows, window)| :: Clip(rows, window)[i].place < Clip(rows, window)[j].place
    ensures forall k: nat, day: int | k < |rows| && window.Holds(day) && rows[k].Holds(day) ::
              exists c :: c in Clip(rows, window) && c.place == k
  {
    if rows != [] {
      var n := |rows| - 1;
      ClipMeans(rows[..n], window);
      var before := Clip(rows[..n], window);
      forall i | 0 <= i < |Clip(rows, window)| ensures Clipped(Clip(rows, window)[i], rows, window) {
        if i < |before| {
          assert Clipped(before[i], rows[..n], window);
        }
      }
      forall k: nat, day: int | k < |rows| && window.Holds(day) && rows[k].Holds(day)
        ensures exists c :: c in Clip(rows, window) && c.place == k
      {
        if k < n {
          assert rows[..n][k].Holds(day);
          var c :| c in before && c.place == k;
          assert c in Clip(rows, window);
        } else {
          var c := Clip(rows, window)[|before|];
          assert c in Clip(rows, window);
        }
      }
    }
  }

  ghost predicate PlacesDiffer(clipped: seq<Claimed>)
  {
    forall i, j | 0 <= i < j < |clipped| :: clipped[i].place < clipped[j].place
  }

  lemma SortedStarts(clipped: seq<Claimed>)
    requires PlacesDiffer(clipped)
    ensures var sorted := Sort(clipped, StartKey());
            && |sorted| == |clipped| && (forall c :: c in sorted <==> c in clipped)
            && forall i, j | 0 <= i < j < |sorted| ::
                 sorted[i].span.from <= sorted[j].span.from && sorted[i].place != sorted[j].place
  {
    var key, sorted := StartKey(), Sort(clipped, StartKey());
    SortItems(clipped, key);
    forall i, j | 0 <= i < j < |clipped| ensures key(clipped[i]) != key(clipped[j]) {
      assert key(clipped[i])[1] != key(clipped[j])[1];
    }
    SortAscends(clipped, key);
    forall i, j | 0 <= i < |sorted| && 0 <= j < |sorted| && sorted[i].place == sorted[j].place
      ensures sorted[i] == sorted[j]
    {
      SamePlace(clipped, sorted[i], sorted[j]) by { assert sorted[i] in sorted && sorted[j] in sorted; }
    }
    forall i, j | 0 <= i < j < |sorted|
      ensures sorted[i].span.from <= sorted[j].span.from && sorted[i].place != sorted[j].place
    {
      StartsAscend(sorted, i, j);
    }
  }

  lemma SamePlace(clipped: seq<Claimed>, c: Claimed, d: Claimed)
    requires PlacesDiffer(clipped) && c in clipped && d in clipped && c.place == d.place
    ensures c == d
  {
    var i :| 0 <= i < |clipped| && clipped[i] == c;
    var j :| 0 <= j < |clipped| && clipped[j] == d;
  }

  /** The sorted rows: same rows, ascending starts. */
  lemma SortedRows(rows: seq<Occupant>, window: Span)
    ensures var clipped, sorted := Clip(rows, window), InOrder(rows, window);
            && (forall i | 0 <= i < |sorted| :: Clipped(sorted[i], rows, window))
            && (forall i, j | 0 <= i < j < |sorted| ::
                sorted[i].span.from <= sorted[j].span.from && sorted[i].place != sorted[j].place)
            && (forall c :: c in sorted <==> c in clipped)
  {
    hide Clipped, Clip;
    var clipped := Clip(rows, window);
    var sorted := Sort(clipped, StartKey());
    ClipMeans(rows, window);
    SortedStarts(clipped);
    forall i | 0 <= i < |sorted| ensures Clipped(sorted[i], rows, window) {
      assert sorted[i] in sorted;
      var k :| 0 <= k < |clipped| && clipped[k] == sorted[i];
    }
  }

  lemma StartsAscend(sorted: seq<Claimed>, i: nat, j: nat)
    requires Ascending(sorted, StartKey()) && i < j < |sorted|
    requires forall k, l | 0 <= k < |sorted| && 0 <= l < |sorted| && sorted[k].place == sorted[l].place ::
        sorted[k] == sorted[l]
    ensures sorted[i].span.from <= sorted[j].span.from && sorted[i].place != sorted[j].place
  {
    LessTotal(StartKey()(sorted[i]), StartKey()(sorted[j]));
  }

  // ---- Overlaps -------------------------------------------------------------------------------------------

  /** Two rows claim the day. */
  ghost predicate ShareOn(rows: seq<Occupant>, window: Span, day: int)
  {
    window.Holds(day) && exists i: nat, j: nat :: i < j < |rows| && rows[i].Holds(day) && rows[j].Holds(day)
  }

  /** Two rows claim one day of the window. */
  ghost predicate ShareDay(rows: seq<Occupant>, window: Span)
  {
    exists day :: ShareOn(rows, window, day)
  }

  lemma {:induction false} OrderlyApart(rows: seq<Claimed>, i: nat, j: nat)
    requires Orderly(rows) && i < j < |rows| && forall k | 0 <= k < |rows| :: rows[k].span.NonEmpty()
    ensures rows[i].span.to <= rows[j].span.from
    decreases j - i
  {
    if i + 1 < j {
      OrderlyApart(rows, i + 1, j);
      assert rows[i + 1].span.NonEmpty();
    }
  }

  /** The first clash: a row that starts inside its predecessor, behind rows in good order. */
  lemma {:induction false} FirstClashMeans(rows: seq<Claimed>)
    ensures FirstClash(rows).None? <==> Orderly(rows)
    ensures FirstClash(rows).Some? ==>
              exists i: nat :: ClashesAt(rows, i) && rows[i].span.from == FirstClash(rows).value
  {
    if |rows| >= 2 {
      var n := |rows| - 1;
      FirstClashMeans(rows[..n]);
      if FirstClash(rows[..n]).Some? {
        var i: nat :| ClashesAt(rows[..n], i) && rows[..n][i].span.from == FirstClash(rows[..n]).value;
        assert rows[..n][..i] == rows[..i];
        assert ClashesAt(rows, i);
      } else if rows[n].span.from < rows[n - 1].span.to {
        assert ClashesAt(rows, n);
      }
    }
  }

  ghost predicate ClashesAt(rows: seq<Claimed>, i: nat)
  {
    0 < i < |rows| && rows[i].span.from < rows[i - 1].span.to && Orderly(rows[..i])
  }

  lemma OrderlyNotShared(rows: seq<Occupant>, window: Span)
    requires Orderly(InOrder(rows, window))
    ensures !ShareDay(rows, window)
  {
    hide InOrder, Orderly, Clip;
    forall day ensures !ShareOn(rows, window, day) {
      forall i: nat, j: nat | i < j < |rows| && window.Holds(day) ensures !(rows[i].Holds(day) && rows[j].Holds(day)) {
        OrderlyUnshared(rows, window, InOrder(rows, window), i, j, day);
      }
    }
  }

  lemma ClashShared(rows: seq<Occupant>, window: Span, i: nat)
    requires ClashesAt(InOrder(rows, window), i)
    ensures i < |InOrder(rows, window)|
    ensures ShareOn(rows, window, InOrder(rows, window)[i].span.from)
  {
    hide InOrder, Orderly, Clip, ShareOn;
    NeighboursShare(rows, window, InOrder(rows, window), i);
  }

  /** Looking at neighbours only finds every overlap: the timeline is refused exactly when two rows share a day. */
  lemma RefusedIffShared(rows: seq<Occupant>, window: Span)
    ensures Built(rows, window).Overlaps? <==> ShareDay(rows, window)
  {
    hide InOrder, Orderly, Clip, ShareOn, FirstClash, Filled, PairTotal;
    var sorted := InOrder(rows, window);
    FirstClashMeans(sorted);
    if Orderly(sorted) {
      OrderlyNotShared(rows, window);
    } else {
      var i: nat :| ClashesAt(sorted, i) && sorted[i].span.from == FirstClash(sorted).value;
      ClashShared(rows, window, i);
    }
  }

  /** The day that a refusal reports is the first day of the window that two rows share. */
  lemma RefusedOnFirstSharedDay(rows: seq<Occupant>, window: Span)
    requires Built(rows, window).Overlaps?
    ensures ShareOn(rows, window, Built(rows, window).error.day)
    ensures forall day | ShareOn(rows, window, day) :: Built(rows, window).error.day <= day
  {
    hide InOrder, Orderly, Clip, ShareOn, FirstClash, Filled, PairTotal;
    var sorted := InOrder(rows, window);
    FirstClashMeans(sorted);
    var i: nat :| ClashesAt(sorted, i) && sorted[i].span.from == FirstClash(sorted).value;
    ClashShared(rows, window, i);
    forall day | ShareOn(rows, window, day) ensures sorted[i].span.from <= day {
      SharedAfterClash(rows, window, i, day);
    }
  }

  lemma SharedAfterClash(rows: seq<Occupant>, window: Span, i: nat, day: int)
    requires ClashesAt(InOrder(rows, window), i) && ShareOn(rows, window, day)
    ensures i < |InOrder(rows, window)|
    ensures InOrder(rows, window)[i].span.from <= day
  {
    hide InOrder, Orderly, Clip;
    var sorted := InOrder(rows, window);
    var a: nat, b: nat :| a < b < |rows| && rows[a].Holds(day) && rows[b].Holds(day);
    var k := RowInSorted(rows, window, a, day);
    var l := RowInSorted(rows, window, b, day);
    SortedNonEmpty(rows, window);
    SortedByStart(rows, window);
    var later := if k < l then l else k;
    if later < i {
      OrderlyDisjoint(sorted[..i], k, l, day);
    }
  }

  lemma SortedByStart(rows: seq<Occupant>, window: Span)
    ensures var sorted := InOrder(rows, window);
            forall i, j | 0 <= i < j < |sorted| :: sorted[i].span.from <= sorted[j].span.from
  {
    hide InOrder;
    SortedRows(rows, window);
  }

  lemma OrderlyDisjoint(rows: seq<Claimed>, i: nat, j: nat, day: int)
    requires Orderly(rows) && i < |rows| && j < |rows| && i != j && forall k | 0 <= k < |rows| ::
        rows[k].span.NonEmpty()
    ensures !(rows[i].span.Holds(day) && rows[j].span.Holds(day))
  {
    OrderlyApart(rows, if i < j then i else j, if i < j then j else i);
  }

  /** A row that holds a day of the window is among the sorted rows. */
  lemma RowInSorted(rows: seq<Occupant>, window: Span, k: nat, day: int) returns (i: nat)
    requires k < |rows| && window.Holds(day) && rows[k].Holds(day)
    ensures var sorted := InOrder(rows, window);
            i < |sorted| && sorted[i].place == k && sorted[i].span.Holds(day)
  {
    hide InOrder;
    var sorted := InOrder(rows, window);
    SortedRows(rows, window);
    ClipMeans(rows, window);
    var c :| c in Clip(rows, window) && c.place == k;
    assert c in sorted;
    i :| i < |sorted| && sorted[i] == c;
    assert Clipped(sorted[i], rows, window);
  }

  lemma OrderlyUnshared(rows: seq<Occupant>, window: Span, sorted: seq<Claimed>, i: nat, j: nat, day: int)
    requires sorted == InOrder(rows, window) && Orderly(sorted)
    requires i < j < |rows| && window.Holds(day)
    ensures !(rows[i].Holds(day) && rows[j].Holds(day))
  {
    hide InOrder;
    if rows[i].Holds(day) && rows[j].Holds(day) {
      var k := RowInSorted(rows, window, i, day);
      var l := RowInSorted(rows, window, j, day);
      SortedNonEmpty(rows, window);
      OrderlyDisjoint(sorted, k, l, day);
    }
  }

  lemma SortedNonEmpty(rows: seq<Occupant>, window: Span)
    ensures var sorted := InOrder(rows, window);
            forall i | 0 <= i < |sorted| ::
              sorted[i].span.NonEmpty() && window.from <= sorted[i].span.from && sorted[i].span.to <= window.to
  {
    hide InOrder;
    var sorted := InOrder(rows, window);
    SortedRows(rows, window);
    forall i | 0 <= i < |sorted|
      ensures sorted[i].span.NonEmpty() && window.from <= sorted[i].span.from && sorted[i].span.to <= window.to
    {
      assert Clipped(sorted[i], rows, window);
    }
  }

  lemma NeighboursShare(rows: seq<Occupant>, window: Span, sorted: seq<Claimed>, i: nat)
    requires sorted == InOrder(rows, window) && 0 < i < |sorted|
    requires sorted[i - 1].span.to > sorted[i].span.from
    ensures ShareOn(rows, window, sorted[i].span.from)
  {
    hide InOrder;
    SortedRows(rows, window);
    var c, d, day := sorted[i - 1], sorted[i], sorted[i].span.from;
    assert Clipped(c, rows, window) && Clipped(d, rows, window);
    assert c.span.Holds(day) && d.span.Holds(day);
    if c.place < d.place {
      assert rows[c.place].Holds(day) && rows[d.place].Holds(day);
    } else {
      assert rows[d.place].Holds(day) && rows[c.place].Holds(day);
    }
  }

  // ---- Segments -----------------------------------------------------------------------------------------------

  /** Without overlap: the tenancy of the row that holds the day, else nobody. */
  ghost predicate LabelOf(rows: seq<Occupant>, day: int, tenancy: Option<nat>)
  {
    if exists i :: 0 <= i < |rows| && rows[i].Holds(day)
    then exists i :: 0 <= i < |rows| && rows[i].Holds(day) && rows[i].tenancy == tenancy
    else tenancy == None
  }

  /** Segments that follow one another without a gap from `low` to `high`. */
  ghost predicate Contiguous(segments: seq<Segment>, low: int, high: int)
  {
    && (forall i | 0 <= i < |segments| :: segments[i].span.NonEmpty())
    && (forall i | 0 < i < |segments| :: segments[i - 1].span.to == segments[i].span.from)
    && (if segments == [] then low == high
        else segments[0].span.from == low && segments[|segments| - 1].span.to == high)
  }

  lemma ContiguousNext(segments: seq<Segment>, low: int, middle: int, next: Segment)
    requires Contiguous(segments, low, middle) && next.span.from == middle && next.span.NonEmpty()
    ensures Contiguous(segments + [next], low, next.span.to)
  {
  }

  /** Every segment is a row, or a gap that no row touches. */
  ghost predicate FromRows(s: Segment, rows: seq<Claimed>)
  {
    || (exists i :: 0 <= i < |rows| && rows[i].span == s.span && rows[i].tenancy == s.tenancy)
    || (s.tenancy == None && forall i | 0 <= i < |rows| ::
        rows[i].span.to <= s.span.from || s.span.to <= rows[i].span.from)
  }

  ghost predicate AllFromRows(segments: seq<Segment>, rows: seq<Claimed>)
  {
    forall s | s in segments :: FromRows(s, rows)
  }

  ghost predicate Valid(rows: seq<Claimed>, window: Span)
  {
    && Orderly(rows)
    && forall i | 0 <= i < |rows| ::
         rows[i].span.NonEmpty() && window.from <= rows[i].span.from && rows[i].span.to <= window.to
  }

  lemma {:induction false} FilledContiguous(rows: seq<Claimed>, window: Span)
    requires Valid(rows, window)
    ensures Contiguous(Filled(rows, window), window.from, Cursor(rows, window))
    ensures AllFromRows(Filled(rows, window), rows)
  {
    if rows != [] {
      var n := |rows| - 1;
      var before, cursor := Filled(rows[..n], window), Cursor(rows[..n], window);
      FilledContiguous(rows[..n], window);
      assert cursor <= rows[n].span.from;
      if rows[n].span.from > cursor {
        ContiguousNext(before, window.from, cursor, Segment(None, Span(cursor, rows[n].span.from)));
        ContiguousNext(before + [Segment(None, Span(cursor, rows[n].span.from))], window.from, rows[n].span.from,
                       Segment(rows[n].tenancy, rows[n].span));
      } else {
        assert before + [] == before;
        ContiguousNext(before, window.from, cursor, Segment(rows[n].tenancy, rows[n].span));
      }
      FilledFromRows(rows, window);
    }
  }

  lemma FilledFromRows(rows: seq<Claimed>, window: Span)
    requires Valid(rows, window) && rows != []
    requires AllFromRows(Filled(rows[..|rows| - 1], window), rows[..|rows| - 1])
    requires Contiguous(Filled(rows[..|rows| - 1], window), window.from, Cursor(rows[..|rows| - 1], window))
    ensures AllFromRows(Filled(rows, window), rows)
  {
    var n := |rows| - 1;
    var first, before := rows[..n], Filled(rows[..n], window);
    forall s | s in Filled(rows, window) ensures FromRows(s, rows) {
      if s in before {
        EndsByCursor(before, window.from, Cursor(first, window), s);
        if i :| 0 <= i < |first| && first[i].span == s.span && first[i].tenancy == s.tenancy {
          assert rows[i].span == s.span && rows[i].tenancy == s.tenancy;
        }
      } else if s.span == rows[n].span && s.tenancy == rows[n].tenancy {
        assert rows[n].span == s.span;
      } else {
        GapUntouched(rows, window, s);
      }
    }
  }

  lemma EndsByCursor(segments: seq<Segment>, low: int, high: int, s: Segment)
    requires Contiguous(segments, low, high) && s in segments
    ensures s.span.to <= high
  {
    var i :| 0 <= i < |segments| && segments[i] == s;
    EndsInOrder(segments, i);
  }

  lemma {:induction false} EndsInOrder(segments: seq<Segment>, i: nat)
    requires i < |segments| && forall k | 0 <= k < |segments| :: segments[k].span.NonEmpty()
    requires forall k | 0 < k < |segments| :: segments[k - 1].span.to == segments[k].span.from
    ensures segments[i].span.to <= segments[|segments| - 1].span.to
    decreases |segments| - i
  {
    if i < |segments| - 1 {
      EndsInOrder(segments, i + 1);
      assert segments[i + 1].span.NonEmpty();
    }
  }

  lemma GapUntouched(rows: seq<Claimed>, window: Span, s: Segment)
    requires Valid(rows, window) && rows != []
    requires s == Segment(None, Span(Cursor(rows[..|rows| - 1], window), rows[|rows| - 1].span.from))
    ensures FromRows(s, rows)
  {
    var n := |rows| - 1;
    forall i | 0 <= i < |rows| ensures rows[i].span.to <= s.span.from || s.span.to <= rows[i].span.from {
      if i < n - 1 {
        OrderlyApart(rows, i, n - 1);
      }
    }
  }

  lemma EndUntouched(rows: seq<Claimed>, window: Span)
    requires Valid(rows, window)
    ensures FromRows(Segment(None, Span(Cursor(rows, window), window.to)), rows)
  {
    forall i | 0 <= i < |rows| ensures rows[i].span.to <= Cursor(rows, window) {
      if i < |rows| - 1 {
        OrderlyApart(rows, i, |rows| - 1);
      }
    }
  }

  /**
   * An accepted timeline covers the window without gap or overlap, and every day of a segment
   * carries the label of the row that holds it, or nobody's when no row does.
   */
  lemma SegmentsAreDays(rows: seq<Occupant>, window: Span)
    requires window.NonEmpty() && Built(rows, window).Segments?
    ensures Contiguous(Built(rows, window).segments, window.from, window.to)
    ensures forall s, day | s in Built(rows, window).segments && s.span.Holds(day) ::
              window.Holds(day) && LabelOf(rows, day, s.tenancy)
  {
    hide InOrder;
    var sorted := InOrder(rows, window);
    SortedNonEmpty(rows, window);
    FirstClashMeans(sorted);
    FilledContiguous(sorted, window);
    EndUntouched(sorted, window);
    var filled, cursor := Filled(sorted, window), Cursor(sorted, window);
    if cursor < window.to {
      ContiguousNext(filled, window.from, cursor, Segment(None, Span(cursor, window.to)));
    }
    forall s, day | s in Built(rows, window).segments && s.span.Holds(day)
      ensures window.Holds(day) && LabelOf(rows, day, s.tenancy)
    {
      StartsByLow(Built(rows, window).segments, window.from, window.to, s);
      SegmentLabel(rows, window, sorted, s, day);
    }
  }

  lemma StartsByLow(segments: seq<Segment>, low: int, high: int, s: Segment)
    requires Contiguous(segments, low, high) && s in segments
    ensures low <= s.span.from && s.span.to <= high
  {
    var i :| 0 <= i < |segments| && segments[i] == s;
    EndsInOrder(segments, i);
    StartsInOrder(segments, i);
  }

  lemma {:induction false} StartsInOrder(segments: seq<Segment>, i: nat)
    requires i < |segments| && forall k | 0 <= k < |segments| :: segments[k].span.NonEmpty()
    requires forall k | 0 < k < |segments| :: segments[k - 1].span.to == segments[k].span.from
    ensures segments[0].span.from <= segments[i].span.from
  {
    if i > 0 {
      StartsInOrder(segments, i - 1);
      assert segments[i - 1].span.NonEmpty();
    }
  }

  lemma SegmentLabel(rows: seq<Occupant>, window: Span, sorted: seq<Claimed>, s: Segment, day: int)
    requires sorted == InOrder(rows, window)
    requires FromRows(s, sorted) && s.span.Holds(day) && window.Holds(day)
    ensures LabelOf(rows, day, s.tenancy)
  {
    hide InOrder;
    SortedRows(rows, window);
    if i :| 0 <= i < |sorted| && sorted[i].span == s.span && sorted[i].tenancy == s.tenancy {
      assert Clipped(sorted[i], rows, window);
      assert rows[sorted[i].place].Holds(day);
    } else {
      forall k: nat | k < |rows| ensures !rows[k].Holds(day) {
        NobodyThere(rows, window, sorted, s, day, k);
      }
    }
  }

  lemma NobodyThere(rows: seq<Occupant>, window: Span, sorted: seq<Claimed>, s: Segment, day: int, k: nat)
    requires sorted == InOrder(rows, window) && k < |rows|
    requires forall i | 0 <= i < |sorted| :: sorted[i].span.to <= s.span.from || s.span.to <= sorted[i].span.from
    requires s.span.Holds(day) && window.Holds(day)
    ensures !rows[k].Holds(day)
  {
    hide InOrder;
    if rows[k].Holds(day) {
      var i := RowInSorted(rows, window, k, day);
    }
  }

  // ---- The reported overlap --------------------------------------------------------------------------------------

  ghost function LatestEnd(rows: seq<Claimed>, low: int): int
  {
    if rows == [] then low else Max(LatestEnd(rows[..|rows| - 1], low), rows[|rows| - 1].span.to)
  }

  /** Days of the last row that any earlier row claims too, given ascending starts. */
  ghost function ClaimedBefore(rows: seq<Claimed>): int
    requires rows != []
  {
    var last := rows[|rows| - 1].span;
    Max(0, Min(LatestEnd(rows[..|rows| - 1], last.from), last.to) - last.from)
  }

  ghost function TrueOverlap(rows: seq<Claimed>): int
  {
    if rows == [] then 0 else TrueOverlap(rows[..|rows| - 1]) + ClaimedBefore(rows)
  }

  lemma {:induction false} LatestEndMeans(rows: seq<Claimed>, low: int)
    ensures forall i | 0 <= i < |rows| :: rows[i].span.to <= LatestEnd(rows, low)
    ensures LatestEnd(rows, low) >= low
    ensures LatestEnd(rows, low) == low || exists i :: 0 <= i < |rows| && rows[i].span.to == LatestEnd(rows, low)
  {
    if rows != [] {
      LatestEndMeans(rows[..|rows| - 1], low);
      if LatestEnd(rows, low) != low && rows[|rows| - 1].span.to != LatestEnd(rows, low) {
        var i :| 0 <= i < |rows| - 1 && rows[..|rows| - 1][i].span.to == LatestEnd(rows, low);
        assert rows[i].span.to == LatestEnd(rows, low);
      }
    }
  }

  /** A day of the last row is claimed before exactly when it lies before the latest end. */
  lemma ClaimedBeforeMeans(rows: seq<Claimed>, day: int)
    requires rows != [] && rows[|rows| - 1].span.Holds(day)
    requires forall i | 0 <= i < |rows| - 1 :: rows[i].span.from <= rows[|rows| - 1].span.from
    ensures (exists i :: 0 <= i < |rows| - 1 && rows[i].span.Holds(day))
       <==> day < LatestEnd(rows[..|rows| - 1], rows[|rows| - 1].span.from)
  {
    var n := |rows| - 1;
    LatestEndMeans(rows[..n], rows[n].span.from);
    var end := LatestEnd(rows[..n], rows[n].span.from);
    if day < end {
      var i :| 0 <= i < n && rows[..n][i].span.to == end;
      assert rows[i].span.Holds(day);
    }
  }

  /** No earlier row reaches further into row `k` than its direct predecessor does. */
  ghost predicate NeighbourReachesFurthest(rows: seq<Claimed>, k: nat)
    requires 0 < k < |rows|
  {
    Min(LatestEnd(rows[..k], rows[k].span.from), rows[k].span.to) <= Max(rows[k - 1].span.to, rows[k].span.from)
  }

  /** What neighbours share is at most what is claimed before, row by row and in sum. */
  lemma {:induction false} PairsWithinOverlap(rows: seq<Claimed>)
    requires forall i | 0 <= i < |rows| :: rows[i].span.NonEmpty()
    ensures PairTotal(rows) <= TrueOverlap(rows)
    ensures PairTotal(rows) == TrueOverlap(rows) <==>
              forall k: nat | 0 < k < |rows| :: NeighbourReachesFurthest(rows, k)
  {
    if |rows| >= 2 {
      var n := |rows| - 1;
      var first := rows[..n];
      PairsWithinOverlap(first);
      forall k: nat | 0 < k < n ensures NeighbourReachesFurthest(first, k) <==> NeighbourReachesFurthest(rows, k) {
        assert first[..k] == rows[..k];
      }
      LatestEndMeans(first, rows[n].span.from);
      assert first[n - 1].span.to <= LatestEnd(first, rows[n].span.from);
      assert PairOverlap(rows[n - 1], rows[n]) <= ClaimedBefore(rows);
      assert PairOverlap(rows[n - 1], rows[n]) == ClaimedBefore(rows) <==> NeighbourReachesFurthest(rows, n);
    } else if |rows| == 1 {
      assert rows[..0] == [];
    }
  }

  ghost function DaysFrom(from: int, to: int): set<int>
  {
    set day | from <= day < to && Span(from, to).Holds(day)
  }

  lemma {:induction false} CountDays(from: int, to: int)
    ensures |DaysFrom(from, to)| == Max(0, to - from)
    decreases Max(0, to - from)
  {
    if from < to {
      CountDays(from, to - 1);
      assert DaysFrom(from, to) == DaysFrom(from, to - 1) + {to - 1};
    } else {
      assert DaysFrom(from, to) == {};
    }
  }

  /** The days that some row claims. */
  ghost function DaysOf(rows: seq<Claimed>): set<int>
  {
    if rows == [] then {}
    else DaysOf(rows[..|rows| - 1]) + DaysFrom(rows[|rows| - 1].span.from, rows[|rows| - 1].span.to)
  }

  lemma {:induction false} DaysOfMeans(rows: seq<Claimed>)
    ensures forall day :: day in DaysOf(rows) <==> exists i :: 0 <= i < |rows| && rows[i].span.Holds(day)
  {
    if rows != [] {
      var n := |rows| - 1;
      DaysOfMeans(rows[..n]);
      forall day ensures day in DaysOf(rows) <==> exists i :: 0 <= i < |rows| && rows[i].span.Holds(day) {
        if i :| 0 <= i < n && rows[..n][i].span.Holds(day) {
          assert rows[i].span.Holds(day);
        }
        if i :| 0 <= i < |rows| && rows[i].span.Holds(day) {
          assert i < n ==> rows[..n][i].span.Holds(day);
        }
        assert rows[n].span.Holds(day) <==> day in DaysFrom(rows[n].span.from, rows[n].span.to);
      }
    }
  }

  lemma UnionSize(a: set<int>, b: set<int>)
    ensures |a + b| + |a * b| == |a| + |b|
  {
    assert a + b == a + (b - a);
    assert b == (b - a) + (a * b);
  }

  /** The days of the last row that were claimed before are the first so many of it. */
  lemma ClaimedBeforeCounts(rows: seq<Claimed>)
    requires rows != [] && rows[|rows| - 1].span.NonEmpty()
    requires forall i | 0 <= i < |rows| - 1 :: rows[i].span.from <= rows[|rows| - 1].span.from
    ensures var n := |rows| - 1;
            |DaysOf(rows[..n]) * DaysFrom(rows[n].span.from, rows[n].span.to)| == ClaimedBefore(rows)
  {
    var n := |rows| - 1;
    var last, end := rows[n].span, LatestEnd(rows[..n], rows[n].span.from);
    DaysOfMeans(rows[..n]);
    forall day | last.Holds(day) ensures day in DaysOf(rows[..n]) <==> day < end {
      ClaimedBeforeMeans(rows, day);
    }
    assert DaysOf(rows[..n]) * DaysFrom(last.from, last.to) == DaysFrom(last.from, Min(end, last.to));
    CountDays(last.from, Min(end, last.to));
  }

  /** Claimed days are the distinct days and those claimed again. */
  lemma {:induction false} ClaimedTwice(rows: seq<Claimed>)
    requires forall i | 0 <= i < |rows| :: rows[i].span.NonEmpty()
    requires forall i, j | 0 <= i < j < |rows| :: rows[i].span.from <= rows[j].span.from
    ensures ClaimedDays(rows) == |DaysOf(rows)| + TrueOverlap(rows)
  {
    if rows != [] {
      var n := |rows| - 1;
      ClaimedTwice(rows[..n]);
      ClaimedBeforeCounts(rows);
      UnionSize(DaysOf(rows[..n]), DaysFrom(rows[n].span.from, rows[n].span.to));
      CountDays(rows[n].span.from, rows[n].span.to);
    }
  }

  /** The days of the window that some row holds. */
  ghost function HeldDays(rows: seq<Occupant>, window: Span): set<int>
  {
    set day | window.from <= day < window.to && HeldBy(rows, day)
  }

  ghost predicate HeldBy(rows: seq<Occupant>, day: int)
  {
    exists i :: 0 <= i < |rows| && rows[i].Holds(day)
  }

  lemma HeldDaysAre(rows: seq<Occupant>, window: Span)
    ensures DaysOf(InOrder(rows, window)) == HeldDays(rows, window)
  {
    hide InOrder, Clip;
    var sorted := InOrder(rows, window);
    DaysOfMeans(sorted);
    SortedRows(rows, window);
    forall day ensures day in DaysOf(sorted) <==> day in HeldDays(rows, window) {
      if day in DaysOf(sorted) {
        var i :| 0 <= i < |sorted| && sorted[i].span.Holds(day);
        assert Clipped(sorted[i], rows, window);
        assert rows[sorted[i].place].Holds(day);
        assert HeldBy(rows, day);
      }
      if day in HeldDays(rows, window) {
        var k :| 0 <= k < |rows| && rows[k].Holds(day);
        var i := RowInSorted(rows, window, k, day);
        assert sorted[i].span.Holds(day);
      }
    }
  }

  /**
   * A refusal reports at most the days claimed more than once: what all rows claim, less the
   * distinct days they hold. It reports exactly those when no row, by start, is reached from further
   * back than its direct predecessor; otherwise too few.
   */
  lemma ReportedOverlapExactIff(rows: seq<Occupant>, window: Span)
    requires Built(rows, window).Overlaps?
    ensures var error := Built(rows, window).error;
            var again := error.totals.claimed - |HeldDays(rows, window)|;
            && error.totals.available == window.to - window.from
            && error.twice <= again
            && (error.twice == again <==>
                  forall k: nat | 0 < k < |InOrder(rows, window)| :: NeighbourReachesFurthest(InOrder(rows, window), k))
  {
    hide InOrder, NeighbourReachesFurthest, FirstClash, Filled, HeldDays;
    var sorted := InOrder(rows, window);
    SortedNonEmpty(rows, window);
    SortedByStart(rows, window);
    HeldDaysAre(rows, window);
    ClaimedTwice(sorted);
    PairsWithinOverlap(sorted);
  }

  /** A long tenancy with two short ones inside: two days are claimed twice, one is reported. */
  lemma ReportedOverlapTooSmall()
    ensures var rows := [Occupant(Some(0), 0, Some(10)), Occupant(Some(1), 1, Some(2)), Occupant(Some(2), 3, Some(4))];
            && Built(rows, Span(0, 10)) == Overlaps(Overlap(1, 1, Totals(10, 12)))
            && |HeldDays(rows, Span(0, 10))| == 10
  {
    var rows := [Occupant(Some(0), 0, Some(10)), Occupant(Some(1), 1, Some(2)), Occupant(Some(2), 3, Some(4))];
    var window := Span(0, 10);
    ThreeInOrder();
    ThreeClash();
    assert rows[0].Holds(0);
    assert HeldDays(rows, window) == DaysFrom(0, 10) by {
      forall day | 0 <= day < 10 ensures day in HeldDays(rows, window) {
        assert rows[0].Holds(day);
        assert HeldBy(rows, day);
      }
    }
    CountDays(0, 10);
  }

  const THREE := [Claimed(Some(0), Span(0, 10), 0), Claimed(Some(1), Span(1, 2), 1), Claimed(Some(2), Span(3, 4), 2)]

  lemma ThreeInOrder()
    ensures var rows := [Occupant(Some(0), 0, Some(10)), Occupant(Some(1), 1, Some(2)), Occupant(Some(2), 3, Some(4))];
            InOrder(rows, Span(0, 10)) == THREE
  {
    var rows := [Occupant(Some(0), 0, Some(10)), Occupant(Some(1), 1, Some(2)), Occupant(Some(2), 3, Some(4))];
    var window, key := Span(0, 10), StartKey();
    assert rows[..2] == [rows[0], rows[1]] && rows[..2][..1] == [rows[0]] && rows[..2][..1][..0] == [];
    assert Clip(rows[..2][..1], window) == [THREE[0]];
    assert Clip(rows[..2], window) == [THREE[0], THREE[1]];
    assert Clip(rows, window) == THREE;
    assert THREE[1..] == [THREE[1], THREE[2]] && THREE[1..][1..] == [THREE[2]] && THREE[1..][1..][1..] == [];
    assert Sort(THREE[1..][1..], key) == [THREE[2]];
    assert Less(key(THREE[1]), key(THREE[2])) && Less(key(THREE[0]), key(THREE[1]));
    assert Sort(THREE[1..], key) == [THREE[1], THREE[2]];
    assert Sort(THREE, key) == THREE;
  }

  lemma ThreeClash()
    ensures FirstClash(THREE) == Some(1) && PairTotal(THREE) == 1 && ClaimedDays(THREE) == 12
  {
    assert THREE[..2] == [THREE[0], THREE[1]] && THREE[..2][..1] == [THREE[0]] && THREE[..2][..1][..0] == [];
    assert FirstClash(THREE[..2][..1]) == None && PairTotal(THREE[..2][..1]) == 0 && ClaimedDays(THREE[..2][..1]) == 10;
    assert FirstClash(THREE[..2]) == Some(1) && PairTotal(THREE[..2]) == 1 && ClaimedDays(THREE[..2]) == 11;
  }
}
