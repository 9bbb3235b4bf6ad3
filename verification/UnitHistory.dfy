/** The history of a unit: a sweep over the days on which something begins or ends. */
module UnitHistory {
  import opened Numbers
  import opened Rows

  datatype Use = Rented | SelfUsed | Gratuitous

  datatype Interval = Interval(use: Use, name: string, from: int, to: Option<int>)
  {
    predicate Holds(day: int) { from <= day && (to.None? || day < to.value) }
  }

  /** Half-open days; `until` is the last day that is shown, open for the current segment. */
  datatype Segment = Segment(selected: Option<Interval>, from: int, until: Option<int>, current: bool)

  // ---- The per-day definition --------------------------------------------------------------------------

  function FirstRented(rows: seq<Interval>, day: int): Option<Interval>
  {
    if rows == [] then None
    else if rows[0].Holds(day) && rows[0].use == Rented then Some(rows[0])
    else FirstRented(rows[1..], day)
  }

  function FirstActive(rows: seq<Interval>, day: int): Option<Interval>
  {
    if rows == [] then None
    else if rows[0].Holds(day) then Some(rows[0])
    else FirstActive(rows[1..], day)
  }

  /** A tenancy goes first, then any other use; None is vacancy. */
  function Selected(rows: seq<Interval>, day: int): Option<Interval>
  {
    if FirstRented(rows, day).Some? then FirstRented(rows, day) else FirstActive(rows, day)
  }

  ghost predicate Runs(row: Interval, day: int)
  {
    row.from <= day && (row.to == None || day < row.to.value)
  }

  /** The first tenancy that runs on the day; without one the first row that does; nothing if none does. */
  ghost predicate Shows(rows: seq<Interval>, day: int, selected: Option<Interval>)
  {
    match selected
    case None => forall i | 0 <= i < |rows| :: !Runs(rows[i], day)
    case Some(row) =>
      exists i :: 0 <= i < |rows| && rows[i] == row && Runs(row, day)
                  && if row.use == Rented
                     then forall j | 0 <= j < i :: !(Runs(rows[j], day) && rows[j].use == Rented)
                     else && (forall j | 0 <= j < |rows| :: !(Runs(rows[j], day) && rows[j].use == Rented))
                          && forall j | 0 <= j < i :: !Runs(rows[j], day)
  }

  lemma {:induction false} FirstRentedIs(rows: seq<Interval>, day: int)
    ensures match FirstRented(rows, day)
      case None => forall j | 0 <= j < |rows| :: !(Runs(rows[j], day) && rows[j].use == Rented)
      case Some(row) =>
        exists i :: 0 <= i < |rows| && rows[i] == row && Runs(row, day) && row.use == Rented
                    && forall j | 0 <= j < i :: !(Runs(rows[j], day) && rows[j].use == Rented)
  {
    if rows != [] && !(rows[0].Holds(day) && rows[0].use == Rented) {
      FirstRentedIs(rows[1..], day);
      assert forall j | 0 < j < |rows| :: rows[j] == rows[1..][j - 1];
      if FirstRented(rows, day).Some? {
        var i :| 0 <= i < |rows[1..]| && rows[1..][i] == FirstRented(rows, day).value
                 && Runs(rows[1..][i], day) && rows[1..][i].use == Rented
                 && forall j | 0 <= j < i :: !(Runs(rows[1..][j], day) && rows[1..][j].use == Rented);
        assert rows[i + 1] == FirstRented(rows, day).value;
      }
    }
  }

  lemma {:induction false} FirstActiveIs(rows: seq<Interval>, day: int)
    ensures match FirstActive(rows, day)
      case None => forall j | 0 <= j < |rows| :: !Runs(rows[j], day)
      case Some(row) =>
        exists i :: 0 <= i < |rows| && rows[i] == row && Runs(row, day) && forall j | 0 <= j < i :: !Runs(rows[j], day)
  {
    if rows != [] && !rows[0].Holds(day) {
      FirstActiveIs(rows[1..], day);
      assert forall j | 0 < j < |rows| :: rows[j] == rows[1..][j - 1];
      if FirstActive(rows, day).Some? {
        var i :| 0 <= i < |rows[1..]| && rows[1..][i] == FirstActive(rows, day).value
                 && Runs(rows[1..][i], day) && forall j | 0 <= j < i :: !Runs(rows[1..][j], day);
        assert rows[i + 1] == FirstActive(rows, day).value;
      }
    }
  }

  lemma SelectedShows(rows: seq<Interval>, day: int)
    ensures Shows(rows, day, Selected(rows, day))
  {
    hide FirstRented, FirstActive, Runs;
    FirstRentedIs(rows, day);
    FirstActiveIs(rows, day);
  }

  /** Rows that begin after the day of the report run on no day up to it. */
  lemma {:induction false} BegunSelect(rows: seq<Interval>, asOf: int, day: int)
    requires day <= asOf
    ensures FirstRented(Begun(rows, asOf), day) == FirstRented(rows, day)
    ensures FirstActive(Begun(rows, asOf), day) == FirstActive(rows, day)
  {
    if rows != [] {
      BegunSelect(rows[1..], asOf, day);
      var rest := Begun(rows[1..], asOf);
      assert Begun(rows, asOf) == (if rows[0].from <= asOf then [rows[0]] else []) + rest;
      assert ([rows[0]] + rest)[1..] == rest && [] + rest == rest;
    }
  }

  // ---- The sweep -----------------------------------------------------------------------------------------

  /** Rows that begin after the day of the report are not part of it. */
  function Begun(rows: seq<Interval>, asOf: int): seq<Interval>
  {
    if rows == [] then []
    else (if rows[0].from <= asOf then [rows[0]] else []) + Begun(rows[1..], asOf)
  }

  function EarliestStart(rows: seq<Interval>, otherwise: int): int
  {
    if rows == [] then otherwise
    else if |rows| == 1 then rows[0].from
    else Min(rows[0].from, EarliestStart(rows[1..], otherwise))
  }

  predicate Boundary(rows: seq<Interval>, start: int, asOf: int, day: int)
  {
    || day == start || day == asOf + 1
    || exists i :: 0 <= i < |rows| && (rows[i].from == day || (rows[i].to == Some(day) && start < day <= asOf))
  }

  /** The boundaries from `low` on, ascending. */
  function Points(boundaries: set<int>, low: int, high: int): seq<int>
    decreases high - low
  {
    if low > high then [] else (if low in boundaries then [low] else []) + Points(boundaries, low + 1, high)
  }

  function SegmentAt(rows: seq<Interval>, from: int, stop: int, asOf: int): Segment
  {
    var current := from <= asOf < stop;
    Segment(Selected(rows, from), from, if current then None else Some(stop - 1), current)
  }

  /** One segment per pair of neighbouring points, newest first. */
  function Swept(rows: seq<Interval>, points: seq<int>, asOf: int): seq<Segment>
  {
    if |points| < 2 then []
    else [SegmentAt(rows, points[|points| - 2], points[|points| - 1], asOf)] + Swept(rows, points[..|points| - 1], asOf)
  }

  method Boundaries(rows: seq<Interval>, start: int, asOf: int) returns (boundaries: set<int>)
    requires start <= asOf && forall i | 0 <= i < |rows| :: rows[i].from >= start
    ensures forall day :: day in boundaries <==> Boundary(rows, start, asOf, day)
  {
    boundaries := {start, asOf + 1};
    var i := 0;
    while i < |rows|
      invariant 0 <= i <= |rows|
      invariant forall day :: day in boundaries <==> Boundary(rows[..i], start, asOf, day)
    {
      ghost var before := boundaries;
      var row := rows[i];
      boundaries := boundaries + {if row.from > start then row.from else start};
      if row.to.Some? && start < row.to.value <= asOf {
        boundaries := boundaries + {row.to.value};
      }
      forall day ensures day in boundaries <==> Boundary(rows[..i + 1], start, asOf, day) {
        BoundaryNext(rows, i, start, asOf, day);
      }
      i := i + 1;
    }
    assert rows[..i] == rows;
  }

  lemma BoundaryNext(rows: seq<Interval>, i: nat, start: int, asOf: int, day: int)
    requires i < |rows|
    ensures Boundary(rows[..i + 1], start, asOf, day)
       <==> || Boundary(rows[..i], start, asOf, day) || rows[i].from == day
            || (rows[i].to == Some(day) && start < day <= asOf)
  {
    var less, more := rows[..i], rows[..i + 1];
    if j :| 0 <= j < |less| && (less[j].from == day || (less[j].to == Some(day) && start < day <= asOf)) {
      assert more[j] == less[j];
    }
    if j :| 0 <= j < |more| && (more[j].from == day || (more[j].to == Some(day) && start < day <= asOf)) {
      assert j < i ==> less[j] == more[j];
    }
    assert more[i] == rows[i];
  }

  function Start(rows: seq<Interval>, created: int, asOf: int): int
  {
    EarliestStart(Begun(rows, asOf), Min(created, asOf))
  }

  /** The first day: that of the earliest row begun, or of the unit's creation, but not after the report. */
  ghost predicate Starts(rows: seq<Interval>, created: int, asOf: int, start: int)
  {
    if forall i | 0 <= i < |rows| :: rows[i].from > asOf then start == (if created <= asOf then created else asOf)
    else
      && (exists i :: 0 <= i < |rows| && rows[i].from == start && start <= asOf)
      && forall i | 0 <= i < |rows| :: start <= rows[i].from
  }

  lemma StartIs(rows: seq<Interval>, created: int, asOf: int)
    ensures Starts(rows, created, asOf, Start(rows, created, asOf))
  {
    var begun := Begun(rows, asOf);
    BegunMeans(rows, asOf);
    EarliestMeans(begun, Min(created, asOf));
    var start := Start(rows, created, asOf);
    forall i | 0 <= i < |rows| && rows[i].from <= asOf ensures rows[i] in begun {
      assert rows[i] in rows;
    }
    if begun != [] {
      var i :| 0 <= i < |begun| && begun[i].from == start;
      assert begun[i] in begun;
      var j :| 0 <= j < |rows| && rows[j] == begun[i];
      forall k | 0 <= k < |rows| ensures start <= rows[k].from {
        if rows[k].from <= asOf {
          assert rows[k] in rows;
          var l :| 0 <= l < |begun| && begun[l] == rows[k];
        }
      }
    }
  }

  /** The loop over neighbouring points; every segment goes in front of the earlier ones. */
  method Sweep(explicit: seq<Interval>, points: seq<int>, asOf: int) returns (segments: seq<Segment>)
    requires |points| >= 2
    ensures segments == Swept(explicit, points, asOf)
  {
    hide SegmentAt;
    segments := [];
    var index := 0;
    while index < |points| - 1
      invariant 0 <= index <= |points| - 1
      invariant segments == Swept(explicit, points[..index + 1], asOf)
    {
      assert points[..index + 2][..index + 1] == points[..index + 1];
      segments := [SegmentAt(explicit, points[index], points[index + 1], asOf)] + segments;
      index := index + 1;
    }
    assert points[..index + 1] == points;
  }

  /** The history of the unit up to the day of the report, in terms of its rows alone. */
  method History(rows: seq<Interval>, created: int, asOf: int) returns (segments: seq<Segment>)
    ensures Start(rows, created, asOf) <= asOf
    ensures Starts(rows, created, asOf, Start(rows, created, asOf))
    ensures DescribesDays(segments, Begun(rows, asOf), Start(rows, created, asOf), asOf)
    ensures forall k, day | 0 <= k < |segments| && segments[k].from <= day < Stop(segments[k], asOf) ::
              Shows(rows, day, segments[k].selected)
    ensures forall day | Start(rows, created, asOf) < day <= asOf ::
              StartsOn(segments, day) <==>
                exists i :: 0 <= i < |rows| && rows[i].from <= asOf && (rows[i].from == day || rows[i].to == Some(day))
  {
    hide Shows, StartsOn, Starts, Runs, DescribesDays, Turns, Boundary;
    StartIs(rows, created, asOf);
    var explicit := Begun(rows, asOf);
    BegunMeans(rows, asOf);
    var start := EarliestStart(explicit, Min(created, asOf));
    EarliestMeans(explicit, Min(created, asOf));
    var boundaries := Boundaries(explicit, start, asOf);
    var points := Points(boundaries, start, asOf + 1);
    EndsAreBoundaries(explicit, start, asOf);
    PointsMean(boundaries, start, asOf + 1);
    PointsEnds(boundaries, start, asOf + 1);
    segments := Sweep(explicit, points, asOf);
    SweepDescribes(explicit, boundaries, points, start, asOf);
    InTermsOfRows(rows, segments, start, asOf);
  }

  lemma InTermsOfRows(rows: seq<Interval>, segments: seq<Segment>, start: int, asOf: int)
    requires DescribesDays(segments, Begun(rows, asOf), start, asOf)
    ensures forall k, day | 0 <= k < |segments| && segments[k].from <= day < Stop(segments[k], asOf) ::
              Shows(rows, day, segments[k].selected)
    ensures forall day | start < day <= asOf ::
              StartsOn(segments, day) <==>
                exists i :: 0 <= i < |rows| && rows[i].from <= asOf && (rows[i].from == day || rows[i].to == Some(day))
  {
    hide Shows, StartsOn, Turns, Begun, Stop, FirstRented, FirstActive;
    forall k: nat, day | 0 <= k < |segments| && segments[k].from <= day < Stop(segments[k], asOf)
      ensures Shows(rows, day, segments[k].selected)
    {
      SegmentsEnd(segments, Begun(rows, asOf), start, asOf, k);
      assert segments[k].selected == Selected(Begun(rows, asOf), day);
      BegunSelect(rows, asOf, day);
      SelectedShows(rows, day);
    }
    forall day | start < day <= asOf
      ensures StartsOn(segments, day) <==>
        exists i :: 0 <= i < |rows| && rows[i].from <= asOf && (rows[i].from == day || rows[i].to == Some(day))
    {
      TurnsOfRows(rows, asOf, day);
    }
  }

  lemma TurnsOfRows(rows: seq<Interval>, asOf: int, day: int)
    ensures Turns(Begun(rows, asOf), day) <==>
      exists i :: 0 <= i < |rows| && rows[i].from <= asOf && (rows[i].from == day || rows[i].to == Some(day))
  {
    hide Begun;
    BegunMeans(rows, asOf);
    var begun := Begun(rows, asOf);
    if i :| 0 <= i < |begun| && (begun[i].from == day || begun[i].to == Some(day)) {
      assert begun[i] in begun;
      var j :| 0 <= j < |rows| && rows[j] == begun[i];
    }
    if i :| 0 <= i < |rows| && rows[i].from <= asOf && (rows[i].from == day || rows[i].to == Some(day)) {
      assert rows[i] in rows;
      var j :| 0 <= j < |begun| && begun[j] == rows[i];
    }
  }

  /** No segment reaches beyond the day of the report. */
  lemma {:induction false} SegmentsEnd(segments: seq<Segment>, rows: seq<Interval>, start: int, asOf: int, k: nat)
    requires DescribesDays(segments, rows, start, asOf) && k < |segments|
    ensures Stop(segments[k], asOf) <= asOf + 1
  {
    if k > 0 {
      SegmentsEnd(segments, rows, start, asOf, k - 1);
    }
  }

  // ---- The sweep describes the days -------------------------------------------------------------------------

  /** The half-open end of a segment. */
  function Stop(s: Segment, asOf: int): int
  {
    if s.until.None? then asOf + 1 else s.until.value + 1
  }

  /** Some row begins or ends. */
  ghost predicate Turns(rows: seq<Interval>, day: int)
  {
    exists i :: 0 <= i < |rows| && (rows[i].from == day || rows[i].to == Some(day))
  }

  ghost predicate StartsOn(segments: seq<Segment>, day: int)
  {
    exists k :: 0 <= k < |segments| && segments[k].from == day
  }

  /**
   * Newest first, without gap or overlap from the start to the day of the report, only the first
   * one current; after the start a segment begins exactly where a row begins or ends; and every day
   * carries the label of the per-day definition.
   */
  ghost predicate DescribesDays(segments: seq<Segment>, rows: seq<Interval>, start: int, asOf: int)
  {
    && segments != []
    && Stop(segments[0], asOf) == asOf + 1 && segments[|segments| - 1].from == start
    && (forall k | 0 < k < |segments| :: Stop(segments[k], asOf) == segments[k - 1].from)
    && (forall k | 0 <= k < |segments| ::
        segments[k].from < Stop(segments[k], asOf) && (segments[k].current <==> k == 0)
                                          && (segments[k].current <==> segments[k].until.None?))
    && (forall day :: StartsOn(segments, day) <==> day == start || (start < day <= asOf && Turns(rows, day)))
    && forall k, day | 0 <= k < |segments| && segments[k].from <= day < Stop(segments[k], asOf) ::
         segments[k].selected == Selected(rows, day)
  }

  lemma {:induction false} BegunMeans(rows: seq<Interval>, asOf: int)
    ensures forall i | 0 <= i < |Begun(rows, asOf)| :: Begun(rows, asOf)[i].from <= asOf
    ensures forall row | row in rows && row.from <= asOf :: row in Begun(rows, asOf)
    ensures forall row | row in Begun(rows, asOf) :: row in rows
  {
    if rows != [] {
      BegunMeans(rows[1..], asOf);
      var head, rest := if rows[0].from <= asOf then [rows[0]] else [], Begun(rows[1..], asOf);
      assert Begun(rows, asOf) == head + rest;
      forall row | row in rows && row.from <= asOf ensures row in Begun(rows, asOf) {
        assert row == rows[0] || row in rows[1..];
        assert row in head || row in rest;
      }
    }
  }

  lemma {:induction false} EarliestMeans(rows: seq<Interval>, otherwise: int)
    ensures rows == [] ==> EarliestStart(rows, otherwise) == otherwise
    ensures forall i | 0 <= i < |rows| :: EarliestStart(rows, otherwise) <= rows[i].from
    ensures rows != [] ==> exists i :: 0 <= i < |rows| && rows[i].from == EarliestStart(rows, otherwise)
  {
    if |rows| > 1 {
      EarliestMeans(rows[1..], otherwise);
      var i :| 0 <= i < |rows[1..]| && rows[1..][i].from == EarliestStart(rows[1..], otherwise);
      assert rows[i + 1].from == EarliestStart(rows[1..], otherwise);
      forall j | 0 <= j < |rows| ensures EarliestStart(rows, otherwise) <= rows[j].from {
        assert j > 0 ==> rows[j] == rows[1..][j - 1];
      }
      assert rows[0].from == EarliestStart(rows, otherwise) || rows[i + 1].from == EarliestStart(rows, otherwise);
    } else if |rows| == 1 {
      assert rows[0].from == EarliestStart(rows, otherwise);
    }
  }

  ghost predicate AscendingDays(points: seq<int>)
  {
    forall i, j | 0 <= i < j < |points| :: points[i] < points[j]
  }

  lemma {:induction false} PointsMean(boundaries: set<int>, low: int, high: int)
    ensures AscendingDays(Points(boundaries, low, high))
    ensures forall day :: day in Points(boundaries, low, high) <==> low <= day <= high && day in boundaries
    decreases high - low
  {
    if low <= high {
      PointsMean(boundaries, low + 1, high);
      var rest := Points(boundaries, low + 1, high);
      forall j | 0 <= j < |rest| ensures low < rest[j] {
        assert rest[j] in rest;
      }
    }
  }

  lemma PointsEnds(boundaries: set<int>, low: int, high: int)
    requires low in boundaries && high in boundaries && low < high
    ensures var points := Points(boundaries, low, high);
            |points| >= 2 && points[0] == low && points[|points| - 1] == high
  {
    PointsMean(boundaries, low, high);
    var points := Points(boundaries, low, high);
    assert low in points && high in points;
    assert points[|points| - 1] in points;
    var i :| 0 <= i < |points| && points[i] == high;
  }

  /** Between two neighbouring points nothing begins or ends. */
  lemma SameAllDay(row: Interval, rows: seq<Interval>, start: int, asOf: int, from: int, day: int)
    requires row in rows && start <= from <= day <= asOf
    requires forall d | from < d <= day :: !Boundary(rows, start, asOf, d)
    ensures row.Holds(day) <==> row.Holds(from)
  {
    var i :| 0 <= i < |rows| && rows[i] == row;
    if from < row.from <= day {
      assert rows[i].from == row.from;
      assert Boundary(rows, start, asOf, row.from);
    }
    if row.to.Some? && from < row.to.value <= day {
      assert rows[i].to == Some(row.to.value);
      assert Boundary(rows, start, asOf, row.to.value);
    }
  }

  lemma {:induction false} SelectionAgrees(rows: seq<Interval>, from: int, day: int)
    requires forall row | row in rows :: row.Holds(day) <==> row.Holds(from)
    ensures Selected(rows, day) == Selected(rows, from)
    ensures FirstRented(rows, day) == FirstRented(rows, from) && FirstActive(rows, day) == FirstActive(rows, from)
  {
    if rows != [] {
      SelectionAgrees(rows[1..], from, day);
      assert rows[0].Holds(day) <==> rows[0].Holds(from);
    }
  }

  lemma {:induction false} SweptAt(rows: seq<Interval>, points: seq<int>, asOf: int)
    ensures |Swept(rows, points, asOf)| == if |points| < 2 then 0 else |points| - 1
    ensures forall k | 0 <= k < |Swept(rows, points, asOf)| ::
              Swept(rows, points, asOf)[k] == SegmentAt(rows, points[|points| - 2 - k], points[|points| - 1 - k], asOf)
  {
    if |points| >= 2 {
      SweptAt(rows, points[..|points| - 1], asOf);
    }
  }

  lemma SweepDescribes(rows: seq<Interval>, boundaries: set<int>, points: seq<int>, start: int, asOf: int)
    requires start <= asOf && forall day :: day in boundaries <==> Boundary(rows, start, asOf, day)
    requires points == Points(boundaries, start, asOf + 1)
    ensures DescribesDays(Swept(rows, points, asOf), rows, start, asOf)
  {
    hide Selected, Boundary, Swept, Stop, ShapedLike, Points, StartsOn, Turns;
    assert start in boundaries && asOf + 1 in boundaries by { EndsAreBoundaries(rows, start, asOf); }
    PointsMean(boundaries, start, asOf + 1);
    PointsEnds(boundaries, start, asOf + 1);
    var segments, n := Swept(rows, points, asOf), |points|;
    Shapes(rows, points, asOf);
    ShapesFit(segments, points, start, asOf);
    forall day ensures StartsOn(segments, day) <==> day == start || (start < day <= asOf && Turns(rows, day)) {
      SegmentStarts(segments, points, asOf, day);
      TurnIsBoundary(rows, start, asOf, day);
      LastPoint(points, day);
    }
    forall k: nat, day | k < |segments| && segments[k].from <= day < Stop(segments[k], asOf)
      ensures segments[k].selected == Selected(rows, day)
    {
      SegmentSpan(segments, points, asOf, k);
      SegmentDay(rows, boundaries, points, start, asOf, n - 2 - k, day);
    }
  }

  lemma Shapes(rows: seq<Interval>, points: seq<int>, asOf: int)
    requires AscendingDays(points) && |points| >= 2 && points[|points| - 1] == asOf + 1
    ensures var segments := Swept(rows, points, asOf);
            && |segments| == |points| - 1
            && (forall k: nat | k < |segments| :: ShapedLike(segments[k], points, k, asOf))
            && (forall k: nat | k < |segments| :: segments[k].selected == Selected(rows, points[|points| - 2 - k]))
  {
    hide Selected;
    SweptAt(rows, points, asOf);
    forall k: nat | k < |points| - 1 ensures ShapedLike(Swept(rows, points, asOf)[k], points, k, asOf) {
      ShapeAt(rows, points, asOf, k);
    }
  }

  lemma SegmentSpan(segments: seq<Segment>, points: seq<int>, asOf: int, k: nat)
    requires k < |segments| == |points| - 1 && ShapedLike(segments[k], points, k, asOf)
    ensures segments[k].from == points[|points| - 2 - k] && Stop(segments[k], asOf) == points[|points| - 1 - k]
  {
  }

  /** Segments start on every point but the last. */
  lemma SegmentStarts(segments: seq<Segment>, points: seq<int>, asOf: int, day: int)
    requires |segments| == |points| - 1 && forall k: nat | k < |segments| :: ShapedLike(segments[k], points, k, asOf)
    ensures StartsOn(segments, day) <==> exists i :: 0 <= i < |points| - 1 && points[i] == day
  {
    if StartsOn(segments, day) {
      var k: nat :| k < |segments| && segments[k].from == day;
      assert ShapedLike(segments[k], points, k, asOf);
      assert points[|points| - 2 - k] == day;
    }
    if i: nat :| i < |points| - 1 && points[i] == day {
      assert ShapedLike(segments[|points| - 2 - i], points, |points| - 2 - i, asOf);
    }
  }

  lemma LastPoint(points: seq<int>, day: int)
    requires AscendingDays(points) && points != []
    ensures (exists i :: 0 <= i < |points| - 1 && points[i] == day) <==> day in points && day < points[|points| - 1]
  {
  }

  lemma TurnIsBoundary(rows: seq<Interval>, start: int, asOf: int, day: int)
    requires start <= asOf
    ensures start < day <= asOf ==> (Boundary(rows, start, asOf, day) <==> Turns(rows, day))
  {
  }

  /** The k-th segment from the newest runs between its two points. */
  ghost predicate ShapedLike(s: Segment, points: seq<int>, k: nat, asOf: int)
    requires k + 1 < |points|
  {
    && s.from == points[|points| - 2 - k] && Stop(s, asOf) == points[|points| - 1 - k]
    && (s.current <==> k == 0) && (s.current <==> s.until.None?)
  }

  lemma ShapeAt(rows: seq<Interval>, points: seq<int>, asOf: int, k: nat)
    requires AscendingDays(points) && k + 1 < |points| && points[|points| - 1] == asOf + 1
    ensures ShapedLike(SegmentAt(rows, points[|points| - 2 - k], points[|points| - 1 - k], asOf), points, k, asOf)
  {
  }

  lemma ShapesFit(segments: seq<Segment>, points: seq<int>, start: int, asOf: int)
    requires AscendingDays(points) && |segments| == |points| - 1 >= 1
    requires points[0] == start && points[|points| - 1] == asOf + 1
    requires forall k: nat | k < |segments| :: ShapedLike(segments[k], points, k, asOf)
    ensures Stop(segments[0], asOf) == asOf + 1 && segments[|segments| - 1].from == start
    ensures forall k | 0 < k < |segments| :: Stop(segments[k], asOf) == segments[k - 1].from
    ensures forall k | 0 <= k < |segments| ::
        segments[k].from < Stop(segments[k], asOf) && (segments[k].current <==> k == 0)
                                             && (segments[k].current <==> segments[k].until.None?)
  {
    assert ShapedLike(segments[0], points, 0, asOf);
    assert ShapedLike(segments[|segments| - 1], points, |segments| - 1, asOf);
    forall k | 0 < k < |segments| ensures Stop(segments[k], asOf) == segments[k - 1].from {
      assert ShapedLike(segments[k], points, k, asOf) && ShapedLike(segments[k - 1], points, k - 1, asOf);
    }
    forall k | 0 <= k < |segments|
      ensures segments[k].from < Stop(segments[k], asOf) && (segments[k].current <==> k == 0)
              && (segments[k].current <==> segments[k].until.None?)
    {
      assert ShapedLike(segments[k], points, k, asOf);
    }
  }

  lemma EndsAreBoundaries(rows: seq<Interval>, start: int, asOf: int)
    ensures Boundary(rows, start, asOf, start) && Boundary(rows, start, asOf, asOf + 1)
  {
  }

  lemma SegmentDay(rows: seq<Interval>, boundaries: set<int>, points: seq<int>, start: int, asOf: int, i: nat, day: int)
    requires forall day :: day in boundaries <==> Boundary(rows, start, asOf, day)
    requires AscendingDays(points) && forall d :: d in points <==> start <= d <= asOf + 1 && d in boundaries
    requires i + 1 < |points| && points[i] <= day < points[i + 1] && points[|points| - 1] == asOf + 1
    ensures Selected(rows, day) == Selected(rows, points[i])
  {
    hide Selected, Boundary;
    assert points[i] in points;
    forall d | points[i] < d <= day ensures !Boundary(rows, start, asOf, d) {
      NotBetween(points, i, d);
    }
    forall row | row in rows ensures row.Holds(day) <==> row.Holds(points[i]) {
      SameAllDay(row, rows, start, asOf, points[i], day);
    }
    SelectionAgrees(rows, points[i], day);
  }

  lemma NotBetween(points: seq<int>, i: nat, d: int)
    requires AscendingDays(points) && i + 1 < |points| && points[i] < d < points[i + 1]
    ensures d !in points
  {
  }
}
