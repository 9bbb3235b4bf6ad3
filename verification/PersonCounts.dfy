/**
 * The rows of the person key: the counts a landlord entered, clipped to their tenancy, and the
 * fictional occupancy of each unit's vacant days.
 */
module PersonCounts {
  import opened Lists
  import opened Numbers
  import opened Rows
  import opened DaySpans
  import opened Occupancy

  datatype Mode = LastOccupancy | AlwaysOne | Never

  datatype Tenancy = Tenancy(id: nat, from: int, to: Option<int>)
  {
    predicate Holds(day: int) { from <= day && (to.None? || day < to.value) }
  }

  datatype Entry = Entry(tenancy: nat, count: int, from: int, to: Option<int>)
  {
    predicate Holds(day: int) { from <= day && (to.None? || day < to.value) }
  }

  datatype SelfUse = SelfUse(from: int, to: Option<int>, area: int)
  {
    predicate Holds(day: int) { from <= day && (to.None? || day < to.value) }
  }

  /** A row of the person key; without a tenancy it is fictional. */
  datatype PersonRow = PersonRow(tenancy: Option<nat>, count: int, from: int, to: Option<int>)
  {
    predicate Holds(day: int) { from <= day && (to.None? || day < to.value) }
  }

  const MINIMUM_DERIVED_PERSONS := 1

  // ---- Entered counts ---------------------------------------------------------------------------------

  /** The earlier of two ends, where None means still running. */
  function Earliest(left: Option<int>, right: Option<int>): Option<int>
  {
    if left.None? then right
    else if right.None? then left
    else Some(Min(left.value, right.value))
  }

  function Find(tenancies: seq<Tenancy>, id: nat): Option<Tenancy>
  {
    if tenancies == [] then None
    else if tenancies[0].id == id then Some(tenancies[0])
    else Find(tenancies[1..], id)
  }

  /** A count clipped to its tenancy, or nothing when it lies outside. */
  function Entered(entry: Entry, tenancies: seq<Tenancy>): seq<PersonRow>
  {
    match Find(tenancies, entry.tenancy)
    case None => []
    case Some(t) =>
      var start, end := Max(entry.from, t.from), Earliest(entry.to, t.to);
      if end.Some? && start >= end.value then [] else [PersonRow(Some(entry.tenancy), entry.count, start, end)]
  }

  function EnteredAll(entries: seq<Entry>, tenancies: seq<Tenancy>): seq<PersonRow>
  {
    if entries == [] then []
    else EnteredAll(entries[..|entries| - 1], tenancies) + Entered(entries[|entries| - 1], tenancies)
  }

  method EnteredRows(entries: seq<Entry>, tenancies: seq<Tenancy>) returns (rows: seq<PersonRow>)
    ensures rows == EnteredAll(entries, tenancies)
  {
    rows := [];
    var i := 0;
    assert entries[..0] == [];
    while i < |entries|
      invariant 0 <= i <= |entries|
      invariant rows == EnteredAll(entries[..i], tenancies)
    {
      assert entries[..i + 1][..i] == entries[..i];
      var tenancy := Find(tenancies, entries[i].tenancy);
      if tenancy.Some? {
        var start, end := Max(entries[i].from, tenancy.value.from), Earliest(entries[i].to, tenancy.value.to);
        if !(end.Some? && start >= end.value) {
          rows := rows + [PersonRow(Some(entries[i].tenancy), entries[i].count, start, end)];
        }
      }
      i := i + 1;
    }
    assert entries[..i] == entries;
  }

  // ---- Self-use -----------------------------------------------------------------------------------

  /** The window days of one row. */
  function ClippedUse(use: SelfUse, window: Span): Span
  {
    Span(Max(use.from, window.from), EndIn(use.to, window))
  }

  function FullUse(use: SelfUse, area: int, window: Span): seq<Span>
  {
    if ClippedUse(use, window).NonEmpty() && use.area >= area then [ClippedUse(use, window)] else []
  }

  /** A row that uses less than the whole unit. */
  function PartialUse(use: SelfUse, area: int, window: Span): seq<Span>
  {
    if ClippedUse(use, window).NonEmpty() && use.area < area then [ClippedUse(use, window)] else []
  }

  function PartialUses(uses: seq<SelfUse>, area: int, window: Span): seq<Span>
  {
    if uses == [] then []
    else PartialUses(uses[..|uses| - 1], area, window) + PartialUse(uses[|uses| - 1], area, window)
  }

  function FullUses(uses: seq<SelfUse>, area: int, window: Span): seq<Span>
  {
    if uses == [] then []
    else FullUses(uses[..|uses| - 1], area, window) + FullUse(uses[|uses| - 1], area, window)
  }

  method SelfUseSpans(uses: seq<SelfUse>, area: int, window: Span) returns (spans: seq<Span>, partial: seq<Span>)
    ensures spans == FullUses(uses, area, window)
    ensures partial == PartialUses(uses, area, window)
  {
    spans, partial := [], [];
    var i := 0;
    assert uses[..0] == [];
    while i < |uses|
      invariant 0 <= i <= |uses|
      invariant spans == FullUses(uses[..i], area, window)
      invariant partial == PartialUses(uses[..i], area, window)
    {
      assert uses[..i + 1][..i] == uses[..i];
      var span := Span(Max(uses[i].from, window.from), EndIn(uses[i].to, window));
      if span.NonEmpty() {
        if uses[i].area >= area {
          spans := spans + [span];
        } else {
          partial := partial + [span];
        }
      }
      i := i + 1;
    }
    assert uses[..i] == uses;
  }

  lemma {:induction false} PartialUsesMembers(uses: seq<SelfUse>, area: int, window: Span, span: Span)
    ensures span in PartialUses(uses, area, window)
       <==> exists k :: 0 <= k < |uses| && uses[k].area < area && span == ClippedUse(uses[k], window) && span.NonEmpty()
  {
    if uses != [] {
      var n := |uses| - 1;
      PartialUsesMembers(uses[..n], area, window, span);
      assert span in PartialUses(uses, area, window)
        <==> span in PartialUses(uses[..n], area, window) || span in PartialUse(uses[n], area, window);
      if k :| 0 <= k < n && uses[..n][k].area < area && span == ClippedUse(uses[..n][k], window) && span.NonEmpty() {
        assert uses[k] == uses[..n][k];
      }
      if k :| 0 <= k < |uses| && uses[k].area < area && span == ClippedUse(uses[k], window) && span.NonEmpty() {
        assert k < n ==> uses[..n][k] == uses[k];
      }
    }
  }

  ghost predicate FullySelfUsed(uses: seq<SelfUse>, area: int, day: int)
  {
    exists i :: 0 <= i < |uses| && uses[i].area >= area && uses[i].Holds(day)
  }

  lemma {:induction false} FullUsesDays(uses: seq<SelfUse>, area: int, window: Span, day: int)
    requires window.Holds(day)
    ensures Covered(day, FullUses(uses, area, window)) <==> FullySelfUsed(uses, area, day)
  {
    if uses != [] {
      var n := |uses| - 1;
      FullUsesDays(uses[..n], area, window, day);
      CoveredConcat(day, FullUses(uses[..n], area, window), FullUse(uses[n], area, window));
      FullUseDay(uses[n], area, window, day);
      if i :| 0 <= i < |uses| && uses[i].area >= area && uses[i].Holds(day) {
        assert i < n ==> uses[..n][i].Holds(day);
      }
      if i :| 0 <= i < n && uses[..n][i].area >= area && uses[..n][i].Holds(day) {
        assert uses[i].Holds(day);
      }
    }
  }

  lemma FullUseDay(use: SelfUse, area: int, window: Span, day: int)
    requires window.Holds(day)
    ensures Covered(day, FullUse(use, area, window)) <==> use.area >= area && use.Holds(day)
  {
    var spans := FullUse(use, area, window);
    if spans != [] {
      HoldsCovered(spans, 0, day);
    }
  }

  lemma {:induction false} FullUsesNonEmpty(uses: seq<SelfUse>, area: int, window: Span)
    ensures AllNonEmpty(FullUses(uses, area, window))
  {
    if uses != [] {
      FullUsesNonEmpty(uses[..|uses| - 1], area, window);
    }
  }

  // ---- Fictional occupancy --------------------------------------------------------------------------------

  function Gaps(segments: seq<Segment>): seq<Span>
  {
    if segments == [] then []
    else Gaps(segments[..|segments| - 1])
         + (if segments[|segments| - 1].tenancy.None? then [segments[|segments| - 1].span] else [])
  }

  /** Later start first, then the larger id: the first in this order is the last one begun. */
  predicate BegunAfter(a: Tenancy, b: Tenancy)
  {
    a.from > b.from || (a.from == b.from && a.id > b.id)
  }

  function LatestBegun(tenancies: seq<Tenancy>, day: int): Option<Tenancy>
  {
    if tenancies == [] then None
    else
      var rest := LatestBegun(tenancies[1..], day);
      if tenancies[0].from <= day && (rest.None? || BegunAfter(tenancies[0], rest.value))
      then Some(tenancies[0])
      else rest
  }

  /** The count with the latest start; of two that start together, the later in the table. */
  function LatestCount(entries: seq<Entry>, tenancy: nat): Option<Entry>
  {
    if entries == [] then None
    else
      var rest := LatestCount(entries[1..], tenancy);
      if entries[0].tenancy == tenancy && (rest.None? || entries[0].from > rest.value.from)
      then Some(entries[0])
      else rest
  }

  function LastKnownPersons(tenancies: seq<Tenancy>, entries: seq<Entry>, gapStart: int): int
  {
    var tenancy := LatestBegun(tenancies, gapStart);
    if tenancy.None? then MINIMUM_DERIVED_PERSONS
    else
      var latest := LatestCount(entries, tenancy.value.id);
      if latest.None? then MINIMUM_DERIVED_PERSONS else latest.value.count
  }

  function Fictional(piece: Span, mode: Mode, tenancies: seq<Tenancy>, entries: seq<Entry>): PersonRow
  {
    PersonRow(None,
              if mode == AlwaysOne then MINIMUM_DERIVED_PERSONS
              else Max(MINIMUM_DERIVED_PERSONS, LastKnownPersons(tenancies, entries, piece.from)),
              piece.from, Some(piece.to))
  }

  function FictionalOf(pieces: seq<Span>, mode: Mode, tenancies: seq<Tenancy>, entries: seq<Entry>): seq<PersonRow>
  {
    if pieces == [] then []
    else FictionalOf(pieces[..|pieces| - 1], mode, tenancies, entries)
         + [Fictional(pieces[|pieces| - 1], mode, tenancies, entries)]
  }

  function FictionalAll(gaps: seq<Span>, selfUsed: seq<Span>, mode: Mode, tenancies: seq<Tenancy>,
                        entries: seq<Entry>): seq<PersonRow>
  {
    if gaps == [] then []
    else FictionalAll(gaps[..|gaps| - 1], selfUsed, mode, tenancies, entries)
         + FictionalOf(Subtracted(gaps[|gaps| - 1], selfUsed), mode, tenancies, entries)
  }

  /** The rows of one unit, and its partial self-uses that meet vacancy. */
  datatype Result = Refused(error: Overlap) | Derived(rows: seq<PersonRow>, notes: seq<Span>)

  function Occupants(tenancies: seq<Tenancy>): seq<Occupant>
  {
    seq(|tenancies|, i requires 0 <= i < |tenancies| =>
      Occupant(Some(tenancies[i].id), tenancies[i].from, tenancies[i].to))
  }

  predicate MeetsAny(span: Span, gaps: seq<Span>)
  {
    exists i :: 0 <= i < |gaps| && span.from < gaps[i].to && gaps[i].from < span.to
  }

  function Meeting(gaps: seq<Span>): Span -> bool
  {
    (span: Span) => MeetsAny(span, gaps)
  }

  function FictionalSpec(tenancies: seq<Tenancy>, entries: seq<Entry>, uses: seq<SelfUse>, area: int, window: Span,
                         mode: Mode): Result
  {
    if mode == Never then Derived([], [])
    else match Built(Occupants(tenancies), window)
      case Overlaps(error) => Refused(error)
      case Segments(segments) =>
        Derived(FictionalAll(Gaps(segments), FullUses(uses, area, window), mode, tenancies, entries),
                Keep(PartialUses(uses, area, window), Meeting(Gaps(segments))))
  }

  method UnitRows(tenancies: seq<Tenancy>, entries: seq<Entry>, uses: seq<SelfUse>, area: int, window: Span, mode: Mode)
    returns (result: Result)
    ensures mode != Never ==> result == FictionalSpec(tenancies, entries, uses, area, window, mode)
  {
    hide Built, FullUses, PartialUses, Subtracted, Fictional;
    var selfUsed, partial := SelfUseSpans(uses, area, window);
    var timeline := BuildUnitSegments(Occupants(tenancies), window);
    if timeline.Overlaps? {
      return Refused(timeline.error);
    }
    var gaps := Gaps(timeline.segments);
    var notes := MeetingSpans(partial, gaps);
    var rows, i := [], 0;
    assert gaps[..0] == [];
    while i < |gaps|
      invariant 0 <= i <= |gaps|
      invariant rows == FictionalAll(gaps[..i], selfUsed, mode, tenancies, entries)
    {
      assert gaps[..i + 1][..i] == gaps[..i];
      var pieces := Subtract(gaps[i], selfUsed);
      var fictional := DeriveRows(pieces, mode, tenancies, entries);
      rows := rows + fictional;
      i := i + 1;
    }
    assert gaps[..i] == gaps;
    return Derived(rows, notes);
  }

  method MeetingSpans(spans: seq<Span>, gaps: seq<Span>) returns (meeting: seq<Span>)
    ensures meeting == Keep(spans, Meeting(gaps))
  {
    meeting := [];
    assert spans[..0] == [];
    for i := 0 to |spans|
      invariant meeting == Keep(spans[..i], Meeting(gaps))
    {
      assert spans[..i + 1][..i] == spans[..i];
      if MeetsAny(spans[i], gaps) {
        meeting := meeting + [spans[i]];
      }
    }
    assert spans[..|spans|] == spans;
  }

  // ---- All units -------------------------------------------------------------------------------------------

  datatype UnitFacts = UnitFacts(id: nat, area: int, tenancies: seq<Tenancy>, uses: seq<SelfUse>)

  /** An item of one unit in the lists of the building. */
  datatype Tagged<T> = Tagged(unit: nat, item: T)

  datatype BuildingResult =
    | UnitRefused(unit: nat, error: Overlap)
    | BuildingDerived(rows: seq<Tagged<PersonRow>>, notes: seq<Tagged<Span>>)

  function Tag<T>(unit: nat, items: seq<T>): seq<Tagged<T>>
  {
    seq(|items|, i requires 0 <= i < |items| => Tagged(unit, items[i]))
  }

  ghost function OfUnit<T>(unit: nat): Tagged<T> -> bool
  {
    (t: Tagged<T>) => t.unit == unit
  }

  function UnitSpec(unit: UnitFacts, entries: seq<Entry>, window: Span, mode: Mode): Result
  {
    FictionalSpec(unit.tenancies, entries, unit.uses, unit.area, window, mode)
  }

  /** Unit by unit; the first refusal ends it. */
  function BuildingSpec(units: seq<UnitFacts>, entries: seq<Entry>, window: Span, mode: Mode): BuildingResult
  {
    if units == [] then BuildingDerived([], [])
    else
      var before, last := BuildingSpec(units[..|units| - 1], entries, window, mode), units[|units| - 1];
      if before.UnitRefused? then before
      else match UnitSpec(last, entries, window, mode)
        case Refused(error) => UnitRefused(last.id, error)
        case Derived(rows, notes) =>
          BuildingDerived(before.rows + Tag(last.id, rows), before.notes + Tag(last.id, notes))
  }

  method FictionalRows(units: seq<UnitFacts>, entries: seq<Entry>, window: Span, mode: Mode)
    returns (result: BuildingResult)
    ensures result == BuildingSpec(units, entries, window, mode)
  {
    hide FictionalSpec;
    if mode == Never {
      NeverAnyRows(units, entries, window);
      return BuildingDerived([], []);
    }
    var rows, notes, i := [], [], 0;
    assert units[..0] == [];
    while i < |units|
      invariant 0 <= i <= |units|
      invariant BuildingSpec(units[..i], entries, window, mode) == BuildingDerived(rows, notes)
    {
      assert units[..i + 1][..i] == units[..i];
      var of := UnitRows(units[i].tenancies, entries, units[i].uses, units[i].area, window, mode);
      if of.Refused? {
        RefusalStays(units, i + 1, entries, window, mode);
        return UnitRefused(units[i].id, of.error);
      }
      rows := rows + Tag(units[i].id, of.rows);
      notes := notes + Tag(units[i].id, of.notes);
      i := i + 1;
    }
    assert units[..i] == units;
    return BuildingDerived(rows, notes);
  }

  lemma {:induction false} NeverAnyRows(units: seq<UnitFacts>, entries: seq<Entry>, window: Span)
    ensures BuildingSpec(units, entries, window, Never) == BuildingDerived([], [])
  {
    if units != [] {
      NeverAnyRows(units[..|units| - 1], entries, window);
      assert Tag<PersonRow>(units[|units| - 1].id, []) == [] && Tag<Span>(units[|units| - 1].id, []) == [];
    }
  }

  lemma {:induction false} RefusalStays(units: seq<UnitFacts>, k: nat, entries: seq<Entry>, window: Span, mode: Mode)
    requires k <= |units| && BuildingSpec(units[..k], entries, window, mode).UnitRefused?
    ensures BuildingSpec(units, entries, window, mode) == BuildingSpec(units[..k], entries, window, mode)
  {
    hide UnitSpec;
    if k < |units| {
      assert units[..|units| - 1][..k] == units[..k];
      RefusalStays(units[..|units| - 1], k, entries, window, mode);
    } else {
      assert units[..k] == units;
    }
  }

  method DeriveRows(pieces: seq<Span>, mode: Mode, tenancies: seq<Tenancy>, entries: seq<Entry>)
    returns (rows: seq<PersonRow>)
    ensures rows == FictionalOf(pieces, mode, tenancies, entries)
  {
    hide Fictional;
    rows := [];
    var i := 0;
    assert pieces[..0] == [];
    while i < |pieces|
      invariant 0 <= i <= |pieces|
      invariant rows == FictionalOf(pieces[..i], mode, tenancies, entries)
    {
      assert pieces[..i + 1][..i] == pieces[..i];
      rows := rows + [Fictional(pieces[i], mode, tenancies, entries)];
      i := i + 1;
    }
    assert pieces[..i] == pieces;
  }

  // ---- Days and rows -----------------------------------------------------------------------------------------

  ghost predicate Counted(rows: seq<PersonRow>, day: int)
  {
    exists i :: 0 <= i < |rows| && rows[i].Holds(day)
  }

  ghost predicate AtMostOnce(rows: seq<PersonRow>, day: int)
  {
    forall i, j | 0 <= i < j < |rows| :: !(rows[i].Holds(day) && rows[j].Holds(day))
  }

  lemma CountedConcat(xs: seq<PersonRow>, ys: seq<PersonRow>, day: int)
    ensures Counted(xs + ys, day) <==> Counted(xs, day) || Counted(ys, day)
    ensures AtMostOnce(xs, day) && AtMostOnce(ys, day) && !(Counted(xs, day) && Counted(ys, day)) ==>
        AtMostOnce(xs + ys, day)
  {
    var zs := xs + ys;
    if i :| 0 <= i < |xs| && xs[i].Holds(day) {
      assert zs[i].Holds(day);
    }
    if i :| 0 <= i < |ys| && ys[i].Holds(day) {
      assert zs[|xs| + i].Holds(day);
    }
    if AtMostOnce(xs, day) && AtMostOnce(ys, day) && !(Counted(xs, day) && Counted(ys, day)) {
      forall i, j | 0 <= i < j < |zs| ensures !(zs[i].Holds(day) && zs[j].Holds(day)) {
        assert zs[i] == if i < |xs| then xs[i] else ys[i - |xs|];
        assert zs[j] == if j < |xs| then xs[j] else ys[j - |xs|];
      }
    }
  }

  lemma SingleRow(row: PersonRow, day: int)
    ensures Counted([row], day) <==> row.Holds(day)
    ensures AtMostOnce([row], day)
  {
    assert [row][0] == row;
  }

  // ---- Entered counts, day by day --------------------------------------------------------------------------------

  ghost predicate DistinctTenancies(tenancies: seq<Tenancy>)
  {
    forall i, j | 0 <= i < j < |tenancies| :: tenancies[i].id != tenancies[j].id
  }

  /** Counts of one tenancy do not overlap. */
  ghost predicate CountsApart(entries: seq<Entry>)
  {
    forall i, j, day: int | 0 <= i < j < |entries| && entries[i].tenancy == entries[j].tenancy ::
      !(entries[i].Holds(day) && entries[j].Holds(day))
  }

  /** The entry counts on that day: it runs, and so does its tenancy. */
  ghost predicate Runs(entry: Entry, tenancies: seq<Tenancy>, day: int)
  {
    entry.Holds(day) && exists i :: 0 <= i < |tenancies| && tenancies[i].id == entry.tenancy && tenancies[i].Holds(day)
  }

  lemma {:induction false} FindMeans(tenancies: seq<Tenancy>, id: nat)
    requires DistinctTenancies(tenancies)
    ensures match Find(tenancies, id)
      case Some(t) => t in tenancies && t.id == id
                      && forall i | 0 <= i < |tenancies| && tenancies[i].id == id :: tenancies[i] == t
      case None => forall i | 0 <= i < |tenancies| :: tenancies[i].id != id
  {
    if tenancies != [] {
      FindMeans(tenancies[1..], id);
      forall i | 1 <= i < |tenancies| ensures tenancies[i] == tenancies[1..][i - 1] {
      }
    }
  }

  lemma EnteredDay(entry: Entry, tenancies: seq<Tenancy>, day: int)
    requires DistinctTenancies(tenancies)
    ensures Counted(Entered(entry, tenancies), day) <==> Runs(entry, tenancies, day)
    ensures AtMostOnce(Entered(entry, tenancies), day)
  {
    FindMeans(tenancies, entry.tenancy);
    var rows := Entered(entry, tenancies);
    if rows != [] {
      SingleRow(rows[0], day);
      assert rows == [rows[0]];
    }
    var found := Find(tenancies, entry.tenancy);
    if found.Some? {
      var i :| 0 <= i < |tenancies| && tenancies[i] == found.value;
      assert Runs(entry, tenancies, day) <==> entry.Holds(day) && found.value.Holds(day);
    }
  }

  /** A day of the window belongs to one tenancy at most. */
  ghost predicate TenancyApart(tenancies: seq<Tenancy>, day: int)
  {
    forall i, j | 0 <= i < |tenancies| && 0 <= j < |tenancies| && tenancies[i].Holds(day) && tenancies[j].Holds(day) ::
        i == j
  }

  lemma {:induction false} EnteredDays(entries: seq<Entry>, tenancies: seq<Tenancy>, day: int)
    requires DistinctTenancies(tenancies) && CountsApart(entries) && TenancyApart(tenancies, day)
    ensures Counted(EnteredAll(entries, tenancies), day) <==> exists k ::
        0 <= k < |entries| && Runs(entries[k], tenancies, day)
    ensures AtMostOnce(EnteredAll(entries, tenancies), day)
  {
    hide Entered, Runs;
    if entries != [] {
      var n := |entries| - 1;
      EnteredDays(entries[..n], tenancies, day);
      EnteredDay(entries[n], tenancies, day);
      if Runs(entries[n], tenancies, day) {
        forall k | 0 <= k < n ensures !Runs(entries[..n][k], tenancies, day) {
          RunsOnce(entries, tenancies, k, n, day);
        }
      }
      CountedConcat(EnteredAll(entries[..n], tenancies), Entered(entries[n], tenancies), day);
      if k :| 0 <= k < |entries| && Runs(entries[k], tenancies, day) {
        assert k < n ==> Runs(entries[..n][k], tenancies, day);
      }
    }
  }

  lemma RunsOnce(entries: seq<Entry>, tenancies: seq<Tenancy>, i: nat, j: nat, day: int)
    requires CountsApart(entries) && TenancyApart(tenancies, day) && i < j < |entries|
    ensures !(Runs(entries[i], tenancies, day) && Runs(entries[j], tenancies, day))
  {
  }

  // ---- Fictional occupancy, day by day ------------------------------------------------------------------------------

  lemma {:induction false} FictionalOfDays(pieces: seq<Span>, mode: Mode, tenancies: seq<Tenancy>,
                                           entries: seq<Entry>, day: int)
    requires Canonical(pieces)
    ensures Counted(FictionalOf(pieces, mode, tenancies, entries), day) <==> Covered(day, pieces)
    ensures AtMostOnce(FictionalOf(pieces, mode, tenancies, entries), day)
    ensures forall row | row in FictionalOf(pieces, mode, tenancies, entries) :: row.tenancy.None? && row.count >= 1
  {
    if pieces != [] {
      var n := |pieces| - 1;
      FictionalOfDays(pieces[..n], mode, tenancies, entries, day);
      var row := Fictional(pieces[n], mode, tenancies, entries);
      SingleRow(row, day);
      assert row.Holds(day) <==> pieces[n].Holds(day);
      assert pieces == pieces[..n] + [pieces[n]];
      CoveredConcat(day, pieces[..n], [pieces[n]]);
      assert [pieces[n]][0] == pieces[n];
      CountedConcat(FictionalOf(pieces[..n], mode, tenancies, entries), [row], day);
    }
  }

  ghost predicate Disjoint(spans: seq<Span>, day: int)
  {
    forall i, j | 0 <= i < j < |spans| :: !(spans[i].Holds(day) && spans[j].Holds(day))
  }

  lemma {:induction false} FictionalDays(gaps: seq<Span>, selfUsed: seq<Span>, mode: Mode, tenancies: seq<Tenancy>,
                                         entries: seq<Entry>, day: int)
    requires AllNonEmpty(gaps) && AllNonEmpty(selfUsed) && Disjoint(gaps, day)
    ensures Counted(FictionalAll(gaps, selfUsed, mode, tenancies, entries), day)
       <==> Covered(day, gaps) && !Covered(day, selfUsed)
    ensures AtMostOnce(FictionalAll(gaps, selfUsed, mode, tenancies, entries), day)
    ensures forall row | row in FictionalAll(gaps, selfUsed, mode, tenancies, entries) ::
        row.tenancy.None? && row.count >= 1
  {
    hide Subtracted, FictionalOf;
    if gaps != [] {
      var n := |gaps| - 1;
      FictionalDays(gaps[..n], selfUsed, mode, tenancies, entries, day);
      SubtractCanonical(gaps[n], selfUsed);
      SubtractExact(gaps[n], selfUsed, day);
      FictionalOfDays(Subtracted(gaps[n], selfUsed), mode, tenancies, entries, day);
      assert gaps == gaps[..n] + [gaps[n]];
      CoveredConcat(day, gaps[..n], [gaps[n]]);
      assert [gaps[n]][0] == gaps[n];
      CountedConcat(FictionalAll(gaps[..n], selfUsed, mode, tenancies, entries),
                    FictionalOf(Subtracted(gaps[n], selfUsed), mode, tenancies, entries), day);
    }
  }

  lemma {:induction false} GapsInside(segments: seq<Segment>, low: int, high: int)
    requires Contiguous(segments, low, high)
    ensures AllNonEmpty(Gaps(segments)) && Within(Gaps(segments), low, high)
  {
    if segments != [] {
      var n := |segments| - 1;
      assert segments[n].span.NonEmpty();
      if n == 0 {
        assert segments[..n] == [];
      }
      GapsInside(segments[..n], low, segments[n].span.from);
      StartsInOrder(segments, n);
    }
  }

  lemma {:induction false} GapsMeans(segments: seq<Segment>, low: int, high: int, day: int)
    requires Contiguous(segments, low, high)
    ensures AllNonEmpty(Gaps(segments)) && Disjoint(Gaps(segments), day)
    ensures Covered(day, Gaps(segments)) <==> exists s :: s in segments && s.tenancy.None? && s.span.Holds(day)
    ensures Within(Gaps(segments), low, high)
  {
    hide Covered;
    GapsInside(segments, low, high);
    CoveredLast([], day);
    if segments != [] {
      var n := |segments| - 1;
      assert segments[n].span.NonEmpty();
      if n == 0 {
        assert segments[..n] == [];
      }
      GapsMeans(segments[..n], low, segments[n].span.from, day);
      GapsInside(segments[..n], low, segments[n].span.from);
      var before := Gaps(segments[..n]);
      var last := if segments[n].tenancy.None? then [segments[n].span] else [];
      CoveredConcat(day, before, last);
      CoveredLast(last, day);
      if s :| s in segments && s.tenancy.None? && s.span.Holds(day) {
        assert s in segments[..n] || s == segments[n];
      }
    }
  }

  lemma CoveredLast(last: seq<Span>, day: int)
    requires |last| <= 1
    ensures Covered(day, last) <==> last != [] && last[0].Holds(day)
  {
  }

  ghost predicate Rented(tenancies: seq<Tenancy>, day: int)
  {
    exists i :: 0 <= i < |tenancies| && tenancies[i].Holds(day)
  }

  lemma OccupantHolds(tenancies: seq<Tenancy>, day: int)
    ensures (exists i :: 0 <= i < |Occupants(tenancies)| && Occupants(tenancies)[i].Holds(day))
              <==> Rented(tenancies, day)
  {
    if i :| 0 <= i < |tenancies| && tenancies[i].Holds(day) {
      assert Occupants(tenancies)[i].Holds(day);
    }
  }

  lemma {:induction false} SomeSegment(segments: seq<Segment>, low: int, high: int, day: int)
    requires Contiguous(segments, low, high) && low <= day < high
    ensures exists s :: s in segments && s.span.Holds(day)
  {
    if segments != [] {
      var n := |segments| - 1;
      if n == 0 {
        assert segments[..n] == [];
      }
      if day < segments[n].span.from {
        SomeSegment(segments[..n], low, segments[n].span.from, day);
        var s :| s in segments[..n] && s.span.Holds(day);
        assert s in segments;
      } else {
        assert segments[n].span.Holds(day);
      }
    }
  }

  /** The gaps of the timeline are the days of the window on which nobody rents. */
  lemma GapsAreVacant(tenancies: seq<Tenancy>, window: Span, day: int)
    requires window.NonEmpty() && Built(Occupants(tenancies), window).Segments? && window.Holds(day)
    ensures Covered(day, Gaps(Built(Occupants(tenancies), window).segments)) <==> !Rented(tenancies, day)
    ensures Disjoint(Gaps(Built(Occupants(tenancies), window).segments), day)
    ensures AllNonEmpty(Gaps(Built(Occupants(tenancies), window).segments))
  {
    hide Built;
    var rows := Occupants(tenancies);
    var segments := Built(rows, window).segments;
    SegmentsAreDays(rows, window);
    GapsMeans(segments, window.from, window.to, day);
    OccupantHolds(tenancies, day);
    SomeSegment(segments, window.from, window.to, day);
    var s :| s in segments && s.span.Holds(day);
    assert LabelOf(rows, day, s.tenancy);
  }

  lemma ApartOnDay(tenancies: seq<Tenancy>, window: Span, day: int)
    requires !ShareDay(Occupants(tenancies), window) && window.Holds(day)
    ensures TenancyApart(tenancies, day)
  {
    var rows := Occupants(tenancies);
    assert !ShareOn(rows, window, day);
    forall i, j | 0 <= i < |tenancies| && 0 <= j < |tenancies| && tenancies[i].Holds(day) && tenancies[j].Holds(day)
      ensures i == j
    {
      assert rows[i].Holds(day) && rows[j].Holds(day);
    }
  }

  /**
   * Every day of the window is counted at most once; by an entered row exactly when a count of a
   * running tenancy runs, and with its persons; by a fictional row exactly when nobody rents, the
   * landlord does not use the whole unit, and the mode is not to have any: with one person, or with
   * those of the last tenancy, as the mode says.
   */
  lemma PersonDaysCountedOnce(tenancies: seq<Tenancy>, entries: seq<Entry>, uses: seq<SelfUse>, area: int, window: Span,
                              mode: Mode, day: int)
    requires DistinctTenancies(tenancies) && CountsApart(entries)
    requires window.Holds(day) && !ShareDay(Occupants(tenancies), window)
    ensures FictionalSpec(tenancies, entries, uses, area, window, mode).Derived?
    ensures var entered := EnteredAll(entries, tenancies);
            var fictional := FictionalSpec(tenancies, entries, uses, area, window, mode).rows;
            && AtMostOnce(entered + fictional, day)
            && (Counted(entered, day) <==> exists k :: 0 <= k < |entries| && Runs(entries[k], tenancies, day))
            && (Counted(fictional, day)
                <==> mode != Never && !Rented(tenancies, day) && !FullySelfUsed(uses, area, day))
            && (forall row | row in fictional :: row.tenancy.None? && row.count >= 1)
            && (forall row | row in fictional :: FictionalCount(row, mode, tenancies, entries))
            && (forall row | row in entered && row.Holds(day) ::
                  exists k :: 0 <= k < |entries| && Runs(entries[k], tenancies, day)
                              && row.tenancy == Some(entries[k].tenancy) && row.count == entries[k].count)
  {
    hide Built, FullUses, FictionalAll, EnteredAll, ShareDay, FictionalCount, Runs;
    var entered := EnteredAll(entries, tenancies);
    RefusedIffShared(Occupants(tenancies), window);
    ApartOnDay(tenancies, window, day);
    EnteredDays(entries, tenancies, day);
    forall row | row in entered && row.Holds(day)
      ensures exists k :: 0 <= k < |entries| && Runs(entries[k], tenancies, day)
                          && row.tenancy == Some(entries[k].tenancy) && row.count == entries[k].count
    {
      EnteredRowsCount(entries, tenancies, row, day);
    }
    if mode == Never {
      assert entered + [] == entered;
    } else {
      GapsAreVacant(tenancies, window, day);
      FullUsesDays(uses, area, window, day);
      FullUsesNonEmpty(uses, area, window);
      var gaps, selfUsed := Gaps(Built(Occupants(tenancies), window).segments), FullUses(uses, area, window);
      FictionalDays(gaps, selfUsed, mode, tenancies, entries, day);
      FictionalAllCounts(gaps, selfUsed, mode, tenancies, entries);
      RunsRented(entries, tenancies, day);
      CountedConcat(entered, FictionalAll(gaps, selfUsed, mode, tenancies, entries), day);
    }
  }

  lemma RunsRented(entries: seq<Entry>, tenancies: seq<Tenancy>, day: int)
    ensures (exists k :: 0 <= k < |entries| && Runs(entries[k], tenancies, day)) ==> Rented(tenancies, day)
  {
  }

  // ---- Notes and units --------------------------------------------------------------------------------------------

  /** Some day of the span is not rented. */
  ghost predicate MeetsVacancy(tenancies: seq<Tenancy>, span: Span)
  {
    exists day :: span.Holds(day) && !Rented(tenancies, day)
  }

  lemma MeetsIffShares(span: Span, gaps: seq<Span>)
    requires AllNonEmpty(gaps) && span.NonEmpty()
    ensures MeetsAny(span, gaps) <==> exists day :: span.Holds(day) && Covered(day, gaps)
  {
    if i :| 0 <= i < |gaps| && span.from < gaps[i].to && gaps[i].from < span.to {
      assert gaps[i].NonEmpty();
      var day := Max(span.from, gaps[i].from);
      assert span.Holds(day) && gaps[i].Holds(day);
    }
  }

  /**
   * A partial self-use is noted exactly when some of its window days are not rented; a full one
   * never is.
   */
  lemma NotedIff(tenancies: seq<Tenancy>, entries: seq<Entry>, uses: seq<SelfUse>, area: int, window: Span, mode: Mode,
                 note: Span)
    requires mode != Never && FictionalSpec(tenancies, entries, uses, area, window, mode).Derived?
    ensures note in FictionalSpec(tenancies, entries, uses, area, window, mode).notes <==>
      && MeetsVacancy(tenancies, note)
      && exists k :: 0 <= k < |uses| && uses[k].area < area && note == ClippedUse(uses[k], window)
  {
    hide Built, FullUses, FictionalAll, PartialUses, MeetsAny, Gaps;
    var segments := Built(Occupants(tenancies), window).segments;
    KeepMembers(PartialUses(uses, area, window), Meeting(Gaps(segments)));
    PartialUsesMembers(uses, area, window, note);
    if k :| 0 <= k < |uses| && uses[k].area < area && note == ClippedUse(uses[k], window) && note.NonEmpty() {
      assert window.NonEmpty();
      forall day | note.Holds(day) ensures Covered(day, Gaps(segments)) <==> !Rented(tenancies, day) {
        GapsAreVacant(tenancies, window, day);
      }
      GapsAreVacant(tenancies, window, window.from);
      MeetsIffShares(note, Gaps(segments));
    }
  }

  /**
   * The note says that its vacant days are counted with fictional occupancy. Some are exactly when,
   * on some of them, no other row uses the whole unit.
   */
  lemma NoteIsTrueIff(tenancies: seq<Tenancy>, entries: seq<Entry>, uses: seq<SelfUse>, area: int, window: Span,
                      mode: Mode, note: Span)
    requires mode != Never && FictionalSpec(tenancies, entries, uses, area, window, mode).Derived?
    requires note in FictionalSpec(tenancies, entries, uses, area, window, mode).notes
    ensures var rows := FictionalSpec(tenancies, entries, uses, area, window, mode).rows;
            (exists day :: note.Holds(day) && Counted(rows, day))
            <==> exists day :: note.Holds(day) && !Rented(tenancies, day) && !FullySelfUsed(uses, area, day)
  {
    hide Built, FullUses, FictionalAll, FictionalSpec, Counted, Rented, FullySelfUsed, Gaps;
    NotedIff(tenancies, entries, uses, area, window, mode, note);
    var rows := FictionalSpec(tenancies, entries, uses, area, window, mode).rows;
    forall day | note.Holds(day)
      ensures Counted(rows, day) <==> !Rented(tenancies, day) && !FullySelfUsed(uses, area, day)
    {
      FictionalOnDay(tenancies, entries, uses, area, window, mode, day);
    }
  }

  lemma FictionalOnDay(tenancies: seq<Tenancy>, entries: seq<Entry>, uses: seq<SelfUse>, area: int, window: Span,
                       mode: Mode, day: int)
    requires mode != Never && FictionalSpec(tenancies, entries, uses, area, window, mode).Derived? && window.Holds(day)
    ensures Counted(FictionalSpec(tenancies, entries, uses, area, window, mode).rows, day)
       <==> !Rented(tenancies, day) && !FullySelfUsed(uses, area, day)
  {
    hide Built, FullUses, FictionalAll, PartialUses, Gaps, Counted, Rented, FullySelfUsed;
    GapsAreVacant(tenancies, window, day);
    FullUsesDays(uses, area, window, day);
    FullUsesNonEmpty(uses, area, window);
    var gaps, selfUsed := Gaps(Built(Occupants(tenancies), window).segments), FullUses(uses, area, window);
    FictionalDays(gaps, selfUsed, mode, tenancies, entries, day);
  }

  /** Two rows for the same days, one of them of the whole unit: a note, and not one fictional day. */
  lemma NotedWithoutRows()
    ensures var uses := [SelfUse(0, None, 100), SelfUse(0, None, 50)];
            var result := FictionalSpec([], [], uses, 100, Span(0, 10), AlwaysOne);
            && result.Derived? && Span(0, 10) in result.notes
            && forall day | 0 <= day < 10 :: !Counted(result.rows, day)
  {
    hide FictionalSpec, Counted, Built;
    var uses, window := [SelfUse(0, None, 100), SelfUse(0, None, 50)], Span(0, 10);
    assert !ShareDay(Occupants([]), window);
    RefusedIffShared(Occupants([]), window);
    DerivedIff([], [], uses, 100, window, AlwaysOne);
    assert window.Holds(0) && !Rented([], 0);
    assert uses[1].area < 100 && window == ClippedUse(uses[1], window);
    NotedIff([], [], uses, 100, window, AlwaysOne, window);
    forall day | 0 <= day < 10 ensures !Counted(FictionalSpec([], [], uses, 100, window, AlwaysOne).rows, day) {
      assert uses[0].Holds(day);
      assert FullySelfUsed(uses, 100, day);
      FictionalOnDay([], [], uses, 100, window, AlwaysOne, day);
    }
  }

  lemma DerivedIff(tenancies: seq<Tenancy>, entries: seq<Entry>, uses: seq<SelfUse>, area: int, window: Span,
                   mode: Mode)
    ensures FictionalSpec(tenancies, entries, uses, area, window, mode).Derived?
       <==> mode == Never || Built(Occupants(tenancies), window).Segments?
  {
    hide Built;
  }

  lemma KeepTagged<T(!new)>(unit: nat, other: nat, items: seq<T>)
    ensures Keep(Tag(unit, items), OfUnit(other)) == if unit == other then Tag(unit, items) else []
  {
    KeepAll(Tag(unit, items), OfUnit(other), unit == other);
  }

  ghost predicate DistinctUnits(units: seq<UnitFacts>)
  {
    forall i, j | 0 <= i < j < |units| :: units[i].id != units[j].id
  }

  ghost predicate HasUnit(units: seq<UnitFacts>, id: nat)
  {
    exists k :: 0 <= k < |units| && units[k].id == id
  }

  lemma HasUnitNext(units: seq<UnitFacts>, id: nat)
    requires units != []
    ensures HasUnit(units, id) <==> HasUnit(units[..|units| - 1], id) || units[|units| - 1].id == id
  {
    if k :| 0 <= k < |units| - 1 && units[k].id == id {
      assert units[..|units| - 1][k].id == id;
    }
  }

  /** One more unit adds its own items behind everybody else's. */
  lemma TagNext<T(!new)>(units: seq<UnitFacts>, before: seq<Tagged<T>>, items: seq<T>)
    requires DistinctUnits(units) && units != []
    requires forall t | t in before :: HasUnit(units[..|units| - 1], t.unit)
    ensures var n := |units| - 1;
            var after := before + Tag(units[n].id, items);
            && (forall t | t in after :: HasUnit(units, t.unit))
            && (forall k | 0 <= k < n :: Keep(after, OfUnit(units[k].id)) == Keep(before, OfUnit(units[k].id)))
            && Keep(after, OfUnit(units[n].id)) == Tag(units[n].id, items)
  {
    hide Keep, HasUnit;
    var n := |units| - 1;
    var more := Tag(units[n].id, items);
    forall t | t in before + more ensures HasUnit(units, t.unit) {
      HasUnitNext(units, t.unit);
    }
    forall k | 0 <= k < |units|
      ensures Keep(before + more, OfUnit(units[k].id))
           == Keep(before, OfUnit(units[k].id)) + (if k == n then more else [])
    {
      KeepConcat(before, more, OfUnit(units[k].id));
      KeepTagged(units[n].id, units[k].id, items);
    }
    forall i | 0 <= i < |before| ensures before[i].unit != units[n].id {
      assert before[i] in before;
      NotAmongFirst(units, before[i].unit);
    }
    KeepAll(before, OfUnit(units[n].id), false);
  }

  lemma NotAmongFirst(units: seq<UnitFacts>, id: nat)
    requires DistinctUnits(units) && units != [] && HasUnit(units[..|units| - 1], id)
    ensures id != units[|units| - 1].id
  {
  }

  /** The unit's rows and notes among those of the building. */
  ghost predicate OwnItems(unit: UnitFacts, entries: seq<Entry>, window: Span, mode: Mode, rows: seq<Tagged<PersonRow>>,
                           notes: seq<Tagged<Span>>)
  {
    && UnitSpec(unit, entries, window, mode).Derived?
    && ItemsOf(unit.id, Keep(rows, OfUnit(unit.id)), UnitSpec(unit, entries, window, mode).rows)
    && ItemsOf(unit.id, Keep(notes, OfUnit(unit.id)), UnitSpec(unit, entries, window, mode).notes)
  }

  /** The same items in the same order, each with the unit's id. */
  ghost predicate ItemsOf<T(!new)>(unit: nat, tagged: seq<Tagged<T>>, items: seq<T>)
  {
    |tagged| == |items| && forall i | 0 <= i < |items| :: tagged[i].unit == unit && tagged[i].item == items[i]
  }

  lemma TagItems<T(!new)>(unit: nat, items: seq<T>)
    ensures ItemsOf(unit, Tag(unit, items), items)
  {
  }

  /**
   * In the lists of a building each unit has exactly its own rows and notes. They are refused
   * exactly when some unit is, and for the first such unit.
   */
  lemma {:induction false} UnitsStayApart(units: seq<UnitFacts>, entries: seq<Entry>, window: Span, mode: Mode)
    requires DistinctUnits(units)
    ensures match BuildingSpec(units, entries, window, mode)
      case UnitRefused(unit, error) =>
        exists k: nat :: FirstRefused(units, entries, window, mode, k)
                         && unit == units[k].id && UnitSpec(units[k], entries, window, mode) == Refused(error)
      case BuildingDerived(rows, notes) =>
        && (forall t | t in rows :: HasUnit(units, t.unit)) && (forall t | t in notes :: HasUnit(units, t.unit))
        && forall k | 0 <= k < |units| :: OwnItems(units[k], entries, window, mode, rows, notes)
  {
    hide UnitSpec, Keep, Tag, HasUnit;
    if units != [] {
      var n := |units| - 1;
      UnitsStayApart(units[..n], entries, window, mode);
      var before, last := BuildingSpec(units[..n], entries, window, mode), UnitSpec(units[n], entries, window, mode);
      if before.UnitRefused? {
        var k: nat :| FirstRefused(units[..n], entries, window, mode, k)
                      && before.unit == units[..n][k].id
                      && UnitSpec(units[..n][k], entries, window, mode) == Refused(before.error);
        assert FirstRefused(units, entries, window, mode, k) by {
          forall j: nat | j < k ensures UnitSpec(units[j], entries, window, mode).Derived? {
            assert units[j] == units[..n][j];
          }
        }
        assert units[k] == units[..n][k];
      } else {
        forall k: nat | k < n ensures OwnItems(units[k], entries, window, mode, before.rows, before.notes) {
          assert units[k] == units[..n][k];
        }
        if last.Refused? {
          assert FirstRefused(units, entries, window, mode, n);
        } else {
          TagNext(units, before.rows, last.rows);
          TagNext(units, before.notes, last.notes);
          TagItems(units[n].id, last.rows);
          TagItems(units[n].id, last.notes);
        }
      }
    }
  }

  ghost predicate FirstRefused(units: seq<UnitFacts>, entries: seq<Entry>, window: Span, mode: Mode, k: nat)
  {
    && k < |units| && UnitSpec(units[k], entries, window, mode).Refused?
    && forall j: nat | j < k :: UnitSpec(units[j], entries, window, mode).Derived?
  }

  // ---- Whose count a vacancy inherits ----------------------------------------------------------------------------

  /** Begun by the day, and none later; of two begun together the larger id. */
  ghost predicate LastBegun(tenancies: seq<Tenancy>, day: int, t: Tenancy)
  {
    && t in tenancies && t.from <= day
    && forall u | u in tenancies && u.from <= day :: u.from < t.from || (u.from == t.from && u.id <= t.id)
  }

  /** The count of the tenancy that begins last; of two that begin together the later in the table. */
  ghost predicate LastEntered(entries: seq<Entry>, tenancy: nat, e: Entry)
  {
    exists i :: 0 <= i < |entries| && entries[i] == e && e.tenancy == tenancy
                && forall j | 0 <= j < |entries| && entries[j].tenancy == tenancy ::
                     entries[j].from < e.from || (entries[j].from == e.from && j <= i)
  }

  /** The larger of one and the last count of the tenancy begun last; one without such a tenancy or count. */
  ghost predicate Inherits(tenancies: seq<Tenancy>, entries: seq<Entry>, day: int, persons: int)
  {
    || (exists t, e :: LastBegun(tenancies, day, t) && LastEntered(entries, t.id, e)
                       && persons == (if e.count > 1 then e.count else 1))
    || (exists t :: LastBegun(tenancies, day, t) && (forall e | e in entries :: e.tenancy != t.id) && persons == 1)
    || ((forall t | t in tenancies :: t.from > day) && persons == 1)
  }

  lemma {:induction false} LatestBegunMeans(tenancies: seq<Tenancy>, day: int)
    ensures match LatestBegun(tenancies, day)
      case Some(t) => LastBegun(tenancies, day, t)
      case None => forall u | u in tenancies :: u.from > day
  {
    if tenancies != [] {
      LatestBegunMeans(tenancies[1..], day);
      forall u | u in tenancies ensures u == tenancies[0] || u in tenancies[1..] {
      }
    }
  }

  ghost predicate Proper(t: Tenancy)
  {
    t.to.None? || t.from < t.to.value
  }

  ghost predicate NeverShared(tenancies: seq<Tenancy>)
  {
    forall t, u, day: int | t in tenancies && u in tenancies && t.Holds(day) && u.Holds(day) :: t == u
  }

  /** The last tenancy begun before a vacant day is the last one that ended. */
  lemma InheritsFromLastEnded(tenancies: seq<Tenancy>, day: int)
    requires (forall t | t in tenancies :: Proper(t)) && NeverShared(tenancies) && !Rented(tenancies, day)
    ensures match LatestBegun(tenancies, day)
      case Some(t) => t in tenancies && t.to.Some? && t.to.value <= day
                      && forall u | u in tenancies && u.to.Some? && u.to.value <= day :: u.to.value <= t.to.value
      case None => forall u | u in tenancies :: u.from > day
    ensures forall t | LastBegun(tenancies, day, t) ::
      t.to.Some? && t.to.value <= day
      && forall u | u in tenancies && u.to.Some? && u.to.value <= day :: u.to.value <= t.to.value
  {
    forall t | LastBegun(tenancies, day, t)
      ensures t.to.Some? && t.to.value <= day
      ensures forall u | u in tenancies && u.to.Some? && u.to.value <= day :: u.to.value <= t.to.value
    {
      var i :| 0 <= i < |tenancies| && tenancies[i] == t;
      assert !tenancies[i].Holds(day);
      forall u | u in tenancies && u.to.Some? && u.to.value <= day ensures u.to.value <= t.to.value {
        assert Proper(u) && Proper(t);
        assert t.Holds(t.from);
        assert u.Holds(t.from) ==> u == t;
      }
    }
    LatestBegunMeans(tenancies, day);
  }

  /** And the count it inherits is the one of that tenancy which began last. */
  lemma {:induction false} InheritsLatestCount(entries: seq<Entry>, tenancy: nat)
    ensures match LatestCount(entries, tenancy)
      case Some(e) => LastEntered(entries, tenancy, e)
      case None => forall f | f in entries :: f.tenancy != tenancy
  {
    if entries != [] {
      var rest := LatestCount(entries[1..], tenancy);
      InheritsLatestCount(entries[1..], tenancy);
      forall f | f in entries ensures f == entries[0] || f in entries[1..] {
      }
      if rest.Some? {
        LaterEntered(entries, tenancy, rest.value);
      } else if entries[0].tenancy == tenancy {
        FirstEntered(entries, tenancy);
      }
    }
  }

  lemma FirstEntered(entries: seq<Entry>, tenancy: nat)
    requires entries != [] && entries[0].tenancy == tenancy
    requires forall f | f in entries[1..] :: f.tenancy != tenancy
    ensures LastEntered(entries, tenancy, entries[0])
  {
    forall j | 0 < j < |entries| ensures entries[j].tenancy != tenancy {
      assert entries[1..][j - 1] in entries[1..];
    }
  }

  /** One more count in front: it is the last only with a later start. */
  lemma LaterEntered(entries: seq<Entry>, tenancy: nat, e: Entry)
    requires entries != [] && LastEntered(entries[1..], tenancy, e)
    ensures LastEntered(entries, tenancy,
                        if entries[0].tenancy == tenancy && entries[0].from > e.from then entries[0] else e)
  {
    var i :| 0 <= i < |entries[1..]| && entries[1..][i] == e && e.tenancy == tenancy
             && forall j | 0 <= j < |entries[1..]| && entries[1..][j].tenancy == tenancy ::
                  entries[1..][j].from < e.from || (entries[1..][j].from == e.from && j <= i);
    forall j | 0 < j < |entries| && entries[j].tenancy == tenancy
      ensures entries[j].from < e.from || (entries[j].from == e.from && j <= i + 1)
    {
      assert entries[1..][j - 1] == entries[j];
    }
    assert entries[i + 1] == e;
  }

  lemma LastKnownMeans(tenancies: seq<Tenancy>, entries: seq<Entry>, day: int)
    ensures Inherits(tenancies, entries, day, Max(1, LastKnownPersons(tenancies, entries, day)))
  {
    hide LastBegun, LastEntered;
    LatestBegunMeans(tenancies, day);
    var latest := LatestBegun(tenancies, day);
    if latest.Some? {
      InheritsLatestCount(entries, latest.value.id);
    }
  }

  // ---- With how many persons -----------------------------------------------------------------------

  /** Every row of the landlord's counts carries the tenancy and the count of one of them. */
  lemma {:induction false} EnteredRowsCount(entries: seq<Entry>, tenancies: seq<Tenancy>, row: PersonRow, day: int)
    requires DistinctTenancies(tenancies) && row in EnteredAll(entries, tenancies) && row.Holds(day)
    ensures exists k :: 0 <= k < |entries| && Runs(entries[k], tenancies, day)
                        && row.tenancy == Some(entries[k].tenancy) && row.count == entries[k].count
  {
    hide Entered, Runs;
    var n := |entries| - 1;
    if row in EnteredAll(entries[..n], tenancies) {
      EnteredRowsCount(entries[..n], tenancies, row, day);
      var k :| 0 <= k < n && Runs(entries[..n][k], tenancies, day)
               && row.tenancy == Some(entries[..n][k].tenancy) && row.count == entries[..n][k].count;
      assert entries[k] == entries[..n][k];
    } else {
      EnteredCount(entries[n], tenancies, row);
      EnteredDay(entries[n], tenancies, day);
      var i :| 0 <= i < |Entered(entries[n], tenancies)| && Entered(entries[n], tenancies)[i] == row;
      assert Counted(Entered(entries[n], tenancies), day);
    }
  }

  lemma EnteredCount(entry: Entry, tenancies: seq<Tenancy>, row: PersonRow)
    requires row in Entered(entry, tenancies)
    ensures row.tenancy == Some(entry.tenancy) && row.count == entry.count
  {
  }

  /** And every count that runs on a day has such a row on it. */
  lemma {:induction false} RunningCountEntered(entries: seq<Entry>, tenancies: seq<Tenancy>, k: nat, day: int)
    requires DistinctTenancies(tenancies) && k < |entries| && Runs(entries[k], tenancies, day)
    ensures exists row :: row in EnteredAll(entries, tenancies) && row.Holds(day)
                          && row.tenancy == Some(entries[k].tenancy) && row.count == entries[k].count
  {
    hide Entered, Runs;
    var n := |entries| - 1;
    if k < n {
      RunningCountEntered(entries[..n], tenancies, k, day);
      var row :| row in EnteredAll(entries[..n], tenancies) && row.Holds(day)
                 && row.tenancy == Some(entries[k].tenancy) && row.count == entries[k].count;
      assert row in EnteredAll(entries, tenancies);
    } else {
      EnteredDay(entries[n], tenancies, day);
      var i :| 0 <= i < |Entered(entries[n], tenancies)| && Entered(entries[n], tenancies)[i].Holds(day);
      var row := Entered(entries[n], tenancies)[i];
      assert row in Entered(entries[n], tenancies);
      EnteredCount(entries[n], tenancies, row);
      assert row in EnteredAll(entries, tenancies);
    }
  }

  /** A fictional row has one person, or those that the last tenancy leaves behind. */
  ghost predicate FictionalCount(row: PersonRow, mode: Mode, tenancies: seq<Tenancy>, entries: seq<Entry>)
  {
    && row.tenancy.None?
    && (mode == AlwaysOne ==> row.count == 1)
    && (mode == LastOccupancy ==> Inherits(tenancies, entries, row.from, row.count))
  }

  lemma {:induction false} FictionalOfCounts(pieces: seq<Span>, mode: Mode, tenancies: seq<Tenancy>,
                                             entries: seq<Entry>)
    ensures forall row | row in FictionalOf(pieces, mode, tenancies, entries) ::
              FictionalCount(row, mode, tenancies, entries)
  {
    hide Inherits, LastKnownPersons;
    if pieces != [] {
      var n := |pieces| - 1;
      FictionalOfCounts(pieces[..n], mode, tenancies, entries);
      LastKnownMeans(tenancies, entries, pieces[n].from);
    }
  }

  lemma {:induction false} FictionalAllCounts(gaps: seq<Span>, selfUsed: seq<Span>, mode: Mode, tenancies: seq<Tenancy>,
                                              entries: seq<Entry>)
    ensures forall row | row in FictionalAll(gaps, selfUsed, mode, tenancies, entries) ::
              FictionalCount(row, mode, tenancies, entries)
  {
    hide FictionalCount, FictionalOf, Subtracted;
    if gaps != [] {
      var n := |gaps| - 1;
      FictionalAllCounts(gaps[..n], selfUsed, mode, tenancies, entries);
      FictionalOfCounts(Subtracted(gaps[n], selfUsed), mode, tenancies, entries);
    }
  }
}
