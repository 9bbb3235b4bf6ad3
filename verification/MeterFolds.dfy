/**
 * Meter readings folded in two ways: one consumption per meter, and the spans between the effective
 * readings of a heat meter. Register values and factors are exact decimals, here in thousandths.
 */
module MeterFolds {
  import opened Lists
  import opened Rows

  datatype Reading = Reading(meter: string, readAt: nat, recordedAt: int, value: int, device: Device)

  /** What a reading says about the device: a unit heat meter has a unit; an estimate replaces the register. */
  datatype Device = Device(unit: Option<string>, heat: bool, factor: int, tenancy: Option<string>, tenantChange: bool,
                           estimated: Option<int>)

  datatype Consumption = Consumption(opening: Reading, closing: Reading, value: int)

  datatype Allocation = Party | Owner | AnnualUnsegmented

  datatype Span = Span(meter: string, allocation: Allocation, opening: Option<int>, closing: Option<int>,
                       estimated: Option<int>)

  // ---- Which reading counts ---------------------------------------------------------------------------

  predicate Of(r: Reading, meter: string, date: nat)
  {
    r.meter == meter && r.readAt == date
  }

  /** Of several readings of one meter and day the one recorded last; on a tie the later in the input. */
  function Winner(readings: seq<Reading>, meter: string, date: nat): Option<Reading>
  {
    if readings == [] then None
    else
      var n := |readings| - 1;
      var before := Winner(readings[..n], meter, date);
      if Of(readings[n], meter, date) && (before.None? || readings[n].recordedAt >= before.value.recordedAt)
      then Some(readings[n]) else before
  }

  ghost predicate Ascending(dates: seq<nat>)
  {
    forall i, j | 0 <= i < j < |dates| :: dates[i] < dates[j]
  }

  function InsertDate(date: nat, dates: seq<nat>): seq<nat>
  {
    if dates == [] || date < dates[0] then [date] + dates
    else if date == dates[0] then dates
    else [dates[0]] + InsertDate(date, dates[1..])
  }

  /** The days on which a meter was read, ascending. */
  function Dates(readings: seq<Reading>, meter: string): seq<nat>
  {
    if readings == [] then []
    else
      var n := |readings| - 1;
      if readings[n].meter == meter then InsertDate(readings[n].readAt, Dates(readings[..n], meter))
      else Dates(readings[..n], meter)
  }

  lemma {:induction false} InsertDateMeans(date: nat, dates: seq<nat>)
    requires Ascending(dates)
    ensures Ascending(InsertDate(date, dates))
    ensures forall d :: d in InsertDate(date, dates) <==> d == date || d in dates
  {
    if !(dates == [] || date <= dates[0]) {
      InsertDateMeans(date, dates[1..]);
      var rest := InsertDate(date, dates[1..]);
      forall j | 0 <= j < |rest| ensures dates[0] < rest[j] {
        assert rest[j] in rest;
        assert rest[j] == date || rest[j] in dates[1..];
      }
    }
  }

  lemma {:induction false} DatesMean(readings: seq<Reading>, meter: string)
    ensures Ascending(Dates(readings, meter))
    ensures forall d :: d in Dates(readings, meter) <==> Winner(readings, meter, d).Some?
  {
    if readings != [] {
      var n := |readings| - 1;
      DatesMean(readings[..n], meter);
      if readings[n].meter == meter {
        InsertDateMeans(readings[n].readAt, Dates(readings[..n], meter));
      }
    }
  }

  lemma NonEmptyMember(xs: seq<nat>)
    ensures xs == [] || xs[0] in xs
  {
  }

  lemma {:induction false} AscendingUnique(xs: seq<nat>, ys: seq<nat>)
    requires Ascending(xs) && Ascending(ys) && forall d :: d in xs <==> d in ys
    ensures xs == ys
  {
    NonEmptyMember(xs);
    NonEmptyMember(ys);
    if xs != [] {
      assert xs[0] in ys && ys != [] && ys[0] in xs;
      assert xs[0] == ys[0];
      forall d ensures d in xs[1..] <==> d in ys[1..] {
        assert d in xs <==> d == xs[0] || d in xs[1..];
        assert d in ys <==> d == ys[0] || d in ys[1..];
      }
      AscendingUnique(xs[1..], ys[1..]);
      assert xs == [xs[0]] + xs[1..] && ys == [ys[0]] + ys[1..];
    }
  }

  /** One effective reading per day, in the order of days. */
  function EffectiveAt(readings: seq<Reading>, meter: string, dates: seq<nat>): seq<Reading>
  {
    if dates == [] then []
    else EffectiveAt(readings, meter, dates[..|dates| - 1])
         + (match Winner(readings, meter, dates[|dates| - 1]) case Some(r) => [r] case None => [])
  }

  function Effective(readings: seq<Reading>, meter: string): seq<Reading>
  {
    EffectiveAt(readings, meter, Dates(readings, meter))
  }

  /** The first and the last day on which a meter was read. */
  function FirstDay(readings: seq<Reading>, meter: string): Option<nat>
  {
    if readings == [] then None
    else
      var n := |readings| - 1;
      var before := FirstDay(readings[..n], meter);
      if readings[n].meter == meter && (before.None? || readings[n].readAt < before.value)
      then Some(readings[n].readAt)
      else before
  }

  function LastDay(readings: seq<Reading>, meter: string): Option<nat>
  {
    if readings == [] then None
    else
      var n := |readings| - 1;
      var before := LastDay(readings[..n], meter);
      if readings[n].meter == meter && (before.None? || readings[n].readAt > before.value)
      then Some(readings[n].readAt)
      else before
  }

  /** Closing less opening, unless there is a single day or the register ran backwards. */
  function ConsumptionBetween(opening: Option<Reading>, closing: Option<Reading>): Option<Consumption>
  {
    if opening.None? || closing.None? || closing.value.value - opening.value.value < 0 then None
    else Some(Consumption(opening.value, closing.value, closing.value.value - opening.value.value))
  }

  function ConsumptionOf(readings: seq<Reading>, meter: string): Option<Consumption>
  {
    var first, last := FirstDay(readings, meter), LastDay(readings, meter);
    if first.None? || last.None? || first == last then None
    else ConsumptionBetween(Winner(readings, meter, first.value), Winner(readings, meter, last.value))
  }

  lemma {:induction false} EndDaysMean(readings: seq<Reading>, meter: string)
    ensures match FirstDay(readings, meter)
      case Some(d) => Winner(readings, meter, d).Some? && forall e: nat | Winner(readings, meter, e).Some? :: d <= e
      case None => forall e: nat :: Winner(readings, meter, e).None?
    ensures match LastDay(readings, meter)
      case Some(d) => Winner(readings, meter, d).Some? && forall e: nat | Winner(readings, meter, e).Some? :: e <= d
      case None => forall e: nat :: Winner(readings, meter, e).None?
  {
    if readings != [] {
      EndDaysMean(readings[..|readings| - 1], meter);
    }
  }

  function SpanOf(opening: Reading, closing: Reading): Span
  {
    Span(closing.meter,
         if closing.device.tenancy.Some? then Party
         else if closing.device.tenantChange then Owner
         else AnnualUnsegmented,
         if closing.device.estimated.Some? then None else Some(opening.value),
         if closing.device.estimated.Some? then None else Some(closing.value),
         closing.device.estimated)
  }

  function Pairwise(effective: seq<Reading>): seq<Span>
  {
    if |effective| < 2 then []
    else Pairwise(effective[..|effective| - 1]) + [SpanOf(effective[|effective| - 2], effective[|effective| - 1])]
  }

  /** A meter takes part as a device when its newest effective reading is a unit heat reading. */
  predicate UnitHeat(effective: seq<Reading>)
  {
    effective != [] && effective[|effective| - 1].device.heat && effective[|effective| - 1].device.unit.Some?
  }

  /** Meters in the order in which they first appear. */
  function FirstSeen(readings: seq<Reading>): seq<string>
  {
    if readings == [] then []
    else
      var n := |readings| - 1;
      if readings[n].meter in FirstSeen(readings[..n]) then FirstSeen(readings[..n])
      else FirstSeen(readings[..n]) + [readings[n].meter]
  }

  datatype Segmentation = BadFactor(meter: string) | Segmented(devices: seq<string>, spans: seq<Span>)

  function SegmentationOf(readings: seq<Reading>, meters: seq<string>): Segmentation
  {
    if meters == [] then Segmented([], [])
    else
      var n := |meters| - 1;
      var before, effective := SegmentationOf(readings, meters[..n]), Effective(readings, meters[n]);
      if before.BadFactor? || !UnitHeat(effective) then before
      else if effective[|effective| - 1].device.factor <= 0 then BadFactor(meters[n])
      else Segmented(before.devices + [meters[n]], before.spans + Pairwise(effective))
  }

  // ---- The loops -----------------------------------------------------------------------------------------

  /** The dictionaries hold the winners, and the meters in their order of appearance. */
  ghost predicate Holds(latest: map<string, map<nat, Reading>>, order: seq<string>, readings: seq<Reading>)
  {
    && order == FirstSeen(readings)
    && (forall m :: m in latest <==> m in order)
    && forall m, d | m in latest :: Winner(readings, m, d) == if d in latest[m] then Some(latest[m][d]) else None
  }

  method LatestPerDate(readings: seq<Reading>) returns (latest: map<string, map<nat, Reading>>, order: seq<string>)
    ensures Holds(latest, order, readings)
  {
    latest, order := map[], [];
    var i := 0;
    assert readings[..0] == [];
    while i < |readings|
      invariant 0 <= i <= |readings|
      invariant Holds(latest, order, readings[..i])
    {
      var r := readings[i];
      assert readings[..i + 1][..i] == readings[..i];
      var byDate := if r.meter in latest then latest[r.meter] else map[];
      NoneYet(readings[..i], r.meter);
      if r.meter !in latest {
        order := order + [r.meter];
      }
      if r.readAt !in byDate || r.recordedAt >= byDate[r.readAt].recordedAt {
        byDate := byDate[r.readAt := r];
      }
      latest := latest[r.meter := byDate];
      i := i + 1;
    }
    assert readings[..i] == readings;
  }

  lemma {:induction false} NoneYet(readings: seq<Reading>, meter: string)
    ensures meter !in FirstSeen(readings) ==> forall d :: Winner(readings, meter, d).None?
  {
    if readings != [] {
      NoneYet(readings[..|readings| - 1], meter);
    }
  }

  method SmallestKey(keys: set<nat>) returns (smallest: nat)
    requires keys != {}
    ensures smallest in keys && forall k | k in keys :: smallest <= k
  {
    smallest :| smallest in keys;
    var left := keys - {smallest};
    while left != {}
      invariant left <= keys && smallest in keys
      invariant forall k | k in keys && k !in left :: smallest <= k
    {
      var k :| k in left;
      if k < smallest {
        smallest := k;
      }
      left := left - {k};
    }
  }

  method LargestKey(keys: set<nat>) returns (largest: nat)
    requires keys != {}
    ensures largest in keys && forall k | k in keys :: k <= largest
  {
    largest :| largest in keys;
    var left := keys - {largest};
    while left != {}
      invariant left <= keys && largest in keys
      invariant forall k | k in keys && k !in left :: k <= largest
    {
      var k :| k in left;
      if k > largest {
        largest := k;
      }
      left := left - {k};
    }
  }

  method SortedKeys(byDate: map<nat, Reading>) returns (dates: seq<nat>)
    ensures Ascending(dates) && forall d :: d in dates <==> d in byDate
  {
    dates := [];
    var left := byDate.Keys;
    while left != {}
      invariant Ascending(dates) && left <= byDate.Keys
      invariant forall d :: d in dates <==> d in byDate && d !in left
      invariant forall d, k | d in dates && k in left :: d < k
    {
      var smallest := SmallestKey(left);
      assert forall i | 0 <= i < |dates| :: dates[i] in dates;
      dates := dates + [smallest];
      left := left - {smallest};
    }
  }

  /** The effective readings of one meter, from its dictionary. */
  method EffectiveReadings(readings: seq<Reading>, meter: string, byDate: map<nat, Reading>)
    returns (effective: seq<Reading>)
    requires forall d :: Winner(readings, meter, d) == if d in byDate then Some(byDate[d]) else None
    ensures effective == Effective(readings, meter)
  {
    var dates := SortedKeys(byDate);
    DatesMean(readings, meter);
    AscendingUnique(dates, Dates(readings, meter));
    effective := [];
    var i := 0;
    assert dates[..0] == [];
    while i < |dates|
      invariant 0 <= i <= |dates|
      invariant effective == EffectiveAt(readings, meter, dates[..i])
    {
      assert dates[..i + 1][..i] == dates[..i];
      assert dates[i] in dates;
      effective := effective + [byDate[dates[i]]];
      i := i + 1;
    }
    assert dates[..i] == dates;
  }

  /** One meter's consumption from its dictionary: at least two days, the smallest and the largest one. */
  method ConsumptionFrom(readings: seq<Reading>, meter: string, byDate: map<nat, Reading>)
    returns (result: Option<Consumption>)
    requires forall d :: Winner(readings, meter, d) == if d in byDate then Some(byDate[d]) else None
    ensures result == ConsumptionOf(readings, meter)
  {
    EndDaysMean(readings, meter);
    if |byDate| < 2 {
      FewDays(readings, meter, byDate);
      return None;
    }
    var first := SmallestKey(byDate.Keys);
    var last := LargestKey(byDate.Keys);
    ManyDays(byDate.Keys, first, last);
    var opening, closing := byDate[first], byDate[last];
    assert FirstDay(readings, meter) == Some(first) && LastDay(readings, meter) == Some(last) by {
      assert Winner(readings, meter, first).Some? && Winner(readings, meter, last).Some?;
    }
    var value := closing.value - opening.value;
    return if value < 0 then None else Some(Consumption(opening, closing, value));
  }

  lemma FewDays(readings: seq<Reading>, meter: string, byDate: map<nat, Reading>)
    requires forall d :: Winner(readings, meter, d) == if d in byDate then Some(byDate[d]) else None
    requires |byDate| < 2
    ensures ConsumptionOf(readings, meter).None?
  {
    EndDaysMean(readings, meter);
    var first, last := FirstDay(readings, meter), LastDay(readings, meter);
    if first.Some? && last.Some? {
      assert first.value in byDate.Keys && last.value in byDate.Keys;
      if first.value != last.value {
        SetSize({first.value, last.value}, byDate.Keys);
      }
    }
  }

  lemma {:induction false} SetSize(a: set<nat>, b: set<nat>)
    requires a <= b
    ensures |a| <= |b|
  {
    assert b == a + (b - a);
  }

  lemma ManyDays(keys: set<nat>, first: nat, last: nat)
    requires |keys| >= 2 && first in keys && last in keys && forall k | k in keys :: first <= k <= last
    ensures first < last
  {
    if first == last {
      SetSize(keys, {first});
    }
  }

  method ConsumptionByMeter(readings: seq<Reading>) returns (consumption: map<string, Consumption>)
    ensures forall m :: ConsumptionOf(readings, m) == if m in consumption then Some(consumption[m]) else None
  {
    hide ConsumptionOf;
    var latest, order := LatestPerDate(readings);
    consumption := map[];
    var i := 0;
    forall m | m !in order ensures ConsumptionOf(readings, m).None? {
      NotSeen(readings, m);
    }
    DistinctMeters(readings);
    while i < |order|
      invariant 0 <= i <= |order|
      invariant forall m :: m in consumption ==> m in order[..i]
      invariant forall m | m in order[..i] ::
          ConsumptionOf(readings, m) == if m in consumption then Some(consumption[m]) else None
    {
      var m := order[i];
      assert m !in order[..i];
      var own := ConsumptionFrom(readings, m, latest[m]);
      if own.Some? {
        consumption := consumption[m := own.value];
      }
      i := i + 1;
    }
    assert order[..i] == order;
  }

  lemma NotSeen(readings: seq<Reading>, m: string)
    requires m !in FirstSeen(readings)
    ensures ConsumptionOf(readings, m).None?
  {
    NoneYet(readings, m);
    EndDaysMean(readings, m);
  }

  lemma {:induction false} DistinctMeters(readings: seq<Reading>)
    ensures forall i, j | 0 <= i < j < |FirstSeen(readings)| :: FirstSeen(readings)[i] != FirstSeen(readings)[j]
  {
    if readings != [] {
      DistinctMeters(readings[..|readings| - 1]);
    }
  }

  method DeviceReadingSegments(readings: seq<Reading>) returns (result: Segmentation)
    ensures result == SegmentationOf(readings, FirstSeen(readings))
  {
    hide Effective, Pairwise;
    var latest, order := LatestPerDate(readings);
    var devices, spans, i := [], [], 0;
    assert order[..0] == [];
    while i < |order|
      invariant 0 <= i <= |order|
      invariant SegmentationOf(readings, order[..i]) == Segmented(devices, spans)
    {
      var m := order[i];
      assert order[..i + 1][..i] == order[..i];
      var effective := EffectiveReadings(readings, m, latest[m]);
      if UnitHeat(effective) {
        if effective[|effective| - 1].device.factor <= 0 {
          BadFactorStays(readings, order, i + 1);
          return BadFactor(m);
        }
        devices := devices + [m];
        var own := PairwiseSpans(effective);
        spans := spans + own;
      }
      i := i + 1;
    }
    assert order[..i] == order;
    return Segmented(devices, spans);
  }

  lemma {:induction false} BadFactorStays(readings: seq<Reading>, meters: seq<string>, i: nat)
    requires i <= |meters| && SegmentationOf(readings, meters[..i]).BadFactor?
    ensures SegmentationOf(readings, meters) == SegmentationOf(readings, meters[..i])
    decreases |meters|
  {
    hide Effective, UnitHeat, Pairwise;
    if i < |meters| {
      var n := |meters| - 1;
      assert meters[..n][..i] == meters[..i];
      BadFactorStays(readings, meters[..n], i);
    } else {
      assert meters[..i] == meters;
    }
  }

  method PairwiseSpans(effective: seq<Reading>) returns (spans: seq<Span>)
    ensures spans == Pairwise(effective)
  {
    spans := [];
    var i := 1;
    while i < |effective|
      invariant 1 <= i && (i <= |effective| || |effective| == 0)
      invariant spans == Pairwise(if i <= |effective| then effective[..i] else effective)
    {
      assert effective[..i + 1][..i] == effective[..i];
      spans := spans + [SpanOf(effective[i - 1], effective[i])];
      i := i + 1;
    }
    if i <= |effective| {
      assert effective[..i] == effective;
    }
  }

  // ---- What the segmentation consists of --------------------------------------------------------------------

  ghost function IsDevice(readings: seq<Reading>): string -> bool
  {
    (m: string) => UnitHeat(Effective(readings, m))
  }

  /** A device whose newest effective reading carries no positive factor. */
  ghost predicate Bad(effective: seq<Reading>)
  {
    UnitHeat(effective) && effective[|effective| - 1].device.factor <= 0
  }

  ghost function IsBad(readings: seq<Reading>): string -> bool
  {
    (m: string) => Bad(Effective(readings, m))
  }

  ghost function SpansOf(readings: seq<Reading>, devices: seq<string>): seq<Span>
  {
    if devices == [] then []
    else SpansOf(readings, devices[..|devices| - 1]) + Pairwise(Effective(readings, devices[|devices| - 1]))
  }

  /** The first bad device ends the segmentation; without one it lists the devices and their spans. */
  lemma {:induction false} SegmentationIs(readings: seq<Reading>, meters: seq<string>)
    ensures var bad, devices := Keep(meters, IsBad(readings)), Keep(meters, IsDevice(readings));
            SegmentationOf(readings, meters)
            == if bad != [] then BadFactor(bad[0]) else Segmented(devices, SpansOf(readings, devices))
  {
    hide Effective, Pairwise;
    if meters != [] {
      var n := |meters| - 1;
      SegmentationIs(readings, meters[..n]);
      var before, m := Keep(meters[..n], IsDevice(readings)), meters[n];
      if IsDevice(readings)(m) {
        assert (before + [m])[..|before|] == before;
      } else {
        assert before + [] == before;
      }
    }
  }

  // ---- The two folds agree ------------------------------------------------------------------------------------

  ghost function OfMeter(meter: string): Span -> bool
  {
    (s: Span) => s.meter == meter
  }

  lemma {:induction false} EffectiveAtMeans(readings: seq<Reading>, meter: string, dates: seq<nat>)
    requires forall d | d in dates :: Winner(readings, meter, d).Some?
    ensures |EffectiveAt(readings, meter, dates)| == |dates|
    ensures forall i | 0 <= i < |dates| ::
              Winner(readings, meter, dates[i]) == Some(EffectiveAt(readings, meter, dates)[i])
  {
    if dates != [] {
      var n := |dates| - 1;
      EffectiveAtMeans(readings, meter, dates[..n]);
      assert dates[n] in dates;
    }
  }

  lemma {:induction false} WinnerOf(readings: seq<Reading>, meter: string, date: nat)
    ensures Winner(readings, meter, date).Some? ==> Of(Winner(readings, meter, date).value, meter, date)
  {
    if readings != [] {
      WinnerOf(readings[..|readings| - 1], meter, date);
    }
  }

  /** The effective readings belong to the meter; the first and last are those of its first and last day. */
  lemma EffectiveMeans(readings: seq<Reading>, meter: string)
    ensures var effective := Effective(readings, meter);
            && (forall i | 0 <= i < |effective| :: effective[i].meter == meter)
            && ConsumptionOf(readings, meter)
               == (if |effective| < 2 then None
                   else ConsumptionBetween(Some(effective[0]), Some(effective[|effective| - 1])))
  {
    hide Winner;
    var dates, effective := Dates(readings, meter), Effective(readings, meter);
    DatesMean(readings, meter);
    EffectiveAtMeans(readings, meter, dates);
    EndDaysMean(readings, meter);
    forall i | 0 <= i < |effective| ensures effective[i].meter == meter {
      WinnerOf(readings, meter, dates[i]);
    }
    EndDates(readings, meter, dates);
  }

  lemma EndDates(readings: seq<Reading>, meter: string, dates: seq<nat>)
    requires Ascending(dates) && forall d :: d in dates <==> Winner(readings, meter, d).Some?
    ensures if dates == [] then FirstDay(readings, meter).None? && LastDay(readings, meter).None?
            else FirstDay(readings, meter) == Some(dates[0]) && LastDay(readings, meter) == Some(dates[|dates| - 1])
  {
    hide Winner, FirstDay, LastDay;
    EndDaysMean(readings, meter);
    var first, last := FirstDay(readings, meter), LastDay(readings, meter);
    if dates != [] {
      assert dates[0] in dates && dates[|dates| - 1] in dates;
      var i :| 0 <= i < |dates| && dates[i] == first.value;
      var j :| 0 <= j < |dates| && dates[j] == last.value;
    }
  }

  lemma {:induction false} PairwiseMeter(effective: seq<Reading>, meter: string)
    requires forall i | 0 <= i < |effective| :: effective[i].meter == meter
    ensures forall i | 0 <= i < |Pairwise(effective)| :: Pairwise(effective)[i].meter == meter
  {
    if |effective| >= 2 {
      PairwiseMeter(effective[..|effective| - 1], meter);
    }
  }

  lemma OwnSpans(readings: seq<Reading>, device: string, meter: string)
    ensures Keep(Pairwise(Effective(readings, device)), OfMeter(meter))
         == if device == meter then Pairwise(Effective(readings, device)) else []
  {
    hide Effective, Pairwise;
    EffectiveMeans(readings, device);
    PairwiseMeter(Effective(readings, device), device);
    KeepAll(Pairwise(Effective(readings, device)), OfMeter(meter), device == meter);
  }

  lemma {:induction false} SpansOfMeter(readings: seq<Reading>, devices: seq<string>, meter: string)
    requires Distinct(devices)
    ensures Keep(SpansOf(readings, devices), OfMeter(meter))
         == if meter in devices then Pairwise(Effective(readings, meter)) else []
  {
    hide Effective, Pairwise;
    if devices != [] {
      var n := |devices| - 1;
      SpansOfMeter(readings, devices[..n], meter);
      OwnSpans(readings, devices[n], meter);
      KeepConcat(SpansOf(readings, devices[..n]), Pairwise(Effective(readings, devices[n])), OfMeter(meter));
      assert devices == devices[..n] + [devices[n]];
    }
  }

  /** Among all returned spans, those of a device are the pairs of its effective readings, in order. */
  lemma SpansOfDevice(readings: seq<Reading>, meter: string)
    requires SegmentationOf(readings, FirstSeen(readings)).Segmented?
    ensures var all := SegmentationOf(readings, FirstSeen(readings));
            Keep(all.spans, OfMeter(meter)) == if meter in all.devices then Pairwise(Effective(readings, meter)) else []
  {
    hide Effective, Pairwise, SegmentationOf, Keep, FirstSeen;
    SegmentationIs(readings, FirstSeen(readings));
    DistinctMeters(readings);
    KeepDistinct(FirstSeen(readings), IsDevice(readings));
    SpansOfMeter(readings, Keep(FirstSeen(readings), IsDevice(readings)), meter);
  }

  ghost predicate NoEstimates(spans: seq<Span>)
  {
    forall i | 0 <= i < |spans| :: spans[i].estimated.None?
  }

  /** Closing less opening, over all measured spans. */
  ghost function Measured(spans: seq<Span>): int
  {
    if spans == [] then 0
    else
      var last := spans[|spans| - 1];
      Measured(spans[..|spans| - 1])
      + (if last.opening.Some? && last.closing.Some? then last.closing.value - last.opening.value else 0)
  }

  lemma {:induction false} PairwiseLength(effective: seq<Reading>)
    ensures |Pairwise(effective)| == if effective == [] then 0 else |effective| - 1
  {
    if |effective| > 1 {
      PairwiseLength(effective[..|effective| - 1]);
    }
  }

  lemma LastSpan(effective: seq<Reading>)
    requires |effective| > 1
    ensures var spans, n := Pairwise(effective), |effective| - 1;
            && spans != [] && spans[..|spans| - 1] == Pairwise(effective[..n])
            && (NoEstimates(spans) ==>
                  && NoEstimates(Pairwise(effective[..n]))
                  && Measured(spans) == Measured(Pairwise(effective[..n]))
                       + effective[n].value - effective[n - 1].value)
  {
    var first := Pairwise(effective[..|effective| - 1]);
    var last := SpanOf(effective[|effective| - 2], effective[|effective| - 1]);
    var spans := Pairwise(effective);
    assert spans == first + [last] && spans[|spans| - 1] == last && spans[..|spans| - 1] == first;
    assert forall i | 0 <= i < |first| :: spans[i] == first[i];
  }

  lemma {:induction false} Telescope(effective: seq<Reading>)
    requires NoEstimates(Pairwise(effective)) && effective != []
    ensures Measured(Pairwise(effective)) == effective[|effective| - 1].value - effective[0].value
  {
    if |effective| > 1 {
      hide Pairwise, Measured, NoEstimates;
      LastSpan(effective);
      Telescope(effective[..|effective| - 1]);
    }
  }

  /**
   * What the two folds return agrees: a device without estimates in its returned spans has a
   * consumption exactly when it has a span and its spans do not add up to less than nothing; and
   * then the consumption is that sum.
   */
  lemma FoldsAgree(readings: seq<Reading>, meter: string)
    requires SegmentationOf(readings, FirstSeen(readings)).Segmented?
    requires meter in SegmentationOf(readings, FirstSeen(readings)).devices
    requires NoEstimates(Keep(SegmentationOf(readings, FirstSeen(readings)).spans, OfMeter(meter)))
    ensures var spans := Keep(SegmentationOf(readings, FirstSeen(readings)).spans, OfMeter(meter));
            && (ConsumptionOf(readings, meter).Some? <==> spans != [] && Measured(spans) >= 0)
            && (ConsumptionOf(readings, meter).Some? ==> ConsumptionOf(readings, meter).value.value == Measured(spans))
  {
    hide Effective, SegmentationOf, Keep, FirstSeen, Pairwise, ConsumptionOf, Measured, NoEstimates;
    SpansOfDevice(readings, meter);
    EffectiveMeans(readings, meter);
    PairwiseLength(Effective(readings, meter));
    if Effective(readings, meter) != [] {
      Telescope(Effective(readings, meter));
    }
  }

  // ---- The order of the input ---------------------------------------------------------------------------------

  /** No two readings of one meter and day were recorded at the same time. */
  ghost predicate DistinctRecording(readings: seq<Reading>)
  {
    forall r, s | r in readings && s in readings && r.meter == s.meter && r.readAt == s.readAt ::
      r.recordedAt == s.recordedAt ==> r == s
  }

  ghost predicate SameReadings(readings: seq<Reading>, other: seq<Reading>)
  {
    forall r :: r in readings <==> r in other
  }

  lemma {:induction false} WinnerMeans(readings: seq<Reading>, meter: string, date: nat)
    ensures match Winner(readings, meter, date)
      case Some(w) => w in readings && Of(w, meter, date)
                      && forall r | r in readings && Of(r, meter, date) :: r.recordedAt <= w.recordedAt
      case None => forall r | r in readings :: !Of(r, meter, date)
  {
    if readings != [] {
      var n := |readings| - 1;
      WinnerMeans(readings[..n], meter, date);
      forall r | r in readings ensures r == readings[n] || r in readings[..n] {
      }
    }
  }

  lemma SameWinner(readings: seq<Reading>, other: seq<Reading>, meter: string, date: nat)
    requires DistinctRecording(readings) && SameReadings(readings, other)
    ensures Winner(readings, meter, date) == Winner(other, meter, date)
  {
    WinnerMeans(readings, meter, date);
    WinnerMeans(other, meter, date);
  }

  lemma {:induction false} SameEffectiveAt(readings: seq<Reading>, other: seq<Reading>, meter: string, dates: seq<nat>)
    requires DistinctRecording(readings) && SameReadings(readings, other)
    ensures EffectiveAt(readings, meter, dates) == EffectiveAt(other, meter, dates)
  {
    if dates != [] {
      SameEffectiveAt(readings, other, meter, dates[..|dates| - 1]);
      SameWinner(readings, other, meter, dates[|dates| - 1]);
    }
  }

  /** Meter by meter, neither fold depends on the order or the repetition of the input. */
  lemma FoldsIgnoreOrder(readings: seq<Reading>, other: seq<Reading>, meter: string)
    requires DistinctRecording(readings) && SameReadings(readings, other)
    ensures Effective(readings, meter) == Effective(other, meter)
    ensures ConsumptionOf(readings, meter) == ConsumptionOf(other, meter)
  {
    hide Winner, SameReadings, ConsumptionOf;
    DatesMean(readings, meter);
    DatesMean(other, meter);
    forall d ensures Winner(readings, meter, d) == Winner(other, meter, d) {
      SameWinner(readings, other, meter, d);
    }
    forall d ensures d in Dates(readings, meter) <==> d in Dates(other, meter) {
      assert d in Dates(readings, meter) <==> Winner(readings, meter, d).Some?;
      assert d in Dates(other, meter) <==> Winner(other, meter, d).Some?;
    }
    AscendingUnique(Dates(readings, meter), Dates(other, meter));
    SameEffectiveAt(readings, other, meter, Dates(readings, meter));
    EffectiveMeans(readings, meter);
    EffectiveMeans(other, meter);
  }

  /** The first reading of `b` comes after some reading of `a`. */
  ghost predicate AppearsBefore(readings: seq<Reading>, a: string, b: string)
  {
    exists i, j :: 0 <= i < j < |readings| && readings[i].meter == a && FirstAt(readings, b, j)
  }

  ghost predicate FirstAt(readings: seq<Reading>, meter: string, j: nat)
  {
    j < |readings| && readings[j].meter == meter && forall k | 0 <= k < j :: readings[k].meter != meter
  }

  ghost predicate Appears(readings: seq<Reading>, meter: string)
  {
    exists i :: 0 <= i < |readings| && readings[i].meter == meter
  }

  lemma {:induction false} FirstSeenMembers(readings: seq<Reading>)
    ensures forall m :: m in FirstSeen(readings) <==> Appears(readings, m)
  {
    if readings != [] {
      var n := |readings| - 1;
      FirstSeenMembers(readings[..n]);
      forall m ensures m in FirstSeen(readings) <==> Appears(readings, m) {
        AppearsNext(readings[..n], readings[n], m);
        assert readings == readings[..n] + [readings[n]];
      }
    }
  }

  lemma AppearsNext(readings: seq<Reading>, r: Reading, m: string)
    ensures Appears(readings + [r], m) <==> Appears(readings, m) || r.meter == m
  {
    if i :| 0 <= i < |readings| && readings[i].meter == m {
      assert (readings + [r])[i].meter == m;
    }
    assert (readings + [r])[|readings|] == r;
  }

  lemma BeforeNext(readings: seq<Reading>, r: Reading, a: string, b: string)
    ensures AppearsBefore(readings + [r], a, b)
       <==> AppearsBefore(readings, a, b) || (Appears(readings, a) && r.meter == b && !Appears(readings, b))
  {
    var more := readings + [r];
    if i, j :| 0 <= i < j < |readings| && readings[i].meter == a && FirstAt(readings, b, j) {
      assert more[i].meter == a && FirstAt(more, b, j);
    }
    if Appears(readings, a) && r.meter == b && !Appears(readings, b) {
      var i :| 0 <= i < |readings| && readings[i].meter == a;
      assert more[i].meter == a && FirstAt(more, b, |readings|);
    }
    if i, j :| 0 <= i < j < |more| && more[i].meter == a && FirstAt(more, b, j) {
      assert readings[i].meter == a;
      assert forall k | 0 <= k < |readings| :: more[k] == readings[k];
      if j < |readings| {
        assert FirstAt(readings, b, j);
      }
    }
  }

  lemma {:induction false} FirstSeenPrecedes(readings: seq<Reading>, a: string, b: string)
    ensures Precedes(FirstSeen(readings), a, b) <==> AppearsBefore(readings, a, b)
  {
    if readings != [] {
      var n := |readings| - 1;
      FirstSeenPrecedes(readings[..n], a, b);
      FirstSeenMembers(readings[..n]);
      BeforeNext(readings[..n], readings[n], a, b);
      PrecedesNext(FirstSeen(readings[..n]), readings[n].meter, a, b);
      assert readings == readings[..n] + [readings[n]];
    }
  }

  /** The meters that pass a test, in their order of appearance, agree exactly when the order does. */
  lemma KeptAgreeIff(readings: seq<Reading>, other: seq<Reading>, p: string -> bool)
    requires SameReadings(readings, other)
    ensures Keep(FirstSeen(readings), p) == Keep(FirstSeen(other), p)
       <==> forall a, b | p(a) && p(b) :: AppearsBefore(readings, a, b) <==> AppearsBefore(other, a, b)
  {
    hide Precedes, AppearsBefore, Keep, FirstSeen, Distinct;
    var xs, ys := Keep(FirstSeen(readings), p), Keep(FirstSeen(other), p);
    forall a, b
      ensures Precedes(xs, a, b) <==> p(a) && p(b) && AppearsBefore(readings, a, b)
      ensures Precedes(ys, a, b) <==> p(a) && p(b) && AppearsBefore(other, a, b)
    {
      KeptPrecedes(readings, p, a, b);
      KeptPrecedes(other, p, a, b);
    }
    if forall a, b | p(a) && p(b) :: AppearsBefore(readings, a, b) <==> AppearsBefore(other, a, b) {
      KeptMembers(readings, other, p);
      SameOrder(xs, ys);
    }
  }

  lemma KeptPrecedes(readings: seq<Reading>, p: string -> bool, a: string, b: string)
    ensures Precedes(Keep(FirstSeen(readings), p), a, b) <==> p(a) && p(b) && AppearsBefore(readings, a, b)
  {
    hide Precedes, AppearsBefore, Keep, FirstSeen;
    KeepPrecedes(FirstSeen(readings), p, a, b);
    FirstSeenPrecedes(readings, a, b);
  }

  lemma KeptMembers(readings: seq<Reading>, other: seq<Reading>, p: string -> bool)
    requires SameReadings(readings, other)
    ensures Distinct(Keep(FirstSeen(readings), p)) && Distinct(Keep(FirstSeen(other), p))
    ensures forall m :: m in Keep(FirstSeen(readings), p) <==> p(m) && Appears(readings, m)
    ensures forall m :: m in Keep(FirstSeen(readings), p) <==> m in Keep(FirstSeen(other), p)
  {
    hide Keep, FirstSeen, Appears;
    DistinctMeters(readings);
    DistinctMeters(other);
    KeepDistinct(FirstSeen(readings), p);
    KeepDistinct(FirstSeen(other), p);
    KeepMembers(FirstSeen(readings), p);
    KeepMembers(FirstSeen(other), p);
    FirstSeenMembers(readings);
    FirstSeenMembers(other);
    forall m ensures Appears(readings, m) <==> Appears(other, m) {
      SameAppears(readings, other, m);
    }
  }

  lemma SameAppears(readings: seq<Reading>, other: seq<Reading>, m: string)
    requires SameReadings(readings, other)
    ensures Appears(readings, m) <==> Appears(other, m)
  {
    if i :| 0 <= i < |readings| && readings[i].meter == m {
      assert readings[i] in other;
      var j :| 0 <= j < |other| && other[j] == readings[i];
    }
    if i :| 0 <= i < |other| && other[i].meter == m {
      assert other[i] in readings;
      var j :| 0 <= j < |readings| && readings[j] == other[i];
    }
  }

  /** A meter is a device of the input only if it appears in it. */
  lemma DeviceAppears(readings: seq<Reading>, m: string)
    requires UnitHeat(Effective(readings, m))
    ensures Appears(readings, m)
  {
    FirstSeenMembers(readings);
    NoneYet(readings, m);
    DatesMean(readings, m);
    var dates := Dates(readings, m);
    NonEmptyMember(dates);
  }

  ghost predicate BadDevice(readings: seq<Reading>, m: string)
  {
    Bad(Effective(readings, m))
  }

  ghost predicate HeatDevice(readings: seq<Reading>, m: string)
  {
    UnitHeat(Effective(readings, m))
  }

  /** The segmentation is refused exactly when some unit heat meter carries no positive factor. */
  lemma BadFactorIff(readings: seq<Reading>)
    ensures SegmentationOf(readings, FirstSeen(readings)).BadFactor? <==> exists m :: BadDevice(readings, m)
  {
    hide Effective, SegmentationOf, Keep, FirstSeen, Appears;
    SegmentationIs(readings, FirstSeen(readings));
    KeepMembers(FirstSeen(readings), IsBad(readings));
    FirstSeenMembers(readings);
    var bad := Keep(FirstSeen(readings), IsBad(readings));
    if bad != [] {
      assert bad[0] in bad;
      assert BadDevice(readings, bad[0]);
    }
    if m :| BadDevice(readings, m) {
      DeviceAppears(readings, m);
      assert m in bad;
    }
  }

  /** `m` is the bad device that appears before every other one. */
  ghost predicate FirstBad(readings: seq<Reading>, m: string)
  {
    BadDevice(readings, m) && forall b | BadDevice(readings, b) && b != m :: AppearsBefore(readings, m, b)
  }

  lemma FirstBadIs(readings: seq<Reading>, m: string)
    requires SegmentationOf(readings, FirstSeen(readings)).BadFactor?
    ensures SegmentationOf(readings, FirstSeen(readings)).meter == m <==> FirstBad(readings, m)
  {
    hide Effective, SegmentationOf, Keep, FirstSeen, AppearsBefore, Precedes, Appears, Distinct;
    SegmentationIs(readings, FirstSeen(readings));
    var bad := Keep(FirstSeen(readings), IsBad(readings));
    KeptMembers(readings, readings, IsBad(readings));
    forall b | BadDevice(readings, b) ensures b in bad {
      DeviceAppears(readings, b);
    }
    forall b
      ensures Precedes(bad, m, b) <==> BadDevice(readings, m) && BadDevice(readings, b) && AppearsBefore(readings, m, b)
    {
      KeptPrecedes(readings, IsBad(readings), m, b);
    }
    HeadPrecedes(bad, m);
    assert bad[0] in bad;
  }

  /**
   * Two inputs of the same readings are segmented alike exactly when, without a bad factor, any two
   * devices first appear in the same order in both, and with one, the same bad device appears first.
   */
  lemma SegmentationsAgreeIff(readings: seq<Reading>, other: seq<Reading>)
    requires DistinctRecording(readings) && SameReadings(readings, other)
    ensures SegmentationOf(readings, FirstSeen(readings)) == SegmentationOf(other, FirstSeen(other)) <==>
      if exists m :: BadDevice(readings, m) then exists m :: FirstBad(readings, m) && FirstBad(other, m)
      else forall a, b | HeatDevice(readings, a) && HeatDevice(readings, b) ::
             AppearsBefore(readings, a, b) <==> AppearsBefore(other, a, b)
  {
    hide Effective, SegmentationOf, Keep, FirstSeen, AppearsBefore, FirstBad, Bad, UnitHeat;
    forall m ensures Effective(readings, m) == Effective(other, m) {
      FoldsIgnoreOrder(readings, other, m);
    }
    BadFactorIff(readings);
    BadFactorIff(other);
    var here, there := SegmentationOf(readings, FirstSeen(readings)), SegmentationOf(other, FirstSeen(other));
    if exists m :: BadDevice(readings, m) {
      var m :| BadDevice(readings, m);
      assert BadDevice(other, m);
      forall b ensures (here.meter == b <==> FirstBad(readings, b)) && (there.meter == b <==> FirstBad(other, b)) {
        FirstBadIs(readings, b);
        FirstBadIs(other, b);
      }
      assert here == BadFactor(here.meter) && there == BadFactor(there.meter);
      assert FirstBad(readings, here.meter) && FirstBad(other, there.meter);
    } else {
      forall m ensures !BadDevice(other, m) {
        assert !BadDevice(readings, m);
      }
      GoodAgreeIff(readings, other);
    }
  }

  lemma GoodAgreeIff(readings: seq<Reading>, other: seq<Reading>)
    requires DistinctRecording(readings) && SameReadings(readings, other)
    requires SegmentationOf(readings, FirstSeen(readings)).Segmented?
             && SegmentationOf(other, FirstSeen(other)).Segmented?
    ensures SegmentationOf(readings, FirstSeen(readings)) == SegmentationOf(other, FirstSeen(other)) <==>
      forall a, b | HeatDevice(readings, a) && HeatDevice(readings, b) ::
        AppearsBefore(readings, a, b) <==> AppearsBefore(other, a, b)
  {
    hide Effective, SegmentationOf, Keep, FirstSeen, AppearsBefore, UnitHeat, Pairwise;
    forall m ensures Effective(readings, m) == Effective(other, m) {
      FoldsIgnoreOrder(readings, other, m);
    }
    SegmentationIs(readings, FirstSeen(readings));
    SegmentationIs(other, FirstSeen(other));
    KeptAgreeIff(readings, other, IsDevice(readings));
    KeepAgrees(FirstSeen(other), IsDevice(readings), IsDevice(other));
    SpansAgree(readings, other, Keep(FirstSeen(readings), IsDevice(readings)));
  }

  lemma {:induction false} SpansAgree(readings: seq<Reading>, other: seq<Reading>, devices: seq<string>)
    requires forall m :: Effective(readings, m) == Effective(other, m)
    ensures SpansOf(readings, devices) == SpansOf(other, devices)
  {
    hide Effective, Pairwise;
    if devices != [] {
      SpansAgree(readings, other, devices[..|devices| - 1]);
    }
  }

  /** And the order can differ: two single readings of two devices, handed over either way. */
  lemma DeviceOrderFollowsInput(a: Reading, b: Reading)
    requires a.meter != b.meter && UnitHeat([a]) && UnitHeat([b]) && a.device.factor > 0 && b.device.factor > 0
    ensures SegmentationOf([a, b], FirstSeen([a, b])) != SegmentationOf([b, a], FirstSeen([b, a]))
  {
    hide Effective, SegmentationOf, FirstSeen;
    forall r, s | r in [a, b] && s in [a, b] && r.meter == s.meter ensures r == s {
    }
    OnlyReading([a, b], a);
    OnlyReading([a, b], b);
    NobodyBad(a, b);
    SegmentationsAgreeIff([a, b], [b, a]);
    assert HeatDevice([a, b], a.meter) && HeatDevice([a, b], b.meter);
    assert [a, b][0] == a && FirstAt([a, b], b.meter, 1);
    assert AppearsBefore([a, b], a.meter, b.meter);
    assert !AppearsBefore([b, a], a.meter, b.meter);
  }

  lemma NobodyBad(a: Reading, b: Reading)
    requires a.meter != b.meter && Effective([a, b], a.meter) == [a] && Effective([a, b], b.meter) == [b]
    requires a.device.factor > 0 && b.device.factor > 0
    ensures forall m :: !BadDevice([a, b], m)
  {
    hide Effective;
    forall m ensures !BadDevice([a, b], m) {
      if UnitHeat(Effective([a, b], m)) {
        DeviceAppears([a, b], m);
        assert m == a.meter || m == b.meter;
      }
    }
  }

  lemma OnlyReading(readings: seq<Reading>, r: Reading)
    requires r in readings && forall s | s in readings && s.meter == r.meter :: s == r
    ensures Effective(readings, r.meter) == [r]
  {
    hide Winner, Dates;
    DatesMean(readings, r.meter);
    forall d ensures Winner(readings, r.meter, d) == if d == r.readAt then Some(r) else None {
      WinnerMeans(readings, r.meter, d);
    }
    AscendingUnique(Dates(readings, r.meter), [r.readAt]);
    EffectiveAtMeans(readings, r.meter, [r.readAt]);
  }
}
