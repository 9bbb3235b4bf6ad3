/**
 * What the two folds over meter readings return, in terms of the readings alone: which reading counts, what
 * a meter consumed, which meters are devices, and what their spans say.
 */
module MeterRows {
  import opened Lists
  import opened Rows
  import opened MeterFolds

  // ---- Which reading counts ------------------------------------------------------------------------------------

  /** Of the readings of one meter and day the one recorded last; of two recorded together the later one. */
  ghost predicate Counts(readings: seq<Reading>, meter: string, date: nat, w: Reading)
  {
    exists i :: 0 <= i < |readings| && readings[i] == w && w.meter == meter && w.readAt == date
                && forall j | 0 <= j < |readings| && readings[j].meter == meter && readings[j].readAt == date ::
                     readings[j].recordedAt < w.recordedAt || (readings[j].recordedAt == w.recordedAt && j <= i)
  }

  /** The meter was read on the day. */
  ghost predicate ReadOn(readings: seq<Reading>, meter: string, date: nat)
  {
    exists i :: 0 <= i < |readings| && readings[i].meter == meter && readings[i].readAt == date
  }

  lemma {:induction false} WinnerCounts(readings: seq<Reading>, meter: string, date: nat)
    ensures match Winner(readings, meter, date)
      case Some(w) => Counts(readings, meter, date, w)
      case None => !ReadOn(readings, meter, date)
  {
    if readings != [] {
      var n := |readings| - 1;
      var before := Winner(readings[..n], meter, date);
      WinnerCounts(readings[..n], meter, date);
      if Of(readings[n], meter, date) && (before.None? || readings[n].recordedAt >= before.value.recordedAt) {
        LastCounts(readings, meter, date);
      } else if before.Some? {
        StillCounts(readings, meter, date, before.value);
      } else {
        StillUnread(readings, meter, date);
      }
    }
  }

  lemma StillUnread(readings: seq<Reading>, meter: string, date: nat)
    requires readings != [] && !ReadOn(readings[..|readings| - 1], meter, date)
    requires !Of(readings[|readings| - 1], meter, date)
    ensures !ReadOn(readings, meter, date)
  {
    var n := |readings| - 1;
    forall i | 0 <= i < n ensures !(readings[i].meter == meter && readings[i].readAt == date) {
      assert readings[..n][i] == readings[i];
    }
  }

  lemma LastCounts(readings: seq<Reading>, meter: string, date: nat)
    requires readings != [] && Of(readings[|readings| - 1], meter, date)
    requires match Winner(readings[..|readings| - 1], meter, date)
             case Some(w) => Counts(readings[..|readings| - 1], meter, date, w)
                             && readings[|readings| - 1].recordedAt >= w.recordedAt
             case None => !ReadOn(readings[..|readings| - 1], meter, date)
    ensures Counts(readings, meter, date, readings[|readings| - 1])
  {
    var n := |readings| - 1;
    forall j | 0 <= j < n && readings[j].meter == meter && readings[j].readAt == date
      ensures readings[j].recordedAt <= readings[n].recordedAt
    {
      assert readings[..n][j] == readings[j];
    }
  }

  lemma StillCounts(readings: seq<Reading>, meter: string, date: nat, w: Reading)
    requires readings != [] && Counts(readings[..|readings| - 1], meter, date, w)
    requires !(Of(readings[|readings| - 1], meter, date) && readings[|readings| - 1].recordedAt >= w.recordedAt)
    ensures Counts(readings, meter, date, w)
  {
    var first := readings[..|readings| - 1];
    var i :| 0 <= i < |first| && first[i] == w && w.meter == meter && w.readAt == date
             && forall j | 0 <= j < |first| && first[j].meter == meter && first[j].readAt == date ::
                  first[j].recordedAt < w.recordedAt || (first[j].recordedAt == w.recordedAt && j <= i);
    assert readings[i] == w;
    forall j | 0 <= j < |readings| && readings[j].meter == meter && readings[j].readAt == date
      ensures readings[j].recordedAt < w.recordedAt || (readings[j].recordedAt == w.recordedAt && j <= i)
    {
      assert j < |first| ==> first[j] == readings[j];
    }
  }

  lemma CountsRead(readings: seq<Reading>, meter: string, date: nat, w: Reading)
    requires Counts(readings, meter, date, w)
    ensures ReadOn(readings, meter, date) && w.meter == meter && w.readAt == date
  {
  }

  lemma CountsOnce(readings: seq<Reading>, meter: string, date: nat, v: Reading, w: Reading)
    requires Counts(readings, meter, date, v) && Counts(readings, meter, date, w)
    ensures v == w
  {
  }

  /** The effective readings of a meter: one for each day on which it was read, in the order of the days. */
  ghost predicate EffectiveOf(readings: seq<Reading>, meter: string, effective: seq<Reading>)
  {
    && (forall i, j | 0 <= i < j < |effective| :: effective[i].readAt < effective[j].readAt)
    && (forall i | 0 <= i < |effective| :: Counts(readings, meter, effective[i].readAt, effective[i]))
    && forall date: nat | ReadOn(readings, meter, date) ::
         exists i :: 0 <= i < |effective| && effective[i].readAt == date
  }

  lemma EffectiveIs(readings: seq<Reading>, meter: string)
    ensures EffectiveOf(readings, meter, Effective(readings, meter))
  {
    hide Winner, Counts, ReadOn;
    var dates, effective := Dates(readings, meter), Effective(readings, meter);
    DatesMean(readings, meter);
    EffectiveAtMeans(readings, meter, dates);
    forall i | 0 <= i < |effective|
      ensures Counts(readings, meter, effective[i].readAt, effective[i]) && effective[i].readAt == dates[i]
    {
      WinnerCounts(readings, meter, dates[i]);
      CountsRead(readings, meter, dates[i], effective[i]);
    }
    forall date: nat | ReadOn(readings, meter, date)
      ensures exists i :: 0 <= i < |effective| && effective[i].readAt == date
    {
      WinnerCounts(readings, meter, date);
      var i :| 0 <= i < |dates| && dates[i] == date;
      assert effective[i].readAt == date;
    }
  }

  // ---- What a meter consumed -------------------------------------------------------------------------------------

  ghost predicate FirstRead(readings: seq<Reading>, meter: string, w: Reading)
  {
    Counts(readings, meter, w.readAt, w) && forall date: nat | ReadOn(readings, meter, date) :: w.readAt <= date
  }

  ghost predicate LastRead(readings: seq<Reading>, meter: string, w: Reading)
  {
    Counts(readings, meter, w.readAt, w) && forall date: nat | ReadOn(readings, meter, date) :: date <= w.readAt
  }

  lemma EndsAreEffective(readings: seq<Reading>, meter: string, effective: seq<Reading>, w: Reading)
    requires EffectiveOf(readings, meter, effective)
    ensures FirstRead(readings, meter, w) <==> effective != [] && effective[0] == w
    ensures LastRead(readings, meter, w) <==> effective != [] && effective[|effective| - 1] == w
  {
    hide Counts, ReadOn;
    forall i | 0 <= i < |effective| ensures ReadOn(readings, meter, effective[i].readAt) {
      CountsRead(readings, meter, effective[i].readAt, effective[i]);
    }
    if Counts(readings, meter, w.readAt, w) {
      CountsRead(readings, meter, w.readAt, w);
      var i :| 0 <= i < |effective| && effective[i].readAt == w.readAt;
      CountsOnce(readings, meter, w.readAt, w, effective[i]);
    }
    forall date: nat | ReadOn(readings, meter, date) && effective != []
      ensures effective[0].readAt <= date <= effective[|effective| - 1].readAt
    {
      var i :| 0 <= i < |effective| && effective[i].readAt == date;
    }
  }

  /**
   * A meter's consumption is the value that counts on its last day less the one that counts on its first,
   * if those are two days and the register did not run backwards; otherwise there is none.
   */
  lemma ConsumptionIs(readings: seq<Reading>, meter: string, c: Consumption)
    ensures ConsumptionOf(readings, meter) == Some(c) <==>
      && FirstRead(readings, meter, c.opening) && LastRead(readings, meter, c.closing)
      && c.opening.readAt < c.closing.readAt
      && c.value == c.closing.value - c.opening.value && c.value >= 0
  {
    hide FirstRead, LastRead, ConsumptionOf;
    var effective := Effective(readings, meter);
    EffectiveIs(readings, meter);
    EffectiveMeans(readings, meter);
    EndsAreEffective(readings, meter, effective, c.opening);
    EndsAreEffective(readings, meter, effective, c.closing);
  }

  // ---- Devices and spans -------------------------------------------------------------------------------------------

  /** The newest reading that counts is one of a heat meter with a unit. */
  ghost predicate HeatsUnit(readings: seq<Reading>, m: string)
  {
    exists w :: LastRead(readings, m, w) && w.device.heat && w.device.unit.Some?
  }

  /** And it carries no positive factor. */
  ghost predicate WithoutFactor(readings: seq<Reading>, m: string)
  {
    exists w :: LastRead(readings, m, w) && w.device.heat && w.device.unit.Some? && w.device.factor <= 0
  }

  lemma DeviceIs(readings: seq<Reading>, m: string)
    ensures HeatDevice(readings, m) <==> HeatsUnit(readings, m)
    ensures BadDevice(readings, m) <==> WithoutFactor(readings, m)
  {
    hide LastRead, FirstRead;
    var effective := Effective(readings, m);
    EffectiveIs(readings, m);
    forall w ensures LastRead(readings, m, w) <==> effective != [] && effective[|effective| - 1] == w {
      EndsAreEffective(readings, m, effective, w);
    }
  }

  /**
   * The segmentation is refused exactly when some heat meter of a unit has no positive factor, and it names
   * the first of those to appear; otherwise its devices are the heat meters of units, in the order in which
   * they first appear.
   */
  lemma SegmentationAnswers(readings: seq<Reading>)
    ensures var answer := SegmentationOf(readings, FirstSeen(readings));
            answer.BadFactor? ==>
              && WithoutFactor(readings, answer.meter)
              && forall b | WithoutFactor(readings, b) && b != answer.meter :: AppearsBefore(readings, answer.meter, b)
    ensures var answer := SegmentationOf(readings, FirstSeen(readings));
            answer.Segmented? ==>
              && (forall b :: !WithoutFactor(readings, b)) && Distinct(answer.devices)
              && (forall a :: a in answer.devices <==> HeatsUnit(readings, a))
              && forall a, b :: Precedes(answer.devices, a, b)
                                <==> HeatsUnit(readings, a) && HeatsUnit(readings, b) && AppearsBefore(readings, a, b)
  {
    hide SegmentationOf, FirstSeen, AppearsBefore, Precedes, Keep, HeatsUnit, WithoutFactor, BadDevice, Effective;
    hide Distinct, Appears;
    forall a
      ensures HeatDevice(readings, a) <==> HeatsUnit(readings, a)
      ensures BadDevice(readings, a) <==> WithoutFactor(readings, a)
    {
      DeviceIs(readings, a);
    }
    BadFactorIff(readings);
    SegmentationIs(readings, FirstSeen(readings));
    var answer := SegmentationOf(readings, FirstSeen(readings));
    if answer.BadFactor? {
      FirstBadIs(readings, answer.meter);
    } else {
      KeptMembers(readings, readings, IsDevice(readings));
      forall a ensures a in answer.devices <==> HeatsUnit(readings, a) {
        if HeatDevice(readings, a) {
          DeviceAppears(readings, a);
        }
      }
      forall a, b
        ensures Precedes(answer.devices, a, b)
           <==> HeatsUnit(readings, a) && HeatsUnit(readings, b) && AppearsBefore(readings, a, b)
      {
        KeptPrecedes(readings, IsDevice(readings), a, b);
      }
    }
  }

  /** A span between two readings: whom it concerns, and either its register values or an estimate. */
  ghost predicate Spans(opening: Reading, closing: Reading, s: Span)
  {
    && s.meter == closing.meter
    && (s.allocation == Party <==> closing.device.tenancy.Some?)
    && (s.allocation == Owner <==> closing.device.tenancy.None? && closing.device.tenantChange)
    && s.estimated == closing.device.estimated
    && (if closing.device.estimated.Some? then s.opening.None? && s.closing.None?
        else s.opening == Some(opening.value) && s.closing == Some(closing.value))
  }

  lemma {:induction false} PairwiseSpans(effective: seq<Reading>)
    ensures |Pairwise(effective)| == if effective == [] then 0 else |effective| - 1
    ensures forall k | 0 <= k < |Pairwise(effective)| :: Spans(effective[k], effective[k + 1], Pairwise(effective)[k])
  {
    if |effective| >= 2 {
      var n := |effective| - 1;
      PairwiseSpans(effective[..n]);
      assert forall k | 0 <= k < n :: effective[..n][k] == effective[k];
    }
  }

  /** The returned spans of a device run between its neighbouring effective readings. */
  lemma DeviceSpansAre(readings: seq<Reading>, m: string)
    requires SegmentationOf(readings, FirstSeen(readings)).Segmented?
    requires m in SegmentationOf(readings, FirstSeen(readings)).devices
    ensures exists effective ::
      && EffectiveOf(readings, m, effective)
      && var own := Keep(SegmentationOf(readings, FirstSeen(readings)).spans, OfMeter(m));
         && |own| + 1 == |effective|
         && forall k | 0 <= k < |own| :: Spans(effective[k], effective[k + 1], own[k])
  {
    hide SegmentationOf, FirstSeen, Effective, EffectiveOf, Spans, Keep, Pairwise, HeatsUnit, WithoutFactor, Precedes;
    SpansOfDevice(readings, m);
    EffectiveIs(readings, m);
    PairwiseSpans(Effective(readings, m));
    SegmentationAnswers(readings);
    DeviceIs(readings, m);
    SomeEffective(readings, m);
  }

  lemma SomeEffective(readings: seq<Reading>, m: string)
    ensures HeatDevice(readings, m) ==> Effective(readings, m) != []
  {
    hide Effective;
  }
}
