/**
 * Half-open day ranges: subtraction piece by piece, and the canonical list that a set of days has.
 * A day is its number in the calendar.
 */
module DaySpans {

  datatype Span = Span(from: int, to: int)
  {
    predicate Holds(day: int) { from <= day < to }
    predicate NonEmpty() { from < to }
  }

  predicate Covered(day: int, spans: seq<Span>)
  {
    exists i :: 0 <= i < |spans| && spans[i].Holds(day)
  }

  /** Non-empty, ascending, and at least one day apart. */
  ghost predicate Canonical(spans: seq<Span>)
  {
    && (forall i | 0 <= i < |spans| :: spans[i].NonEmpty())
    && forall i, j | 0 <= i < j < |spans| :: spans[i].to < spans[j].from
  }

  // ---- Subtraction ----------------------------------------------------------------------------------

  /** What a cover leaves of one piece: nothing, the whole, or one or two ends. */
  function Cut(piece: Span, cover: Span): seq<Span>
  {
    if cover.to <= piece.from || cover.from >= piece.to then [piece]
    else
      (if piece.from < cover.from then [Span(piece.from, cover.from)] else [])
      + (if cover.to < piece.to then [Span(cover.to, piece.to)] else [])
  }

  function CutAll(pieces: seq<Span>, cover: Span): seq<Span>
  {
    if pieces == [] then [] else CutAll(pieces[..|pieces| - 1], cover) + Cut(pieces[|pieces| - 1], cover)
  }

  function Subtracted(gap: Span, covers: seq<Span>): seq<Span>
  {
    if covers == [] then [gap] else CutAll(Subtracted(gap, covers[..|covers| - 1]), covers[|covers| - 1])
  }

  method CutPieces(pieces: seq<Span>, cover: Span) returns (remaining: seq<Span>)
    ensures remaining == CutAll(pieces, cover)
  {
    remaining := [];
    var j := 0;
    assert pieces[..0] == [];
    while j < |pieces|
      invariant 0 <= j <= |pieces|
      invariant remaining == CutAll(pieces[..j], cover)
    {
      assert pieces[..j + 1][..j] == pieces[..j];
      var piece, before := pieces[j], remaining;
      if cover.to <= piece.from || cover.from >= piece.to {
        remaining := remaining + [piece];
      } else {
        if piece.from < cover.from {
          remaining := remaining + [Span(piece.from, cover.from)];
        }
        if cover.to < piece.to {
          remaining := remaining + [Span(cover.to, piece.to)];
        }
      }
      assert remaining == before + Cut(piece, cover);
      j := j + 1;
    }
    assert pieces[..j] == pieces;
  }

  method Subtract(gap: Span, covers: seq<Span>) returns (pieces: seq<Span>)
    ensures pieces == Subtracted(gap, covers)
  {
    pieces := [gap];
    var i := 0;
    assert covers[..0] == [];
    while i < |covers|
      invariant 0 <= i <= |covers|
      invariant pieces == Subtracted(gap, covers[..i])
    {
      assert covers[..i + 1][..i] == covers[..i];
      pieces := CutPieces(pieces, covers[i]);
      i := i + 1;
    }
    assert covers[..i] == covers;
  }

  lemma CoveredConcat(day: int, xs: seq<Span>, ys: seq<Span>)
    ensures Covered(day, xs + ys) <==> Covered(day, xs) || Covered(day, ys)
  {
    if i :| 0 <= i < |xs| && xs[i].Holds(day) {
      assert (xs + ys)[i].Holds(day);
    }
    if i :| 0 <= i < |ys| && ys[i].Holds(day) {
      assert (xs + ys)[|xs| + i].Holds(day);
    }
  }

  lemma CutDays(piece: Span, cover: Span, day: int)
    requires cover.NonEmpty()
    ensures Covered(day, Cut(piece, cover)) <==> piece.Holds(day) && !cover.Holds(day)
  {
    var left := if piece.from < cover.from then [Span(piece.from, cover.from)] else [];
    var right := if cover.to < piece.to then [Span(cover.to, piece.to)] else [];
    CoveredConcat(day, left, right);
    assert Covered(day, [piece]) <==> piece.Holds(day) by {
      assert [piece][0] == piece;
    }
    if left != [] {
      assert left[0].Holds(day) ==> Covered(day, left);
    }
    if right != [] {
      assert right[0].Holds(day) ==> Covered(day, right);
    }
  }

  lemma {:induction false} CutAllDays(pieces: seq<Span>, cover: Span, day: int)
    requires cover.NonEmpty()
    ensures Covered(day, CutAll(pieces, cover)) <==> Covered(day, pieces) && !cover.Holds(day)
  {
    if pieces != [] {
      var n := |pieces| - 1;
      CutAllDays(pieces[..n], cover, day);
      CutDays(pieces[n], cover, day);
      CoveredConcat(day, CutAll(pieces[..n], cover), Cut(pieces[n], cover));
      assert pieces == pieces[..n] + [pieces[n]];
      CoveredConcat(day, pieces[..n], [pieces[n]]);
      assert [pieces[n]][0] == pieces[n];
    }
  }

  ghost predicate AllNonEmpty(spans: seq<Span>)
  {
    forall i | 0 <= i < |spans| :: spans[i].NonEmpty()
  }

  /** The pieces hold exactly the days of the gap that no cover holds. */
  lemma {:induction false} SubtractExact(gap: Span, covers: seq<Span>, day: int)
    requires AllNonEmpty(covers)
    ensures Covered(day, Subtracted(gap, covers)) <==> gap.Holds(day) && !Covered(day, covers)
  {
    if covers == [] {
      assert Subtracted(gap, covers)[0] == gap;
    } else {
      var n := |covers| - 1;
      SubtractExact(gap, covers[..n], day);
      CutAllDays(Subtracted(gap, covers[..n]), covers[n], day);
      assert covers == covers[..n] + [covers[n]];
      CoveredConcat(day, covers[..n], [covers[n]]);
      assert [covers[n]][0] == covers[n];
    }
  }

  /** All spans lie between two days. */
  ghost predicate Within(spans: seq<Span>, low: int, high: int)
  {
    forall i | 0 <= i < |spans| :: low <= spans[i].from && spans[i].to <= high
  }

  lemma CutBounds(piece: Span, cover: Span)
    requires piece.NonEmpty() && cover.NonEmpty()
    ensures Canonical(Cut(piece, cover)) && Within(Cut(piece, cover), piece.from, piece.to)
  {
  }

  lemma AppendCanonical(xs: seq<Span>, ys: seq<Span>, low: int, middle: int, high: int)
    requires Canonical(xs) && Canonical(ys) && Within(xs, low, middle) && Within(ys, middle + 1, high)
    requires low <= middle < high
    ensures Canonical(xs + ys) && Within(xs + ys, low, high)
  {
    var zs := xs + ys;
    forall i | 0 <= i < |zs| ensures zs[i].NonEmpty() && low <= zs[i].from && zs[i].to <= high {
      assert zs[i] == if i < |xs| then xs[i] else ys[i - |xs|];
    }
    forall i, j | 0 <= i < j < |zs| ensures zs[i].to < zs[j].from {
      assert zs[i] == if i < |xs| then xs[i] else ys[i - |xs|];
      assert zs[j] == if j < |xs| then xs[j] else ys[j - |xs|];
    }
  }

  lemma {:induction false} CutAllBounds(pieces: seq<Span>, cover: Span, low: int, high: int)
    requires Canonical(pieces) && cover.NonEmpty() && Within(pieces, low, high) && low <= high
    ensures Canonical(CutAll(pieces, cover)) && Within(CutAll(pieces, cover), low, high)
  {
    if pieces != [] {
      var n := |pieces| - 1;
      CutBounds(pieces[n], cover);
      if n == 0 {
        assert pieces[..n] == [];
        assert CutAll(pieces, cover) == [] + Cut(pieces[0], cover) == Cut(pieces[0], cover);
      } else {
        assert pieces[0].NonEmpty() && pieces[0].to < pieces[n].from;
        assert forall i | 0 <= i < n :: pieces[..n][i] == pieces[i] && pieces[i].to < pieces[n].from;
        CutAllBounds(pieces[..n], cover, low, pieces[n].from - 1);
        AppendCanonical(CutAll(pieces[..n], cover), Cut(pieces[n], cover), low, pieces[n].from - 1, high);
      }
    }
  }

  /** And they are ordered, non-empty and at least a day apart. */
  lemma {:induction false} SubtractCanonical(gap: Span, covers: seq<Span>)
    requires gap.NonEmpty() && AllNonEmpty(covers)
    ensures Canonical(Subtracted(gap, covers)) && Within(Subtracted(gap, covers), gap.from, gap.to)
  {
    if covers != [] {
      var n := |covers| - 1;
      SubtractCanonical(gap, covers[..n]);
      CutAllBounds(Subtracted(gap, covers[..n]), covers[n], gap.from, gap.to);
    }
  }

  // ---- One list for one set of days --------------------------------------------------------------------

  ghost predicate SameDays(xs: seq<Span>, ys: seq<Span>)
  {
    forall day :: Covered(day, xs) <==> Covered(day, ys)
  }

  lemma FirstDay(xs: seq<Span>)
    requires Canonical(xs) && xs != []
    ensures Covered(xs[0].from, xs) && !Covered(xs[0].to, xs)
    ensures forall day :: Covered(day, xs) ==> xs[0].from <= day
    ensures forall day :: Covered(day, xs[1..]) <==> Covered(day, xs) && day >= xs[0].to
  {
    assert xs[0].Holds(xs[0].from);
    forall day ensures Covered(day, xs[1..]) <==> Covered(day, xs) && day >= xs[0].to {
      if i :| 0 <= i < |xs| && xs[i].Holds(day) {
        if day >= xs[0].to {
          assert xs[1..][i - 1].Holds(day);
        }
      }
      if i :| 0 <= i < |xs[1..]| && xs[1..][i].Holds(day) {
        assert xs[i + 1].Holds(day);
      }
    }
  }

  lemma HoldsCovered(spans: seq<Span>, i: nat, day: int)
    requires i < |spans|
    ensures spans[i].Holds(day) ==> Covered(day, spans)
  {
  }

  lemma FirstsAgree(xs: seq<Span>, ys: seq<Span>)
    requires Canonical(xs) && Canonical(ys) && SameDays(xs, ys) && xs != [] && ys != []
    ensures xs[0] == ys[0]
  {
    FirstDay(xs);
    FirstDay(ys);
    assert Covered(ys[0].from, xs) && Covered(xs[0].from, ys);
    HoldsCovered(ys, 0, xs[0].to);
    HoldsCovered(xs, 0, ys[0].to);
  }

  /** A set of days has only one canonical list. */
  lemma {:induction false} CanonicalUnique(xs: seq<Span>, ys: seq<Span>)
    requires Canonical(xs) && Canonical(ys) && SameDays(xs, ys)
    ensures xs == ys
  {
    if xs == [] {
      if ys != [] {
        FirstDay(ys);
      }
    } else {
      FirstDay(xs);
      assert Covered(xs[0].from, ys);
      FirstsAgree(xs, ys);
      FirstDay(ys);
      CanonicalUnique(xs[1..], ys[1..]);
      assert xs == [xs[0]] + xs[1..] && ys == [ys[0]] + ys[1..];
    }
  }

  /** The result depends on the covered days alone: no order, repetition or overlap of covers shows. */
  lemma SubtractIgnoresOrder(gap: Span, covers: seq<Span>, other: seq<Span>)
    requires gap.NonEmpty() && AllNonEmpty(covers) && AllNonEmpty(other) && SameDays(covers, other)
    ensures Subtracted(gap, covers) == Subtracted(gap, other)
  {
    SubtractCanonical(gap, covers);
    SubtractCanonical(gap, other);
    forall day ensures Covered(day, Subtracted(gap, covers)) <==> Covered(day, Subtracted(gap, other)) {
      SubtractExact(gap, covers, day);
      SubtractExact(gap, other, day);
    }
    CanonicalUnique(Subtracted(gap, covers), Subtracted(gap, other));
  }
}
