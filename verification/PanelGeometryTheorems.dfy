/**
 What every panel geometry guarantees: nothing overlaps and everything is inside
 the padding, with the one exception of the horizontal mode label, whose exact
 condition is given; and when an incremental update equals full recomputation.
 */
module PanelGeometryTheorems {
  import opened Common
  import opened CandidateText
  import opened PanelLayoutCache
  import opened PanelGeometry

  /** Text metrics are never negative. */
  ghost predicate NonNegative(sh: Shaper) {
    forall t: string, f: string :: sh.measure(t, f).w >= 0.0 && sh.measure(t, f).h >= 0.0
  }

  predicate RowSized(r: Row) {
    && r.size.captionW >= 0 && r.size.captionH >= 0 && r.size.textW >= 0 && r.size.textH >= 0
    && r.box.w == r.size.captionW + LABEL_GAP + r.size.textW + ROW_PAD_X * 2
    && r.box.h == Max(r.size.captionH, r.size.textH) + ROW_PAD_Y * 2
  }

  ghost predicate Sized(g: Geometry) {
    && (forall i :: 0 <= i < |g.rows| ==> RowSized(g.rows[i]))
    && g.aux.preW >= 0 && g.aux.preH >= 0 && g.aux.modeW >= 0 && g.aux.modeH >= 0
    && (g.aux.preedit == "" ==> g.aux.preW == g.aux.preH == 0)
  }

  lemma RowOfSized(sh: Shaper, c: Candidate, i: nat, config: Config, scale: real)
    requires NonNegative(sh)
    ensures RowSized(RowOf(sh, c, i, config, scale))
  {
    var id := RowIdentity(c, i, Font(sh, config.captionFont, scale), Font(sh, config.font, scale));
    var m, n := sh.measure(id.caption, id.captionFont), sh.measure(id.text, id.font);
    assert m.w >= 0.0 && m.h >= 0.0 && n.w >= 0.0 && n.h >= 0.0;
  }

  lemma UnarrangedSized(sh: Shaper, inp: Input)
    requires NonNegative(sh)
    ensures Sized(Unarranged(sh, inp))
  {
    var scale := UsableScale(inp.scale);
    forall i | 0 <= i < |inp.cands|
      ensures RowSized(RowOf(sh, inp.cands[i], i, inp.config, scale))
    {
      RowOfSized(sh, inp.cands[i], i, inp.config, scale);
    }
    Positive(0.0, scale);
  }

  // ---------------------------------------------------------------- what is promised

  /** Vertical extent `[top, top + h)` of `a` ends before `b` begins, or the like sideways. */
  predicate Above(a: Row, b: Row) {
    a.box.y + a.box.h <= b.box.y
  }

  predicate LeftOf(a: Row, b: Row) {
    a.box.x + a.box.w <= b.box.x
  }

  predicate InsidePadding(r: Row, f: Frame) {
    && PAD_X <= r.box.x && r.box.x + r.box.w <= f.panelW - PAD_X
    && PAD_Y <= r.box.y && r.box.y + r.box.h <= f.panelH - PAD_Y
  }

  predicate Stacked(rows: seq<Row>) {
    forall i, j :: 0 <= i < j < |rows| ==> Above(rows[i], rows[j])
  }

  predicate SideBySide(rows: seq<Row>) {
    forall i, j :: 0 <= i < j < |rows| ==> LeftOf(rows[i], rows[j])
  }

  /** Caption and text lie side by side within the row, a gap apart, and the text also within its height. */
  predicate TextInside(r: Row) {
    && (r.box.x + ROW_PAD_X) as real <= r.at.captionX
    && r.at.captionX + r.size.captionW as real + LABEL_GAP as real <= r.at.textX
    && r.at.textX + r.size.textW as real <= (r.box.x + r.box.w) as real
    && (r.box.y + ROW_PAD_Y) as real <= r.at.textY
    && r.at.textY + r.size.textH as real <= (r.box.y + r.box.h - ROW_PAD_Y) as real
    && r.at.captionY + r.size.captionInk == r.at.textY + r.size.textInk
  }

  /** The preedit is inside the padding and above every row. */
  ghost predicate PreeditFits(g: Geometry) {
    && g.frame.preX == PAD_X as real && g.frame.preY == PAD_Y as real
    && PAD_X + g.aux.preW <= g.frame.panelW - PAD_X
    && (g.aux.preedit != "" ==>
          && PAD_Y + g.aux.preH <= g.frame.panelH - PAD_Y
          && forall i :: 0 <= i < |g.rows| ==> PAD_Y + g.aux.preH + SECTION_GAP <= g.rows[i].box.y)
  }

  // ---------------------------------------------------------------- vertical

  lemma {:induction false} RowTopOrder(rows: seq<Row>, i: nat, j: nat)
    requires i < j <= |rows| && forall k :: 0 <= k < |rows| ==> RowSized(rows[k])
    ensures 0 <= RowTop(rows, i) && RowTop(rows, i) + rows[i].box.h <= RowTop(rows, j)
  {
    if i + 1 < j {
      RowTopOrder(rows, i, j - 1);
    } else if i > 0 {
      RowTopOrder(rows, i - 1, i);
    }
  }

  lemma VerticalRow(r: Row, y: int, panelW: int, maxCaption: int, content: int)
    requires RowSized(r) && r.size.captionW <= maxCaption && content + PAD_X * 2 <= panelW
    requires maxCaption + LABEL_GAP + r.size.textW + ROW_PAD_X * 2 <= content
    ensures TextInside(PutVertical(r, y, panelW, maxCaption, Centering(panelW, content)))
  {
    var d := panelW - PAD_X * 2 - (content - ROW_PAD_X * 2);
    var off := Centering(panelW, content);
    assert 0 <= off && 2 * off <= d;
    assert PAD_X + ROW_PAD_X + maxCaption + LABEL_GAP + off + r.size.textW <= panelW - PAD_X;
  }

  ghost predicate RowsFit(g: Geometry) {
    forall i :: 0 <= i < |g.rows| ==> InsidePadding(g.rows[i], g.frame) && TextInside(g.rows[i])
  }

  /** The divider is strictly between what is above it and the mode label, which ends at the padding. */
  ghost predicate VerticalModeFits(g: Geometry) {
    && PAD_X as real <= g.frame.modeX && g.frame.modeX + g.aux.modeW as real == (g.frame.panelW - PAD_X) as real
    && g.frame.modeY + g.aux.modeH as real == (g.frame.panelH - PAD_Y) as real
    && (g.frame.divider as real) < g.frame.modeY
    && (g.aux.preedit != "" ==> PAD_Y + g.aux.preH < g.frame.divider)
    && (forall i :: 0 <= i < |g.rows| ==> g.rows[i].box.y + g.rows[i].box.h < g.frame.divider)
  }

  function Used(g: Geometry): bool {
    g.aux.preedit != ""
  }

  lemma VerticalExtent(g: Geometry, i: nat)
    requires Sized(g) && i < |g.rows|
    ensures var v := ArrangeVertical(g, Used(g));
      && InsidePadding(v.rows[i], v.frame)
      && RowsStart(g.aux, Used(g)) <= v.rows[i].box.y
      && (ShowsMode(g.aux) ==> v.rows[i].box.y + v.rows[i].box.h < v.frame.divider)
  {
    RowTopOrder(g.rows, i, |g.rows|);
  }

  lemma VerticalText(g: Geometry, i: nat)
    requires Sized(g) && i < |g.rows|
    ensures TextInside(ArrangeVertical(g, Used(g)).rows[i])
  {
    var content := VerticalWidth(g.rows, g.aux);
    VerticalRow(g.rows[i], RowsStart(g.aux, Used(g)) + RowTop(g.rows, i), PanelWidth(content, g.rows),
                MaxCaption(g.rows), content);
  }

  lemma VerticalRowsFit(g: Geometry)
    requires Sized(g)
    ensures RowsFit(ArrangeVertical(g, Used(g))) && PreeditFits(ArrangeVertical(g, Used(g)))
  {
    forall i | 0 <= i < |g.rows|
      ensures var v := ArrangeVertical(g, Used(g)); InsidePadding(v.rows[i], v.frame) && TextInside(v.rows[i])
      ensures RowsStart(g.aux, Used(g)) <= ArrangeVertical(g, Used(g)).rows[i].box.y
    {
      VerticalExtent(g, i);
      VerticalText(g, i);
    }
    if |g.rows| > 0 {
      RowTopOrder(g.rows, 0, |g.rows|);
    }
  }

  lemma VerticalMode(g: Geometry)
    requires Sized(g) && ShowsMode(g.aux)
    ensures VerticalModeFits(ArrangeVertical(g, Used(g)))
  {
    forall i | 0 <= i < |g.rows|
      ensures var v := ArrangeVertical(g, Used(g)); v.rows[i].box.y + v.rows[i].box.h < v.frame.divider
    {
      VerticalExtent(g, i);
    }
    if |g.rows| > 0 {
      RowTopOrder(g.rows, 0, |g.rows|);
    }
  }

  lemma VerticalOrder(rows: seq<Row>, y: int, panelW: int, maxCaption: int, off: int)
    requires forall k :: 0 <= k < |rows| ==> RowSized(rows[k])
    ensures Stacked(VerticalRows(rows, y, panelW, maxCaption, off))
  {
    var v := VerticalRows(rows, y, panelW, maxCaption, off);
    forall i, j | 0 <= i < j < |v|
      ensures Above(v[i], v[j])
    {
      RowTopOrder(rows, i, j);
    }
  }

  /** In the vertical arrangement rows, preedit and mode label all fit and none overlaps another. */
  lemma VerticalFits(g: Geometry)
    requires Sized(g)
    ensures var v := ArrangeVertical(g, Used(g));
      && RowsFit(v) && PreeditFits(v) && (ShowsMode(g.aux) ==> VerticalModeFits(v))
      && Stacked(v.rows)
  {
    VerticalRowsFit(g);
    var content := VerticalWidth(g.rows, g.aux);
    var panelW := PanelWidth(content, g.rows);
    VerticalOrder(g.rows, RowsStart(g.aux, Used(g)), panelW, MaxCaption(g.rows), Centering(panelW, content));
    if ShowsMode(g.aux) {
      VerticalMode(g);
    }
  }

  // ---------------------------------------------------------------- horizontal

  lemma {:induction false} RowLeftOrder(rows: seq<Row>, i: nat, j: nat)
    requires i < j <= |rows| && forall k :: 0 <= k < |rows| ==> RowSized(rows[k])
    ensures 0 <= RowLeft(rows, i) && RowLeft(rows, i) + rows[i].box.w + COL_GAP <= RowLeft(rows, j)
  {
    if i + 1 < j {
      RowLeftOrder(rows, i, j - 1);
    } else if i > 0 {
      RowLeftOrder(rows, i - 1, i);
    }
  }

  /** The width accumulated for the panel is what the placing loop uses up, less the gap after the last row. */
  lemma {:induction false} RowsWidthIsLeft(rows: seq<Row>, n: nat)
    requires n <= |rows| && forall k :: 0 <= k < |rows| ==> RowSized(rows[k])
    ensures RowsWidth(rows, n) == if n == 0 then 0 else RowLeft(rows, n) - COL_GAP
    ensures n > 0 ==> RowsWidth(rows, n) > 0
  {
    if n > 0 {
      RowsWidthIsLeft(rows, n - 1);
      if n > 1 {
        RowLeftOrder(rows, n - 2, n - 1);
      }
    }
  }

  lemma HorizontalRow(r: Row, x: int, y: int)
    requires RowSized(r)
    ensures TextInside(PutHorizontal(r, x, y))
  {
  }

  /** The mode label is right of all rows and below the preedit. */
  ghost predicate HorizontalModeClear(g: Geometry) {
    && PAD_X as real <= g.frame.modeX && g.frame.modeX + g.aux.modeW as real == (g.frame.panelW - PAD_X) as real
    && (g.aux.preedit != "" ==> (PAD_Y + g.aux.preH) as real < g.frame.modeY)
    && (forall i :: 0 <= i < |g.rows| ==> (g.rows[i].box.x + g.rows[i].box.w) as real <= g.frame.modeX)
  }

  predicate ModeInsideBottom(g: Geometry) {
    g.frame.modeY + g.aux.modeH as real <= (g.frame.panelH - PAD_Y) as real
  }

  lemma HorizontalSpan(g: Geometry, i: nat)
    requires Sized(g) && i < |g.rows|
    ensures var right := PAD_X + RowLeft(g.rows, i) + g.rows[i].box.w;
      && RowLeft(g.rows, i) >= 0
      && right <= PanelWidth(HorizontalWidth(g.rows, g.aux), g.rows) - PAD_X
      && (ShowsMode(g.aux) ==> right <= PanelWidth(HorizontalWidth(g.rows, g.aux), g.rows) - PAD_X - g.aux.modeW)
  {
    RowLeftOrder(g.rows, i, |g.rows|);
    RowsWidthIsLeft(g.rows, |g.rows|);
  }

  lemma HorizontalExtent(g: Geometry, i: nat)
    requires Sized(g) && i < |g.rows|
    ensures var h := ArrangeHorizontal(g, Used(g));
      && InsidePadding(h.rows[i], h.frame)
      && RowsStart(g.aux, Used(g)) <= h.rows[i].box.y
      && (ShowsMode(g.aux) ==> (h.rows[i].box.x + h.rows[i].box.w) as real <= h.frame.modeX)
  {
    HorizontalSpan(g, i);
    var h := ArrangeHorizontal(g, Used(g));
    var r := PutHorizontal(g.rows[i], PAD_X + RowLeft(g.rows, i), RowsStart(g.aux, Used(g)));
    assert h.rows[i] == r;
    assert r.box.y + r.box.h <= h.frame.panelH - PAD_Y;
  }

  lemma HorizontalOrder(rows: seq<Row>, y: int)
    requires forall k :: 0 <= k < |rows| ==> RowSized(rows[k])
    ensures SideBySide(HorizontalRows(rows, y))
  {
    var h := HorizontalRows(rows, y);
    forall i, j | 0 <= i < j < |h|
      ensures LeftOf(h[i], h[j])
    {
      RowLeftOrder(rows, i, j);
    }
  }

  lemma HorizontalRowsFit(g: Geometry)
    requires Sized(g)
    ensures RowsFit(ArrangeHorizontal(g, Used(g))) && PreeditFits(ArrangeHorizontal(g, Used(g)))
  {
    forall i | 0 <= i < |g.rows|
      ensures var h := ArrangeHorizontal(g, Used(g)); InsidePadding(h.rows[i], h.frame) && TextInside(h.rows[i])
      ensures RowsStart(g.aux, Used(g)) <= ArrangeHorizontal(g, Used(g)).rows[i].box.y
    {
      HorizontalExtent(g, i);
      HorizontalRow(g.rows[i], PAD_X + RowLeft(g.rows, i), RowsStart(g.aux, Used(g)));
    }
  }

  lemma HorizontalMode(g: Geometry)
    requires Sized(g) && ShowsMode(g.aux)
    ensures HorizontalModeClear(ArrangeHorizontal(g, Used(g)))
    ensures ModeInsideBottom(ArrangeHorizontal(g, Used(g))) <==> ROW_PAD_Y + g.aux.modeH <= TallestRow(g.rows)
  {
    forall i | 0 <= i < |g.rows|
      ensures var h := ArrangeHorizontal(g, Used(g)); (h.rows[i].box.x + h.rows[i].box.w) as real <= h.frame.modeX
    {
      HorizontalExtent(g, i);
    }
    RowsWidthIsLeft(g.rows, |g.rows|);
  }

  /**
   In the horizontal arrangement rows and preedit fit and a shown mode label is
   clear of the rows; it stays inside the bottom padding exactly when the tallest
   row is at least three pixels taller than the label, so never without rows.
   */
  lemma HorizontalFits(g: Geometry)
    requires Sized(g)
    ensures var h := ArrangeHorizontal(g, Used(g));
      && RowsFit(h) && PreeditFits(h)
      && SideBySide(h.rows)
      && (ShowsMode(g.aux) ==>
            HorizontalModeClear(h) && (ModeInsideBottom(h) <==> ROW_PAD_Y + g.aux.modeH <= TallestRow(g.rows)))
  {
    HorizontalRowsFit(g);
    HorizontalOrder(g.rows, RowsStart(g.aux, Used(g)));
    if ShowsMode(g.aux) {
      HorizontalMode(g);
    }
  }

  /**
   Whatever is asked for, in both modes: rows and preedit are disjoint and inside
   the padding and texts inside their rows; the mode label is clear of both, and
   inside too, except when a horizontal line is too low for it.
   */
  lemma EverythingFits(sh: Shaper, inp: Input)
    requires NonNegative(sh)
    ensures var g := FullGeometry(sh, inp);
      && RowsFit(g) && PreeditFits(g)
      && (if inp.config.mode == Vertical then Stacked(g.rows) else SideBySide(g.rows))
      && (ShowsMode(g.aux) ==>
            if inp.config.mode == Vertical then VerticalModeFits(g)
            else HorizontalModeClear(g)
                 && (ModeInsideBottom(g) <==> ROW_PAD_Y + g.aux.modeH <= TallestRow(Unarranged(sh, inp).rows)))
  {
    UnarrangedSized(sh, inp);
    VerticalFits(Unarranged(sh, inp));
    HorizontalFits(Unarranged(sh, inp));
  }

  /** A horizontal panel without candidates always draws its mode label past the bottom padding. */
  lemma ModeOutsideWithoutRows(sh: Shaper, inp: Input)
    requires NonNegative(sh) && inp.cands == [] && inp.config.mode == Horizontal
    requires ShowsMode(FullGeometry(sh, inp).aux)
    ensures !ModeInsideBottom(FullGeometry(sh, inp))
  {
    EverythingFits(sh, inp);
  }

  // ---------------------------------------------------------------- incremental update

  /** Nonempty text has height. */
  ghost predicate TextHasHeight(sh: Shaper) {
    forall t: string, f: string :: t != "" ==> sh.measure(t, f).h > 0.0
  }

  /** Where the gap below the preedit shows: under it come rows, or a horizontal mode label. */
  predicate SomethingBelow(g: Geometry) {
    |g.rows| > 0 || (g.config.mode == Horizontal && g.aux.modeH > 0)
  }

  lemma AuxShape(sh: Shaper, config: Config, scale: real, preedit: string, mode: string)
    ensures var a := AuxOf(sh, config, scale, preedit, mode);
      (a.mode == "" ==> a.modeW == a.modeH == 0) && (a.preedit == "" ==> a.preW == a.preH == 0)
  {
    Positive(0.0, UsableScale(scale));
  }

  /** The update's geometry and the recomputed one before arrangement differ in the preedit and mode texts alone. */
  lemma UpdateShape(sh: Shaper, inp: Input, preedit: string, mode: string)
    requires UpdateAux(sh, FullGeometry(sh, inp), preedit, mode).Some?
    ensures var now := inp.(preedit := preedit, mode := mode);
      var a := Unarranged(sh, now).aux;
      var b := Unarranged(sh, inp).aux;
      && UpdateAux(sh, FullGeometry(sh, inp), preedit, mode).value
         == FullGeometry(sh, inp).(aux := a, preeditText := Clip(preedit, 256), modeLabel := Clip(mode, 128))
      && Unarranged(sh, now)
         == Unarranged(sh, inp).(aux := a, preeditText := Clip(preedit, 256), modeLabel := Clip(mode, 128))
      && SameRoom(a, b)
  {
    var scale := UsableScale(inp.scale);
    AuxShape(sh, inp.config, scale, preedit, mode);
    AuxShape(sh, inp.config, scale, inp.preedit, inp.mode);
  }

  /** The two preedits and mode labels take the same room. */
  predicate SameRoom(a: Aux, b: Aux) {
    && a.preW == b.preW && a.preH == b.preH && a.modeW == b.modeW && a.modeH == b.modeH
    && ShowsMode(a) == ShowsMode(b)
    && (a.mode != "" && a.modeW > 0 <==> b.mode != "" && b.modeW > 0)
  }

  lemma SameSizes(rows: seq<Row>, a: Aux, b: Aux, preUsed: bool)
    requires SameRoom(a, b)
    ensures VerticalWidth(rows, a) == VerticalWidth(rows, b)
    ensures VerticalHeight(rows, a, preUsed) == VerticalHeight(rows, b, preUsed)
    ensures HorizontalWidth(rows, a) == HorizontalWidth(rows, b)
    ensures HorizontalHeight(rows, a, preUsed) == HorizontalHeight(rows, b, preUsed)
    ensures RowsStart(a, preUsed) == RowsStart(b, preUsed)
  {
  }

  lemma ArrangeVerticalSame(g: Geometry, h: Geometry, preUsed: bool)
    requires h.rows == g.rows && SameRoom(h.aux, g.aux) && h.frame == g.frame
    ensures ArrangeVertical(h, preUsed).rows == ArrangeVertical(g, preUsed).rows
    ensures ArrangeVertical(h, preUsed).frame == ArrangeVertical(g, preUsed).frame
  {
    SameSizes(g.rows, h.aux, g.aux, preUsed);
  }

  lemma ArrangeHorizontalSame(g: Geometry, h: Geometry, preUsed: bool)
    requires h.rows == g.rows && SameRoom(h.aux, g.aux) && h.frame == g.frame
    ensures ArrangeHorizontal(h, preUsed).rows == ArrangeHorizontal(g, preUsed).rows
    ensures ArrangeHorizontal(h, preUsed).frame == ArrangeHorizontal(g, preUsed).frame
  {
    SameSizes(g.rows, h.aux, g.aux, preUsed);
  }

  lemma ArrangeOnlyMoves(g: Geometry, preUsed: bool)
    ensures Arrange(g, preUsed) == g.(rows := Arrange(g, preUsed).rows, frame := Arrange(g, preUsed).frame)
  {
  }

  /** Arranging depends on the sizes of preedit and mode label alone, and on whether a preedit is there. */
  lemma ArrangeSame(g: Geometry, a: Aux, pre: string, mode: string, preUsed: bool)
    requires SameRoom(a, g.aux)
    ensures Arrange(g.(aux := a, preeditText := pre, modeLabel := mode), preUsed)
         == Arrange(g, preUsed).(aux := a, preeditText := pre, modeLabel := mode)
  {
    var h := g.(aux := a, preeditText := pre, modeLabel := mode);
    ArrangeVerticalSame(g, h, preUsed);
    ArrangeHorizontalSame(g, h, preUsed);
    ArrangeOnlyMoves(g, preUsed);
    ArrangeOnlyMoves(h, preUsed);
    assert Arrange(h, preUsed).rows == Arrange(g, preUsed).rows;
    assert Arrange(h, preUsed).frame == Arrange(g, preUsed).frame;
  }

  lemma NoRowsHeight(g: Geometry)
    requires g.rows == [] && g.aux.preH == 0
    ensures VerticalHeight(g.rows, g.aux, true) == VerticalHeight(g.rows, g.aux, false)
    ensures HorizontalHeight(g.rows, g.aux, true) == HorizontalHeight(g.rows, g.aux, false)
  {
  }

  /** A preedit without height moves things exactly when something is below it. */
  lemma GapShows(g: Geometry)
    requires g.aux.preH == 0 && (g.aux.modeH > 0 ==> ShowsMode(g.aux))
    ensures Arrange(g, true) == Arrange(g, false) <==> !SomethingBelow(g)
  {
    if |g.rows| > 0 {
      var first := if g.config.mode == Vertical then RowTop(g.rows, 0) else 0;
      assert Arrange(g, true).rows[0].box.y == RowsStart(g.aux, true) + first;
      assert Arrange(g, false).rows[0].box.y == RowsStart(g.aux, false) + first;
    } else if g.config.mode == Horizontal && g.aux.modeH > 0 {
      assert Arrange(g, true).frame.modeY != Arrange(g, false).frame.modeY;
    } else {
      NoRowsHeight(g);
      assert Arrange(g, true).rows == [] && Arrange(g, false).rows == [];
    }
  }

  /**
   The incremental update, when it gives a geometry, equals full recomputation
   exactly when the preedit did not come or go, or nothing is below it.
   */
  lemma UpdateIsFullIff(sh: Shaper, inp: Input, preedit: string, mode: string)
    requires UpdateAux(sh, FullGeometry(sh, inp), preedit, mode).Some?
    ensures var now := inp.(preedit := preedit, mode := mode);
      UpdateAux(sh, FullGeometry(sh, inp), preedit, mode).value == FullGeometry(sh, now)
      <==> ((preedit != "") == (inp.preedit != "") || !SomethingBelow(FullGeometry(sh, now)))
  {
    UpdateShape(sh, inp, preedit, mode);
    var now := inp.(preedit := preedit, mode := mode);
    var g, h := Unarranged(sh, inp), Unarranged(sh, now);
    var scale := UsableScale(inp.scale);
    AuxShape(sh, inp.config, scale, preedit, mode);
    AuxShape(sh, inp.config, scale, inp.preedit, inp.mode);
    ArrangeSame(g, h.aux, h.preeditText, h.modeLabel, inp.preedit != "");
    if (preedit != "") != (inp.preedit != "") {
      GapShows(h);
    }
  }

  /** With metrics that give every nonempty text a height, the incremental update always equals full recomputation. */
  lemma UpdateIsFull(sh: Shaper, inp: Input, preedit: string, mode: string)
    requires TextHasHeight(sh) && UpdateAux(sh, FullGeometry(sh, inp), preedit, mode).Some?
    ensures UpdateAux(sh, FullGeometry(sh, inp), preedit, mode).value
         == FullGeometry(sh, inp.(preedit := preedit, mode := mode))
  {
    UpdateIsFullIff(sh, inp, preedit, mode);
    UpdateShape(sh, inp, preedit, mode);
    var scale := UsableScale(inp.scale);
    var font := Font(sh, inp.config.auxFont, scale);
    assert preedit != "" ==> sh.measure(preedit, font).h > 0.0;
    assert inp.preedit != "" ==> sh.measure(inp.preedit, font).h > 0.0;
    AuxShape(sh, inp.config, scale, preedit, mode);
    AuxShape(sh, inp.config, scale, inp.preedit, inp.mode);
  }
}
