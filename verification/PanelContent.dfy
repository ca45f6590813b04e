/**
 What a panel shows and where, told from the candidates and the metrics themselves:
 which string stands in which part of a row and in which font, how many pixels its
 measurements come to, and where the arrangements put things exactly.
 */
module PanelContent {
  import opened Common
  import opened CandidateText
  import opened PanelLayoutCache
  import opened PanelGeometry
  import opened PanelGeometryTheorems

  // ---------------------------------------------------------------- what is shown

  /** `r` is the least number of whole pixels that `px` takes at the scale. */
  predicate LeastPixels(r: int, px: real, scale: real) {
    r as real * scale >= px && (r - 1) as real * scale < px
  }

  lemma LogicalPxIsLeast(px: real, scale: real)
    requires scale > 0.0
    ensures LeastPixels(LogicalPx(px, scale), px, scale)
  {
    var q := px / scale;
    var r := LogicalPx(px, scale);
    assert r == Ceil(q);
    assert q * scale == px by {
      Divided(px, scale);
    }
    Between(r as real, (r - 1) as real, q, px, scale);
  }

  lemma Between(a: real, b: real, q: real, px: real, scale: real)
    requires scale > 0.0 && q * scale == px && a >= q && b < q
    ensures a * scale >= px && b * scale < px
  {
    NotLess(a, q, scale);
    Less(b, q, scale);
  }

  lemma Divided(px: real, scale: real)
    requires scale > 0.0
    ensures px / scale * scale == px
  {
  }

  lemma NotLess(a: real, b: real, scale: real)
    requires scale > 0.0 && a >= b
    ensures a * scale >= b * scale
  {
    assert (a - b) * scale >= 0.0;
  }

  lemma Less(a: real, b: real, scale: real)
    requires scale > 0.0 && a < b
    ensures a * scale < b * scale
  {
    assert (b - a) * scale > 0.0;
  }

  /** A row has the texts of its candidate, each in the font for it. */
  predicate TextsShown(sh: Shaper, id: Identity, c: Candidate, i: nat, config: Config, scale: real) {
    Tells(id, c, i) && id.captionFont == First(sh.scaled(config.captionFont, scale), 95)
    && id.font == First(sh.scaled(config.font, scale), 95)
  }

  /** The sizes of a row are those of its texts, in whole pixels. */
  predicate SizesShown(sh: Shaper, id: Identity, size: Size, scale: real) {
    var tag, text := sh.measure(id.caption, id.captionFont), sh.measure(id.text, id.font);
    && LeastPixels(size.captionW, tag.w, scale) && LeastPixels(size.captionH, tag.h, scale)
    && LeastPixels(size.textW, text.w, scale) && LeastPixels(size.textH, text.h, scale)
    && size.captionInk * scale == tag.baseline && size.textInk * scale == text.baseline
  }

  /** Preedit and mode label are those of the request, the label only if it is to be shown. */
  predicate AuxShown(sh: Shaper, a: Aux, inp: Input, scale: real) {
    var font := First(sh.scaled(inp.config.auxFont, scale), 95);
    && a.preedit == inp.preedit && a.mode == (if inp.config.modeIndicator then inp.mode else "")
    && (if a.preedit == "" then a.preW == a.preH == 0
        else LeastPixels(a.preW, sh.measure(a.preedit, font).w, scale)
             && LeastPixels(a.preH, sh.measure(a.preedit, font).h, scale))
    && (if a.mode == "" then a.modeW == a.modeH == 0
        else LeastPixels(a.modeW, sh.measure(a.mode, font).w, scale)
             && LeastPixels(a.modeH, sh.measure(a.mode, font).h, scale))
  }

  /** Everything a geometry shows is what the request says. */
  ghost predicate Shows(sh: Shaper, g: Geometry, inp: Input) {
    && |g.rows| == |inp.cands|
    && (forall i :: 0 <= i < |g.rows| ==> RowShown(sh, g.rows[i], inp.cands[i], i, inp.config, g.scale))
    && AuxShown(sh, g.aux, inp, g.scale)
    && g.scale == (if inp.scale > 0.0 then inp.scale else 1.0)
    && g.sig == inp.sig && g.palette == inp.palette && g.config == inp.config
    && g.preeditText == First(inp.preedit, 255) && g.modeLabel == First(inp.mode, 127)
  }

  lemma RowTexts(sh: Shaper, c: Candidate, i: nat, config: Config, scale: real)
    requires i + 1 < Pow10(31)
    ensures TextsShown(sh, RowOf(sh, c, i, config, scale).id, c, i, config, scale)
  {
    IdentityTells(c, i, Font(sh, config.captionFont, scale), Font(sh, config.font, scale));
  }

  lemma RowSizes(sh: Shaper, c: Candidate, i: nat, config: Config, scale: real)
    requires scale > 0.0
    ensures SizesShown(sh, RowOf(sh, c, i, config, scale).id, RowOf(sh, c, i, config, scale).size, scale)
  {
    var id := RowOf(sh, c, i, config, scale).id;
    var tag, text := sh.measure(id.caption, id.captionFont), sh.measure(id.text, id.font);
    LogicalPxIsLeast(tag.w, scale);
    LogicalPxIsLeast(tag.h, scale);
    LogicalPxIsLeast(text.w, scale);
    LogicalPxIsLeast(text.h, scale);
  }

  lemma AuxTexts(sh: Shaper, inp: Input, scale: real)
    requires scale > 0.0
    ensures AuxShown(sh, AuxOf(sh, inp.config, scale, inp.preedit, inp.mode), inp, scale)
  {
    var font := First(sh.scaled(inp.config.auxFont, scale), 95);
    var pre, mode := sh.measure(inp.preedit, font), sh.measure(inp.mode, font);
    LogicalPxIsLeast(pre.w, scale);
    LogicalPxIsLeast(pre.h, scale);
    LogicalPxIsLeast(mode.w, scale);
    LogicalPxIsLeast(mode.h, scale);
    LogicalPxIsLeast(0.0, scale);
    NoPixels(scale);
  }

  lemma NoPixels(scale: real)
    requires scale > 0.0
    ensures LogicalPx(0.0, scale) == 0
  {
  }

  /** Arranging moves rows; it changes neither what they show nor anything but places and the frame. */
  lemma ArrangeKeeps(g: Geometry, preUsed: bool)
    ensures var a := Arrange(g, preUsed);
      && |a.rows| == |g.rows|
      && (forall i :: 0 <= i < |a.rows| ==> a.rows[i].id == g.rows[i].id && a.rows[i].size == g.rows[i].size)
      && a == g.(rows := a.rows, frame := a.frame)
  {
    var a := Arrange(g, preUsed);
    forall i | 0 <= i < |a.rows|
      ensures a.rows[i].id == g.rows[i].id && a.rows[i].size == g.rows[i].size
    {
    }
  }

  predicate RowShown(sh: Shaper, r: Row, c: Candidate, i: nat, config: Config, scale: real) {
    (i + 1 < Pow10(31) ==> TextsShown(sh, r.id, c, i, config, scale)) && SizesShown(sh, r.id, r.size, scale)
  }

  lemma RowShows(sh: Shaper, c: Candidate, i: nat, config: Config, scale: real)
    requires scale > 0.0
    ensures RowShown(sh, RowOf(sh, c, i, config, scale), c, i, config, scale)
  {
    RowSizes(sh, c, i, config, scale);
    if i + 1 < Pow10(31) {
      RowTexts(sh, c, i, config, scale);
    }
  }

  /** The full geometry of a request shows the request: every string in its place and font, in its measured size. */
  lemma FullShows(sh: Shaper, inp: Input)
    ensures Shows(sh, FullGeometry(sh, inp), inp)
  {
    var scale := UsableScale(inp.scale);
    var u, g := Unarranged(sh, inp), FullGeometry(sh, inp);
    ArrangeKeeps(u, inp.preedit != "");
    AuxTexts(sh, inp, scale);
    forall i | 0 <= i < |inp.cands|
      ensures RowShown(sh, g.rows[i], inp.cands[i], i, inp.config, scale)
    {
      RowShows(sh, inp.cands[i], i, inp.config, scale);
      assert u.rows[i] == RowOf(sh, inp.cands[i], i, inp.config, scale);
    }
  }

  // ---------------------------------------------------------------- where it stands

  /** Text and row share their middle, up and down, and label and text their baseline. */
  predicate Centred(r: Row) {
    && (r.at.textY - (r.box.y + 3) as real) * 2.0 == (r.box.h - 6 - r.size.textH) as real
    && r.at.captionY + r.size.captionInk == r.at.textY + r.size.textInk
  }

  /** Where the first row begins. */
  function FirstRowTop(a: Aux): int {
    if a.preedit != "" then 6 + a.preH + 6 else 6
  }

  /** The width that the widest of the rows, the preedit and a shown mode label need, with one column of labels. */
  predicate NeedsWidth(g: Geometry, column: int, need: int) {
    && (forall i :: 0 <= i < |g.rows| ==> column + 5 + g.rows[i].size.textW + 12 <= need)
    && g.aux.preW <= need && (ShowsMode(g.aux) ==> g.aux.modeW <= need)
    && (|| need == g.aux.preW
        || (ShowsMode(g.aux) && need == g.aux.modeW)
        || exists i :: 0 <= i < |g.rows| && need == column + 5 + g.rows[i].size.textW + 12)
  }

  /** The column of labels is as wide as the widest. */
  predicate LabelColumn(rows: seq<Row>, column: int) {
    && (forall i :: 0 <= i < |rows| ==> rows[i].size.captionW <= column)
    && column >= 0 && (column == 0 || exists i :: 0 <= i < |rows| && rows[i].size.captionW == column)
  }

  /** Row `i` stands under the one before it, as wide as the panel's content, its label in the centred column. */
  predicate RowStacked(g: Geometry, v: Geometry, i: nat, column: int, slack: int)
    requires i < |v.rows| == |g.rows|
  {
    var r := v.rows[i];
    && r.box == Box(10, if i == 0 then FirstRowTop(g.aux) else v.rows[i - 1].box.y + v.rows[i - 1].box.h,
                    v.frame.panelW - 20, g.rows[i].box.h)
    && Centred(r)
    && r.at.captionX == (16 + (if slack < 0 then 0 else slack / 2)) as real
    && r.at.textX == r.at.captionX + (column + 5) as real
  }

  predicate StackedUpTo(g: Geometry, v: Geometry, n: nat, column: int, slack: int)
    requires n <= |v.rows| == |g.rows|
  {
    forall i :: 0 <= i < n ==> RowStacked(g, v, i, column, slack)
  }

  predicate RowsStacked(g: Geometry, v: Geometry, column: int, slack: int) {
    |v.rows| == |g.rows| && StackedUpTo(g, v, |v.rows|, column, slack)
  }

  /** Where what stands above the mode label ends. */
  function BodyEnd(g: Geometry, v: Geometry): int {
    if |v.rows| > 0 then v.rows[|v.rows| - 1].box.y + v.rows[|v.rows| - 1].box.h
    else if g.aux.preedit != "" then 6 + g.aux.preH
    else 6
  }

  /** A panel just large enough for content of this width, the mode label in its lower right corner. */
  predicate VerticalFrameTight(g: Geometry, v: Geometry, need: int) {
    && v.frame.panelW == (if |g.rows| > 0 && need + 20 < 220 then 220 else need + 20)
    && v.frame.panelH == BodyEnd(g, v) + (if ShowsMode(g.aux) then 6 + g.aux.modeH else 0) + 6
    && (if ShowsMode(g.aux)
        then && v.frame.modeX == (v.frame.panelW - 10 - g.aux.modeW) as real
             && v.frame.modeY == (v.frame.panelH - 6 - g.aux.modeH) as real
             && v.frame.divider == v.frame.panelH - 6 - g.aux.modeH - 3
        else v.frame.divider == -1)
    && v.frame.preX == 10.0 && v.frame.preY == 6.0
  }

  /**
   The vertical arrangement exactly: rows of full width one under the other, labels and
   texts in columns centred to the pixel, and a panel just large enough, but at least
   220 wide with rows.
   */
  predicate VerticalPlaces(g: Geometry, v: Geometry, column: int, need: int, slack: int) {
    && LabelColumn(g.rows, column) && NeedsWidth(g, column, need) && slack == v.frame.panelW - 20 - (need - 12)
    && RowsStacked(g, v, column, slack) && VerticalFrameTight(g, v, need)
  }

  lemma {:induction false} WidestLabel(rows: seq<Row>)
    ensures LabelColumn(rows, MaxCaption(rows))
  {
    if rows != [] {
      WidestLabel(rows[..|rows| - 1]);
      LabelColumnSnoc(rows, MaxCaption(rows[..|rows| - 1]));
    }
  }

  lemma LabelColumnSnoc(rows: seq<Row>, before: int)
    requires rows != [] && LabelColumn(rows[..|rows| - 1], before)
    ensures LabelColumn(rows, Max(before, rows[|rows| - 1].size.captionW))
  {
    var n := |rows| - 1;
    assert forall i :: 0 <= i < n ==> rows[..n][i] == rows[i];
    if before > 0 {
      var i :| 0 <= i < n && rows[..n][i].size.captionW == before;
      assert rows[i].size.captionW == before;
    }
  }

  lemma {:induction false} WidestIsNeeded(rows: seq<Row>, column: int, least: int)
    ensures var w := WidestRow(rows, column, least);
      w == least || exists i :: 0 <= i < |rows| && w == column + 5 + rows[i].size.textW + 12
  {
    if rows != [] {
      var n := |rows| - 1;
      WidestIsNeeded(rows[..n], column, least);
      assert forall i :: 0 <= i < n ==> rows[..n][i] == rows[i];
    }
  }

  lemma VerticalNeeds(g: Geometry)
    ensures NeedsWidth(g, MaxCaption(g.rows), VerticalWidth(g.rows, g.aux))
  {
    WidestIsNeeded(g.rows, MaxCaption(g.rows), g.aux.preW);
  }

  lemma VerticalRowAt(g: Geometry, v: Geometry, i: nat, column: int, slack: int)
    requires v == ArrangeVertical(g, Used(g)) && column == MaxCaption(g.rows)
    requires slack == v.frame.panelW - 20 - (VerticalWidth(g.rows, g.aux) - 12) && i < |v.rows| == |g.rows|
    ensures RowStacked(g, v, i, column, slack)
  {
  }

  lemma {:induction false} VerticalRowsUpTo(g: Geometry, v: Geometry, n: nat, column: int, slack: int)
    requires v == ArrangeVertical(g, Used(g)) && column == MaxCaption(g.rows)
    requires slack == v.frame.panelW - 20 - (VerticalWidth(g.rows, g.aux) - 12) && n <= |v.rows| == |g.rows|
    ensures StackedUpTo(g, v, n, column, slack)
  {
    if n > 0 {
      VerticalRowsUpTo(g, v, n - 1, column, slack);
      VerticalRowAt(g, v, n - 1, column, slack);
    }
  }

  lemma VerticalFrameAt(g: Geometry)
    ensures VerticalFrameTight(g, ArrangeVertical(g, Used(g)), VerticalWidth(g.rows, g.aux))
  {
    VerticalEnd(g);
  }

  lemma VerticalEnd(g: Geometry)
    ensures BodyEnd(g, ArrangeVertical(g, Used(g))) ==
      if |g.rows| > 0 then RowsStart(g.aux, Used(g)) + RowTop(g.rows, |g.rows|)
      else if Used(g) then 6 + g.aux.preH else 6
  {
    if |g.rows| > 0 {
      var n := |g.rows| - 1;
      var column, content := MaxCaption(g.rows), VerticalWidth(g.rows, g.aux);
      var panelW := PanelWidth(content, g.rows);
      var rows := VerticalRows(g.rows, RowsStart(g.aux, Used(g)), panelW, column, Centering(panelW, content));
      assert rows[n] == PutVertical(g.rows[n], RowsStart(g.aux, Used(g)) + RowTop(g.rows, n), panelW, column,
                                    Centering(panelW, content));
    }
  }

  /** The vertical arrangement puts everything exactly where it belongs. */
  lemma VerticalExactly(g: Geometry, v: Geometry) returns (column: int, need: int, slack: int)
    requires v == ArrangeVertical(g, Used(g))
    ensures VerticalPlaces(g, v, column, need, slack)
  {
    column, need := MaxCaption(g.rows), VerticalWidth(g.rows, g.aux);
    slack := v.frame.panelW - 20 - (need - 12);
    WidestLabel(g.rows);
    VerticalNeeds(g);
    VerticalRowsUpTo(g, v, |v.rows|, column, slack);
    VerticalFrameAt(g);
  }

  /** Row `i` stands right of the one before it, its label at its left end and its text behind that. */
  predicate RowInLine(g: Geometry, h: Geometry, i: nat)
    requires i < |h.rows| == |g.rows|
  {
    var r := h.rows[i];
    && r.box == Box(if i == 0 then 10 else h.rows[i - 1].box.x + h.rows[i - 1].box.w + 2, FirstRowTop(g.aux),
                    g.rows[i].box.w, g.rows[i].box.h)
    && Centred(r)
    && r.at.captionX == (r.box.x + 6) as real
    && r.at.textX == r.at.captionX + (r.size.captionW + 5) as real
  }

  /** The height of the tallest row. */
  predicate Tallest(rows: seq<Row>, h: int) {
    && (forall i :: 0 <= i < |rows| ==> rows[i].box.h <= h)
    && h >= 0 && (h == 0 || exists i :: 0 <= i < |rows| && rows[i].box.h == h)
  }

  /** Where a line of rows ends, with room for the mode label behind it. */
  function LineEnd(g: Geometry, h: Geometry): int
    requires |h.rows| == |g.rows|
  {
    (if h.rows == [] then 0 else h.rows[|h.rows| - 1].box.x + h.rows[|h.rows| - 1].box.w - 10)
    + (if g.aux.mode != "" && g.aux.modeW > 0 then 2 + g.aux.modeW else 0)
  }

  predicate RowsInLine(g: Geometry, h: Geometry) {
    |h.rows| == |g.rows| && forall i :: 0 <= i < |h.rows| ==> RowInLine(g, h, i)
  }

  predicate HorizontalFrameTight(g: Geometry, h: Geometry, tallest: int)
    requires |h.rows| == |g.rows|
  {
    && (var need := if LineEnd(g, h) > g.aux.preW then LineEnd(g, h) else g.aux.preW;
        h.frame.panelW == if |g.rows| > 0 && need + 20 < 220 then 220 else need + 20)
    && h.frame.panelH == 12 + tallest + (if g.aux.preedit == "" then 0
                                         else g.aux.preH + (if h.rows == [] then 0 else 6))
    && h.frame.divider == -1 && h.frame.preX == 10.0 && h.frame.preY == 6.0
    && (ShowsMode(g.aux) ==>
          && h.frame.modeX == (h.frame.panelW - 10 - g.aux.modeW) as real
          && h.frame.modeY == (FirstRowTop(g.aux) + 3) as real)
  }

  /** The horizontal arrangement exactly: one line of rows, and a panel just large enough, but at least 220 wide. */
  predicate HorizontalPlaces(g: Geometry, h: Geometry, tallest: int) {
    RowsInLine(g, h) && Tallest(g.rows, tallest) && HorizontalFrameTight(g, h, tallest)
  }

  lemma {:induction false} TallestIs(rows: seq<Row>)
    ensures Tallest(rows, TallestRow(rows))
  {
    if rows != [] {
      var n := |rows| - 1;
      TallestIs(rows[..n]);
      assert forall i :: 0 <= i < n ==> rows[..n][i] == rows[i];
    }
  }

  lemma HorizontalRowAt(g: Geometry, i: nat)
    requires i < |g.rows|
    ensures RowInLine(g, ArrangeHorizontal(g, Used(g)), i)
  {
  }

  lemma HorizontalRowsAt(g: Geometry)
    ensures RowsInLine(g, ArrangeHorizontal(g, Used(g)))
  {
    forall i: nat | i < |g.rows|
      ensures RowInLine(g, ArrangeHorizontal(g, Used(g)), i)
    {
      HorizontalRowAt(g, i);
    }
  }

  lemma LineEndIs(g: Geometry)
    requires Sized(g)
    ensures |ArrangeHorizontal(g, Used(g)).rows| == |g.rows|
    ensures LineEnd(g, ArrangeHorizontal(g, Used(g)))
         == RowsWidth(g.rows, |g.rows|) + (if g.aux.mode != "" && g.aux.modeW > 0 then 2 + g.aux.modeW else 0)
  {
    RowsWidthIsLeft(g.rows, |g.rows|);
    if |g.rows| > 0 {
      var n := |g.rows| - 1;
      var rows := HorizontalRows(g.rows, RowsStart(g.aux, Used(g)));
      assert rows[n] == PutHorizontal(g.rows[n], PAD_X + RowLeft(g.rows, n), RowsStart(g.aux, Used(g)));
    }
  }

  lemma HorizontalFrameAt(g: Geometry)
    requires Sized(g)
    ensures |ArrangeHorizontal(g, Used(g)).rows| == |g.rows|
    ensures HorizontalFrameTight(g, ArrangeHorizontal(g, Used(g)), TallestRow(g.rows))
  {
    LineEndIs(g);
  }

  /** The horizontal arrangement puts everything exactly where it belongs. */
  lemma HorizontalExactly(g: Geometry, h: Geometry) returns (tallest: int)
    requires h == ArrangeHorizontal(g, Used(g)) && Sized(g)
    ensures HorizontalPlaces(g, h, tallest)
  {
    tallest := TallestRow(g.rows);
    TallestIs(g.rows);
    HorizontalRowsAt(g);
    HorizontalFrameAt(g);
  }

  lemma FullIsArranged(sh: Shaper, inp: Input)
    ensures var g := Unarranged(sh, inp);
      && Used(g) == (inp.preedit != "")
      && FullGeometry(sh, inp) == if inp.config.mode == Vertical then ArrangeVertical(g, Used(g))
                                  else ArrangeHorizontal(g, Used(g))
  {
  }

  /** The vertical geometry of a request stands exactly where it belongs. */
  lemma FullVertical(sh: Shaper, inp: Input) returns (column: int, need: int, slack: int)
    requires inp.config.mode == Vertical
    ensures VerticalPlaces(Unarranged(sh, inp), FullGeometry(sh, inp), column, need, slack)
  {
    FullIsArranged(sh, inp);
    column, need, slack := VerticalExactly(Unarranged(sh, inp), FullGeometry(sh, inp));
  }

  /** So does the horizontal one. */
  lemma FullHorizontal(sh: Shaper, inp: Input) returns (tallest: int)
    requires inp.config.mode == Horizontal && NonNegative(sh)
    ensures HorizontalPlaces(Unarranged(sh, inp), FullGeometry(sh, inp), tallest)
  {
    FullIsArranged(sh, inp);
    UnarrangedSized(sh, inp);
    tallest := HorizontalExactly(Unarranged(sh, inp), FullGeometry(sh, inp));
  }
}
