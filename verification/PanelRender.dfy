/**
 What a render keeps of the last geometry (src/ui/panel/panel.c), and the geometry
 object with its arranging loops (src/ui/panel/layout.c).
 */
module PanelRender {
  import opened Common
  import opened CandidateText
  import opened PanelLayoutCache
  import opened PanelGeometry
  import T = PanelGeometryTheorems

  // ---------------------------------------------------------------- the render decision

  datatype Delta = Selection | AuxOnly | Content | Style

  /** Scales this close count as equal. */
  const TOLERANCE: real := 0.0001

  predicate ScaleDiffers(a: real, b: real) {
    a - b > TOLERANCE || b - a > TOLERANCE
  }

  /** classify_delta against an existing geometry; the caption font is not compared. */
  function Classify(g: Geometry, inp: Input): Delta {
    if ScaleDiffers(g.scale, inp.scale) || g.palette != inp.palette || g.config.theme != inp.config.theme
       || g.config.mode != inp.config.mode || g.config.fontSize != inp.config.fontSize
       || g.config.modeIndicator != inp.config.modeIndicator || g.config.font != inp.config.font
       || g.config.auxFont != inp.config.auxFont
    then Style
    else if g.sig != inp.sig then Content
    else if g.preeditText != inp.preedit || g.modeLabel != inp.mode then AuxOnly
    else Selection
  }

  /** Two requests look alike but for their content: scales within the tolerance, compared style parts equal. */
  predicate SameStyle(a: Input, b: Input) {
    && UsableScale(a.scale) - b.scale <= 0.0001 && b.scale - UsableScale(a.scale) <= 0.0001
    && a.palette == b.palette && a.config.theme == b.config.theme && a.config.mode == b.config.mode
    && a.config.fontSize == b.config.fontSize && a.config.modeIndicator == b.config.modeIndicator
    && a.config.font == b.config.font && a.config.auxFont == b.config.auxFont
  }

  /**
   What a render takes for changed, told from the two requests: a style, or only the
   candidates, or only preedit or mode label, or nothing, as far as the buffers show.
   */
  lemma ClassifyMeans(sh: Shaper, made: Input, inp: Input)
    ensures var d := Classify(FullGeometry(sh, made), inp);
      var sameTexts := First(made.preedit, 255) == inp.preedit && First(made.mode, 127) == inp.mode;
      && (d == Style <==> !SameStyle(made, inp))
      && (d == Content <==> SameStyle(made, inp) && made.sig != inp.sig)
      && (d == AuxOnly <==> SameStyle(made, inp) && made.sig == inp.sig && !sameTexts)
      && (d == Selection <==> SameStyle(made, inp) && made.sig == inp.sig && sameTexts)
  {
    FullFields(sh, made);
  }

  /** So the same request again changes nothing, if its texts fit their buffers. */
  lemma SameRequestKeeps(sh: Shaper, inp: Input)
    requires inp.scale > 0.0 && |inp.preedit| < 256 && |inp.mode| < 128
    ensures Rendered(sh, FullGeometry(sh, inp), inp) == FullGeometry(sh, inp)
    ensures Classify(FullGeometry(sh, inp), inp) == Selection
  {
    ClassifyMeans(sh, inp, inp);
  }

  /** The geometry a render leaves behind: kept, updated, or computed anew. */
  function Rendered(sh: Shaper, g: Geometry, inp: Input): Geometry {
    match Classify(g, inp)
    case Selection => g
    case AuxOnly =>
      var updated := UpdateAux(sh, g, inp.preedit, inp.mode);
      if updated.Some? then updated.value else FullGeometry(sh, inp)
    case _ => FullGeometry(sh, inp)
  }

  /** The request that geometry answers, given the one the old geometry answered. */
  function Answered(sh: Shaper, made: Input, inp: Input): Input {
    match Classify(FullGeometry(sh, made), inp)
    case Selection => made
    case AuxOnly =>
      if UpdateAux(sh, FullGeometry(sh, made), inp.preedit, inp.mode).Some?
      then made.(preedit := inp.preedit, mode := inp.mode)
      else inp
    case _ => inp
  }

  /** Every geometry that a run of renders leaves behind is the full geometry of some request. */
  lemma RenderedIsFull(sh: Shaper, made: Input, inp: Input)
    requires T.TextHasHeight(sh)
    ensures Rendered(sh, FullGeometry(sh, made), inp) == FullGeometry(sh, Answered(sh, made, inp))
  {
    if UpdateAux(sh, FullGeometry(sh, made), inp.preedit, inp.mode).Some? {
      T.UpdateIsFull(sh, made, inp.preedit, inp.mode);
    }
  }

  /** The two fonts that are not compared follow from what is. */
  predicate FontsFollow(a: Config, b: Config) {
    a.font == b.font && a.fontSize == b.fontSize ==> a.captionFont == b.captionFont
  }

  /** Equal content signatures mean equal candidates. */
  predicate SignatureFaithful(a: Input, b: Input) {
    a.sig == b.sig ==> a.cands == b.cands
  }

  /** `now` is what a buffer of `size` kept of the longer `was`. */
  predicate CutTo(was: string, size: nat, now: string)
    requires size > 0
  {
    |was| >= size && now == was[..size - 1]
  }

  /** A geometry made from a text too long for its buffer is mistaken for one of the truncated text. */
  predicate Mistaken(sh: Shaper, made: Input, inp: Input) {
    Classify(FullGeometry(sh, made), inp) == Selection
    && (CutTo(made.preedit, 256, inp.preedit) || (inp.config.modeIndicator && CutTo(made.mode, 128, inp.mode)))
  }

  lemma ClipEqual(was: string, size: nat, now: string)
    requires size > 0
    ensures Clip(was, size) == now <==> (was == now && |now| < size) || CutTo(was, size, now)
  {
  }

  lemma FullFields(sh: Shaper, inp: Input)
    ensures var g := FullGeometry(sh, inp);
      && g.scale == UsableScale(inp.scale) && g.palette == inp.palette && g.config == inp.config && g.sig == inp.sig
      && g.preeditText == Clip(inp.preedit, 256) && g.modeLabel == Clip(inp.mode, 128)
      && g.aux == AuxOf(sh, inp.config, UsableScale(inp.scale), inp.preedit, inp.mode)
  {
  }

  /** What a geometry kept with the old scale stands for. */
  function AtScale(inp: Input, scale: real): Input {
    inp.(scale := scale)
  }

  lemma SameScaleSame(sh: Shaper, inp: Input)
    ensures FullGeometry(sh, AtScale(inp, UsableScale(inp.scale))) == FullGeometry(sh, inp)
  {
  }

  /** If nothing but the scale can differ, the kept geometry is the full one at the kept scale. */
  lemma KeptIs(sh: Shaper, made: Input, inp: Input)
    requires made.cands == inp.cands && made.config == inp.config && made.palette == inp.palette && made.sig == inp.sig
    requires made.preedit == inp.preedit && made.mode == inp.mode
    ensures FullGeometry(sh, made) == FullGeometry(sh, AtScale(inp, UsableScale(made.scale)))
  {
    SameScaleSame(sh, made);
    assert AtScale(made, UsableScale(made.scale)) == AtScale(inp, UsableScale(made.scale));
  }

  /** The classification compares everything but the texts. */
  lemma KeptMeansSame(sh: Shaper, made: Input, inp: Input)
    requires Classify(FullGeometry(sh, made), inp).Selection? || Classify(FullGeometry(sh, made), inp).AuxOnly?
    requires FontsFollow(made.config, inp.config) && SignatureFaithful(made, inp)
    ensures made.cands == inp.cands && made.config == inp.config && made.palette == inp.palette && made.sig == inp.sig
    ensures !ScaleDiffers(UsableScale(made.scale), inp.scale)
  {
    FullFields(sh, made);
  }

  /** Another mode label with the same shown part makes the same geometry, if its buffer keeps the same. */
  lemma HiddenMode(sh: Shaper, a: Input, mode: string)
    requires !a.config.modeIndicator && Clip(a.mode, 128) == Clip(mode, 128)
    ensures FullGeometry(sh, a) == FullGeometry(sh, a.(mode := mode))
  {
    assert Unarranged(sh, a) == Unarranged(sh, a.(mode := mode));
  }

  /** The geometry is what full recomputation gives for the request at the geometry's own scale. */
  predicate Agrees(sh: Shaper, g: Geometry, inp: Input) {
    g == FullGeometry(sh, AtScale(inp, g.scale))
  }

  predicate ScaleOk(g: Geometry, inp: Input) {
    g.scale == UsableScale(inp.scale) || !ScaleDiffers(g.scale, inp.scale)
  }

  lemma FreshAgrees(sh: Shaper, inp: Input)
    ensures Agrees(sh, FullGeometry(sh, inp), inp) && ScaleOk(FullGeometry(sh, inp), inp)
  {
    FullFields(sh, inp);
    SameScaleSame(sh, inp);
  }

  lemma UpdatedAgrees(sh: Shaper, made: Input, inp: Input)
    requires Classify(FullGeometry(sh, made), inp).AuxOnly?
    requires FontsFollow(made.config, inp.config) && SignatureFaithful(made, inp)
    ensures var after := FullGeometry(sh, made.(preedit := inp.preedit, mode := inp.mode));
      Agrees(sh, after, inp) && ScaleOk(after, inp)
  {
    KeptMeansSame(sh, made, inp);
    KeptIs(sh, made.(preedit := inp.preedit, mode := inp.mode), inp);
    FullFields(sh, made.(preedit := inp.preedit, mode := inp.mode));
  }

  lemma SelectionAgrees(sh: Shaper, made: Input, inp: Input)
    requires Classify(FullGeometry(sh, made), inp).Selection?
    requires FontsFollow(made.config, inp.config) && SignatureFaithful(made, inp)
    ensures var after := FullGeometry(sh, made);
      (Agrees(sh, after, inp) <==> !Mistaken(sh, made, inp)) && ScaleOk(after, inp)
  {
    KeptMeansSame(sh, made, inp);
    FullFields(sh, made);
    SelectionAgreesIff(sh, made, inp);
  }

  /**
   After a render that does not fail, the geometry is the one full recomputation
   gives for the new request, at a scale within the tolerance of the requested
   one, exactly when the request was not mistaken for a truncated older text.
   */
  lemma RenderAgreesIff(sh: Shaper, made: Input, inp: Input)
    requires T.TextHasHeight(sh) && FontsFollow(made.config, inp.config) && SignatureFaithful(made, inp)
    ensures var after := Rendered(sh, FullGeometry(sh, made), inp);
      (Agrees(sh, after, inp) <==> !Mistaken(sh, made, inp)) && ScaleOk(after, inp)
  {
    RenderedIsFull(sh, made, inp);
    AnsweredAgrees(sh, made, inp);
  }

  lemma AnsweredAgrees(sh: Shaper, made: Input, inp: Input)
    requires FontsFollow(made.config, inp.config) && SignatureFaithful(made, inp)
    ensures var after := FullGeometry(sh, Answered(sh, made, inp));
      (Agrees(sh, after, inp) <==> !Mistaken(sh, made, inp)) && ScaleOk(after, inp)
  {
    match Classify(FullGeometry(sh, made), inp) {
      case Selection =>
        SelectionAgrees(sh, made, inp);
      case AuxOnly =>
        UpdatedAgrees(sh, made, inp);
        FreshAgrees(sh, inp);
      case _ =>
        FreshAgrees(sh, inp);
    }
  }

  lemma SelectionAgreesIff(sh: Shaper, made: Input, inp: Input)
    requires Classify(FullGeometry(sh, made), inp) == Selection
    requires made.cands == inp.cands && made.config == inp.config && made.palette == inp.palette && made.sig == inp.sig
    ensures FullGeometry(sh, made) == FullGeometry(sh, AtScale(inp, UsableScale(made.scale))) <==>
      !Mistaken(sh, made, inp)
  {
    FullFields(sh, made);
    ClipEqual(made.preedit, 256, inp.preedit);
    ClipEqual(made.mode, 128, inp.mode);
    var kept := AtScale(inp, UsableScale(made.scale));
    FullFields(sh, kept);
    if made.preedit == inp.preedit {
      if made.mode == inp.mode {
        KeptIs(sh, made, inp);
      } else if !inp.config.modeIndicator {
        KeptIs(sh, made, inp.(mode := made.mode));
        HiddenMode(sh, AtScale(inp.(mode := made.mode), UsableScale(made.scale)), inp.mode);
        assert AtScale(inp.(mode := made.mode), UsableScale(made.scale)).(mode := inp.mode) == kept;
      }
    }
  }

  /** With texts that fit their buffers the render always agrees with full recomputation. */
  lemma ShortTextsAgree(sh: Shaper, made: Input, inp: Input)
    requires T.TextHasHeight(sh) && FontsFollow(made.config, inp.config) && SignatureFaithful(made, inp)
    requires |made.preedit| < 256 && |made.mode| < 128
    ensures Agrees(sh, Rendered(sh, FullGeometry(sh, made), inp), inp)
  {
    RenderAgreesIff(sh, made, inp);
  }

  /** One byte dropped from a preedit of 256 bytes goes unnoticed. */
  lemma MistakenExample(sh: Shaper, inp: Input, last: char)
    requires |inp.preedit| == 255 && |inp.mode| < 128 && inp.scale > 0.0
    ensures Mistaken(sh, inp.(preedit := inp.preedit + [last]), inp)
  {
    var made := inp.(preedit := inp.preedit + [last]);
    FullFields(sh, made);
    assert made.preedit[..255] == inp.preedit;
  }

  // ---------------------------------------------------------------- the geometry object

  /** The first `i` rows have their places, the others are as they were. */
  ghost predicate Partly(s: seq<Row>, was: seq<Row>, goal: seq<Row>, i: nat) {
    && |s| == |was| == |goal|
    && (forall k {:trigger goal[k]} :: 0 <= k < |s| && k < i ==> s[k] == goal[k])
    && (forall k {:trigger s[k]} :: i <= k < |s| ==> s[k] == was[k])
  }

  lemma AllPlaced(s: seq<Row>, was: seq<Row>, goal: seq<Row>)
    requires Partly(s, was, goal, |s|)
    ensures s == goal
  {
  }

  /** PanelGeometry while it is being filled in, and as the snapshot it then is. */
  class Snapshot {
    const rows: array<Row>
    /** The layouts that the rows borrow from the cache. */
    const lent: seq<Borrowed>
    const aux: Aux
    const scale: real
    const sig: nat
    const palette: nat
    const preeditText: string
    const modeLabel: string
    const config: Config
    var frame: Frame

    ghost function View(): Geometry
      reads this, rows
    {
      Geometry(rows[..], aux, frame, scale, sig, palette, preeditText, modeLabel, config)
    }

    constructor (rows: array<Row>, lent: seq<Borrowed>, aux: Aux, frame: Frame, scale: real, sig: nat, palette: nat,
                 preedit: string, mode: string, config: Config)
      ensures this.rows == rows && this.lent == lent && aux == this.aux && this.frame == frame && this.config == config
      ensures this.scale == scale && this.sig == sig && this.palette == palette
      ensures preeditText == Clip(preedit, 256) && modeLabel == Clip(mode, 128)
    {
      this.rows, this.lent, this.aux, this.frame := rows, lent, aux, frame;
      this.scale, this.sig, this.palette, this.config := scale, sig, palette, config;
      preeditText, modeLabel := Clip(preedit, 256), Clip(mode, 128);
    }

    method MeasureVertical(preUsed: bool) returns (contentW: int, contentH: int, maxCaption: int)
      ensures maxCaption == MaxCaption(rows[..])
      ensures contentW == VerticalWidth(rows[..], aux)
      ensures contentH == VerticalHeight(rows[..], aux, preUsed)
    {
      contentW := aux.preW;
      contentH := if preUsed then aux.preH else 0;
      maxCaption := 0;
      var i := 0;
      while i < rows.Length
        invariant i <= rows.Length && maxCaption == MaxCaption(rows[..i])
      {
        assert rows[..i + 1][..i] == rows[..i];
        if rows[i].size.captionW > maxCaption {
          maxCaption := rows[i].size.captionW;
        }
        i := i + 1;
      }
      assert rows[..i] == rows[..];
      i := 0;
      while i < rows.Length
        invariant i <= rows.Length
        invariant contentW == WidestRow(rows[..i], maxCaption, aux.preW)
        invariant contentH == (if preUsed then aux.preH else 0) + RowTop(rows[..], i)
      {
        assert rows[..i + 1][..i] == rows[..i];
        var rw := maxCaption + LABEL_GAP + rows[i].size.textW + ROW_PAD_X * 2;
        if rw > contentW {
          contentW := rw;
        }
        contentH := contentH + rows[i].box.h;
        if i + 1 < rows.Length {
          contentH := contentH + ROW_GAP;
        }
        i := i + 1;
      }
      assert rows[..i] == rows[..];
      if preUsed && rows.Length > 0 {
        contentH := contentH + SECTION_GAP;
      }
      if aux.mode != "" && aux.modeH > 0 {
        contentH := contentH + SECTION_GAP + aux.modeH;
        if aux.modeW > contentW {
          contentW := aux.modeW;
        }
      }
    }

    /** One pass of the placing loop of compute_positions_vertical, where `goal` is the outcome of the whole loop. */
    method PutVerticalAt(i: nat, y: int, panelW: int, maxCaption: int, off: int,
                         ghost was: seq<Row>, ghost goal: seq<Row>) returns (h: int)
      requires Partly(rows[..], was, goal, i) && i < |goal|
      requires goal[i] == PutVertical(was[i], y, panelW, maxCaption, off)
      modifies rows
      ensures h == was[i].box.h && Partly(rows[..], was, goal, i + 1)
    {
      assert rows[..][i] == was[i];
      h := rows[i].box.h;
      rows[i] := PutVertical(rows[i], y, panelW, maxCaption, off);
    }

    method PlaceVertical(start: int, panelW: int, maxCaption: int, off: int)
      modifies rows
      ensures rows[..] == VerticalRows(old(rows[..]), start, panelW, maxCaption, off)
    {
      ghost var was := rows[..];
      ghost var goal := VerticalRows(was, start, panelW, maxCaption, off);
      var y := start;
      var i := 0;
      while i < rows.Length
        invariant i <= rows.Length && y == start + RowTop(was, i) && Partly(rows[..], was, goal, i)
      {
        var h := PutVerticalAt(i, y, panelW, maxCaption, off, was, goal);
        y := y + h + (if i + 1 < rows.Length then ROW_GAP else 0);
        i := i + 1;
      }
      AllPlaced(rows[..], was, goal);
    }

    /** The panel's own size and the mode label's place. */
    method FrameVertical(contentW: int, contentH: int, preUsed: bool) returns (f: Frame)
      requires contentW == VerticalWidth(rows[..], aux) && contentH == VerticalHeight(rows[..], aux, preUsed)
      ensures f == VerticalFrame(rows[..], aux, frame, preUsed)
    {
      var panelW := contentW + PAD_X * 2;
      if rows.Length > 0 && panelW < MIN_WIDTH {
        panelW := MIN_WIDTH;
      }
      var panelH := contentH + PAD_Y * 2;
      f := frame.(preX := PAD_X as real, preY := PAD_Y as real, divider := -1, panelW := panelW, panelH := panelH);
      if aux.mode != "" && aux.modeH > 0 {
        f := f.(modeX := (panelW - PAD_X - aux.modeW) as real,
                divider := panelH - PAD_Y - aux.modeH - ROW_PAD_Y,
                modeY := (panelH - PAD_Y - aux.modeH) as real);
      }
    }

    /** compute_positions_vertical */
    method PositionVertical(preUsed: bool)
      modifies `frame, rows
      ensures View() == ArrangeVertical(old(View()), preUsed)
    {
      var contentW, contentH, maxCaption := MeasureVertical(preUsed);
      var f := FrameVertical(contentW, contentH, preUsed);
      var y := PAD_Y;
      if preUsed {
        y := y + aux.preH + SECTION_GAP;
      }
      var off := (f.panelW - PAD_X * 2 - (contentW - ROW_PAD_X * 2)) / 2;
      if off < 0 {
        off := 0;
      }
      ghost var before := View();
      assert f.panelW == PanelWidth(contentW, before.rows);
      assert off == Centering(f.panelW, contentW) && y == RowsStart(aux, preUsed);
      PlaceVertical(y, f.panelW, maxCaption, off);
      assert rows[..] == ArrangeVertical(before, preUsed).rows;
      frame := f;
    }

    method MeasureHorizontal(preUsed: bool) returns (contentW: int, contentH: int)
      ensures contentW == HorizontalWidth(rows[..], aux)
      ensures contentH == HorizontalHeight(rows[..], aux, preUsed)
    {
      contentH := if preUsed then aux.preH else 0;
      var rowW, rowH := 0, 0;
      var i := 0;
      while i < rows.Length
        invariant i <= rows.Length && rowW == RowsWidth(rows[..], i) && rowH == TallestRow(rows[..i])
      {
        assert rows[..i + 1][..i] == rows[..i];
        if rowW > 0 {
          rowW := rowW + COL_GAP;
        }
        rowW := rowW + rows[i].box.w;
        if rows[i].box.h > rowH {
          rowH := rows[i].box.h;
        }
        i := i + 1;
      }
      assert rows[..i] == rows[..];
      contentH := contentH + rowH;
      if aux.mode != "" && aux.modeW > 0 {
        rowW := rowW + COL_GAP + aux.modeW;
      }
      contentW := if rowW > aux.preW then rowW else aux.preW;
      if preUsed && rows.Length > 0 {
        contentH := contentH + SECTION_GAP;
      }
    }

    /** One pass of the placing loop of compute_positions_horizontal. */
    method PutHorizontalAt(i: nat, x: int, y: int, ghost was: seq<Row>, ghost goal: seq<Row>) returns (w: int)
      requires Partly(rows[..], was, goal, i) && i < |goal| && goal[i] == PutHorizontal(was[i], x, y)
      modifies rows
      ensures w == was[i].box.w && Partly(rows[..], was, goal, i + 1)
    {
      assert rows[..][i] == was[i];
      w := rows[i].box.w;
      rows[i] := PutHorizontal(rows[i], x, y);
    }

    method PlaceHorizontal(y: int)
      modifies rows
      ensures rows[..] == HorizontalRows(old(rows[..]), y)
    {
      ghost var was := rows[..];
      ghost var goal := HorizontalRows(was, y);
      var x := PAD_X;
      var i := 0;
      while i < rows.Length
        invariant i <= rows.Length && x == PAD_X + RowLeft(was, i) && Partly(rows[..], was, goal, i)
      {
        var w := PutHorizontalAt(i, x, y, was, goal);
        x := x + w + COL_GAP;
        i := i + 1;
      }
      AllPlaced(rows[..], was, goal);
    }

    method FrameHorizontal(contentW: int, contentH: int, y: int, ghost preUsed: bool) returns (f: Frame)
      requires contentW == HorizontalWidth(rows[..], aux) && contentH == HorizontalHeight(rows[..], aux, preUsed)
      requires y == RowsStart(aux, preUsed)
      ensures f == HorizontalFrame(rows[..], aux, frame, preUsed)
    {
      var panelW := contentW + PAD_X * 2;
      if rows.Length > 0 && panelW < MIN_WIDTH {
        panelW := MIN_WIDTH;
      }
      f := frame.(preX := PAD_X as real, preY := PAD_Y as real, divider := -1,
                  panelW := panelW, panelH := contentH + PAD_Y * 2);
      if aux.mode != "" && aux.modeH > 0 {
        f := f.(modeX := (panelW - PAD_X - aux.modeW) as real, modeY := (y + ROW_PAD_Y) as real);
      }
    }

    /** compute_positions_horizontal */
    method PositionHorizontal(preUsed: bool)
      modifies `frame, rows
      ensures View() == ArrangeHorizontal(old(View()), preUsed)
    {
      var contentW, contentH := MeasureHorizontal(preUsed);
      var y := PAD_Y;
      if preUsed {
        y := y + aux.preH + SECTION_GAP;
      }
      var f := FrameHorizontal(contentW, contentH, y, preUsed);
      PlaceHorizontal(y);
      frame := f;
    }
  }
}
