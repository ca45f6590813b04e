/**
 The geometry of the candidate panel (src/ui/panel/layout.c): sizes in whole
 logical pixels from the metrics of shaped text, and the vertical and horizontal
 arrangement of rows, preedit and mode label.  Subpixel origins are reals.
 */
module PanelGeometry {
  import opened Common
  import opened CandidateText
  import opened PanelLayoutCache

  const MIN_WIDTH := 220
  const PAD_X := 10
  const PAD_Y := 6
  const ROW_PAD_X := 6
  const ROW_PAD_Y := 3
  const ROW_GAP := 0
  const COL_GAP := 2
  const SECTION_GAP := 6
  const LABEL_GAP := 5

  datatype Mode = Vertical | Horizontal

  datatype Config = Config(
    theme: int, mode: Mode, fontSize: int, modeIndicator: bool, font: string, captionFont: string, auxFont: string)

  /** Text measuring and font scaling, fixed functions of their arguments. */
  datatype Shaper = Shaper(measure: (string, string) -> Metrics, scaled: (string, real) -> string)

  /** A row: which texts its layouts were shaped from, its sizes, and where it is put. */
  datatype Row = Row(id: Identity, size: Size, box: Box, at: Origins)

  datatype Size = Size(captionW: int, captionH: int, textW: int, textH: int, captionInk: real, textInk: real)

  datatype Box = Box(x: int, y: int, w: int, h: int)

  datatype Origins = Origins(captionX: real, captionY: real, textX: real, textY: real)

  /** The preedit and the mode label: what was shaped, "" for nothing, and its size. */
  datatype Aux = Aux(preedit: string, preW: int, preH: int, mode: string, modeW: int, modeH: int)

  datatype Frame = Frame(
    preX: real, preY: real, modeX: real, modeY: real, divider: int, panelW: int, panelH: int)

  datatype Geometry = Geometry(
    rows: seq<Row>, aux: Aux, frame: Frame, scale: real, sig: nat, palette: nat,
    preeditText: string, modeLabel: string, config: Config)

  /** What a render is asked to show; a missing string is "". */
  datatype Input = Input(
    cands: seq<Candidate>, sig: nat, preedit: string, mode: string, config: Config, palette: nat, scale: real)

  const BLANK: Frame := Frame(0.0, 0.0, 0.0, 0.0, 0, 0, 0)

  function Max(a: int, b: int): int {
    if a > b then a else b
  }

  function Ceil(x: real): (r: int)
    ensures r as real >= x && (r - 1) as real < x
  {
    -((-x).Floor)
  }

  function UsableScale(scale: real): (r: real)
    ensures r > 0.0
  {
    if scale > 0.0 then scale else 1.0
  }

  function LogicalPx(px: real, scale: real): (r: int)
    ensures px >= 0.0 ==> r >= 0
    ensures px > 0.0 ==> r > 0
  {
    Positive(px, UsableScale(scale));
    Ceil(px / UsableScale(scale))
  }

  lemma Positive(x: real, y: real)
    requires y > 0.0
    ensures x >= 0.0 ==> x / y >= 0.0
    ensures x > 0.0 ==> x / y > 0.0
  {
    if x / y < 0.0 {
      assert (x / y) * y < 0.0;
    }
  }

  function Font(sh: Shaper, font: string, scale: real): (r: string)
    ensures |r| < 96
  {
    Clip(sh.scaled(font, scale), 96)
  }

  function BlankRow(id: Identity, caption: Metrics, text: Metrics, scale: real): Row {
    var cw, ch := LogicalPx(caption.w, scale), LogicalPx(caption.h, scale);
    var tw, th := LogicalPx(text.w, scale), LogicalPx(text.h, scale);
    Row(id, Size(cw, ch, tw, th, caption.baseline / UsableScale(scale), text.baseline / UsableScale(scale)),
        Box(0, 0, cw + LABEL_GAP + tw + ROW_PAD_X * 2, Max(ch, th) + ROW_PAD_Y * 2), Origins(0.0, 0.0, 0.0, 0.0))
  }

  function RowOf(sh: Shaper, c: Candidate, i: nat, config: Config, scale: real): Row {
    var id := RowIdentity(c, i, Font(sh, config.captionFont, scale), Font(sh, config.font, scale));
    BlankRow(id, sh.measure(id.caption, id.captionFont), sh.measure(id.text, id.font), scale)
  }

  function AuxOf(sh: Shaper, config: Config, scale: real, preedit: string, mode: string): Aux {
    var font := Font(sh, config.auxFont, scale);
    var pre := if preedit != "" then sh.measure(preedit, font) else Metrics(0.0, 0.0, 0.0);
    var shown := if config.modeIndicator then mode else "";
    var mod := if shown != "" then sh.measure(shown, font) else Metrics(0.0, 0.0, 0.0);
    Aux(preedit, LogicalPx(pre.w, scale), LogicalPx(pre.h, scale),
        shown, LogicalPx(mod.w, scale), LogicalPx(mod.h, scale))
  }

  // ---------------------------------------------------------------- vertical arrangement

  function MaxCaption(rows: seq<Row>): (r: int)
    ensures r >= 0 && forall i :: 0 <= i < |rows| ==> rows[i].size.captionW <= r
  {
    if rows == [] then 0 else Max(MaxCaption(rows[..|rows| - 1]), rows[|rows| - 1].size.captionW)
  }

  /** The content width: `least` or the widest row with its captions aligned. */
  function WidestRow(rows: seq<Row>, maxCaption: int, least: int): (r: int)
    ensures r >= least
    ensures forall i :: 0 <= i < |rows| ==> maxCaption + LABEL_GAP + rows[i].size.textW + ROW_PAD_X * 2 <= r
  {
    if rows == [] then least
    else
      var n := |rows| - 1;
      Max(WidestRow(rows[..n], maxCaption, least), maxCaption + LABEL_GAP + rows[n].size.textW + ROW_PAD_X * 2)
  }

  /** The top of row `n` relative to the first row. */
  function RowTop(rows: seq<Row>, n: nat): int
    requires n <= |rows|
  {
    if n == 0 then 0 else RowTop(rows, n - 1) + rows[n - 1].box.h + (if n < |rows| then ROW_GAP else 0)
  }

  predicate ShowsMode(a: Aux) {
    a.mode != "" && a.modeH > 0
  }

  function VerticalWidth(rows: seq<Row>, a: Aux): int {
    var w := WidestRow(rows, MaxCaption(rows), a.preW);
    if ShowsMode(a) then Max(a.modeW, w) else w
  }

  function VerticalHeight(rows: seq<Row>, a: Aux, preUsed: bool): int {
    (if preUsed then a.preH else 0) + RowTop(rows, |rows|) + (if preUsed && |rows| > 0 then SECTION_GAP else 0)
    + (if ShowsMode(a) then SECTION_GAP + a.modeH else 0)
  }

  function PanelWidth(content: int, rows: seq<Row>): int {
    var w := content + PAD_X * 2;
    if |rows| > 0 && w < MIN_WIDTH then MIN_WIDTH else w
  }

  function RowsStart(a: Aux, preUsed: bool): int {
    PAD_Y + (if preUsed then a.preH + SECTION_GAP else 0)
  }

  /** Half the slack, rounded towards zero as C does; it is never negative. */
  function Centering(panelW: int, content: int): int {
    var d := (panelW - PAD_X * 2 - (content - ROW_PAD_X * 2)) / 2;
    if d < 0 then 0 else d
  }

  function TextTop(r: Row, y: int): real {
    (y + ROW_PAD_Y) as real + ((r.box.h - ROW_PAD_Y * 2) as real - r.size.textH as real) * 0.5
  }

  function PutVertical(r: Row, y: int, panelW: int, maxCaption: int, off: int): Row {
    var top := TextTop(r, y);
    Row(r.id, r.size, Box(PAD_X, y, panelW - PAD_X * 2, r.box.h),
        Origins((PAD_X + ROW_PAD_X + off) as real, top + r.size.textInk - r.size.captionInk,
                (PAD_X + ROW_PAD_X + maxCaption + LABEL_GAP + off) as real, top))
  }

  function VerticalRows(rows: seq<Row>, y: int, panelW: int, maxCaption: int, off: int): (r: seq<Row>)
    ensures |r| == |rows|
    ensures forall i {:trigger r[i]} :: 0 <= i < |r| ==>
      r[i] == PutVertical(rows[i], y + RowTop(rows, i), panelW, maxCaption, off)
  {
    seq(|rows|, i requires 0 <= i < |rows| => PutVertical(rows[i], y + RowTop(rows, i), panelW, maxCaption, off))
  }

  function VerticalFrame(rows: seq<Row>, a: Aux, before: Frame, preUsed: bool): Frame {
    var panelW := PanelWidth(VerticalWidth(rows, a), rows);
    var panelH := VerticalHeight(rows, a, preUsed) + PAD_Y * 2;
    Frame(
      PAD_X as real, PAD_Y as real,
      if ShowsMode(a) then (panelW - PAD_X - a.modeW) as real else before.modeX,
      if ShowsMode(a) then (panelH - PAD_Y - a.modeH) as real else before.modeY,
      if ShowsMode(a) then panelH - PAD_Y - a.modeH - ROW_PAD_Y else -1,
      panelW, panelH)
  }

  /** compute_positions_vertical */
  function ArrangeVertical(g: Geometry, preUsed: bool): Geometry {
    var content := VerticalWidth(g.rows, g.aux);
    var panelW := PanelWidth(content, g.rows);
    g.(rows := VerticalRows(g.rows, RowsStart(g.aux, preUsed), panelW, MaxCaption(g.rows), Centering(panelW, content)),
       frame := VerticalFrame(g.rows, g.aux, g.frame, preUsed))
  }

  // ---------------------------------------------------------------- horizontal arrangement

  /** The width of the first `n` rows side by side. */
  function RowsWidth(rows: seq<Row>, n: nat): int
    requires n <= |rows|
  {
    if n == 0 then 0
    else
      var w := RowsWidth(rows, n - 1);
      w + (if w > 0 then COL_GAP else 0) + rows[n - 1].box.w
  }

  function TallestRow(rows: seq<Row>): (r: int)
    ensures r >= 0 && forall i :: 0 <= i < |rows| ==> rows[i].box.h <= r
  {
    if rows == [] then 0
    else
      var n := |rows| - 1;
      var before := TallestRow(rows[..n]);
      if rows[n].box.h > before then rows[n].box.h else before
  }

  /** The left edge of row `n` relative to the first row. */
  function RowLeft(rows: seq<Row>, n: nat): int
    requires n <= |rows|
  {
    if n == 0 then 0 else RowLeft(rows, n - 1) + rows[n - 1].box.w + COL_GAP
  }

  function HorizontalWidth(rows: seq<Row>, a: Aux): int {
    var line := RowsWidth(rows, |rows|) + (if a.mode != "" && a.modeW > 0 then COL_GAP + a.modeW else 0);
    Max(line, a.preW)
  }

  function HorizontalHeight(rows: seq<Row>, a: Aux, preUsed: bool): int {
    (if preUsed then a.preH else 0) + TallestRow(rows) + (if preUsed && |rows| > 0 then SECTION_GAP else 0)
  }

  function PutHorizontal(r: Row, x: int, y: int): Row {
    var top := TextTop(r, y);
    Row(r.id, r.size, Box(x, y, r.box.w, r.box.h),
        Origins((x + ROW_PAD_X) as real, top + r.size.textInk - r.size.captionInk,
                (x + ROW_PAD_X + r.size.captionW + LABEL_GAP) as real, top))
  }

  function HorizontalRows(rows: seq<Row>, y: int): (r: seq<Row>)
    ensures |r| == |rows|
    ensures forall i {:trigger r[i]} :: 0 <= i < |r| ==> r[i] == PutHorizontal(rows[i], PAD_X + RowLeft(rows, i), y)
  {
    seq(|rows|, i requires 0 <= i < |rows| => PutHorizontal(rows[i], PAD_X + RowLeft(rows, i), y))
  }

  function HorizontalFrame(rows: seq<Row>, a: Aux, before: Frame, preUsed: bool): Frame {
    var panelW := PanelWidth(HorizontalWidth(rows, a), rows);
    Frame(
      PAD_X as real, PAD_Y as real,
      if ShowsMode(a) then (panelW - PAD_X - a.modeW) as real else before.modeX,
      if ShowsMode(a) then (RowsStart(a, preUsed) + ROW_PAD_Y) as real else before.modeY,
      -1, panelW, HorizontalHeight(rows, a, preUsed) + PAD_Y * 2)
  }

  /** compute_positions_horizontal */
  function ArrangeHorizontal(g: Geometry, preUsed: bool): Geometry {
    g.(rows := HorizontalRows(g.rows, RowsStart(g.aux, preUsed)),
       frame := HorizontalFrame(g.rows, g.aux, g.frame, preUsed))
  }

  function Arrange(g: Geometry, preUsed: bool): Geometry {
    match g.config.mode
    case Vertical => ArrangeVertical(g, preUsed)
    case Horizontal => ArrangeHorizontal(g, preUsed)
  }

  // ---------------------------------------------------------------- the whole geometry

  function Unarranged(sh: Shaper, inp: Input): Geometry {
    var scale := UsableScale(inp.scale);
    Geometry(
      seq(|inp.cands|, i requires 0 <= i < |inp.cands| => RowOf(sh, inp.cands[i], i, inp.config, scale)),
      AuxOf(sh, inp.config, scale, inp.preedit, inp.mode), BLANK, scale, inp.sig, inp.palette,
      Clip(inp.preedit, 256), Clip(inp.mode, 128), inp.config)
  }

  /** What panel_geometry_compute gives without any cache; it refuses more than 16 candidates. */
  function FullGeometry(sh: Shaper, inp: Input): Geometry {
    Arrange(Unarranged(sh, inp), inp.preedit != "")
  }

  /** panel_geometry_update_aux: keep the base if preedit and mode label still have their old sizes. */
  function UpdateAux(sh: Shaper, base: Geometry, preedit: string, mode: string): Option<Geometry> {
    var a := AuxOf(sh, base.config, base.scale, preedit, mode);
    if a.preW != base.aux.preW || a.preH != base.aux.preH || a.modeW != base.aux.modeW || a.modeH != base.aux.modeH
    then None
    else Some(base.(aux := a, preeditText := Clip(preedit, 256), modeLabel := Clip(mode, 128)))
  }
}
