/**
 The panel with its layout cache and its current geometry (src/ui/panel/panel.c):
 which geometry a run of renders, hides and configuration changes leaves behind,
 and whether the layouts its rows borrow are still alive.
 */
module Panel {
  import opened Common
  import opened CandidateText
  import opened PanelLayoutCache
  import opened PanelGeometry
  import opened PanelRender
  import C = PanelContent
  import T = PanelGeometryTheorems

  // ---------------------------------------------------------------- what is shown

  /** The request that the current geometry answers, and whether its rows outlived their layouts. */
  datatype Shown = Shown(made: Option<Input>, stale: bool)

  /** A hide does nothing unless the panel is visible, which depends on presentation. */
  datatype Op = Show(inp: Input) | Hide(visible: bool) | Reconfigure

  /** The render keeps the rows of the geometry that answers `made`, as they are or in a copy. */
  predicate Keeps(sh: Shaper, made: Input, inp: Input) {
    match Classify(FullGeometry(sh, made), inp)
    case Selection => true
    case AuxOnly => UpdateAux(sh, FullGeometry(sh, made), inp.preedit, inp.mode).Some?
    case _ => false
  }

  /** The render empties the cache, then fails, and leaves a geometry with rows behind. */
  predicate Strands(sh: Shaper, made: Input, inp: Input) {
    Classify(FullGeometry(sh, made), inp) == Style && |inp.cands| > MAX_ROWS && made.cands != []
  }

  function Step(sh: Shaper, s: Shown, op: Op): Shown {
    match op
    case Hide(visible) => if visible then Shown(None, false) else s
    case Reconfigure => Shown(None, false)
    case Show(inp) =>
      if s.made.Some? && Keeps(sh, s.made.value, inp) then s.(made := Some(Answered(sh, s.made.value, inp)))
      else if |inp.cands| <= MAX_ROWS then Shown(Some(inp), false)
      else s.(stale := s.stale || (s.made.Some? && Strands(sh, s.made.value, inp)))
  }

  /** The state after a run on a fresh panel. */
  function Steps(sh: Shaper, ops: seq<Op>): Shown {
    if ops == [] then Shown(None, false) else Step(sh, Steps(sh, ops[..|ops| - 1]), ops[|ops| - 1])
  }

  lemma StepsSnoc(sh: Shaper, ops: seq<Op>, i: nat)
    requires i < |ops|
    ensures Steps(sh, ops[..i + 1]) == Step(sh, Steps(sh, ops[..i]), ops[i])
  {
    assert ops[..i + 1][..i] == ops[..i];
  }

  /** The operation leaves the geometry, or at least its rows, in place. */
  predicate Leaves(sh: Shaper, s: Shown, op: Op) {
    match op
    case Hide(visible) => !visible
    case Reconfigure => false
    case Show(inp) => (s.made.Some? && Keeps(sh, s.made.value, inp)) || |inp.cands| > MAX_ROWS
  }

  predicate StrandsNow(sh: Shaper, s: Shown, op: Op) {
    op.Show? && s.made.Some? && Strands(sh, s.made.value, op.inp)
  }

  /** Operation `i` strands the rows, and every later one leaves them in place. */
  predicate StrandedAt(sh: Shaper, ops: seq<Op>, i: nat)
    requires i < |ops|
  {
    && StrandsNow(sh, Steps(sh, ops[..i]), ops[i])
    && forall j :: i < j < |ops| ==> Leaves(sh, Steps(sh, ops[..j]), ops[j])
  }

  ghost predicate Stranded(sh: Shaper, ops: seq<Op>) {
    exists i: nat :: i < |ops| && StrandedAt(sh, ops, i)
  }

  lemma StrandedBefore(sh: Shaper, ops: seq<Op>, last: Op, i: nat)
    requires i < |ops|
    ensures StrandedAt(sh, ops + [last], i) <==> StrandedAt(sh, ops, i) && Leaves(sh, Steps(sh, ops), last)
  {
    var all := ops + [last];
    assert all[..|ops|] == ops;
    assert forall j :: 0 <= j < |ops| ==> all[..j] == ops[..j] && all[j] == ops[j];
  }

  lemma StrandedNext(sh: Shaper, ops: seq<Op>, last: Op)
    ensures Stranded(sh, ops + [last]) <==>
      (Stranded(sh, ops) && Leaves(sh, Steps(sh, ops), last)) || StrandsNow(sh, Steps(sh, ops), last)
  {
    var all := ops + [last];
    forall i: nat | i < |ops|
      ensures StrandedAt(sh, all, i) <==> StrandedAt(sh, ops, i) && Leaves(sh, Steps(sh, ops), last)
    {
      StrandedBefore(sh, ops, last, i);
    }
    assert all[..|ops|] == ops && all[|ops|] == last;
    assert StrandedAt(sh, all, |ops|) <==> StrandsNow(sh, Steps(sh, ops), last);
  }

  lemma StaleNext(sh: Shaper, s: Shown, op: Op)
    ensures Step(sh, s, op).stale <==> (s.stale && Leaves(sh, s, op)) || StrandsNow(sh, s, op)
  {
  }

  /**
   After any run the rows are stale exactly if some render with another style and
   more than 16 candidates failed over a geometry with rows, and nothing has
   replaced that geometry since.
   */
  lemma {:induction false} StaleIff(sh: Shaper, ops: seq<Op>)
    ensures Steps(sh, ops).stale <==> Stranded(sh, ops)
  {
    if ops != [] {
      var before, last := ops[..|ops| - 1], ops[|ops| - 1];
      assert ops == before + [last];
      StaleIff(sh, before);
      StaleNext(sh, Steps(sh, before), last);
      StrandedNext(sh, before, last);
    }
  }

  // ---------------------------------------------------------------- rows and their layouts

  /** A row as the cache lends it, before it is placed. */
  function RowFrom(b: Borrowed, scale: real): Row {
    BlankRow(TextsOf(b), b.labelMetrics, b.metrics, scale)
  }

  function TextsOf(b: Borrowed): Identity {
    Identity(b.labelShape.text, b.shape.text, b.labelShape.font, b.shape.font)
  }

  /** Both layouts of the row are in the cache. */
  predicate Held(place: seq<Place>, b: Borrowed) {
    && b.labelShape.id < |place| && place[b.labelShape.id].InSlot?
    && b.shape.id < |place| && place[b.shape.id].InSlot?
  }

  predicate FreedBoth(place: seq<Place>, b: Borrowed) {
    && b.labelShape.id < |place| && place[b.labelShape.id] == Freed
    && b.shape.id < |place| && place[b.shape.id] == Freed
  }

  ghost predicate AllHeld(place: seq<Place>, lent: seq<Borrowed>) {
    forall i :: 0 <= i < |lent| ==> Held(place, lent[i])
  }

  ghost predicate NoneHeld(place: seq<Place>, lent: seq<Borrowed>) {
    forall i :: 0 <= i < |lent| ==> !Held(place, lent[i])
  }

  ghost predicate AllFreed(place: seq<Place>, lent: seq<Borrowed>) {
    forall i :: 0 <= i < |lent| ==> FreedBoth(place, lent[i])
  }

  lemma LentIsHeld(s: seq<Slot>, place: seq<Place>, at: seq<nat>, lent: seq<Borrowed>)
    requires Placed(s, place) && AllLent(s, at, lent)
    ensures AllHeld(place, lent)
  {
    forall i | 0 <= i < |lent|
      ensures Held(place, lent[i])
    {
      WhereHeld(s, place, at[i], lent[i].labelShape.id);
      WhereHeld(s, place, at[i], lent[i].shape.id);
    }
  }

  /** An empty cache holds no row. */
  lemma NothingHeld(s: seq<Slot>, place: seq<Place>, b: Borrowed)
    requires Placed(s, place) && forall k :: 0 <= k < |s| ==> s[k].Empty?
    ensures !Held(place, b)
  {
  }

  lemma HeldAreFreed(before: seq<Place>, after: seq<Place>, lent: seq<Borrowed>)
    requires AllHeld(before, lent) && |after| == |before|
    requires forall id :: 0 <= id < |after| ==> after[id] == if before[id].InSlot? then Freed else before[id]
    ensures AllFreed(after, lent)
  {
    forall i | 0 <= i < |lent|
      ensures FreedBoth(after, lent[i])
    {
      assert Held(before, lent[i]);
    }
  }

  /** What is known of the rows: stale ones have lost their layouts, others have not unless the tick wrapped. */
  ghost predicate Known(place: seq<Place>, served: nat, lent: seq<Borrowed>, stale: bool) {
    && (stale ==> lent != [] && NoneHeld(place, lent))
    && (!stale && served <= MAX_TICK ==> AllHeld(place, lent))
  }

  lemma KnownEmptied(s: seq<Slot>, before: seq<Place>, after: seq<Place>, served: nat, lent: seq<Borrowed>, stale: bool)
    requires Known(before, served, lent, stale)
    requires |after| == |before| && Placed(s, after) && forall k :: 0 <= k < |s| ==> s[k].Empty?
    requires forall id :: 0 <= id < |after| ==> after[id] == if before[id].InSlot? then Freed else before[id]
    ensures Known(after, 0, lent, stale || lent != [])
    ensures !stale && served <= MAX_TICK ==> AllFreed(after, lent)
  {
    forall i | 0 <= i < |lent|
      ensures !Held(after, lent[i])
    {
      NothingHeld(s, after, lent[i]);
    }
    if !stale && served <= MAX_TICK {
      HeldAreFreed(before, after, lent);
    }
  }

  lemma KnownIff(place: seq<Place>, served: nat, lent: seq<Borrowed>, stale: bool)
    requires Known(place, served, lent, stale) && served <= MAX_TICK
    ensures AllHeld(place, lent) <==> !stale
  {
    if stale {
      assert !Held(place, lent[0]);
    }
  }

  /** The rows show the texts of the layouts they borrow. */
  ghost predicate Carries(rows: seq<Row>, lent: seq<Borrowed>) {
    |rows| == |lent| && forall i :: 0 <= i < |rows| ==> rows[i].id == TextsOf(lent[i])
  }

  /** Rows lent by the cache are the rows of uncached computation. */
  lemma LentRows(sh: Shaper, inp: Input, lent: seq<Borrowed>)
    requires var scale := UsableScale(inp.scale);
      RowsOk(lent, inp.cands, Font(sh, inp.config.captionFont, scale), Font(sh, inp.config.font, scale), sh.measure)
    ensures |lent| == |inp.cands|
    ensures forall i :: 0 <= i < |lent| ==> RowFrom(lent[i], UsableScale(inp.scale)) == Unarranged(sh, inp).rows[i]
  {
    var scale := UsableScale(inp.scale);
    forall i | 0 <= i < |lent|
      ensures RowFrom(lent[i], scale) == RowOf(sh, inp.cands[i], i, inp.config, scale)
    {
      var id := RowIdentity(inp.cands[i], i, Font(sh, inp.config.captionFont, scale), Font(sh, inp.config.font, scale));
      assert AsUncached(lent[i], id, sh.measure);
    }
  }

  lemma LentCarries(sh: Shaper, inp: Input, lent: seq<Borrowed>)
    requires |lent| == |inp.cands|
    requires forall i :: 0 <= i < |lent| ==> RowFrom(lent[i], UsableScale(inp.scale)) == Unarranged(sh, inp).rows[i]
    ensures Carries(FullGeometry(sh, inp).rows, lent)
  {
    C.ArrangeKeeps(Unarranged(sh, inp), inp.preedit != "");
    forall i | 0 <= i < |lent|
      ensures FullGeometry(sh, inp).rows[i].id == TextsOf(lent[i])
    {
      assert RowFrom(lent[i], UsableScale(inp.scale)).id == TextsOf(lent[i]);
    }
  }

  function AuxSizes(a: Aux): (int, int, int, int) {
    (a.preW, a.preH, a.modeW, a.modeH)
  }

  // ---------------------------------------------------------------- the panel

  class Panel {
    const shaper: Shaper
    const cache: LayoutCache
    var geom: Snapshot?
    ghost var shown: Shown

    ghost predicate Valid()
      reads this, cache, cache.entries, geom, if geom != null then {geom.rows} else {}
    {
      && cache.Valid() && cache.measure == shaper.measure
      && T.TextHasHeight(shaper)
      && (geom == null <==> shown.made.None?)
      && (geom == null ==> !shown.stale)
      && (geom != null ==> Answers(geom, shown.made.value) && Known(cache.place, cache.served, geom.lent, shown.stale))
    }

    ghost predicate Answers(g: Snapshot, made: Input)
      reads g, g.rows
    {
      && g.View() == FullGeometry(shaper, made)
      && Carries(g.View().rows, g.lent) && |g.lent| == |made.cands|
    }

    constructor (shaper: Shaper, hash: Identity -> nat)
      requires T.TextHasHeight(shaper)
      ensures Valid() && geom == null && this.shaper == shaper && fresh(cache) && fresh(cache.entries)
      ensures shown == Shown(None, false) && cache.served == 0
    {
      this.shaper := shaper;
      cache := new LayoutCache(hash, shaper.measure, true);
      geom := null;
      shown := Shown(None, false);
    }

    /** panel_geometry_compute, through the cache. */
    method Compute(inp: Input) returns (g: Snapshot?)
      requires cache.Valid() && cache.measure == shaper.measure
      modifies cache, cache.entries
      ensures cache.Valid()
      ensures g == null <==> |inp.cands| > MAX_ROWS
      ensures g == null ==> cache.served == old(cache.served) && cache.place == old(cache.place)
      ensures g == null ==> cache.entries[..] == old(cache.entries[..])
      ensures g != null ==> fresh(g) && fresh(g.rows) && Answers(g, inp)
      // told from the request: every string in its place and font, in its measured size
      ensures g != null ==> C.Shows(shaper, g.View(), inp)
      ensures g != null ==> cache.served == old(cache.served) + |inp.cands|
      ensures g != null && cache.served <= MAX_TICK ==> AllHeld(cache.place, g.lent)
    {
      if |inp.cands| > MAX_ROWS {
        return null;
      }
      var scale := UsableScale(inp.scale);
      var captionFont, font := Font(shaper, inp.config.captionFont, scale), Font(shaper, inp.config.font, scale);
      ghost var at;
      var lent;
      lent, at := cache.BorrowRows(inp.cands, captionFont, font);
      LentRows(shaper, inp, lent);
      LentCarries(shaper, inp, lent);
      if cache.served <= MAX_TICK {
        LentIsHeld(cache.entries[..], cache.place, at, lent);
      }
      g := Laid(inp, lent, scale);
      C.FullShows(shaper, inp);
    }

    /** The rows of a new geometry, arranged. */
    method Laid(inp: Input, lent: seq<Borrowed>, scale: real) returns (g: Snapshot)
      requires scale == UsableScale(inp.scale) && |lent| == |inp.cands|
      requires forall i :: 0 <= i < |lent| ==> RowFrom(lent[i], scale) == Unarranged(shaper, inp).rows[i]
      ensures fresh(g) && fresh(g.rows) && g.lent == lent && g.View() == FullGeometry(shaper, inp)
    {
      var rows := new Row[|lent|](i requires 0 <= i < |lent| => RowFrom(lent[i], scale));
      assert rows[..] == Unarranged(shaper, inp).rows;
      g := new Snapshot(rows, lent, AuxOf(shaper, inp.config, scale, inp.preedit, inp.mode), BLANK, scale,
                        inp.sig, inp.palette, inp.preedit, inp.mode, inp.config);
      if inp.config.mode == Vertical {
        g.PositionVertical(inp.preedit != "");
      } else {
        g.PositionHorizontal(inp.preedit != "");
      }
    }

    /**
     panel_geometry_update_aux: fails exactly when the new preedit or mode label has
     another size; otherwise the copy is the full geometry of the changed request
     and borrows the same layouts.
     */
    method Update(base: Snapshot, preedit: string, mode: string, ghost made: Input) returns (g: Snapshot?)
      requires T.TextHasHeight(shaper) && Answers(base, made)
      ensures g != null <==>
        AuxSizes(FullGeometry(shaper, made.(preedit := preedit, mode := mode)).aux) == AuxSizes(base.aux)
      ensures g != null ==> fresh(g) && fresh(g.rows) && g.lent == base.lent
      ensures g != null ==> Answers(g, made.(preedit := preedit, mode := mode))
    {
      var a := AuxOf(shaper, base.config, base.scale, preedit, mode);
      FullFields(shaper, made);
      FullFields(shaper, made.(preedit := preedit, mode := mode));
      if a.preW != base.aux.preW || a.preH != base.aux.preH || a.modeW != base.aux.modeW || a.modeH != base.aux.modeH {
        return null;
      }
      var copy := base.rows[..];
      var rows := new Row[|copy|](i requires 0 <= i < |copy| => copy[i]);
      assert rows[..] == copy;
      g := new Snapshot(rows, base.lent, a, base.frame, base.scale, base.sig, base.palette, preedit, mode, base.config);
      T.UpdateIsFull(shaper, made, preedit, mode);
      assert g.View() == UpdateAux(shaper, base.View(), preedit, mode).value;
    }

    /** The stored snapshot as a value. */
    function Current(g: Snapshot): (v: Geometry)
      reads g, g.rows
      ensures v == g.View()
    {
      Geometry(g.rows[..], g.aux, g.frame, g.scale, g.sig, g.palette, g.preeditText, g.modeLabel, g.config)
    }

    /**
     panel_render up to presentation.  It fails exactly for more than 16 candidates
     where the geometry cannot be kept; the old geometry then stays, and if its style
     is not the requested one, the layouts of all its rows have been freed.
     */
    method Render(inp: Input) returns (ok: bool)
      requires Valid()
      modifies this, cache, cache.entries
      ensures Valid() && shown == Step(shaper, old(shown), Show(inp))
      ensures !ok <==> |inp.cands| > MAX_ROWS && (old(geom) == null || !Keeps(shaper, old(shown).made.value, inp))
      ensures !ok ==> geom == old(geom)
      ensures ok ==> geom != null
      ensures ok && old(geom) != null ==> geom.View() == Rendered(shaper, old(geom.View()), inp)
      ensures cache.served <= old(cache.served) + |inp.cands|
      ensures old(geom) != null && Keeps(shaper, old(shown).made.value, inp) ==>
        geom.lent == old(geom.lent) && cache.place == old(cache.place)
      ensures shown.stale && !old(shown).stale && old(cache.served) <= MAX_TICK ==> AllFreed(cache.place, geom.lent)
    {
      if geom == null {
        ok := Recompute(inp);
      } else {
        ok := RenderOver(inp);
      }
    }

    /** The render over an earlier geometry. */
    method RenderOver(inp: Input) returns (ok: bool)
      requires Valid() && geom != null
      modifies this, cache, cache.entries
      ensures Valid() && shown == Step(shaper, old(shown), Show(inp))
      ensures ok <==> |inp.cands| <= MAX_ROWS || Keeps(shaper, old(shown).made.value, inp)
      ensures !ok ==> geom == old(geom)
      ensures ok ==> geom != null && geom.View() == Rendered(shaper, old(geom.View()), inp)
      ensures cache.served <= old(cache.served) + |inp.cands|
      ensures Keeps(shaper, old(shown).made.value, inp) ==>
        geom.lent == old(geom.lent) && cache.place == old(cache.place)
      ensures shown.stale && !old(shown).stale && old(cache.served) <= MAX_TICK ==> AllFreed(cache.place, geom.lent)
    {
      var delta := Classify(Current(geom), inp);
      if delta == Selection {
        return true;
      }
      if delta == Style {
        ok := Restyle(inp);
        return;
      }
      ok := false;
      if delta == AuxOnly {
        ok := RenderAux(inp);
      }
      if !ok {
        ok := Recompute(inp);
      }
    }

    /** The render of a geometry that differs in preedit or mode label only. */
    method RenderAux(inp: Input) returns (ok: bool)
      requires Valid() && geom != null && Classify(geom.View(), inp) == AuxOnly
      modifies `geom, `shown
      ensures Valid() && ok == UpdateAux(shaper, old(geom.View()), inp.preedit, inp.mode).Some?
      ensures ok ==> shown == old(shown).(made := Some(Answered(shaper, old(shown).made.value, inp)))
      ensures ok ==> geom != null && geom.View() == UpdateAux(shaper, old(geom.View()), inp.preedit, inp.mode).value
      ensures ok ==> geom.lent == old(geom.lent)
      ensures !ok ==> geom == old(geom) && shown == old(shown)
    {
      ghost var made := shown.made.value;
      FullFields(shaper, made);
      FullFields(shaper, made.(preedit := inp.preedit, mode := inp.mode));
      var g := Update(geom, inp.preedit, inp.mode, made);
      ok := g != null;
      if ok {
        T.UpdateIsFull(shaper, made, inp.preedit, inp.mode);
        shown := shown.(made := Some(made.(preedit := inp.preedit, mode := inp.mode)));
        geom := g;
      }
    }

    /** The render of another style: the cache is emptied first. */
    method Restyle(inp: Input) returns (ok: bool)
      requires Valid() && geom != null && Classify(geom.View(), inp) == Style
      modifies this, cache, cache.entries
      ensures Valid() && (ok <==> |inp.cands| <= MAX_ROWS)
      ensures ok ==> geom != null && geom.View() == FullGeometry(shaper, inp) && shown == Shown(Some(inp), false)
      ensures cache.served <= |inp.cands|
      ensures !ok ==> geom == old(geom)
      ensures !ok ==>
        shown == old(shown).(stale := old(shown).stale || Strands(shaper, old(shown).made.value, inp))
      ensures !ok && !old(shown).stale && old(cache.served) <= MAX_TICK ==> AllFreed(cache.place, geom.lent)
    {
      EmptyCache();
      ok := Recompute(inp);
    }

    /** Emptying the cache under a geometry strands its rows, if it has any. */
    method EmptyCache()
      requires Valid() && geom != null
      modifies `shown, cache, cache.entries
      ensures Valid() && cache.served == 0
      ensures shown == old(shown).(stale := old(shown).stale || old(shown).made.value.cands != [])
      ensures !old(shown).stale && old(cache.served) <= MAX_TICK ==> AllFreed(cache.place, geom.lent)
    {
      ghost var before, served := cache.place, cache.served;
      cache.Invalidate();
      KnownEmptied(cache.entries[..], before, cache.place, served, geom.lent, shown.stale);
      shown := shown.(stale := shown.stale || geom.lent != []);
    }

    method Recompute(inp: Input) returns (ok: bool)
      requires Valid()
      modifies this, cache, cache.entries
      ensures Valid() && (ok <==> |inp.cands| <= MAX_ROWS)
      ensures cache.served <= old(cache.served) + |inp.cands|
      ensures !ok ==> geom == old(geom) && shown == old(shown) && cache.place == old(cache.place)
      ensures ok ==> geom != null && geom.View() == FullGeometry(shaper, inp) && shown == Shown(Some(inp), false)
    {
      var g := Compute(inp);
      ok := g != null;
      if ok {
        shown := Shown(Some(inp), false);
        geom := g;
      }
    }

    /** panel_do_hide: a panel that is not visible keeps its geometry. */
    method HidePanel(visible: bool)
      requires Valid()
      modifies `geom, `shown
      ensures Valid() && shown == Step(shaper, old(shown), Hide(visible))
      ensures geom == if visible then null else old(geom)
    {
      if visible {
        geom := null;
        shown := Shown(None, false);
      }
    }

    /** typio_panel_invalidate_config: the cache and the geometry go together. */
    method InvalidateConfig()
      requires Valid()
      modifies this, cache, cache.entries
      ensures Valid() && geom == null && shown == Step(shaper, old(shown), Reconfigure)
    {
      cache.Invalidate();
      geom := null;
      shown := Shown(None, false);
    }

    /**
     Any run on a fresh panel: afterwards, unless the tick has wrapped, the cache holds
     the layouts of all rows exactly if no failed render stranded them; of stranded
     rows it holds none.
     */
    method Run(ops: seq<Op>)
      requires Valid() && shown == Shown(None, false)
      modifies this, cache, cache.entries
      ensures Valid() && (geom != null <==> Steps(shaper, ops).made.Some?)
      ensures geom != null ==> geom.View() == FullGeometry(shaper, Steps(shaper, ops).made.value)
      ensures geom != null && cache.served <= MAX_TICK ==>
        (AllHeld(cache.place, geom.lent) <==> !Stranded(shaper, ops))
      ensures Stranded(shaper, ops) ==> geom != null && geom.lent != [] && NoneHeld(cache.place, geom.lent)
    {
      var i := 0;
      while i < |ops|
        invariant i <= |ops| && Valid() && shown == Steps(shaper, ops[..i])
      {
        StepsSnoc(shaper, ops, i);
        Do(ops[i]);
        i := i + 1;
      }
      assert ops[..i] == ops;
      StaleIff(shaper, ops);
      if geom != null && cache.served <= MAX_TICK {
        KnownIff(cache.place, cache.served, geom.lent, shown.stale);
      }
    }

    method Do(op: Op)
      requires Valid()
      modifies this, cache, cache.entries
      ensures Valid() && shown == Step(shaper, old(shown), op)
    {
      match op {
        case Show(inp) =>
          var ok := Render(inp);
        case Hide(visible) =>
          HidePanel(visible);
        case Reconfigure =>
          InvalidateConfig();
      }
    }
  }

  // ---------------------------------------------------------------- a run that strands its rows

  const LATIN: Config := Config(0, Vertical, 12, false, "Sans", "Sans", "Sans")

  function OneWord(): Input {
    Input([Candidate("a", "", "")], 1, "", "", LATIN, 0, 1.0)
  }

  /** Seventeen candidates in another theme. */
  function LongPage(): Input {
    Input(seq(17, i => Candidate("a", "", "")), 2, "", "", LATIN.(theme := 1), 0, 1.0)
  }

  lemma ExampleSteps(sh: Shaper)
    ensures Classify(FullGeometry(sh, OneWord()), LongPage()) == Style
    ensures Classify(FullGeometry(sh, OneWord()), OneWord()) == Selection
  {
    FullFields(sh, OneWord());
  }

  /** The shortest run that ends with stale rows on show. */
  lemma ExampleIsStale(sh: Shaper)
    ensures Steps(sh, [Show(OneWord()), Show(LongPage()), Show(OneWord())]) == Shown(Some(OneWord()), true)
  {
    var ops := [Show(OneWord()), Show(LongPage()), Show(OneWord())];
    ExampleSteps(sh);
    StepsSnoc(sh, ops, 0);
    StepsSnoc(sh, ops, 1);
    StepsSnoc(sh, ops, 2);
    assert ops[..3] == ops && ops[..0] == [];
  }

  /** One candidate, then seventeen in another theme, then the one again: it is presented from freed layouts. */
  method StrandedExample(sh: Shaper, hash: Identity -> nat) returns (p: Panel, ok: bool)
    requires T.TextHasHeight(sh)
    ensures p.Valid() && ok && p.geom != null && p.geom.View() == FullGeometry(sh, OneWord())
    ensures |p.geom.lent| == 1 && AllFreed(p.cache.place, p.geom.lent)
  {
    p := new Panel(sh, hash);
    ExampleSteps(sh);
    ok := p.Render(OneWord());
    ok := p.Render(LongPage());
    ok := p.Render(OneWord());
  }
}
