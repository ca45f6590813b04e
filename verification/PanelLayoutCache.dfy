/**
 The candidate panel's cache of shaped text (src/ui/panel/layout.c): 128 entries,
 least recently used first out, whose layouts the rows of a geometry borrow.

 A shape carries the text and font it was made from and a serial number, so that
 sharing and freeing can be told apart.  Text metrics and the hash are parameters;
 every result holds for any of them.
 */
module PanelLayoutCache {
  import opened Common
  import opened CandidateText

  const CAPACITY: nat := 128
  const MAX_ROWS: nat := 16
  const MAX_TICK: nat := 0xffff_ffff

  datatype Metrics = Metrics(w: real, h: real, baseline: real)

  datatype Shape = Shape(id: nat, text: string, font: string)

  datatype Slot =
    | Empty
    | Full(key: nat, identity: Identity, labelShape: Shape, shape: Shape,
           labelMetrics: Metrics, metrics: Metrics, tick: nat)

  /** Where the scan for a victim stands after looking at `s`, with the tick it has to beat. */
  function Oldest(s: seq<Slot>): (r: (nat, nat))
    requires forall j :: 0 <= j < |s| && s[j].Full? ==> s[j].tick <= MAX_TICK
    ensures r.0 < |s| || r == (0, MAX_TICK)
    ensures forall j :: 0 <= j < |s| && s[j].Empty? ==> r.0 < |s| && s[r.0].Empty? && r.1 == 0 && j <= r.0
    ensures |s| > 0 && s[r.0].Full? ==> r.1 == s[r.0].tick
    ensures |s| > 0 && s[r.0].Full? ==>
      forall j :: 0 <= j < |s| ==> s[j].Full? && r.1 <= s[j].tick && (j < r.0 ==> r.1 < s[j].tick)
  {
    if s == [] then (0, MAX_TICK)
    else
      var n := |s| - 1;
      var before := Oldest(s[..n]);
      assert forall j :: 0 <= j < n ==> s[..n][j] == s[j];
      if s[n].Empty? then (n, 0)
      else if s[n].tick < before.1 then (n, s[n].tick)
      else before
  }

  /** The entry a miss replaces. */
  function Victim(s: seq<Slot>): (v: nat)
    requires |s| > 0 && forall j :: 0 <= j < |s| && s[j].Full? ==> s[j].tick <= MAX_TICK
    ensures v < |s|
    ensures s[v].Full? ==> forall j :: 0 <= j < |s| ==> s[j].Full? && s[v].tick <= s[j].tick
  {
    Oldest(s).0
  }

  /**
   Once the 32-bit tick has wrapped, the order is lost: in a full cache the entry
   that was just returned with tick 0 is the next victim.
   */
  lemma WrapEvictsLatest(s: seq<Slot>, latest: nat)
    requires latest < |s| && s[latest].Full? && s[latest].tick == 0
    requires forall j :: 0 <= j < |s| ==> s[j].Full? && s[j].tick <= MAX_TICK && (j != latest ==> s[j].tick > 0)
    ensures Victim(s) == latest
  {
    assert s[Victim(s)].tick <= s[latest].tick;
  }

  // ---------------------------------------------------------------- who holds a shape

  /** Where a shape is: in one entry, handed to the retire ring, or freed. */
  datatype Place = InSlot(k: nat) | Evicted | Freed

  predicate Holds(e: Slot, id: nat) {
    e.Full? && (e.shape.id == id || e.labelShape.id == id)
  }

  /** The places of all shapes made so far agree with the entries: in particular no two entries share a shape. */
  ghost predicate Placed(s: seq<Slot>, place: seq<Place>) {
    && (forall k: nat, id: nat :: k < |s| && Holds(s[k], id) ==> At(place, id, k))
    && (forall id: nat :: id < |place| && place[id].InSlot? ==> place[id].k < |s| && Holds(s[place[id].k], id))
  }

  predicate At(place: seq<Place>, id: nat, k: nat) {
    id < |place| && place[id] == InSlot(k)
  }

  /** The places after entry `at` has handed on its shapes. */
  function HandedOn(place: seq<Place>, at: nat, dest: Place): (r: seq<Place>)
    ensures |r| == |place|
    ensures forall id :: 0 <= id < |r| ==> r[id] == if place[id] == InSlot(at) then dest else place[id]
  {
    seq(|place|, id requires 0 <= id < |place| => if place[id] == InSlot(at) then dest else place[id])
  }

  lemma WhereHeld(s: seq<Slot>, place: seq<Place>, k: nat, id: nat)
    requires Placed(s, place) && k < |s| && Holds(s[k], id)
    ensures At(place, id, k)
  {
  }

  /** Every shape has at most one holder, and a held shape was neither evicted nor freed. */
  lemma OneHolder(s: seq<Slot>, place: seq<Place>, j: nat, k: nat, id: nat)
    requires Placed(s, place) && j < |s| && k < |s| && Holds(s[j], id) && Holds(s[k], id)
    ensures j == k && id < |place| && place[id] != Evicted && place[id] != Freed
  {
    WhereHeld(s, place, j, id);
    WhereHeld(s, place, k, id);
  }

  lemma PlacedSame(s: seq<Slot>, place: seq<Place>, at: nat, e: Slot)
    requires at < |s| && Placed(s, place) && (forall id: nat :: Holds(e, id) <==> Holds(s[at], id))
    ensures Placed(s[at := e], place)
  {
    var t := s[at := e];
    forall k: nat, id: nat | k < |t| && Holds(t[k], id)
      ensures At(place, id, k)
    {
      WhereHeld(s, place, k, id);
    }
  }

  lemma PlacedEmptied(s: seq<Slot>, place: seq<Place>, at: nat, dest: Place)
    requires at < |s| && Placed(s, place) && !dest.InSlot?
    ensures Placed(s[at := Empty], HandedOn(place, at, dest))
  {
    var t, after := s[at := Empty], HandedOn(place, at, dest);
    forall k: nat, id: nat | k < |t| && Holds(t[k], id)
      ensures At(after, id, k)
    {
      WhereHeld(s, place, k, id);
    }
    forall id: nat | id < |after| && after[id].InSlot?
      ensures after[id].k < |t| && Holds(t[after[id].k], id)
    {
      assert place[id].InSlot?;
    }
  }

  lemma PlacedFilled(s: seq<Slot>, place: seq<Place>, at: nat, e: Slot)
    requires at < |s| && Placed(s, place) && s[at].Empty?
    requires e.Full? && e.labelShape.id == |place| && e.shape.id == |place| + 1
    ensures Placed(s[at := e], place + [InSlot(at), InSlot(at)])
  {
    var t, after := s[at := e], place + [InSlot(at), InSlot(at)];
    forall k: nat, id: nat | k < |t| && Holds(t[k], id)
      ensures At(after, id, k)
    {
      if k != at {
        WhereHeld(s, place, k, id);
      }
    }
    forall id: nat | id < |after| && after[id].InSlot?
      ensures after[id].k < |t| && Holds(t[after[id].k], id)
    {
      assert id < |place| ==> place[id].InSlot?;
    }
  }

  // ---------------------------------------------------------------- candidates

  /** What a row borrows from the cache. */
  datatype Borrowed = Borrowed(labelShape: Shape, shape: Shape, labelMetrics: Metrics, metrics: Metrics)

  /** Apart from the serial numbers, a row is what shaping its text anew would give. */
  predicate AsUncached(b: Borrowed, id: Identity, measure: (string, string) -> Metrics) {
    && b.labelShape.text == id.caption && b.labelShape.font == id.captionFont
    && b.shape.text == id.text && b.shape.font == id.font
    && b.labelMetrics == measure(id.caption, id.captionFont) && b.metrics == measure(id.text, id.font)
  }

  /** The rows of a geometry are what uncached shaping of its candidates gives. */
  ghost predicate RowsOk(rows: seq<Borrowed>, cands: seq<Candidate>, captionFont: string, font: string,
                         measure: (string, string) -> Metrics)
    requires |captionFont| < 96 && |font| < 96
  {
    |rows| == |cands| &&
    forall i :: 0 <= i < |rows| ==> AsUncached(rows[i], RowIdentity(cands[i], i, captionFont, font), measure)
  }

  lemma RowsOkNext(rows: seq<Borrowed>, cands: seq<Candidate>, captionFont: string, font: string,
                   measure: (string, string) -> Metrics, row: Borrowed, c: Candidate)
    requires |captionFont| < 96 && |font| < 96 && RowsOk(rows, cands, captionFont, font, measure)
    requires AsUncached(row, RowIdentity(c, |rows|, captionFont, font), measure)
    ensures RowsOk(rows + [row], cands + [c], captionFont, font, measure)
  {
  }

  /** Every row has its candidate's label in the caption font and its text in the other. */
  predicate RowsTell(rows: seq<Borrowed>, cands: seq<Candidate>, captionFont: string, font: string) {
    |rows| == |cands| &&
    forall i :: 0 <= i < |rows| ==>
      && Tells(Identity(rows[i].labelShape.text, rows[i].shape.text, captionFont, font), cands[i], i)
      && rows[i].labelShape.font == captionFont && rows[i].shape.font == font
  }

  lemma RowsTelling(rows: seq<Borrowed>, cands: seq<Candidate>, captionFont: string, font: string,
                    measure: (string, string) -> Metrics)
    requires |captionFont| < 96 && |font| < 96 && RowsOk(rows, cands, captionFont, font, measure)
    requires |cands| <= MAX_ROWS
    ensures RowsTell(rows, cands, captionFont, font)
  {
    forall i | 0 <= i < |rows|
      ensures Tells(Identity(rows[i].labelShape.text, rows[i].shape.text, captionFont, font), cands[i], i)
      ensures rows[i].labelShape.font == captionFont && rows[i].shape.font == font
    {
      Sixteen(i);
      IdentityTells(cands[i], i, captionFont, font);
      assert AsUncached(rows[i], RowIdentity(cands[i], i, captionFont, font), measure);
    }
  }

  lemma Sixteen(i: nat)
    requires i < MAX_ROWS
    ensures i + 1 < Pow10(31)
  {
    PowGrows(2, 29);
    assert Pow10(1) == 10 && Pow10(2) == 100;
  }

  lemma {:induction false} PowGrows(a: nat, b: nat)
    ensures Pow10(a) <= Pow10(a + b)
  {
    if b > 0 {
      PowGrows(a, b - 1);
    }
  }

  // ---------------------------------------------------------------- the cache

  function Lend(e: Slot): Borrowed
    requires e.Full?
  {
    Borrowed(e.labelShape, e.shape, e.labelMetrics, e.metrics)
  }

  /** Every entry is keyed by its identity's hash and holds that identity's layouts and metrics. */
  ghost predicate Sound(s: seq<Slot>, hash: Identity -> nat, measure: (string, string) -> Metrics) {
    forall k :: 0 <= k < |s| && s[k].Full? ==>
      && s[k].key == hash(s[k].identity) && s[k].tick <= MAX_TICK
      && AsUncached(Lend(s[k]), s[k].identity, measure)
  }

  ghost predicate Distinct(s: seq<Slot>) {
    forall j, k :: 0 <= j < k < |s| && s[j].Full? && s[k].Full? ==> s[j].identity != s[k].identity
  }

  ghost predicate Ordered(s: seq<Slot>, now: nat) {
    forall k :: 0 <= k < |s| && s[k].Full? ==> 1 <= s[k].tick <= now
  }

  /** No entry is for `id`. */
  ghost predicate Missing(s: seq<Slot>, id: Identity) {
    forall k :: 0 <= k < |s| && s[k].Full? ==> s[k].identity != id
  }

  predicate SameLayouts(e: Slot, f: Slot) {
    e.Full? && f.Full? && Lend(e) == Lend(f)
  }

  /** The entries `at` are what the rows borrowed. */
  ghost predicate AllLent(s: seq<Slot>, at: seq<nat>, rows: seq<Borrowed>) {
    |at| == |rows| && forall i :: 0 <= i < |at| ==> at[i] < |s| && s[at[i]].Full? && Lend(s[at[i]]) == rows[i]
  }

  lemma AllLentNext(s: seq<Slot>, t: seq<Slot>, at: seq<nat>, rows: seq<Borrowed>, slot: nat, row: Borrowed)
    requires AllLent(s, at, rows) && |t| == |s|
    requires forall i :: 0 <= i < |at| ==> SameLayouts(t[at[i]], s[at[i]])
    requires slot < |t| && t[slot].Full? && Lend(t[slot]) == row
    ensures AllLent(t, at + [slot], rows + [row])
  {
    var at', rows' := at + [slot], rows + [row];
    forall i | 0 <= i < |at'|
      ensures at'[i] < |t| && t[at'[i]].Full? && Lend(t[at'[i]]) == rows'[i]
    {
      if i < |at| {
        assert SameLayouts(t[at[i]], s[at[i]]);
      }
    }
  }

  class LayoutCache {
    const entries: array<Slot>
    const hash: Identity -> nat
    const measure: (string, string) -> Metrics
    /** Whether evicted layouts go to the retire ring. */
    const deferred: bool
    var tick: nat
    /** Where the shapes are, by serial number. */
    ghost var place: seq<Place>
    /** Lookups since the cache was last emptied. */
    ghost var served: nat
    var made: nat

    ghost predicate Valid()
      reads this, entries
    {
      && Good()
      && tick <= MAX_TICK
      && (served <= MAX_TICK ==> tick == served && Ordered(entries[..], tick))
    }

    ghost predicate Good()
      reads this, entries
    {
      && entries.Length == CAPACITY
      && Sound(entries[..], hash, measure)
      && Distinct(entries[..])
      && Placed(entries[..], place) && made == |place|
    }

    constructor (hash: Identity -> nat, measure: (string, string) -> Metrics, deferred: bool)
      ensures Valid() && fresh(entries) && place == [] && served == 0
      ensures this.hash == hash && this.measure == measure && this.deferred == deferred
    {
      this.hash, this.measure, this.deferred := hash, measure, deferred;
      entries := new Slot[CAPACITY](_ => Empty);
      tick, made, served, place := 0, 0, 0, [];
    }

    /** The scan of lru_get_or_create: the entry for `id`, or the one to replace. */
    method Scan(id: Identity) returns (hit: bool, at: nat)
      requires entries.Length == CAPACITY && Sound(entries[..], hash, measure)
      ensures at < CAPACITY
      ensures hit ==> entries[at].Full? && entries[at].identity == id
      ensures !hit ==> Missing(entries[..], id) && at == Victim(entries[..])
    {
      var key := hash(id);
      at := 0;
      var low := MAX_TICK;
      var i := 0;
      while i < CAPACITY
        invariant i <= CAPACITY
        invariant (at, low) == Oldest(entries[..i])
        invariant Missing(entries[..i], id)
      {
        assert entries[..i + 1][..i] == entries[..i];
        var e := entries[i];
        if e.Full? && e.key == key && e.identity == id {
          return true, i;
        }
        if e.Empty? || e.tick < low {
          low := if e.Empty? then 0 else e.tick;
          at := i;
        }
        i := i + 1;
      }
      assert entries[..i] == entries[..];
      hit := false;
    }

    /** Handing one entry's layouts to the retire ring, or freeing them. */
    method GiveUp(at: nat, dest: Place)
      requires Good() && at < CAPACITY && !dest.InSlot?
      modifies `place, entries
      ensures Good() && entries[..] == old(entries[..])[at := Empty] && place == HandedOn(old(place), at, dest)
    {
      PlacedEmptied(entries[..], place, at, dest);
      place := HandedOn(place, at, dest);
      ghost var before := entries[..];
      entries[at] := Empty;
      assert entries[..] == before[at := Empty];
    }

    /** The hit: only the tick changes. */
    method Touch(at: nat)
      requires Good() && at < CAPACITY && entries[at].Full? && tick <= MAX_TICK
      modifies entries
      ensures Good() && entries[..] == old(entries[..])[at := old(entries[at]).(tick := tick)]
    {
      ghost var before := entries[..];
      PlacedSame(before, place, at, entries[at].(tick := tick));
      entries[at] := entries[at].(tick := tick);
      assert entries[..] == before[at := entries[at]];
    }

    /** Filling an empty entry with new layouts. */
    method Fill(at: nat, id: Identity)
      requires Good() && at < CAPACITY && entries[at].Empty? && Fits(id) && Missing(entries[..], id) && tick <= MAX_TICK
      modifies `place, `made, entries
      ensures Good() && place == old(place) + [InSlot(at), InSlot(at)]
      ensures entries[..] == old(entries[..])[at := entries[at]]
      ensures entries[at].Full? && entries[at].identity == id && entries[at].tick == tick
    {
      var stored := Identity(Clip(id.caption, 64), Clip(id.text, 512), Clip(id.captionFont, 96), Clip(id.font, 96));
      var e := Full(hash(id), stored,
                    Shape(made, id.caption, id.captionFont), Shape(made + 1, id.text, id.font),
                    measure(id.caption, id.captionFont), measure(id.text, id.font), tick);
      PlacedFilled(entries[..], place, at, e);
      made := made + 2;
      place := place + [InSlot(at), InSlot(at)];
      ghost var before := entries[..];
      entries[at] := e;
      assert entries[..] == before[at := e];
    }

    /**
     lru_get_or_create: the index of the entry for `id`.  A hit only refreshes its
     tick; a miss moves the victim's layouts out and fresh ones in, and no other
     entry and no other shape is touched.
     */
    method Get(id: Identity) returns (at: nat)
      requires Valid() && Fits(id)
      modifies this, entries
      ensures Valid() && served == old(served) + 1
      ensures tick == if old(tick) == MAX_TICK then 0 else old(tick) + 1
      ensures at < CAPACITY && entries[at].Full? && entries[at].identity == id && entries[at].tick == tick
      ensures forall k :: 0 <= k < CAPACITY && k != at ==> entries[k] == old(entries[k])
      ensures if Missing(old(entries[..]), id)
        then at == Victim(old(entries[..]))
             && place == HandedOn(old(place), at, if deferred then Evicted else Freed) + [InSlot(at), InSlot(at)]
        else old(entries[at]).Full? && entries[at] == old(entries[at]).(tick := tick) && place == old(place)
    {
      ghost var before := entries[..];
      var hit;
      hit, at := Scan(id);
      assert hit ==> !Missing(before, id) by {
        assert hit ==> before[at].Full? && before[at].identity == id;
      }
      tick := if tick == MAX_TICK then 0 else tick + 1;
      served := served + 1;
      if hit {
        Touch(at);
      } else {
        GiveUp(at, if deferred then Evicted else Freed);
        Fill(at, id);
      }
    }

    /** panel_render_ctx_invalidate: every entry is emptied and its layouts are freed at once. */
    method Invalidate()
      requires Valid()
      modifies this, entries
      ensures Valid() && served == 0
      ensures forall k :: 0 <= k < CAPACITY ==> entries[k].Empty?
      ensures |place| == old(|place|)
      ensures forall id :: 0 <= id < |place| ==>
        place[id] == if old(place[id]).InSlot? then Freed else old(place[id])
    {
      var i := 0;
      while i < CAPACITY
        invariant i <= CAPACITY && Good()
        invariant forall k :: 0 <= k < i ==> entries[k].Empty?
        invariant |place| == old(|place|)
        invariant forall id :: 0 <= id < |place| ==>
          place[id] == if old(place[id]).InSlot? && old(place[id]).k < i then Freed else old(place[id])
      {
        GiveUp(i, Freed);
        i := i + 1;
      }
      tick := 0;
      served := 0;
    }

    /** One row, given the entries `at` used for the rows before it. */
    method BorrowRow(id: Identity, ghost at: seq<nat>, ghost rows: seq<Borrowed>, ghost start: nat)
      returns (slot: nat, row: Borrowed)
      requires Valid() && Fits(id) && |at| < MAX_ROWS && start <= served
      requires served <= MAX_TICK ==> Recent(entries[..], at, start) && AllLent(entries[..], at, rows)
      modifies this, entries
      ensures Valid() && served == old(served) + 1
      ensures AsUncached(row, id, measure)
      ensures served <= MAX_TICK ==>
        Recent(entries[..], at + [slot], start) && AllLent(entries[..], at + [slot], rows + [row])
    {
      ghost var before := entries[..];
      if served <= MAX_TICK {
        Untouched(before, at, start);
      }
      slot := Get(id);
      row := Lend(entries[slot]);
      assert entries[..] == before[slot := entries[slot]];
      assert AsUncached(Lend(entries[..][slot]), id, measure);
      if served <= MAX_TICK {
        RecentNext(before, at, start, slot, entries[slot]);
        AllLentNext(before, entries[..], at, rows, slot, row);
      }
    }

    /**
     The row loop of panel_geometry_compute.  Every row is what uncached shaping
     gives; and unless the tick wraps, no entry handed to an earlier row is
     replaced by a later one, so at the end all rows still borrow from the cache.
     */
    method BorrowRows(cands: seq<Candidate>, captionFont: string, font: string)
      returns (rows: seq<Borrowed>, ghost at: seq<nat>)
      requires Valid() && |cands| <= MAX_ROWS && |captionFont| < 96 && |font| < 96
      modifies this, entries
      ensures Valid() && |rows| == |cands| && served == old(served) + |cands|
      ensures RowsOk(rows, cands, captionFont, font, measure)
      // told from the candidates: label and text of every row, each in its font
      ensures RowsTell(rows, cands, captionFont, font)
      ensures served <= MAX_TICK ==> AllLent(entries[..], at, rows)
    {
      rows, at := [], [];
      var i := 0;
      while i < |cands|
        invariant i == |rows| == |at| <= |cands| && Valid() && served == old(served) + i
        invariant RowsOk(rows, cands[..i], captionFont, font, measure)
        invariant served <= MAX_TICK ==> Recent(entries[..], at, old(served)) && AllLent(entries[..], at, rows)
      {
        var slot, row := BorrowRow(RowIdentity(cands[i], i, captionFont, font), at, rows, old(served));
        RowsOkNext(rows, cands[..i], captionFont, font, measure, row, cands[i]);
        assert cands[..i] + [cands[i]] == cands[..i + 1];
        rows := rows + [row];
        at := at + [slot];
        i := i + 1;
      }
      assert cands[..i] == cands;
      RowsTelling(rows, cands, captionFont, font, measure);
    }
  }

  /**
   The two lookups across the wrap of the 32-bit tick, in a full cache: the second
   throws out the layouts that the first has just made.
   */
  method LookUpAcrossWrap(c: LayoutCache, a: Identity, b: Identity) returns (first: nat, second: nat)
    requires c.Valid() && c.served == MAX_TICK && Fits(a) && Fits(b) && a != b
    requires forall k :: 0 <= k < CAPACITY ==> c.entries[k].Full?
    requires Missing(c.entries[..], a) && Missing(c.entries[..], b)
    modifies c, c.entries
    ensures c.Valid() && first == second
    ensures Missing(c.entries[..], a)
  {
    first := c.Get(a);
    assert c.entries[..][first].tick == 0;
    WrapEvictsLatest(c.entries[..], first);
    assert Missing(c.entries[..], b);
    second := c.Get(b);
  }

  // ---------------------------------------------------------------- why sixteen rows fit

  function Elements(at: seq<nat>): set<int> {
    set k: int | k in at
  }

  lemma {:induction false} ElementsBound(at: seq<nat>)
    ensures |Elements(at)| <= |at|
  {
    if at != [] {
      var n := |at| - 1;
      ElementsBound(at[..n]);
      assert Elements(at) == Elements(at[..n]) + {at[n]};
    }
  }

  /** Exactly the entries `at` have been used since `start`. */
  ghost predicate Recent(s: seq<Slot>, at: seq<nat>, start: nat) {
    && (forall k :: 0 <= k < |s| && s[k].Full? && k !in at ==> s[k].tick <= start)
    && (forall i :: 0 <= i < |at| ==> at[i] < |s| && s[at[i]].Full? && s[at[i]].tick > start)
  }

  lemma SomeUnused(at: seq<nat>) returns (k: nat)
    requires |at| < CAPACITY
    ensures k < CAPACITY && k !in at
  {
    if forall k: nat :: k < CAPACITY ==> k in at {
      ElementsBound(at);
      SubsetSize(Indices(CAPACITY), Elements(at));
      assert false;
    }
    k :| k < CAPACITY && k !in at;
  }

  /** With fewer rows than entries, the victim is none of the entries used since `start`. */
  lemma Untouched(s: seq<Slot>, at: seq<nat>, start: nat)
    requires |s| == CAPACITY && |at| < CAPACITY && Recent(s, at, start)
    requires forall j :: 0 <= j < |s| && s[j].Full? ==> s[j].tick <= MAX_TICK
    ensures Victim(s) !in at
  {
    var free := SomeUnused(at);
    var v := Victim(s);
    assert s[v].Full? ==> s[free].Full? && s[v].tick <= s[free].tick <= start;
  }

  lemma RecentNext(s: seq<Slot>, at: seq<nat>, start: nat, slot: nat, e: Slot)
    requires Recent(s, at, start) && slot < |s| && e.Full? && e.tick > start
    ensures Recent(s[slot := e], at + [slot], start)
  {
    var used := at + [slot];
    assert used[|at|] == slot;
    forall k | 0 <= k < |s| && s[slot := e][k].Full? && k !in used
      ensures s[slot := e][k].tick <= start
    {
      assert forall i :: 0 <= i < |at| ==> used[i] == at[i];
    }
  }
}
