/**
 The shared glyph atlas (src/ui/panel/glyph_atlas.c): an open-addressing table
 from (font, glyph) keys to slots, whose drawable slots own disjoint cells of
 one square image.

 FreeType, the upload and the device are inputs: `Raster` is what loading and
 uploading the glyph came to.
 */
module GlyphAtlas {
  import opened Common
  import opened GlyphPack

  const TWO_64: int := 0x1_0000_0000_0000_0000
  const FNV_PRIME: int := 1099511628211
  const SLOT_CAP: nat := 131072
  const ATLAS_DIM: uint32 := 2048
  const ATLAS_PAD: uint32 := 1

  datatype Slot = Slot(key: nat, u: int, v: int, w: int, h: int,
                       left: int, top: int, occupied: bool, drawable: bool)

  const EMPTY: Slot := Slot(0, 0, 0, 0, 0, 0, 0, false, false)

  /** Outcome of FT_Load_Glyph; `uploaded` says whether the bitmap reached the image. */
  datatype Raster =
    | LoadFailed
    | Bitmap(left: int, top: int, w: uint32, h: uint32, uploaded: bool)

  function Key(font: uint32, glyph: uint32): nat {
    font * TWO_32 + glyph
  }

  /** A key tells font and glyph: no two glyphs share a slot. */
  lemma KeyTells(font: uint32, glyph: uint32, font': uint32, glyph': uint32)
    requires Key(font, glyph) == Key(font', glyph')
    ensures font == font' && glyph == glyph'
  {
    assert Key(font, glyph) / TWO_32 == font;
    assert Key(font', glyph') / TWO_32 == font';
  }

  /** First slot probed for a key. */
  function Home(key: nat): (i: nat)
    ensures i < SLOT_CAP
  {
    ((key * FNV_PRIME) % TWO_64 % TWO_32) % SLOT_CAP
  }

  // ---------------------------------------------------------------- the probe sequence

  /** The `d`-th slot probed from `start`. */
  function Pos(start: nat, d: nat): (i: nat)
    requires start < SLOT_CAP && d < SLOT_CAP
    ensures i < SLOT_CAP
  {
    if start + d < SLOT_CAP then start + d else start + d - SLOT_CAP
  }

  /** How many probes from `start` reach slot `i`. */
  function Dist(start: nat, i: nat): (d: nat)
    requires start < SLOT_CAP && i < SLOT_CAP
    ensures d < SLOT_CAP && Pos(start, d) == i
  {
    if start <= i then i - start else i + SLOT_CAP - start
  }

  /** The first `n` slots probed from `start` are occupied by other keys. */
  predicate Passed(s: seq<Slot>, start: nat, n: nat, key: nat)
    requires |s| == SLOT_CAP && start < SLOT_CAP && n <= SLOT_CAP
  {
    forall d {:trigger Pos(start, d)} :: 0 <= d < n ==> s[Pos(start, d)].occupied && s[Pos(start, d)].key != key
  }

  predicate KeysUnique(s: seq<Slot>) {
    forall i, j :: 0 <= i < j < |s| && s[i].occupied && s[j].occupied ==> s[i].key != s[j].key
  }

  /** From a stored key's home to its slot no slot is empty. */
  predicate NoHole(s: seq<Slot>)
    requires |s| == SLOT_CAP
  {
    forall i, d {:trigger Pos(Home(s[i].key), d)} ::
      0 <= i < SLOT_CAP && s[i].occupied && 0 <= d < Dist(Home(s[i].key), i) ==> s[Pos(Home(s[i].key), d)].occupied
  }

  predicate Holds(s: seq<Slot>, key: nat) {
    exists i :: 0 <= i < |s| && s[i].occupied && s[i].key == key
  }

  function OccupiedSlots(s: seq<Slot>): set<int> {
    set i | 0 <= i < |s| && s[i].occupied
  }

  /** The table as a finite map. */
  function Contents(s: seq<Slot>): map<nat, Slot>
    requires KeysUnique(s)
  {
    map i | 0 <= i < |s| && s[i].occupied :: s[i].key := s[i]
  }

  /** A probe that reached an empty slot proves the key absent. */
  lemma EmptySlotMeansAbsent(s: seq<Slot>, key: nat, n: nat)
    requires |s| == SLOT_CAP && NoHole(s) && n < SLOT_CAP
    requires Passed(s, Home(key), n, key) && !s[Pos(Home(key), n)].occupied
    ensures !Holds(s, key)
  {
    forall i | 0 <= i < |s| && s[i].occupied
      ensures s[i].key != key
    {
      var d := Dist(Home(key), i);
      assert d < n ==> s[Pos(Home(key), d)].key != key;
      var e := Dist(Home(s[i].key), i);
      assert n < e ==> s[Pos(Home(s[i].key), n)].occupied;
    }
  }

  /** A probe that went all the way round proves the table full and the key absent. */
  lemma FullRoundMeansFull(s: seq<Slot>, key: nat)
    requires |s| == SLOT_CAP && Passed(s, Home(key), SLOT_CAP, key)
    ensures !Holds(s, key)
    ensures |OccupiedSlots(s)| == SLOT_CAP
  {
    forall i | 0 <= i < SLOT_CAP
      ensures s[i].occupied && s[i].key != key
    {
      assert Pos(Home(key), Dist(Home(key), i)) == i;
    }
    assert OccupiedSlots(s) == Indices(SLOT_CAP);
  }

  /** Writing an absent key into the empty slot where its probe stopped. */
  lemma InsertKeepsTable(s: seq<Slot>, slot: Slot, n: nat)
    requires |s| == SLOT_CAP && KeysUnique(s) && NoHole(s) && n < SLOT_CAP && slot.occupied
    requires Passed(s, Home(slot.key), n, slot.key) && !s[Pos(Home(slot.key), n)].occupied
    ensures var i := Pos(Home(slot.key), n);
      var s' := s[i := slot];
      && KeysUnique(s') && NoHole(s')
      && Contents(s') == Contents(s)[slot.key := slot] && slot.key !in Contents(s)
      && |OccupiedSlots(s')| == |OccupiedSlots(s)| + 1
  {
    var i := Pos(Home(slot.key), n);
    var s' := s[i := slot];
    EmptySlotMeansAbsent(s, slot.key, n);
    assert KeysUnique(s');
    forall j, d | 0 <= j < SLOT_CAP && s'[j].occupied && 0 <= d < Dist(Home(s'[j].key), j)
      ensures s'[Pos(Home(s'[j].key), d)].occupied
    {
      if j == i {
        assert Dist(Home(slot.key), i) == n;
        assert s[Pos(Home(slot.key), d)].occupied;
      } else {
        assert s[Pos(Home(s[j].key), d)].occupied;
      }
    }
    assert OccupiedSlots(s') == OccupiedSlots(s) + {i};
    var m, m' := Contents(s), Contents(s');
    forall k | k in m'
      ensures k in m[slot.key := slot] && m'[k] == m[slot.key := slot][k]
    {
    }
    forall k | k in m[slot.key := slot]
      ensures k in m'
    {
      if k == slot.key {
        assert s'[i].occupied && s'[i].key == k;
      } else {
        var j :| 0 <= j < |s| && s[j].occupied && s[j].key == k;
        assert s'[j] == s[j];
      }
    }
  }

  // ---------------------------------------------------------------- cells of drawable slots

  function Cell(s: Slot): Rect {
    Rect(s.u, s.v, s.w, s.h)
  }

  /** Every drawable slot owns a cell of the image, and no two cells touch. */
  predicate CellsOk(s: seq<Slot>, c: Cursor) {
    && CursorOk(c, ATLAS_DIM, ATLAS_PAD)
    && (forall i :: 0 <= i < |s| && s[i].drawable ==>
          s[i].occupied && Inside(Cell(s[i]), ATLAS_DIM, ATLAS_PAD) && Behind(Cell(s[i]), c, ATLAS_PAD))
    && (forall i, j :: 0 <= i < j < |s| && s[i].drawable && s[j].drawable ==>
          Apart(Cell(s[i]), Cell(s[j]), ATLAS_PAD))
  }

  /** Packing one more bitmap keeps the existing cells, and its own cell is clear of them. */
  lemma PackKeepsCells(s: seq<Slot>, c: Cursor, w: uint32, h: uint32)
    requires CellsOk(s, c) && Representable(ATLAS_PAD, w, h)
    ensures var (c', p) := Pack(c, ATLAS_DIM, ATLAS_PAD, w, h);
      && CellsOk(s, c')
      && (p.At? ==>
            var r := Rect(p.u, p.v, w, h);
            && Inside(r, ATLAS_DIM, ATLAS_PAD) && Behind(r, c', ATLAS_PAD)
            && forall i :: 0 <= i < |s| && s[i].drawable ==> Apart(Cell(s[i]), r, ATLAS_PAD))
  {
    PackFirst(c, ATLAS_DIM, ATLAS_PAD, w, h);
    forall i | 0 <= i < |s| && s[i].drawable
      ensures var (c', p) := Pack(c, ATLAS_DIM, ATLAS_PAD, w, h);
        && Behind(Cell(s[i]), c', ATLAS_PAD)
        && (p.At? ==> Apart(Cell(s[i]), Rect(p.u, p.v, w, h), ATLAS_PAD))
    {
      PackStep(c, ATLAS_DIM, ATLAS_PAD, w, h, Cell(s[i]));
    }
  }

  /** A slot whose cell is in the image, behind the cursor and clear of every drawable slot. */
  predicate ClearOf(slot: Slot, s: seq<Slot>, c: Cursor) {
    && Inside(Cell(slot), ATLAS_DIM, ATLAS_PAD) && Behind(Cell(slot), c, ATLAS_PAD)
    && forall i :: 0 <= i < |s| && s[i].drawable ==> Apart(Cell(s[i]), Cell(slot), ATLAS_PAD)
  }

  lemma InsertKeepsCells(s: seq<Slot>, c: Cursor, i: nat, slot: Slot)
    requires CellsOk(s, c) && i < |s| && slot.occupied && (slot.drawable ==> ClearOf(slot, s, c))
    ensures CellsOk(s[i := slot], c)
  {
  }

  /** A bitmap that the packer lets through although its padded extent wraps 32 bits. */
  predicate Slips(raster: Raster) {
    && raster.Bitmap? && raster.w > 0 && raster.h > 0 && !Representable(ATLAS_PAD, raster.w, raster.h)
    && Add(raster.w, ATLAS_PAD) <= ATLAS_DIM && Add(raster.h, ATLAS_PAD) <= ATLAS_DIM
  }

  /** Any other bitmap keeps the cells. */
  lemma PackOrSlips(s: seq<Slot>, c: Cursor, raster: Raster)
    requires CellsOk(s, c) && raster.Bitmap? && !Slips(raster)
    ensures var (c', p) := Pack(c, ATLAS_DIM, ATLAS_PAD, raster.w, raster.h);
      && CellsOk(s, c')
      && (p.At? ==>
            var r := Rect(p.u, p.v, raster.w, raster.h);
            && Inside(r, ATLAS_DIM, ATLAS_PAD) && Behind(r, c', ATLAS_PAD)
            && forall i :: 0 <= i < |s| && s[i].drawable ==> Apart(Cell(s[i]), r, ATLAS_PAD))
  {
    if Representable(ATLAS_PAD, raster.w, raster.h) {
      PackKeepsCells(s, c, raster.w, raster.h);
    }
  }

  // ---------------------------------------------------------------- the atlas

  class Atlas {
    var slots: array?<Slot>     // null until the image exists
    var packer: GlyphPacker
    var liveCount: nat
    var packerExhausted: bool
    var rebuilds: nat
    var rasterized: nat
    /** An extent that wraps 32 bits was let through since the image was built. */
    ghost var wrapped: bool

    ghost predicate Valid()
      reads this, slots, packer
    {
      && (slots == null ==> liveCount == 0 && !packerExhausted)
      && (slots != null ==>
            && slots.Length == SLOT_CAP
            && KeysUnique(slots[..]) && NoHole(slots[..])
            && liveCount == |OccupiedSlots(slots[..])|
            && (!wrapped ==> CellsOk(slots[..], packer.View())))
    }

    /** What the table maps; empty while there is no image. */
    ghost function Table(): map<nat, Slot>
      requires Valid()
      reads this, slots, packer
    {
      if slots == null then map[] else Contents(slots[..])
    }

    constructor ()
      ensures Valid() && Table() == map[] && fresh(packer) && !wrapped
    {
      slots := null;
      packer := new GlyphPacker();
      liveCount, packerExhausted, rebuilds, rasterized, wrapped := 0, false, 0, 0, false;
    }

    /** glyph_atlas_ensure: build the image and an empty table on first use. */
    method Ensure(device: bool) returns (ok: bool)
      requires Valid()
      modifies this, packer
      ensures Valid() && Table() == old(Table())
      ensures ok == (slots != null) && (ok <==> device || old(slots) != null)
      ensures old(slots) != null ==>
        slots == old(slots) && packer == old(packer) && packer.View() == old(packer.View())
        && packerExhausted == old(packerExhausted) && wrapped == old(wrapped)
      ensures old(slots) == null && ok ==> fresh(slots) && fresh(packer) && packer.View() == FRESH && !wrapped
      ensures !ok ==> packer == old(packer)
      ensures liveCount == old(liveCount) && rasterized == old(rasterized) && rebuilds == old(rebuilds)
    {
      if slots != null {
        return true;
      }
      if !device {
        return false;
      }
      slots := new Slot[SLOT_CAP](_ => EMPTY);
      packer := new GlyphPacker();
      wrapped := false;
      assert slots[..] == seq(SLOT_CAP, _ => EMPTY);
      assert OccupiedSlots(slots[..]) == {};
      return true;
    }

    /** glyph_atlas_reset: drop image, table and cursor. */
    method Reset()
      requires Valid()
      modifies this
      ensures Valid() && Table() == map[] && slots == null && packer == old(packer)
      ensures rebuilds == old(rebuilds) + (if old(slots) == null then 0 else 1)
      ensures rasterized == old(rasterized)
    {
      if slots == null {
        return;
      }
      slots := null;
      liveCount := 0;
      packerExhausted := false;
      rebuilds := rebuilds + 1;
    }

    /** glyph_atlas_reclaim: rebuild only after a cell that fits an empty image was refused. */
    method Reclaim() returns (done: bool)
      requires Valid()
      modifies this
      ensures Valid() && packer == old(packer)
      ensures done == (old(slots) != null && old(packerExhausted))
      ensures done ==> Table() == map[] && slots == null && !packerExhausted && rebuilds == old(rebuilds) + 1
      ensures !done ==> unchanged(this)
    {
      if slots == null {
        return false;
      }
      if !packerExhausted {
        return false;
      }
      Reset();
      return true;
    }

    /** The probe loop of glyph_atlas_get: a hit, the insertion point, or a full table. */
    method Probe(key: nat) returns (i: nat, found: bool, full: bool, ghost n: nat)
      requires Valid() && slots != null
      ensures found ==> !full && i < SLOT_CAP && slots[i].occupied && slots[i].key == key && key in Table()
      ensures !found && !full ==>
        && n < SLOT_CAP && i == Pos(Home(key), n) && !slots[i].occupied
        && Passed(slots[..], Home(key), n, key) && key !in Table() && liveCount < SLOT_CAP
      ensures full ==> !found && key !in Table() && liveCount == SLOT_CAP
    {
      ghost var s := slots[..];
      i := Home(key);
      n := 0;
      var probes := 0;
      while slots[i].occupied
        invariant probes == n < SLOT_CAP && i == Pos(Home(key), n)
        invariant Passed(s, Home(key), n, key)
        decreases SLOT_CAP - n
      {
        if slots[i].key == key {
          assert s[i].occupied && s[i].key == key;
          return i, true, false, n;
        }
        probes := probes + 1;
        n := n + 1;
        if probes >= SLOT_CAP {
          FullRoundMeansFull(s, key);
          return i, false, true, n;
        }
        i := (i + 1) % SLOT_CAP;
      }
      EmptySlotMeansAbsent(s, key, n);
      InsertKeepsTable(s, Slot(key, 0, 0, 0, 0, 0, 0, true, false), n);
      OccupiedBound(s[i := Slot(key, 0, 0, 0, 0, 0, 0, true, false)]);
      return i, false, false, n;
    }

    /** Rasterise, pack and upload: the new slot, and what that does to the packer and the exhausted flag. */
    method Rasterise(key: nat, raster: Raster) returns (slot: Slot)
      requires Valid() && slots != null
      modifies packer, this`packerExhausted, this`wrapped
      ensures Valid()
      ensures slot.key == key && slot.occupied && Drawn(old(packer.View()), raster, slot)
      ensures slot.drawable && !wrapped ==> ClearOf(slot, slots[..], packer.View())
      ensures wrapped == (old(wrapped) || Slips(raster))
      ensures raster.LoadFailed? ==>
        !slot.drawable && packer.View() == old(packer.View()) && packerExhausted == old(packerExhausted)
      ensures raster.Bitmap? ==>
        var (c, p) := Pack(old(packer.View()), ATLAS_DIM, ATLAS_PAD, raster.w, raster.h);
        && packer.View() == c
        && (packerExhausted <==>
              old(packerExhausted)
              || (p.NoRoom? && (Fits(ATLAS_DIM, ATLAS_PAD, raster.w, raster.h) || Slips(raster))))
    {
      slot := Slot(key, 0, 0, 0, 0, 0, 0, true, false);
      if raster.Bitmap? {
        slot := slot.(left := raster.left, top := raster.top);
        if !wrapped && !Slips(raster) {
          PackOrSlips(slots[..], packer.View(), raster);
        }
        wrapped := wrapped || Slips(raster);
        var placed := NoRoom;
        if raster.w > 0 && raster.h > 0 {
          placed := packer.Place(ATLAS_DIM, ATLAS_PAD, raster.w, raster.h);
        }
        if placed.At? {
          if raster.uploaded {
            slot := slot.(u := placed.u, v := placed.v, w := raster.w, h := raster.h, drawable := true);
          }
        } else if raster.w > 0 && raster.h > 0
                  && Add(raster.w, ATLAS_PAD) <= ATLAS_DIM && Add(raster.h, ATLAS_PAD) <= ATLAS_DIM {
          packerExhausted := true;
        }
      }
    }

    /** Write the new slot where the probe stopped. */
    method Store(i: nat, slot: Slot, ghost n: nat)
      requires Valid() && slots != null && slot.occupied
      requires n < SLOT_CAP && i == Pos(Home(slot.key), n) && !slots[i].occupied
      requires Passed(slots[..], Home(slot.key), n, slot.key)
      requires slot.drawable && !wrapped ==> ClearOf(slot, slots[..], packer.View())
      modifies slots, this`liveCount, this`rasterized
      ensures Valid() && slots[..] == old(slots[..])[i := slot]
      ensures Table() == old(Table())[slot.key := slot]
      ensures liveCount == old(liveCount) + 1 && rasterized == old(rasterized) + 1
    {
      ghost var before := slots[..];
      InsertKeepsTable(before, slot, n);
      if !wrapped {
        InsertKeepsCells(before, packer.View(), i, slot);
      }
      slots[i] := slot;
      assert slots[..] == before[i := slot];
      liveCount := liveCount + 1;
      rasterized := rasterized + 1;
    }

    /** glyph_atlas_get once the image exists. */
    method Lookup(key: nat, raster: Raster) returns (r: Option<nat>)
      requires Valid() && slots != null
      modifies this`packerExhausted, this`liveCount, this`rasterized, this`wrapped, slots, packer
      ensures Valid()
      ensures wrapped == (old(wrapped) || (key !in old(Table()) && r.Some? && Slips(raster)))
      ensures r.Some? ==> r.value < SLOT_CAP && slots[r.value].occupied && slots[r.value].key == key
      ensures key in old(Table()) ==>
        && r.Some? && slots[..] == old(slots[..]) && packer.View() == old(packer.View())
        && liveCount == old(liveCount) && rasterized == old(rasterized) && packerExhausted == old(packerExhausted)
      ensures key !in old(Table()) && r.Some? ==>
        && Table() == old(Table())[key := slots[r.value]]
        && liveCount == old(liveCount) + 1 && rasterized == old(rasterized) + 1
        && slots[..] == old(slots[..])[r.value := slots[r.value]]
        && Drawn(old(packer.View()), raster, slots[r.value])
      ensures r.None? <==> old(liveCount) == SLOT_CAP && key !in old(Table())
      ensures r.None? ==> slots[..] == old(slots[..]) && liveCount == old(liveCount)
    {
      var i, found, full, n := Probe(key);
      if found {
        return Some(i);
      }
      if full {
        return None;
      }
      var slot := Rasterise(key, raster);
      Store(i, slot, n);
      return Some(i);
    }

    /** glyph_atlas_get: the slot index for a glyph, inserting it on first sight. */
    method Get(device: bool, font: uint32, glyph: uint32, raster: Raster) returns (r: Option<nat>)
      requires Valid()
      modifies this, slots, packer
      ensures Valid()
      // the cells stay disjoint until an extent that wraps is rasterised
      ensures slots != null ==>
        (wrapped <==> old(slots != null && wrapped)
                      || (Key(font, glyph) !in old(Table()) && r.Some? && Slips(raster)))
      ensures r.Some? ==>
        slots != null && r.value < SLOT_CAP && slots[r.value].occupied && slots[r.value].key == Key(font, glyph)
      // hit: the stored slot, and nothing changes
      ensures Key(font, glyph) in old(Table()) ==>
        && r.Some? && slots == old(slots) && slots[..] == old(slots[..]) && packer.View() == old(packer.View())
        && liveCount == old(liveCount) && rasterized == old(rasterized) && packerExhausted == old(packerExhausted)
      // miss: exactly this key is added
      ensures Key(font, glyph) !in old(Table()) && r.Some? ==>
        && Table() == old(Table())[Key(font, glyph) := slots[r.value]]
        && liveCount == old(liveCount) + 1 && rasterized == old(rasterized) + 1
        && (old(slots) != null ==>
              slots == old(slots) && slots[..] == old(slots[..])[r.value := slots[r.value]])
        && Drawn(if old(slots) == null then FRESH else old(packer.View()), raster, slots[r.value])
      // nothing: no image, or the table is full and the key absent
      ensures r.None? <==>
        || (old(slots) == null && !device)
        || (old(slots) != null && old(liveCount) == SLOT_CAP && Key(font, glyph) !in old(Table()))
      ensures r.None? ==> Table() == old(Table()) && liveCount == old(liveCount)
    {
      var ok := Ensure(device);
      if !ok {
        return None;
      }
      r := Lookup(Key(font, glyph), raster);
    }
  }

  /**
   What a first lookup with this outcome puts into the slot: the bitmap's bearings, and
   its own size at the place the packer gave it once the bitmap is uploaded. Everything
   else stays 0.
   */
  predicate Drawn(c: Cursor, raster: Raster, slot: Slot) {
    match raster
    case LoadFailed => slot == Slot(slot.key, 0, 0, 0, 0, 0, 0, true, false)
    case Bitmap(left, top, w, h, uploaded) =>
      match Pack(c, ATLAS_DIM, ATLAS_PAD, w, h).1
      case At(u, v) => slot == if uploaded then Slot(slot.key, u, v, w, h, left, top, true, true)
                               else Slot(slot.key, 0, 0, 0, 0, left, top, true, false)
      case NoRoom => slot == Slot(slot.key, 0, 0, 0, 0, left, top, true, false)
  }

  /** A table has at most as many occupied slots as slots. */
  lemma OccupiedBound(s: seq<Slot>)
    ensures |OccupiedSlots(s)| <= |s|
  {
    SubsetSize(OccupiedSlots(s), Indices(|s|));
  }

  /** No two drawable slots of a valid table share a pixel, and each sub-rectangle fits in `uint16_t`. */
  lemma DrawableCellsDisjoint(s: seq<Slot>, c: Cursor, i: nat, j: nat, x: int, y: int)
    requires CellsOk(s, c) && i < |s| && j < |s| && i != j && s[i].drawable && s[j].drawable
    requires s[i].u <= x < s[i].u + s[i].w && s[i].v <= y < s[i].v + s[i].h
    ensures !(s[j].u <= x < s[j].u + s[j].w && s[j].v <= y < s[j].v + s[j].h)
    ensures 0 <= s[i].u < 0x1_0000 && 0 <= s[i].v < 0x1_0000 && 0 < s[i].w < 0x1_0000 && 0 < s[i].h < 0x1_0000
    ensures x < ATLAS_DIM && y < ATLAS_DIM
  {
    if i < j {
      assert Apart(Cell(s[i]), Cell(s[j]), ATLAS_PAD);
    } else {
      assert Apart(Cell(s[j]), Cell(s[i]), ATLAS_PAD);
    }
  }

  /** After a reclaim the refused glyph gets its cell: the rebuild it asked for is never wasted. */
  method RetryAfterReclaim(atlas: Atlas, font: uint32, glyph: uint32, raster: Raster) returns (r: Option<nat>)
    requires atlas.Valid() && atlas.slots != null && atlas.packerExhausted
    requires raster.Bitmap? && raster.uploaded && Fits(ATLAS_DIM, ATLAS_PAD, raster.w, raster.h)
    modifies atlas, atlas.slots, atlas.packer
    ensures atlas.Valid() && r.Some? && atlas.slots != null && r.value < SLOT_CAP
    ensures atlas.slots[r.value].drawable && atlas.liveCount == 1
  {
    var done := atlas.Reclaim();
    r := atlas.Get(true, font, glyph, raster);
  }
}
