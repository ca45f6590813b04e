/**
 Online shelf packing of glyph cells into the square coverage atlas
 (src/ui/panel/glyph_pack.c).

 `Pack` is one call of the packer on a cursor value; `GlyphPacker` is the
 in-place form, proved equal to it.  The theorems are about every sequence of
 requests made to one packer between two resets.
 */
module GlyphPack {

  const TWO_32: int := 0x1_0000_0000

  type uint32 = x: int | 0 <= x < TWO_32

  /** C's wrapping addition on `uint32_t`. */
  function Add(a: uint32, b: uint32): uint32 {
    if a + b < TWO_32 then a + b else a + b - TWO_32
  }

  /** Where the next cell of the current shelf goes. */
  datatype Cursor = Cursor(x: uint32, y: uint32, h: uint32)

  datatype Placement = NoRoom | At(u: uint32, v: uint32)

  const FRESH: Cursor := Cursor(0, 0, 0)

  /** The cursor after moving to the next shelf, when the row cannot take `w`. */
  function Wrap(c: Cursor, dim: uint32, pad: uint32, w: uint32): Cursor {
    if Add(Add(c.x, w), pad) > dim then Cursor(0, Add(c.y, Add(c.h, pad)), 0) else c
  }

  /** One request: the cursor is left wrapped even when the cell does not fit. */
  function Pack(c: Cursor, dim: uint32, pad: uint32, w: uint32, h: uint32): (Cursor, Placement) {
    if w == 0 || h == 0 || Add(w, pad) > dim || Add(h, pad) > dim then
      (c, NoRoom)
    else
      var c' := Wrap(c, dim, pad, w);
      if Add(Add(c'.y, h), pad) > dim then
        (c', NoRoom)
      else
        (Cursor(Add(c'.x, Add(w, pad)), c'.y, if h > c'.h then h else c'.h), At(c'.x, c'.y))
  }

  class GlyphPacker {
    var shelfX: uint32
    var shelfY: uint32
    var shelfH: uint32

    function View(): Cursor
      reads this
    {
      Cursor(shelfX, shelfY, shelfH)
    }

    constructor ()
      ensures View() == FRESH
    {
      shelfX, shelfY, shelfH := 0, 0, 0;
    }

    method Place(dim: uint32, pad: uint32, w: uint32, h: uint32) returns (r: Placement)
      modifies this
      ensures (View(), r) == Pack(old(View()), dim, pad, w, h)
    {
      if w == 0 || h == 0 {
        return NoRoom;
      }
      if Add(w, pad) > dim || Add(h, pad) > dim {
        return NoRoom;
      }
      if Add(Add(shelfX, w), pad) > dim {
        shelfY := Add(shelfY, Add(shelfH, pad));
        shelfX := 0;
        shelfH := 0;
      }
      if Add(Add(shelfY, h), pad) > dim {
        return NoRoom;
      }
      r := At(shelfX, shelfY);
      shelfX := Add(shelfX, Add(w, pad));
      if h > shelfH {
        shelfH := h;
      }
    }
  }

  // ---------------------------------------------------------------- rectangles

  datatype Rect = Rect(u: int, v: int, w: int, h: int)

  /** The cell together with its gutter, inside the square. */
  predicate Inside(r: Rect, dim: int, pad: int) {
    0 <= r.u && 0 <= r.v && 0 < r.w && 0 < r.h && r.u + r.w + pad <= dim && r.v + r.h + pad <= dim
  }

  /** The two cells, each with its gutter on the right and below, share no pixel. */
  predicate Apart(a: Rect, b: Rect, pad: int) {
    || a.u + a.w + pad <= b.u || b.u + b.w + pad <= a.u
    || a.v + a.h + pad <= b.v || b.v + b.h + pad <= a.v
  }

  /** `r` lies above the current shelf, or on it and left of the cursor. */
  predicate Behind(r: Rect, c: Cursor, pad: int) {
    || r.v + r.h + pad <= c.y
    || (r.v == c.y && r.u + r.w + pad <= c.x && r.h <= c.h)
  }

  predicate CursorOk(c: Cursor, dim: uint32, pad: uint32) {
    && c.x <= dim
    && c.y <= dim
    && (c.x == 0 ==> c.h == 0)
    && (c.x > 0 ==> c.y + c.h + pad <= dim)
  }

  /** No padded extent of the request exceeds what `uint32_t` can hold. */
  predicate Representable(pad: uint32, w: uint32, h: uint32) {
    w + pad < TWO_32 && h + pad < TWO_32
  }

  predicate Fits(dim: uint32, pad: uint32, w: uint32, h: uint32) {
    0 < w && 0 < h && w + pad <= dim && h + pad <= dim
  }

  /** One request keeps the cursor sane and every earlier cell behind it, and a new cell is clear of them all. */
  lemma PackStep(c: Cursor, dim: uint32, pad: uint32, w: uint32, h: uint32, r: Rect)
    requires dim < 0x8000_0000 && Representable(pad, w, h)
    requires CursorOk(c, dim, pad) && Inside(r, dim, pad) && Behind(r, c, pad)
    ensures var (c', p) := Pack(c, dim, pad, w, h);
      && CursorOk(c', dim, pad) && Behind(r, c', pad)
      && (p.At? ==>
            var n := Rect(p.u, p.v, w, h);
            Inside(n, dim, pad) && Behind(n, c', pad) && Apart(r, n, pad))
  {
  }

  /** The same without an earlier cell, and: only a cell that fits an empty atlas is ever placed. */
  lemma PackFirst(c: Cursor, dim: uint32, pad: uint32, w: uint32, h: uint32)
    requires dim < 0x8000_0000 && Representable(pad, w, h) && CursorOk(c, dim, pad)
    ensures var (c', p) := Pack(c, dim, pad, w, h);
      && CursorOk(c', dim, pad)
      && (p.At? ==>
            && Fits(dim, pad, w, h)
            && Inside(Rect(p.u, p.v, w, h), dim, pad) && Behind(Rect(p.u, p.v, w, h), c', pad))
  {
  }

  // ---------------------------------------------------------------- whole runs

  datatype Packing = Packing(cursor: Cursor, cells: seq<Rect>)

  /** Every request in turn on a fresh packer, keeping the cells that were placed. */
  function Run(dim: uint32, pad: uint32, reqs: seq<(uint32, uint32)>): Packing {
    if reqs == [] then
      Packing(FRESH, [])
    else
      var (w, h) := reqs[|reqs| - 1];
      Next(Run(dim, pad, reqs[..|reqs| - 1]), dim, pad, w, h)
  }

  predicate Disjoint(cells: seq<Rect>, pad: int) {
    forall i, j :: 0 <= i < j < |cells| ==> Apart(cells[i], cells[j], pad)
  }

  predicate PackingOk(p: Packing, dim: uint32, pad: uint32) {
    && CursorOk(p.cursor, dim, pad)
    && (forall i :: 0 <= i < |p.cells| ==> Inside(p.cells[i], dim, pad) && Behind(p.cells[i], p.cursor, pad))
    && Disjoint(p.cells, pad)
  }

  /** The packing after one more request. */
  function Next(p: Packing, dim: uint32, pad: uint32, w: uint32, h: uint32): Packing {
    var (c, r) := Pack(p.cursor, dim, pad, w, h);
    Packing(c, if r.At? then p.cells + [Rect(r.u, r.v, w, h)] else p.cells)
  }

  /** One request keeps all placed cells disjoint, inside and behind the cursor, the new one included. */
  lemma NextKeeps(p: Packing, dim: uint32, pad: uint32, w: uint32, h: uint32)
    requires dim < 0x8000_0000 && Representable(pad, w, h) && PackingOk(p, dim, pad)
    ensures PackingOk(Next(p, dim, pad, w, h), dim, pad)
  {
    PackFirst(p.cursor, dim, pad, w, h);
    forall i | 0 <= i < |p.cells|
      ensures var (c, r) := Pack(p.cursor, dim, pad, w, h);
        && Behind(p.cells[i], c, pad)
        && (r.At? ==> Apart(p.cells[i], Rect(r.u, r.v, w, h), pad))
    {
      PackStep(p.cursor, dim, pad, w, h, p.cells[i]);
    }
  }

  /** Between two resets all placed cells, gutters included, are pairwise disjoint and inside the atlas. */
  lemma {:induction false} CellsNeverOverlap(dim: uint32, pad: uint32, reqs: seq<(uint32, uint32)>)
    requires dim < 0x8000_0000
    requires forall i :: 0 <= i < |reqs| ==> Representable(pad, reqs[i].0, reqs[i].1)
    ensures PackingOk(Run(dim, pad, reqs), dim, pad)
  {
    if reqs != [] {
      CellsNeverOverlap(dim, pad, reqs[..|reqs| - 1]);
      var (w, h) := reqs[|reqs| - 1];
      NextKeeps(Run(dim, pad, reqs[..|reqs| - 1]), dim, pad, w, h);
    }
  }

  // ---------------------------------------------------------------- cells of one size

  function Copies(w: uint32, h: uint32, n: nat): (r: seq<(uint32, uint32)>)
    ensures |r| == n
  {
    seq(n, _ => (w, h))
  }

  /** Row after row: the place of the `i`-th of equal cells, `cols` to a row, each `wide` by `high` with its gutter. */
  function Spot(i: nat, cols: nat, wide: nat, high: nat, w: uint32, h: uint32): Rect
    requires cols > 0
  {
    Rect(i % cols * wide, i / cols * high, w, h)
  }

  ghost predicate InGrid(cells: seq<Rect>, n: int, cols: nat, wide: nat, high: nat, w: uint32, h: uint32) {
    cols > 0 && |cells| == n && forall i :: 0 <= i < n ==> cells[i] == Spot(i, cols, wide, high, w, h)
  }

  /** Where the packer stands after `n` equal cells: behind the last one, or on a shelf for which there is no room. */
  predicate Stands(c: Cursor, n: nat, cols: nat, rows: nat, wide: nat, high: nat, h: uint32, full: bool) {
    cols > 0 &&
    if full then c.x == 0 && c.y == rows * high && c.h == 0 && n == cols * rows
    else if n == 0 then c == FRESH
    else c.x == ((n - 1) % cols + 1) * wide && c.y == (n - 1) / cols * high && c.h == h && n <= cols * rows
  }

  /** After `n` requests of one size: all of them stand in the grid, or as many as it has places. */
  ghost predicate Filled(p: Packing, n: nat, total: int, cols: nat, rows: nat, wide: nat, high: nat,
                         w: uint32, h: uint32)
  {
    && InGrid(p.cells, if n < total then n else total, cols, wide, high, w, h)
    && Stands(p.cursor, |p.cells|, cols, rows, wide, high, h, n > total)
  }

  /**
   Cells of one size fill the square completely: as many are placed as columns and rows
   fit, each at its place in the grid, and only then is one refused.
   */
  lemma {:induction false} EqualCellsFillTheSquare(dim: uint32, pad: uint32, w: uint32, h: uint32, n: nat)
    requires dim < 0x8000_0000 && Fits(dim, pad, w, h)
    ensures var wide, high := w + pad, h + pad;
      var cols, rows := dim / wide, dim / high;
      Filled(Run(dim, pad, Copies(w, h, n)), n, cols * rows, cols, rows, wide, high, w, h)
  {
    var wide, high := w + pad, h + pad;
    var cols, rows := dim / wide, dim / high;
    Quotient(dim, wide);
    Quotient(dim, high);
    if n == 0 {
      assert Copies(w, h, 0) == [];
      Product(cols, rows);
    } else {
      EqualCellsFillTheSquare(dim, pad, w, h, n - 1);
      assert Copies(w, h, n)[..n - 1] == Copies(w, h, n - 1);
      var p := Run(dim, pad, Copies(w, h, n - 1));
      if n - 1 < cols * rows {
        GrowsGrid(p, dim, pad, w, h, n - 1);
      } else {
        RefusesMore(p, dim, pad, w, h, n - 1);
      }
    }
  }

  /** Whole columns and rows that fit. */
  lemma Quotient(dim: nat, size: nat)
    requires 0 < size <= dim
    ensures 0 < dim / size && dim / size * size <= dim < dim / size * size + size
  {
  }

  lemma Product(a: nat, b: nat)
    requires a > 0 && b > 0
    ensures a * b > 0
  {
  }

  /** The place behind position `i`: the next column, or the first of the next row. */
  lemma NextSpot(i: nat, cols: nat)
    requires cols > 0
    ensures if i % cols + 1 < cols then (i + 1) % cols == i % cols + 1 && (i + 1) / cols == i / cols
            else (i + 1) % cols == 0 && (i + 1) / cols == i / cols + 1
  {
    var q, r := i / cols, i % cols;
    assert i == q * cols + r;
    if r + 1 < cols {
      Divides(i + 1, cols, q, r + 1);
    } else {
      assert i + 1 == (q + 1) * cols;
      Divides(i + 1, cols, q + 1, 0);
    }
  }

  lemma Divides(n: nat, d: nat, q: nat, r: nat)
    requires d > 0 && r < d && n == q * d + r
    ensures n / d == q && n % d == r
  {
    var a, b := n / d, n % d;
    assert n == a * d + b;
    if a < q {
      Further(a, q, d);
    } else if q < a {
      Further(q, a, d);
    }
  }

  lemma Further(a: nat, b: nat, d: nat)
    requires a < b
    ensures a * d + d <= b * d
  {
    NoLess(a + 1, b, d);
  }

  /** One more cell of the size: beside the last one, on the next shelf, or nowhere. */
  lemma PacksBeside(c: Cursor, dim: uint32, pad: uint32, w: uint32, h: uint32)
    requires dim < 0x8000_0000 && Fits(dim, pad, w, h) && (c.h == h || c.h == 0)
    requires c.x + w + pad <= dim && c.y + h + pad <= dim
    ensures Pack(c, dim, pad, w, h) == (Cursor(c.x + w + pad, c.y, h), At(c.x, c.y))
  {
  }

  lemma PacksBelow(c: Cursor, dim: uint32, pad: uint32, w: uint32, h: uint32)
    requires dim < 0x8000_0000 && Fits(dim, pad, w, h) && c.h == h
    requires c.x <= dim < c.x + w + pad && c.y + h + pad <= dim
    ensures Pack(c, dim, pad, w, h) ==
      if c.y + 2 * (h + pad) <= dim then (Cursor(w + pad, c.y + h + pad, h), At(0, c.y + h + pad))
      else (Cursor(0, c.y + h + pad, 0), NoRoom)
  {
  }

  lemma PacksNowhere(c: Cursor, dim: uint32, pad: uint32, w: uint32, h: uint32)
    requires dim < 0x8000_0000 && Fits(dim, pad, w, h)
    requires c.x == 0 && c.y <= dim < c.y + h + pad
    ensures Pack(c, dim, pad, w, h) == (c, NoRoom)
  {
  }

  /** Before the square is full the row of the next cell is one of its rows. */
  lemma RowInside(i: nat, cols: nat, rows: nat)
    requires cols > 0 && i < cols * rows
    ensures i / cols < rows
  {
    if i / cols >= rows {
      NoLess(rows, i / cols, cols);
    }
  }

  /** The last place is the last column of the last row. */
  lemma LastSpot(cols: nat, rows: nat)
    requires cols > 0 && rows > 0
    ensures (cols * rows - 1) % cols == cols - 1 && (cols * rows - 1) / cols == rows - 1
  {
    assert cols * rows - 1 == (rows - 1) * cols + (cols - 1);
    Divides(cols * rows - 1, cols, rows - 1, cols - 1);
  }

  lemma NoLess(a: nat, b: nat, d: nat)
    requires a <= b
    ensures a * d <= b * d
  {
    assert b * d == a * d + (b - a) * d;
  }

  /** The grid position behind `i`, in pixels: its cell is inside unless the square is full. */
  lemma BesideInside(i: nat, cols: nat, rows: nat, wide: nat, high: nat)
    requires cols > 0 && i + 1 < cols * rows && i % cols + 1 < cols
    ensures (i + 1) % cols * wide == (i % cols + 1) * wide && (i + 1) / cols == i / cols
    ensures (i % cols + 1) * wide + wide <= cols * wide && i / cols * high + high <= rows * high
    ensures ((i + 1) % cols + 1) * wide == (i % cols + 1) * wide + wide
  {
    NextSpot(i, cols);
    RowInside(i + 1, cols, rows);
    Further(i % cols + 1, cols, wide);
    Further(i / cols, rows, high);
  }

  lemma BelowInside(i: nat, cols: nat, rows: nat, wide: nat, high: nat)
    requires cols > 0 && i + 1 < cols * rows && i % cols + 1 == cols
    ensures (i + 1) % cols * wide == 0 && (i + 1) / cols * high == i / cols * high + high
    ensures i / cols * high + 2 * high <= rows * high && ((i + 1) % cols + 1) * wide == wide
  {
    NextSpot(i, cols);
    RowInside(i + 1, cols, rows);
    Further(i / cols + 1, rows, high);
    assert (i / cols + 1) * high == i / cols * high + high;
  }

  lemma GrowsGrid(p: Packing, dim: uint32, pad: uint32, w: uint32, h: uint32, n: nat)
    requires dim < 0x8000_0000 && Fits(dim, pad, w, h)
    requires var wide, high := w + pad, h + pad;
      var cols, rows := dim / wide, dim / high;
      && n < cols * rows && InGrid(p.cells, n, cols, wide, high, w, h)
      && Stands(p.cursor, n, cols, rows, wide, high, h, false)
    ensures var wide, high := w + pad, h + pad;
      var cols, rows := dim / wide, dim / high;
      var p' := Next(p, dim, pad, w, h);
      && InGrid(p'.cells, n + 1, cols, wide, high, w, h)
      && Stands(p'.cursor, n + 1, cols, rows, wide, high, h, false)
  {
    var wide, high := w + pad, h + pad;
    var cols, rows := dim / wide, dim / high;
    Quotient(dim, wide);
    Quotient(dim, high);
    if n == 0 {
      PacksBeside(p.cursor, dim, pad, w, h);
    } else if (n - 1) % cols + 1 < cols {
      BesideInside(n - 1, cols, rows, wide, high);
      PacksBeside(p.cursor, dim, pad, w, h);
    } else {
      BelowInside(n - 1, cols, rows, wide, high);
      PacksBelow(p.cursor, dim, pad, w, h);
    }
  }

  lemma RefusesMore(p: Packing, dim: uint32, pad: uint32, w: uint32, h: uint32, n: nat)
    requires dim < 0x8000_0000 && Fits(dim, pad, w, h)
    requires var wide, high := w + pad, h + pad;
      var cols, rows := dim / wide, dim / high;
      n >= cols * rows == |p.cells| && Stands(p.cursor, |p.cells|, cols, rows, wide, high, h, n > cols * rows)
    ensures var wide, high := w + pad, h + pad;
      var cols, rows := dim / wide, dim / high;
      var p' := Next(p, dim, pad, w, h);
      p'.cells == p.cells && Stands(p'.cursor, |p.cells|, cols, rows, wide, high, h, true)
  {
    var wide, high := w + pad, h + pad;
    var cols, rows := dim / wide, dim / high;
    Quotient(dim, wide);
    Quotient(dim, high);
    if n > cols * rows {
      PacksNowhere(p.cursor, dim, pad, w, h);
    } else {
      AtTheEnd(p.cursor, cols, rows, wide, high, h);
      PacksBelow(p.cursor, dim, pad, w, h);
    }
  }

  /** Behind the last cell of a full square. */
  lemma AtTheEnd(c: Cursor, cols: nat, rows: nat, wide: nat, high: nat, h: uint32)
    requires rows > 0 && cols > 0 && cols * rows >= 0 && Stands(c, cols * rows, cols, rows, wide, high, h, false)
    ensures c.x == cols * wide && c.y == rows * high - high && c.h == h
  {
    Product(cols, rows);
    LastSpot(cols, rows);
    assert (rows - 1) * high + high == rows * high;
  }

  /** On a fresh packer a cell is placed, at the origin, exactly when it fits the empty square. */
  lemma FreshPlacesWhatFits(dim: uint32, pad: uint32, w: uint32, h: uint32)
    requires Representable(pad, w, h)
    ensures Pack(FRESH, dim, pad, w, h).1 == (if Fits(dim, pad, w, h) then At(0, 0) else NoRoom)
  {
  }

  /** `Representable` cannot be dropped: an extent whose padded size wraps is placed although it does not fit. */
  lemma WrappedExtentIsPlaced(dim: uint32, pad: uint32, w: uint32, h: uint32)
    requires 0 < w && 0 < h && Add(w, pad) <= dim && Add(h, pad) <= dim
    ensures Pack(FRESH, dim, pad, w, h).1 == At(0, 0)
    ensures Fits(dim, pad, w, h) <==> Representable(pad, w, h)
  {
  }

  /** The gap in figures: a cell 2^32 - 1 wide is "placed" in the 2048-pixel atlas. */
  lemma WrappedExtentExample()
    ensures Pack(FRESH, 2048, 1, 0xffff_ffff, 7).1 == At(0, 0)
    ensures !Fits(2048, 1, 0xffff_ffff, 7)
  {
    WrappedExtentIsPlaced(2048, 1, 0xffff_ffff, 7);
  }
}
