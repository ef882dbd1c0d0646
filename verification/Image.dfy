/**
 Assembling the image from finished pieces: `output_data`, which writes with `height` as
 row stride, against the row-major picture that everything else reads with `width`.
 */
module Image {
  import opened Tiling

  /** What one pixel of the finished picture should hold. */
  type Picture = (int, int) -> int

  /** A piece as the root draws it: where it belongs and its packed pixels. */
  datatype Piece = Piece(area: Area, pixels: seq<int>)

  function Columns(a: Area): int { a.imax + 1 - a.imin }
  function Rows(a: Area): int { a.jmax + 1 - a.jmin }

  /** The number of integers a piece carries, computed from its header by both ends. */
  function Size(a: Area): int {
    Columns(a) * Rows(a)
  }

  predicate NonEmpty(a: Area) {
    a.imin <= a.imax && a.jmin <= a.jmax
  }

  /** Pixel `k` of a packed piece, in row-major order. */
  function PixelX(a: Area, k: int): int
    requires NonEmpty(a)
  {
    a.imin + k % Columns(a)
  }

  function PixelY(a: Area, k: int): int
    requires NonEmpty(a)
  {
    a.jmin + k / Columns(a)
  }

  lemma PixelInside(a: Area, k: int)
    requires NonEmpty(a) && 0 <= k < Size(a)
    ensures Inside(a, PixelX(a, k), PixelY(a, k))
  {
    var c := Columns(a);
    assert k == c * (k / c) + k % c;
    if k / c >= Rows(a) {
      MultiplyMonotone(c, Rows(a), k / c);
      assert false;
    }
  }

  lemma PixelAt(a: Area, x: int, y: int) returns (k: int)
    requires NonEmpty(a) && Inside(a, x, y)
    ensures k == (y - a.jmin) * Columns(a) + (x - a.imin)
    ensures 0 <= k < Size(a) && PixelX(a, k) == x && PixelY(a, k) == y
  {
    var c := Columns(a);
    var q, r := y - a.jmin, x - a.imin;
    k := q * c + r;
    MultiplyMonotone(c, q, Rows(a) - 1);
    MultiplyMonotone(c, 0, q);
    assert c * (Rows(a) - 1) == Size(a) - c;
    QuotientUnique(k, c, q, r);
  }

  lemma QuotientUnique(k: int, c: int, q: int, r: int)
    requires 0 <= r < c && k == q * c + r
    ensures k / c == q && k % c == r
  {
    var d := k / c - q;
    assert k == c * (k / c) + k % c;
    assert c * d == r - k % c by {
      assert c * d == c * (k / c) - c * q;
    }
    if d >= 1 { MultiplyMonotone(c, 1, d); }
    if d <= -1 { MultiplyMonotone(c, d, -1); }
  }

  lemma SizePositive(a: Area)
    requires NonEmpty(a)
    ensures Size(a) >= 1
  {
    MultiplyMonotone(Columns(a), 1, Rows(a));
  }

  /** What a worker packs for an area. */
  ghost function Packed(a: Area, pic: Picture): (px: seq<int>)
    requires NonEmpty(a)
    ensures |px| == Size(a)
  {
    SizePositive(a);
    seq(Size(a), k requires 0 <= k < Size(a) => pic(PixelX(a, k), PixelY(a, k)))
  }

  // ------------------------------------------------------------------- writing the pieces

  /** The cell `output_data` writes for pixel `k` of a piece. */
  function CellOf(a: Area, stride: int, k: int): int
    requires NonEmpty(a)
  {
    PixelY(a, k) * stride + PixelX(a, k)
  }

  ghost predicate WritesInRange(a: Area, stride: int, cells: int) {
    NonEmpty(a) && forall k :: 0 <= k < Size(a) ==> 0 <= CellOf(a, stride, k) < cells
  }

  /** The array after the first `n` pixels of a piece have been written. */
  ghost function PaintFirst(grid: seq<int>, stride: int, p: Piece, n: nat): (r: seq<int>)
    requires WritesInRange(p.area, stride, |grid|) && n <= Size(p.area) <= |p.pixels|
    ensures |r| == |grid|
  {
    if n == 0 then grid
    else PaintFirst(grid, stride, p, n - 1)[CellOf(p.area, stride, n - 1) := p.pixels[n - 1]]
  }

  ghost function Paint(grid: seq<int>, stride: int, p: Piece): (r: seq<int>)
    requires WritesInRange(p.area, stride, |grid|) && Size(p.area) <= |p.pixels|
    ensures |r| == |grid|
  {
    SizePositive(p.area);
    PaintFirst(grid, stride, p, Size(p.area))
  }

  ghost predicate Paintable(log: seq<Piece>, stride: int, cells: int) {
    forall n :: 0 <= n < |log| ==> WritesInRange(log[n].area, stride, cells) && Size(log[n].area) <= |log[n].pixels|
  }

  /** The array after all pieces of a log, in the order they were drawn. */
  ghost function PaintAll(grid: seq<int>, stride: int, log: seq<Piece>): (r: seq<int>)
    requires Paintable(log, stride, |grid|)
    ensures |r| == |grid|
  {
    if log == [] then grid
    else
      var front := log[..|log| - 1];
      assert forall n :: 0 <= n < |front| ==> front[n] == log[n];
      Paint(PaintAll(grid, stride, front), stride, log[|log| - 1])
  }

  lemma RowFits(a: Area, j: int)
    requires NonEmpty(a) && a.jmin <= j <= a.jmax
    ensures 0 <= (j - a.jmin) * Columns(a)
    ensures (j - a.jmin) * Columns(a) + Columns(a) == (j + 1 - a.jmin) * Columns(a) <= Size(a)
  {
    MultiplyMonotone(Columns(a), 0, j - a.jmin);
    MultiplyMonotone(Columns(a), j + 1 - a.jmin, Rows(a));
  }

  lemma NextCell(start: seq<int>, stride: int, p: Piece, i: int, j: int, k: int)
    requires WritesInRange(p.area, stride, |start|) && Size(p.area) <= |p.pixels|
    requires Inside(p.area, i, j) && k == (j - p.area.jmin) * Columns(p.area) + (i - p.area.imin)
    ensures 0 <= k < Size(p.area) && 0 <= j * stride + i < |start|
    ensures PaintFirst(start, stride, p, k + 1) == PaintFirst(start, stride, p, k)[j * stride + i := p.pixels[k]]
  {
    var n := PixelAt(p.area, i, j);
    assert CellOf(p.area, stride, k) == j * stride + i;
  }

  /** `output_data`: the drawing loop, on the array it updates. */
  method OutputData(piece: seq<int>, coord: Area, grid: array<int>, height: int)
    requires WritesInRange(coord, height, grid.Length) && Size(coord) <= |piece|
    modifies grid
    ensures grid[..] == Paint(old(grid[..]), height, Piece(coord, piece))
  {
    ghost var p := Piece(coord, piece);
    ghost var start := grid[..];
    SizePositive(coord);
    var k := 0;
    var j := coord.jmin;
    while j <= coord.jmax
      invariant coord.jmin <= j <= coord.jmax + 1
      invariant 0 <= k == (j - coord.jmin) * Columns(coord) <= Size(coord)
      invariant grid[..] == PaintFirst(start, height, p, k)
    {
      RowFits(coord, j);
      ghost var row := k;
      var i := coord.imin;
      while i <= coord.imax
        invariant coord.imin <= i <= coord.imax + 1
        invariant k == row + (i - coord.imin) <= Size(coord)
        invariant grid[..] == PaintFirst(start, height, p, k)
      {
        NextCell(start, height, p, i, j, k);
        grid[(j * height) + i] := piece[k];
        k := k + 1;
        i := i + 1;
      }
      j := j + 1;
    }
    assert j - coord.jmin == Rows(coord);
    assert k == Size(coord);
  }

  // ------------------------------------------------------------------- what ends up where

  /** Every cell holds its old value or the value of some pixel that was written to it. */
  ghost predicate Origin(grid: seq<int>, r: seq<int>, stride: int, log: seq<Piece>, c: int)
    requires Paintable(log, stride, |grid|) && |r| == |grid| && 0 <= c < |grid|
  {
    r[c] == grid[c] || exists n, k :: 0 <= n < |log| && 0 <= k < Size(log[n].area)
                         && CellOf(log[n].area, stride, k) == c && r[c] == log[n].pixels[k]
  }

  lemma {:induction false} PaintFirstOrigin(grid: seq<int>, stride: int, p: Piece, n: nat, c: int)
    requires WritesInRange(p.area, stride, |grid|) && n <= Size(p.area) <= |p.pixels| && 0 <= c < |grid|
    ensures var r := PaintFirst(grid, stride, p, n);
      r[c] == grid[c] || exists k :: 0 <= k < n && CellOf(p.area, stride, k) == c && r[c] == p.pixels[k]
  {
    if n > 0 {
      PaintFirstOrigin(grid, stride, p, n - 1, c);
      if CellOf(p.area, stride, n - 1) != c && PaintFirst(grid, stride, p, n - 1)[c] != grid[c] {
        var k :| 0 <= k < n - 1 && CellOf(p.area, stride, k) == c && PaintFirst(grid, stride, p, n - 1)[c] == p.pixels[k];
      }
    }
  }

  lemma {:induction false} PaintOrigin(grid: seq<int>, stride: int, log: seq<Piece>, c: int)
    requires Paintable(log, stride, |grid|) && 0 <= c < |grid|
    ensures Origin(grid, PaintAll(grid, stride, log), stride, log, c)
  {
    if log != [] {
      var m := |log| - 1;
      var front := log[..m];
      assert Paintable(front, stride, |grid|);
      PaintOrigin(grid, stride, front, c);
      var g := PaintAll(grid, stride, front);
      PaintFirstOrigin(g, stride, log[m], Size(log[m].area), c);
      var r := PaintAll(grid, stride, log);
      if r[c] != g[c] {
        var k :| 0 <= k < Size(log[m].area) && CellOf(log[m].area, stride, k) == c && r[c] == log[m].pixels[k];
        assert 0 <= m < |log|;
      } else if g[c] != grid[c] {
        var n, k :| 0 <= n < |front| && 0 <= k < Size(front[n].area) && CellOf(front[n].area, stride, k) == c && g[c] == front[n].pixels[k];
        assert log[n] == front[n];
      }
    }
  }

  /** A cell is written by a log when some pixel of some piece goes there. */
  ghost predicate Written(log: seq<Piece>, stride: int, c: int)
    requires forall n :: 0 <= n < |log| ==> NonEmpty(log[n].area)
  {
    exists n, k :: 0 <= n < |log| && 0 <= k < Size(log[n].area) && CellOf(log[n].area, stride, k) == c
  }

  /** All writes to a cell agree on a value. */
  ghost predicate Agree(log: seq<Piece>, stride: int, c: int, v: int)
    requires forall n :: 0 <= n < |log| ==> NonEmpty(log[n].area) && Size(log[n].area) <= |log[n].pixels|
  {
    forall n, k :: 0 <= n < |log| && 0 <= k < Size(log[n].area) && CellOf(log[n].area, stride, k) == c ==> log[n].pixels[k] == v
  }

  lemma {:induction false} PaintFirstValue(grid: seq<int>, stride: int, p: Piece, n: nat, c: int, v: int)
    requires WritesInRange(p.area, stride, |grid|) && n <= Size(p.area) <= |p.pixels| && 0 <= c < |grid|
    requires forall k :: 0 <= k < n && CellOf(p.area, stride, k) == c ==> p.pixels[k] == v
    ensures PaintFirst(grid, stride, p, n)[c] ==
            if exists k :: 0 <= k < n && CellOf(p.area, stride, k) == c then v else grid[c]
  {
    if n > 0 {
      PaintFirstValue(grid, stride, p, n - 1, c, v);
      if k :| 0 <= k < n - 1 && CellOf(p.area, stride, k) == c {
        assert 0 <= k < n;
      }
    }
  }

  /** When the writes to a cell agree, the order of the log does not matter. */
  lemma {:induction false} PaintValue(grid: seq<int>, stride: int, log: seq<Piece>, c: int, v: int)
    requires Paintable(log, stride, |grid|) && 0 <= c < |grid| && Agree(log, stride, c, v)
    ensures PaintAll(grid, stride, log)[c] == if Written(log, stride, c) then v else grid[c]
  {
    if log != [] {
      var m := |log| - 1;
      var front := log[..m];
      assert forall n :: 0 <= n < |front| ==> front[n] == log[n];
      PaintValue(grid, stride, front, c, v);
      PaintFirstValue(PaintAll(grid, stride, front), stride, log[m], Size(log[m].area), c, v);
      if Written(front, stride, c) {
        var n, k :| 0 <= n < |front| && 0 <= k < Size(front[n].area) && CellOf(front[n].area, stride, k) == c;
        assert log[n] == front[n];
      }
      if n, k :| 0 <= n < |log| && 0 <= k < Size(log[n].area) && CellOf(log[n].area, stride, k) == c {
        if n < m { assert front[n] == log[n]; }
      }
    }
  }

  lemma CellInjective(w: int, x: int, y: int, x': int, y': int)
    requires 0 <= x < w && 0 <= x' < w && y * w + x == y' * w + x'
    ensures x == x' && y == y'
  {
    QuotientUnique(y * w + x, w, y, x);
    QuotientUnique(y' * w + x', w, y', x');
  }

  // ------------------------------------------------------------------- the picture

  /** The log draws every tile, in some order and possibly more than once, with the right pixels. */
  ghost predicate Draws(log: seq<Piece>, tiles: seq<Area>, pic: Picture)
    requires forall k :: 0 <= k < |tiles| ==> NonEmpty(tiles[k])
  {
    && (forall n :: 0 <= n < |log| ==> NonEmpty(log[n].area) && log[n].area in tiles && log[n].pixels == Packed(log[n].area, pic))
    && (forall k :: 0 <= k < |tiles| ==> DrawsArea(log, tiles[k]))
  }

  ghost predicate DrawsArea(log: seq<Piece>, a: Area) {
    exists n :: 0 <= n < |log| && log[n].area == a
  }

  ghost predicate GoodTiles(tiles: seq<Area>, w: int, h: int) {
    w >= 1 && h >= 1 && |tiles| == PIECES
    && (forall k :: 0 <= k < |tiles| ==> WellFormed(tiles[k], w, h) && NonEmpty(tiles[k]))
    && (forall x, y {:trigger Touched(tiles, x, y)} :: Touched(tiles, x, y) <==> InCovered(w, h, x, y))
  }

  lemma RearrangedTilesAreGood(tiles: seq<Area>, w: int, h: int)
    requires w >= 1 && h >= 1 && multiset(tiles) == multiset(Tiles(w, h))
    ensures GoodTiles(tiles, w, h)
  {
    forall x, y
      ensures Touched(tiles, x, y) <==> InCovered(w, h, x, y)
    {
      RearrangedTilesCover(tiles, w, h, x, y);
    }
    RearrangedTilesCover(tiles, w, h, 0, 0);
  }

  /** Read with `width` as row stride, the array shows the picture where tiles reach, and is untouched elsewhere. */
  ghost predicate Shows(grid: seq<int>, before: seq<int>, w: int, h: int, pic: Picture)
    requires w >= 1 && h >= 1 && |grid| == |before| == w * h
  {
    forall x, y {:trigger InCovered(w, h, x, y)} :: 0 <= x < w && 0 <= y < h ==>
      grid[Cell(w, h, x, y)] == if InCovered(w, h, x, y) then pic(x, y) else before[Cell(w, h, x, y)]
  }

  /** The cell of a pixel in a row-major picture. */
  function Cell(w: int, h: int, x: int, y: int): (c: int)
    requires 0 <= x < w && 0 <= y < h
    ensures 0 <= c < w * h
  {
    CellInRange(w, h, x, y);
    y * w + x
  }

  lemma CellInRange(w: int, h: int, x: int, y: int)
    requires 0 <= x < w && 0 <= y < h
    ensures 0 <= y * w + x < w * h
  {
    MultiplyMonotone(w, 0, y);
    MultiplyMonotone(w, y, h - 1);
  }

  lemma WellFormedWrites(a: Area, w: int, h: int)
    requires WellFormed(a, w, h)
    ensures WritesInRange(a, w, w * h)
  {
    forall k | 0 <= k < Size(a)
      ensures 0 <= CellOf(a, w, k) < w * h
    {
      PixelInside(a, k);
      CellInRange(w, h, PixelX(a, k), PixelY(a, k));
    }
  }

  lemma DrawnLogFits(w: int, h: int, tiles: seq<Area>, log: seq<Piece>, pic: Picture)
    requires GoodTiles(tiles, w, h) && Draws(log, tiles, pic)
    ensures Paintable(log, w, w * h)
  {
    forall n | 0 <= n < |log|
      ensures WritesInRange(log[n].area, w, w * h)
    {
      var t :| 0 <= t < |tiles| && tiles[t] == log[n].area;
      WellFormedWrites(log[n].area, w, h);
    }
  }

  /** With the right stride, every drawing order of the tiles gives the picture. */
  lemma RightStrideShowsPicture(before: seq<int>, w: int, h: int, tiles: seq<Area>, log: seq<Piece>, pic: Picture)
    requires GoodTiles(tiles, w, h) && Draws(log, tiles, pic) && |before| == w * h
    ensures Paintable(log, w, w * h)
    ensures Shows(PaintAll(before, w, log), before, w, h, pic)
  {
    DrawnLogFits(w, h, tiles, log, pic);
    forall x, y {:trigger InCovered(w, h, x, y)} | 0 <= x < w && 0 <= y < h
      ensures PaintAll(before, w, log)[Cell(w, h, x, y)] == if InCovered(w, h, x, y) then pic(x, y) else before[Cell(w, h, x, y)]
    {
      PixelShown(before, w, h, tiles, log, pic, x, y);
    }
  }

  lemma PixelShown(before: seq<int>, w: int, h: int, tiles: seq<Area>, log: seq<Piece>, pic: Picture, x: int, y: int)
    requires GoodTiles(tiles, w, h) && Draws(log, tiles, pic) && |before| == w * h
    requires 0 <= x < w && 0 <= y < h && Paintable(log, w, w * h)
    ensures PaintAll(before, w, log)[Cell(w, h, x, y)] == if InCovered(w, h, x, y) then pic(x, y) else before[Cell(w, h, x, y)]
  {
    CellOfPicture(w, h, tiles, log, pic, x, y);
    PaintValue(before, w, log, Cell(w, h, x, y), pic(x, y));
  }

  lemma CellOfPicture(w: int, h: int, tiles: seq<Area>, log: seq<Piece>, pic: Picture, x: int, y: int)
    requires GoodTiles(tiles, w, h) && Draws(log, tiles, pic) && 0 <= x < w && 0 <= y < h
    ensures Agree(log, w, y * w + x, pic(x, y))
    ensures Written(log, w, y * w + x) <==> InCovered(w, h, x, y)
  {
    forall n, k | 0 <= n < |log| && 0 <= k < Size(log[n].area) && CellOf(log[n].area, w, k) == y * w + x
      ensures log[n].pixels[k] == pic(x, y) && Touched(tiles, x, y)
    {
      var a := log[n].area;
      PixelInside(a, k);
      CellInjective(w, PixelX(a, k), PixelY(a, k), x, y);
      var t :| 0 <= t < |tiles| && tiles[t] == a;
      assert Inside(tiles[t], x, y);
    }
    if InCovered(w, h, x, y) {
      assert Touched(tiles, x, y);
      var t :| 0 <= t < |tiles| && Inside(tiles[t], x, y);
      assert DrawsArea(log, tiles[t]);
      var n :| 0 <= n < |log| && log[n].area == tiles[t];
      var k := PixelAt(log[n].area, x, y);
      assert CellOf(log[n].area, w, k) == y * w + x;
    }
  }

  // ------------------------------------------------------------------- the stride of output_data

  /** Strides that name the same cells give the same array. */
  lemma {:induction false} SameCellsSameArray(grid: seq<int>, s: int, s': int, p: Piece, n: nat)
    requires WritesInRange(p.area, s, |grid|) && WritesInRange(p.area, s', |grid|) && n <= Size(p.area) <= |p.pixels|
    requires forall k :: 0 <= k < Size(p.area) ==> CellOf(p.area, s, k) == CellOf(p.area, s', k)
    ensures PaintFirst(grid, s, p, n) == PaintFirst(grid, s', p, n)
  {
    if n > 0 { SameCellsSameArray(grid, s, s', p, n - 1); }
  }

  lemma {:induction false} SameCellsSameImage(grid: seq<int>, s: int, s': int, log: seq<Piece>)
    requires Paintable(log, s, |grid|) && Paintable(log, s', |grid|)
    requires forall n, k :: 0 <= n < |log| && 0 <= k < Size(log[n].area) ==> CellOf(log[n].area, s, k) == CellOf(log[n].area, s', k)
    ensures PaintAll(grid, s, log) == PaintAll(grid, s', log)
  {
    if log != [] {
      var m := |log| - 1;
      var front := log[..m];
      assert forall n :: 0 <= n < |front| ==> front[n] == log[n];
      SameCellsSameImage(grid, s, s', front);
      SameCellsSameArray(PaintAll(grid, s, front), s, s', log[m], Size(log[m].area));
    }
  }

  /** The largest cell any tile makes `output_data` write. */
  lemma LastCell(w: int, h: int, tiles: seq<Area>)
    requires GoodTiles(tiles, w, h)
    requires forall t :: 0 <= t < |tiles| ==> WritesInRange(tiles[t], h, w * h)
    ensures (Covered(h) - 1) * h + Covered(w) - 1 < w * h
  {
    StepFacts(w);
    StepFacts(h);
    var x, y := Covered(w) - 1, Covered(h) - 1;
    assert InCovered(w, h, x, y);
    assert Touched(tiles, x, y);
    var t :| 0 <= t < |tiles| && Inside(tiles[t], x, y);
    var k := PixelAt(tiles[t], x, y);
    assert 0 <= CellOf(tiles[t], h, k) < w * h;
  }

  lemma CellBelowLast(w: int, h: int, tiles: seq<Area>, t: int, k: int)
    requires GoodTiles(tiles, w, h) && 0 <= t < |tiles| && 0 <= k < Size(tiles[t])
    ensures 0 <= CellOf(tiles[t], h, k) <= (Covered(h) - 1) * h + Covered(w) - 1
  {
    var x, y := PixelX(tiles[t], k), PixelY(tiles[t], k);
    PixelInside(tiles[t], k);
    assert Touched(tiles, x, y);
    assert InCovered(w, h, x, y);
    RowMajorMonotone(h, x, y, Covered(w) - 1, Covered(h) - 1);
  }

  lemma RowMajorMonotone(stride: int, x: int, y: int, x': int, y': int)
    requires 0 <= x <= x' && 0 <= y <= y' && stride >= 0
    ensures 0 <= y * stride + x <= y' * stride + x'
  {
    MultiplyMonotone(stride, y, y');
    MultiplyMonotone(stride, 0, y);
  }

  /** When `output_data` stays inside its array. */
  lemma WritesInRangeIff(w: int, h: int, tiles: seq<Area>)
    requires GoodTiles(tiles, w, h)
    ensures (forall t :: 0 <= t < |tiles| ==> WritesInRange(tiles[t], h, w * h))
       <==> (Covered(h) - 1) * h + Covered(w) - 1 < w * h
  {
    if forall t :: 0 <= t < |tiles| ==> WritesInRange(tiles[t], h, w * h) {
      LastCell(w, h, tiles);
    }
    if (Covered(h) - 1) * h + Covered(w) - 1 < w * h {
      forall t, k | 0 <= t < |tiles| && 0 <= k < Size(tiles[t])
        ensures 0 <= CellOf(tiles[t], h, k) < w * h
      {
        CellBelowLast(w, h, tiles, t, k);
      }
    }
  }

  /** A log whose pieces lie in the covered rectangle and carry as many pixels as their header says. */
  ghost predicate LogWithin(log: seq<Piece>, w: int, h: int) {
    forall n :: 0 <= n < |log| ==>
      var a := log[n].area;
      NonEmpty(a) && WellFormed(a, w, h) && a.imax < Covered(w) && a.jmax < Covered(h) && |log[n].pixels| == Size(a)
  }

  lemma DrawnLogWithin(w: int, h: int, tiles: seq<Area>, log: seq<Piece>, pic: Picture)
    requires GoodTiles(tiles, w, h) && Draws(log, tiles, pic)
    ensures LogWithin(log, w, h)
  {
    forall n | 0 <= n < |log|
      ensures WellFormed(log[n].area, w, h) && log[n].area.imax < Covered(w) && log[n].area.jmax < Covered(h)
    {
      var t :| 0 <= t < |tiles| && tiles[t] == log[n].area;
      assert Touched(tiles, tiles[t].imax, tiles[t].jmax);
      assert InCovered(w, h, tiles[t].imax, tiles[t].jmax);
    }
  }

  lemma StrideAgrees(a: Area, w: int, h: int, k: int)
    requires NonEmpty(a) && WellFormed(a, w, h) && (w == h || h == 1) && 0 <= k < Size(a)
    ensures CellOf(a, h, k) == CellOf(a, w, k)
  {
    PixelInside(a, k);
  }

  /** For a square image, or one of a single row, both strides give the same array. */
  lemma SquareStride(grid: seq<int>, w: int, h: int, log: seq<Piece>)
    requires LogWithin(log, w, h) && (w == h || h == 1) && |grid| == w * h
    ensures Paintable(log, h, w * h) && Paintable(log, w, w * h)
    ensures PaintAll(grid, h, log) == PaintAll(grid, w, log)
  {
    forall n | 0 <= n < |log|
      ensures WritesInRange(log[n].area, h, w * h) && WritesInRange(log[n].area, w, w * h)
      ensures forall k :: 0 <= k < Size(log[n].area) ==> CellOf(log[n].area, h, k) == CellOf(log[n].area, w, k)
    {
      WellFormedWrites(log[n].area, w, h);
      forall k | 0 <= k < Size(log[n].area)
        ensures CellOf(log[n].area, h, k) == CellOf(log[n].area, w, k)
      {
        StrideAgrees(log[n].area, w, h, k);
      }
    }
    SameCellsSameImage(grid, h, w, log);
  }

  /** A square image, or one of a single row: the array is the picture. */
  lemma SquareImageIsRight(before: seq<int>, w: int, h: int, tiles: seq<Area>, log: seq<Piece>, pic: Picture)
    requires GoodTiles(tiles, w, h) && Draws(log, tiles, pic) && |before| == w * h
    requires w == h || h == 1
    ensures Paintable(log, h, w * h)
    ensures Shows(PaintAll(before, h, log), before, w, h, pic)
  {
    DrawnLogWithin(w, h, tiles, log, pic);
    SquareStride(before, w, h, log);
    RightStrideShowsPicture(before, w, h, tiles, log, pic);
  }

  /** Pixels outside the covered rectangle are never drawn. */
  lemma UncoveredUntouched(grid: seq<int>, w: int, h: int, log: seq<Piece>, x: int, y: int)
    requires LogWithin(log, w, h) && Paintable(log, w, w * h) && |grid| == w * h
    requires 0 <= x < w && 0 <= y < h && !InCovered(w, h, x, y)
    ensures PaintAll(grid, w, log)[Cell(w, h, x, y)] == grid[Cell(w, h, x, y)]
  {
    forall n, k | 0 <= n < |log| && 0 <= k < Size(log[n].area)
      ensures CellOf(log[n].area, w, k) != Cell(w, h, x, y)
    {
      PixelInside(log[n].area, k);
      if CellOf(log[n].area, w, k) == Cell(w, h, x, y) {
        CellInjective(w, PixelX(log[n].area, k), PixelY(log[n].area, k), x, y);
      }
    }
    PaintValue(grid, w, log, Cell(w, h, x, y), 0);
  }

  lemma {:induction false} PaintAppend(grid: seq<int>, stride: int, log: seq<Piece>, more: seq<Piece>)
    requires Paintable(log, stride, |grid|) && Paintable(more, stride, |grid|)
    ensures Paintable(log + more, stride, |grid|)
    ensures PaintAll(grid, stride, log + more) == PaintAll(PaintAll(grid, stride, log), stride, more)
  {
    if more == [] {
      assert log + more == log;
    } else {
      var front := more[..|more| - 1];
      assert forall n :: 0 <= n < |front| ==> front[n] == more[n];
      PaintAppend(grid, stride, log, front);
      assert (log + more)[..|log + more| - 1] == log + front;
    }
  }

  /** A picture with a single lit pixel, the first one of the second row. */
  function Beacon(): Picture {
    (x: int, y: int) => if x == 0 && y == 1 then 1 else 0
  }

  /** Any other shape whose writes stay in range loses that pixel. */
  lemma OtherShapesAreWrong(w: int, h: int, tiles: seq<Area>, log: seq<Piece>)
    requires GoodTiles(tiles, w, h) && Draws(log, tiles, Beacon()) && Paintable(log, h, w * h)
    requires w != h && h != 1
    ensures var before := seq(w * h, _ => 0);
      !Shows(PaintAll(before, h, log), before, w, h, Beacon())
  {
    var before := seq(w * h, _ => 0);
    var r := PaintAll(before, h, log);
    StepFacts(w);
    StepFacts(h);
    CellInRange(w, h, 0, 1);
    assert Covered(h) >= 2;
    assert InCovered(w, h, 0, 1);
    PaintOrigin(before, h, log, w);
    assert r[w] == 0;
    assert Cell(w, h, 0, 1) == w && Beacon()(0, 1) == 1;
  }

  lemma BeaconIsLost(w: int, h: int, tiles: seq<Area>, log: seq<Piece>, before: seq<int>)
    requires GoodTiles(tiles, w, h) && Draws(log, tiles, Beacon()) && w != h && h != 1
    requires w * h >= 0 && before == seq(w * h, _ => 0)
    ensures !(Paintable(log, h, w * h) && Shows(PaintAll(before, h, log), before, w, h, Beacon()))
  {
    if Paintable(log, h, w * h) { OtherShapesAreWrong(w, h, tiles, log); }
  }

  /** The assembled array is the picture, for every picture and whatever was in it before. */
  ghost predicate AlwaysShows(w: int, h: int, logOf: Picture -> seq<Piece>)
    requires w >= 1 && h >= 1
  {
    forall pic: Picture, before: seq<int> :: |before| == w * h ==>
      Paintable(logOf(pic), h, w * h) && Shows(PaintAll(before, h, logOf(pic)), before, w, h, pic)
  }

  /**
   The main result on `output_data`: whatever the drawing order, all writes stay in the array and the
   array is the picture, for every picture, exactly when the image is square or has one row.
   */
  lemma StrideIff(w: int, h: int, tiles: seq<Area>, logOf: Picture -> seq<Piece>)
    requires GoodTiles(tiles, w, h)
    requires forall pic: Picture :: Draws(logOf(pic), tiles, pic)
    ensures AlwaysShows(w, h, logOf) <==> w == h || h == 1
  {
    if w == h || h == 1 {
      forall pic: Picture, before: seq<int> | |before| == w * h
        ensures Paintable(logOf(pic), h, w * h) && Shows(PaintAll(before, h, logOf(pic)), before, w, h, pic)
      {
        SquareImageIsRight(before, w, h, tiles, logOf(pic), pic);
      }
    } else {
      MultiplyMonotone(w, 0, h);
      var before := seq(w * h, _ => 0);
      assert |before| == w * h;
      BeaconIsLost(w, h, tiles, logOf(Beacon()), before);
    }
  }
}
