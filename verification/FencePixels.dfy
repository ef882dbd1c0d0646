/** The puts of pmandel_fence.c pixel by pixel: one strided put against many small ones, fillers, and the image. */
module FencePixels {
  import opened Tiling
  import opened Image
  import opened FenceResults
  import opened FenceRounds

  // ------------------------------------------------------------------- one put or many

  /** `MPI_Put` of one element at a time, in the worker's two loops. */
  method PutPixels(a: Area, pic: Picture, grid: array<int>, width: int)
    requires WritesInRange(a, width, grid.Length)
    modifies grid
    ensures grid[..] == Paint(old(grid[..]), width, Piece(a, Packed(a, pic)))
  {
    ghost var p, start := Piece(a, Packed(a, pic)), grid[..];
    ghost var k := 0;
    SizePositive(a);
    var j := a.jmin;
    while j <= a.jmax
      invariant a.jmin <= j <= a.jmax + 1
      invariant 0 <= k == (j - a.jmin) * Columns(a) <= Size(a)
      invariant grid[..] == PaintFirst(start, width, p, k)
    {
      RowFits(a, j);
      ghost var row := k;
      var i := a.imin;
      while i <= a.imax
        invariant a.imin <= i <= a.imax + 1
        invariant k == row + (i - a.imin) <= Size(a)
        invariant grid[..] == PaintFirst(start, width, p, k)
      {
        NextCell(start, width, p, i, j, k);
        ghost var m := PixelAt(a, i, j);
        grid[(j * width) + i] := pic(i, j);
        k := k + 1;
        i := i + 1;
      }
      j := j + 1;
    }
    assert k == Size(a);
  }

  /**
   Where element `k` of a put goes when the target datatype is a vector: blocks of `length`
   elements, `stride` elements from the start of one to the start of the next.
   */
  function VectorCell(disp: int, length: int, stride: int, k: int): int
    requires length > 0
  {
    disp + (k / length) * stride + k % length
  }

  ghost predicate VectorFits(disp: int, blocks: int, length: int, stride: int, cells: int) {
    length > 0 && blocks > 0 && forall k :: 0 <= k < blocks * length ==> 0 <= VectorCell(disp, length, stride, k) < cells
  }

  /** The target window after the first `n` elements of such a put. */
  ghost function VectorPut(grid: seq<int>, data: seq<int>, disp: int, blocks: int, length: int, stride: int, n: nat): (r: seq<int>)
    requires VectorFits(disp, blocks, length, stride, |grid|) && n <= blocks * length <= |data|
    ensures |r| == |grid|
  {
    if n == 0 then grid
    else VectorPut(grid, data, disp, blocks, length, stride, n - 1)[VectorCell(disp, length, stride, n - 1) := data[n - 1]]
  }

  lemma VectorCellIsPixel(a: Area, width: int, k: int)
    requires NonEmpty(a)
    ensures VectorCell(a.jmin * width + a.imin, Columns(a), width, k) == CellOf(a, width, k)
  {
    var q := k / Columns(a);
    assert (a.jmin + q) * width == a.jmin * width + q * width;
  }

  lemma VectorFitsIff(a: Area, width: int, cells: int)
    requires NonEmpty(a)
    ensures VectorFits(a.jmin * width + a.imin, Rows(a), Columns(a), width, cells) <==> WritesInRange(a, width, cells)
  {
    var disp := a.jmin * width + a.imin;
    assert Rows(a) * Columns(a) == Size(a);
    if VectorFits(disp, Rows(a), Columns(a), width, cells) {
      forall k | 0 <= k < Size(a)
        ensures 0 <= CellOf(a, width, k) < cells
      {
        VectorCellIsPixel(a, width, k);
      }
    }
    if WritesInRange(a, width, cells) {
      forall k | 0 <= k < Rows(a) * Columns(a)
        ensures 0 <= VectorCell(disp, Columns(a), width, k) < cells
      {
        VectorCellIsPixel(a, width, k);
      }
    }
  }

  lemma {:induction false} VectorPutFirst(grid: seq<int>, p: Piece, width: int, n: nat)
    requires WritesInRange(p.area, width, |grid|) && n <= Size(p.area) <= |p.pixels|
    ensures VectorFits(p.area.jmin * width + p.area.imin, Rows(p.area), Columns(p.area), width, |grid|)
    ensures VectorPut(grid, p.pixels, p.area.jmin * width + p.area.imin, Rows(p.area), Columns(p.area), width, n)
            == PaintFirst(grid, width, p, n)
  {
    VectorFitsIff(p.area, width, |grid|);
    if n > 0 {
      VectorPutFirst(grid, p, width, n - 1);
      VectorCellIsPixel(p.area, width, n - 1);
    }
  }

  /** One strided put of the packed pixels writes the cells and values of all the small puts. */
  lemma VectorPutIsPixelPuts(grid: seq<int>, a: Area, pic: Picture, width: int)
    requires WritesInRange(a, width, |grid|)
    ensures var disp := a.jmin * width + a.imin;
            && VectorFits(disp, Rows(a), Columns(a), width, |grid|)
            && VectorPut(grid, Packed(a, pic), disp, Rows(a), Columns(a), width, Size(a)) == Paint(grid, width, Piece(a, Packed(a, pic)))
  {
    SizePositive(a);
    VectorPutFirst(grid, Piece(a, Packed(a, pic)), width, Size(a));
  }

  // ------------------------------------------------------------------- fillers

  /** What a worker computes for a filler is put before the beginning of the root's window. */
  lemma FillerIsOutside(width: int, cells: int)
    requires width >= 1
    ensures NonEmpty(NOWHERE) && Size(NOWHERE) == 1 && CellOf(NOWHERE, width, 0) == -(width + 1)
    ensures !WritesInRange(NOWHERE, width, cells)
  {
    assert 0 <= 0 < Size(NOWHERE);
    assert CellOf(NOWHERE, width, 0) < 0;
  }

  /** No tile is a filler. */
  predicate RealTiles(c: Config) {
    forall t :: 0 <= t < |c.tiles| ==> c.tiles[t].imin >= 0 && c.tiles[t].jmin >= 0
  }

  lemma NoFillerIff(n: int, k: int, r: int)
    requires n >= 1 && k >= 1 && r * k < n <= r * k + k
    ensures n == r * k + k <==> n % k == 0
  {
    QuotientUnique(n - 1, k, r, n - 1 - r * k);
    if n == r * k + k { QuotientUnique(n, k, r + 1, 0); } else { QuotientUnique(n, k, r, n - r * k); }
  }

  /** An image whose puts all stay in the window is one whose tiles the workers share out evenly. */
  lemma FillerPutIff(c: Config, s: State)
    requires ValidConfig(c) && RealTiles(c) && Reachable(c, s) && s.root == End
    ensures NOWHERE in s.landed <==> |c.tiles| % c.workers != 0
  {
    ReachableInv(c, s);
    var n := |c.tiles|;
    NoFillerIff(n, c.workers, s.round);
    if Base(c, s) + c.workers > n {
      assert Item(c, n).area == NOWHERE;
    }
    if NOWHERE in s.landed {
      var i :| 0 <= i < |s.landed| && s.landed[i] == NOWHERE;
      assert ComesFrom(c, s, NOWHERE);
      var t :| 0 <= t < Handed(c, s) && Item(c, t).area == NOWHERE;
      assert t >= n;
    }
  }

  /** And there is such an image: some run comes to its end, and when the workers do not share out evenly a filler was put. */
  lemma FillerPutOccurs(c: Config) returns (s: State)
    requires ValidConfig(c) && RealTiles(c) && |c.tiles| % c.workers != 0
    ensures Reachable(c, s) && Shape(c, s) && Final(c, s) && NOWHERE in s.landed
  {
    s := FinalOccurs(c);
    FillerPutIff(c, s);
  }

  // ------------------------------------------------------------------- the image

  /** The results that landed, as pieces; a put outside the window has no effect on it. */
  ghost function Drawn(landed: seq<Area>, pic: Picture): (log: seq<Piece>)
    ensures forall n :: 0 <= n < |log| ==>
              && NonEmpty(log[n].area) && log[n].area in landed && log[n].area != NOWHERE
              && log[n].pixels == Packed(log[n].area, pic)
    ensures forall a :: a in landed && NonEmpty(a) && a != NOWHERE ==> DrawsArea(log, a)
  {
    if landed == [] then []
    else
      var front, a := landed[..|landed| - 1], landed[|landed| - 1];
      var log := Drawn(front, pic);
      assert forall b :: b in landed ==> b in front || b == a;
      if !NonEmpty(a) || a == NOWHERE then log
      else
        var r := log + [Piece(a, Packed(a, pic))];
        assert forall b {:trigger DrawsArea(log, b)} :: DrawsArea(log, b) ==> DrawsArea(r, b) by {
          forall b {:trigger DrawsArea(log, b)} | DrawsArea(log, b)
            ensures DrawsArea(r, b)
          {
            var n :| 0 <= n < |log| && log[n].area == b;
            assert r[n].area == b;
          }
        }
        assert r[|log|].area == a;
        r
  }

  /** Every landed area is a tile or the filler. */
  lemma LandedAreTiles(c: Config, s: State, a: Area)
    requires Shape(c, s) && OriginInv(c, s) && a in s.landed
    ensures a in c.tiles || a == NOWHERE
  {
    var n :| 0 <= n < |s.landed| && s.landed[n] == a;
    assert ComesFrom(c, s, a);
    var t :| 0 <= t < Handed(c, s) && Item(c, t).area == a;
    if t < |c.tiles| { assert c.tiles[t] == a; }
  }

  /** A log of tiles with their pixels, not necessarily all of them. */
  ghost predicate FromTiles(log: seq<Piece>, tiles: seq<Area>, pic: Picture) {
    forall n :: 0 <= n < |log| ==> NonEmpty(log[n].area) && log[n].area in tiles && log[n].pixels == Packed(log[n].area, pic)
  }

  lemma TileIsWellFormed(tiles: seq<Area>, w: int, h: int, a: Area)
    requires GoodTiles(tiles, w, h) && a in tiles
    ensures WellFormed(a, w, h) && NonEmpty(a)
  {
  }

  lemma FromTilesFits(log: seq<Piece>, tiles: seq<Area>, pic: Picture, w: int, h: int)
    requires GoodTiles(tiles, w, h) && FromTiles(log, tiles, pic)
    ensures Paintable(log, w, w * h)
  {
    forall n | 0 <= n < |log|
      ensures WritesInRange(log[n].area, w, w * h)
    {
      TileIsWellFormed(tiles, w, h, log[n].area);
      WellFormedWrites(log[n].area, w, h);
    }
  }

  lemma FromTilesAgrees(log: seq<Piece>, tiles: seq<Area>, pic: Picture, w: int, h: int, x: int, y: int)
    requires GoodTiles(tiles, w, h) && FromTiles(log, tiles, pic) && 0 <= x < w
    ensures Agree(log, w, y * w + x, pic(x, y))
  {
    forall n, k | 0 <= n < |log| && 0 <= k < Size(log[n].area) && CellOf(log[n].area, w, k) == y * w + x
      ensures log[n].pixels[k] == pic(x, y)
    {
      var b := log[n].area;
      TileIsWellFormed(tiles, w, h, b);
      PixelInside(b, k);
      CellInjective(w, PixelX(b, k), PixelY(b, k), x, y);
    }
  }

  lemma AreaIsWritten(log: seq<Piece>, tiles: seq<Area>, pic: Picture, w: int, a: Area, x: int, y: int)
    requires FromTiles(log, tiles, pic) && DrawsArea(log, a) && Inside(a, x, y)
    ensures Written(log, w, y * w + x)
  {
    var n :| 0 <= n < |log| && log[n].area == a;
    var k := PixelAt(a, x, y);
    assert CellOf(log[n].area, w, k) == y * w + x;
  }

  /** Cells of a tile that has been drawn hold the picture, whatever else has been drawn. */
  lemma DrawnTileShows(before: seq<int>, w: int, h: int, tiles: seq<Area>, log: seq<Piece>, pic: Picture, a: Area, x: int, y: int)
    requires GoodTiles(tiles, w, h) && |before| == w * h && FromTiles(log, tiles, pic)
    requires DrawsArea(log, a) && Inside(a, x, y) && 0 <= x < w && 0 <= y < h
    ensures Paintable(log, w, w * h) && PaintAll(before, w, log)[Cell(w, h, x, y)] == pic(x, y)
  {
    FromTilesFits(log, tiles, pic, w, h);
    FromTilesAgrees(log, tiles, pic, w, h, x, y);
    AreaIsWritten(log, tiles, pic, w, a, x, y);
    PaintValue(before, w, log, Cell(w, h, x, y), pic(x, y));
  }

  lemma LandedFromTiles(c: Config, s: State, pic: Picture)
    requires Shape(c, s) && OriginInv(c, s)
    ensures FromTiles(Drawn(s.landed, pic), c.tiles, pic)
  {
    var log := Drawn(s.landed, pic);
    forall n | 0 <= n < |log|
      ensures log[n].area in c.tiles
    {
      LandedAreTiles(c, s, log[n].area);
    }
  }

  /** When the root collects a tile, its rows in the root's array hold the picture already. */
  lemma CollectedTileShows(c: Config, s: State, w: int, h: int, pic: Picture, before: seq<int>, t: nat, x: int, y: int)
    requires ValidConfig(c) && Reachable(c, s) && s.root.Collect? && GoodTiles(c.tiles, w, h) && |before| == w * h
    requires t < |c.tiles| && t < Base(c, s) + c.workers && Inside(c.tiles[t], x, y)
    ensures 0 <= x < w && 0 <= y < h && Paintable(Drawn(s.landed, pic), w, w * h)
    ensures PaintAll(before, w, Drawn(s.landed, pic))[Cell(w, h, x, y)] == pic(x, y)
  {
    ReachableInv(c, s);
    var a := c.tiles[t];
    TileIsWellFormed(c.tiles, w, h, a);
    assert Item(c, t).area in s.landed;
    LandedFromTiles(c, s, pic);
    DrawnTileShows(before, w, h, c.tiles, Drawn(s.landed, pic), pic, a, x, y);
  }

  /** At the end the root's array is the picture wherever the tiles reach, for any shape, and untouched elsewhere. */
  lemma FinishedImage(c: Config, s: State, w: int, h: int, pic: Picture, before: seq<int>)
    requires ValidConfig(c) && Reachable(c, s) && s.root == End && GoodTiles(c.tiles, w, h) && |before| == w * h
    ensures Paintable(Drawn(s.landed, pic), w, w * h)
    ensures Shows(PaintAll(before, w, Drawn(s.landed, pic)), before, w, h, pic)
  {
    ReachableInv(c, s);
    var log := Drawn(s.landed, pic);
    LandedFromTiles(c, s, pic);
    forall k | 0 <= k < |c.tiles|
      ensures DrawsArea(log, c.tiles[k])
    {
      assert Item(c, k).area in s.landed;
    }
    RightStrideShowsPicture(before, w, h, c.tiles, log, pic);
  }

  // ------------------------------------------------------------------- workers of one epoch

  lemma {:induction false} TwiceCounts(s: seq<Area>, i: nat, j: nat)
    requires i < j < |s| && s[i] == s[j]
    ensures multiset(s)[s[i]] >= 2
  {
    assert s == s[..j] + [s[j]] + s[j + 1..];
    assert s[..j][i] == s[i];
    assert s[i] in multiset(s[..j]);
  }

  lemma {:induction false} CountsTwice(s: seq<Area>, a: Area) returns (i: nat, j: nat)
    requires multiset(s)[a] >= 2
    ensures i < j < |s| && s[i] == a && s[j] == a
  {
    var n := |s| - 1;
    assert s == s[..n] + [s[n]];
    if s[n] == a {
      assert a in multiset(s[..n]);
      i :| 0 <= i < n && s[..n][i] == a;
      j := n;
    } else {
      i, j := CountsTwice(s[..n], a);
    }
  }

  /** Of the tiles of a shuffled image with both dimensions at least twenty, no two share a pixel. */
  lemma ShuffledTilesDisjoint(tiles: seq<Area>, w: int, h: int, t: nat, t': nat, x: int, y: int)
    requires w >= SIDE && h >= SIDE && multiset(tiles) == multiset(Tiles(w, h))
    requires t < t' < |tiles| && Inside(tiles[t], x, y)
    ensures !Inside(tiles[t'], x, y)
  {
    if Inside(tiles[t'], x, y) {
      assert tiles[t] in multiset(tiles) && tiles[t'] in multiset(tiles);
      var m :| 0 <= m < PIECES && Tiles(w, h)[m] == tiles[t];
      var m' :| 0 <= m' < PIECES && Tiles(w, h)[m'] == tiles[t'];
      TilesDisjoint(w, h, m, m', x, y);
      TwiceCounts(tiles, t, t');
      var i, j := CountsTwice(Tiles(w, h), tiles[t]);
      TilesDisjoint(w, h, i, j, x, y);
    }
  }

  /** So the puts of different workers in one epoch never touch the same cell. */
  lemma EpochPutsDisjoint(c: Config, s: State, w: int, h: int, v: nat, v': nat, k: int, k': int)
    requires ValidConfig(c) && w >= SIDE && h >= SIDE && multiset(c.tiles) == multiset(Tiles(w, h))
    requires v < v' < c.workers && Base(c, s) + v' < |c.tiles|
    requires GoodTiles(c.tiles, w, h)
    requires 0 <= k < Size(Now(c, s, v).area) && 0 <= k' < Size(Now(c, s, v').area)
    ensures CellOf(Now(c, s, v).area, w, k) != CellOf(Now(c, s, v').area, w, k')
  {
    var t, t' := Base(c, s) + v, Base(c, s) + v';
    var a, a' := c.tiles[t], c.tiles[t'];
    PixelInside(a, k);
    PixelInside(a', k');
    if CellOf(a, w, k) == CellOf(a', w, k') {
      CellInjective(w, PixelX(a, k), PixelY(a, k), PixelX(a', k'), PixelY(a', k'));
      ShuffledTilesDisjoint(c.tiles, w, h, t, t', PixelX(a, k), PixelY(a, k));
    }
  }
}
