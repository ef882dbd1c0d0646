/**
 Cutting the image into 20 x 20 rectangles and shuffling them: the part of the root's loop
 that all four pmandel programs share.
 */
module Tiling {
  import opened Common

  const SIDE := 20
  const PIECES := 400

  /** The four coordinates that travel with a piece of work; both ends are inclusive. */
  datatype Area = Area(imin: int, imax: int, jmin: int, jmax: int)

  predicate Inside(a: Area, x: int, y: int) {
    a.imin <= x <= a.imax && a.jmin <= y <= a.jmax
  }

  predicate WellFormed(a: Area, w: int, h: int) {
    0 <= a.imin <= a.imax < w && 0 <= a.jmin <= a.jmax < h
  }

  /** `istep` and `jstep`: a twentieth of the dimension, but at least one pixel. */
  function StepFor(pixels: int): int {
    if pixels / SIDE < 1 then 1 else pixels / SIDE
  }

  function Low(pixels: int, i: int): int {
    Min(StepFor(pixels) * i, pixels - 1)
  }

  function High(pixels: int, i: int): int {
    Min(StepFor(pixels) * (i + 1) - 1, pixels - 1)
  }

  function TileAt(w: int, h: int, k: int): Area {
    Area(Low(w, k / SIDE), High(w, k / SIDE), Low(h, k % SIDE), High(h, k % SIDE))
  }

  function Tiles(w: int, h: int): seq<Area> {
    seq(PIECES, k => TileAt(w, h, k))
  }

  /** How many pixels of a dimension the tiles reach. */
  function Covered(pixels: int): int {
    if pixels < SIDE then pixels else SIDE * (pixels / SIDE)
  }

  /** The four parallel arrays of the root, read as one sequence of areas. */
  function Zip(i1: seq<int>, i2: seq<int>, j1: seq<int>, j2: seq<int>): (z: seq<Area>)
    requires |i1| == |i2| == |j1| == |j2|
    ensures |z| == |i1|
  {
    seq(|i1|, k requires 0 <= k < |i1| => Area(i1[k], i2[k], j1[k], j2[k]))
  }

  method MakeTiles(w: int, h: int) returns (i1: array<int>, i2: array<int>, j1: array<int>, j2: array<int>)
    requires w >= 1 && h >= 1
    ensures fresh(i1) && fresh(i2) && fresh(j1) && fresh(j2)
    ensures i1 != i2 && i1 != j1 && i1 != j2 && i2 != j1 && i2 != j2 && j1 != j2
    ensures i1.Length == i2.Length == j1.Length == j2.Length == PIECES
    ensures Zip(i1[..], i2[..], j1[..], j2[..]) == Tiles(w, h)
  {
    i1, i2, j1, j2 := new int[PIECES], new int[PIECES], new int[PIECES], new int[PIECES];
    var istep, jstep := w / SIDE, h / SIDE;
    if istep < 1 { istep := 1; }
    if jstep < 1 { jstep := 1; }
    var k := 0;
    for i := 0 to SIDE
      invariant k == SIDE * i
      invariant forall n :: 0 <= n < k ==> Area(i1[n], i2[n], j1[n], j2[n]) == TileAt(w, h, n)
    {
      for j := 0 to SIDE
        invariant k == SIDE * i + j
        invariant forall n :: 0 <= n < k ==> Area(i1[n], i2[n], j1[n], j2[n]) == TileAt(w, h, n)
      {
        i1[k] := Min(istep * i, w - 1);
        i2[k] := Min(istep * (i + 1) - 1, w - 1);
        j1[k] := Min(jstep * j, h - 1);
        j2[k] := Min(jstep * (j + 1) - 1, h - 1);
        assert k / SIDE == i && k % SIDE == j;
        k := k + 1;
      }
    }
  }

  /** One exchange of two entries; the two indices may be equal. */
  function Exchange<T>(s: seq<T>, i: nat, j: nat): (r: seq<T>)
    requires i < |s| && j < |s|
    ensures |r| == |s|
    ensures multiset(r) == multiset(s)
  {
    s[i := s[j]][j := s[i]]
  }

  /** All exchanges a sequence of pairs of random numbers asks for. */
  function Shuffled<T>(s: seq<T>, draws: seq<(nat, nat)>): (r: seq<T>)
    requires |s| > 0
    ensures |r| == |s|
    decreases |draws|
  {
    if draws == [] then s
    else
      var d := draws[|draws| - 1];
      var t := Shuffled(s, draws[..|draws| - 1]);
      Exchange(t, d.0 % |s|, d.1 % |s|)
  }

  lemma {:induction false} ShuffleKeepsPieces<T>(s: seq<T>, draws: seq<(nat, nat)>)
    requires |s| > 0
    ensures multiset(Shuffled(s, draws)) == multiset(s)
    decreases |draws|
  {
    if draws != [] {
      ShuffleKeepsPieces(s, draws[..|draws| - 1]);
    }
  }

  method SwapEntries(a: array<int>, i: nat, j: nat)
    requires i < a.Length && j < a.Length
    modifies a
    ensures a[..] == Exchange(old(a[..]), i, j)
  {
    var x := a[i];
    a[i] := a[j];
    a[j] := x;
  }

  lemma ZipExchange(i1: seq<int>, i2: seq<int>, j1: seq<int>, j2: seq<int>, i: nat, j: nat)
    requires |i1| == |i2| == |j1| == |j2| && i < |i1| && j < |i1|
    ensures Zip(Exchange(i1, i, j), Exchange(i2, i, j), Exchange(j1, i, j), Exchange(j2, i, j))
         == Exchange(Zip(i1, i2, j1, j2), i, j)
  {
  }

  /** The shuffle loop: the same two indices are exchanged in all four arrays. */
  method Shuffle(i1: array<int>, i2: array<int>, j1: array<int>, j2: array<int>, draws: seq<(nat, nat)>)
    requires i1 != i2 && i1 != j1 && i1 != j2 && i2 != j1 && i2 != j2 && j1 != j2
    requires i1.Length == i2.Length == j1.Length == j2.Length > 0
    modifies i1, i2, j1, j2
    ensures Zip(i1[..], i2[..], j1[..], j2[..]) == Shuffled(old(Zip(i1[..], i2[..], j1[..], j2[..])), draws)
  {
    var n := i1.Length;
    ghost var start := Zip(i1[..], i2[..], j1[..], j2[..]);
    assert draws[..0] == [];
    for r := 0 to |draws|
      invariant Zip(i1[..], i2[..], j1[..], j2[..]) == Shuffled(start, draws[..r])
    {
      var ii, jj := draws[r].0 % n, draws[r].1 % n;
      ghost var s1, s2, s3, s4 := i1[..], i2[..], j1[..], j2[..];
      SwapEntries(i1, ii, jj);
      SwapEntries(i2, ii, jj);
      SwapEntries(j1, ii, jj);
      SwapEntries(j2, ii, jj);
      ZipExchange(s1, s2, s3, s4, ii, jj);
      assert draws[..r + 1][..r] == draws[..r];
    }
    assert draws[..|draws|] == draws;
  }

  // ---------------------------------------------------------------- what the tiles cover

  lemma StepFacts(pixels: int)
    requires pixels >= 1
    ensures StepFor(pixels) >= 1
    ensures Covered(pixels) <= SIDE * StepFor(pixels)
    ensures pixels >= SIDE ==> SIDE * StepFor(pixels) == Covered(pixels) <= pixels
    ensures pixels < SIDE ==> StepFor(pixels) == 1
    ensures 1 <= Covered(pixels) <= pixels
  {
  }

  lemma MultiplyMonotone(s: int, a: int, b: int)
    requires s >= 0 && a <= b
    ensures s * a <= s * b
  {
  }

  /** Each strip lies in the image, and is not empty. */
  lemma StripInRange(pixels: int, i: int)
    requires pixels >= 1 && 0 <= i < SIDE
    ensures 0 <= Low(pixels, i) <= High(pixels, i) < Covered(pixels)
  {
    StepFacts(pixels);
    MultiplyMonotone(StepFor(pixels), i + 1, SIDE);
    assert StepFor(pixels) * (i + 1) == StepFor(pixels) * i + StepFor(pixels);
    MultiplyMonotone(StepFor(pixels), 0, i);
  }

  /** The strip that holds a given pixel. */
  lemma StripOf(pixels: int, x: int) returns (i: int)
    requires pixels >= 1 && 0 <= x < Covered(pixels)
    ensures 0 <= i < SIDE && Low(pixels, i) <= x <= High(pixels, i)
  {
    StepFacts(pixels);
    var s := StepFor(pixels);
    i := x / s;
    assert x == s * i + x % s;
    if i >= SIDE {
      MultiplyMonotone(s, SIDE, i);
      assert false;
    }
    assert s * (i + 1) == s * i + s;
  }

  /** Two strips of a dimension of at least twenty pixels never share a pixel. */
  lemma StripsDisjoint(pixels: int, i: int, i': int, x: int)
    requires pixels >= SIDE && 0 <= i < SIDE && 0 <= i' < SIDE
    requires Low(pixels, i) <= x <= High(pixels, i) && Low(pixels, i') <= x <= High(pixels, i')
    ensures i == i'
  {
    StepFacts(pixels);
    var s := StepFor(pixels);
    if i < i' {
      MultiplyMonotone(s, i + 1, i');
      MultiplyMonotone(s, i', SIDE - 1);
    } else if i' < i {
      MultiplyMonotone(s, i' + 1, i);
      MultiplyMonotone(s, i, SIDE - 1);
    }
  }

  predicate InCovered(w: int, h: int, x: int, y: int) {
    0 <= x < Covered(w) && 0 <= y < Covered(h)
  }

  ghost predicate Touched(tiles: seq<Area>, x: int, y: int) {
    exists k :: 0 <= k < |tiles| && Inside(tiles[k], x, y)
  }

  lemma TileWithinCovered(w: int, h: int, k: int)
    requires w >= 1 && h >= 1 && 0 <= k < PIECES
    ensures WellFormed(TileAt(w, h, k), w, h)
    ensures TileAt(w, h, k).imax < Covered(w) && TileAt(w, h, k).jmax < Covered(h)
  {
    StepFacts(w);
    StepFacts(h);
    StripInRange(w, k / SIDE);
    StripInRange(h, k % SIDE);
  }

  lemma TileHolding(w: int, h: int, x: int, y: int) returns (k: int)
    requires w >= 1 && h >= 1 && InCovered(w, h, x, y)
    ensures 0 <= k < PIECES && Inside(TileAt(w, h, k), x, y)
  {
    var i := StripOf(w, x);
    var j := StripOf(h, y);
    k := SIDE * i + j;
    assert k / SIDE == i && k % SIDE == j;
  }

  /** Together the tiles reach exactly the covered rectangle. */
  lemma TilesCover(w: int, h: int, x: int, y: int)
    requires w >= 1 && h >= 1
    ensures Touched(Tiles(w, h), x, y) <==> InCovered(w, h, x, y)
  {
    if InCovered(w, h, x, y) {
      var k := TileHolding(w, h, x, y);
      assert Inside(Tiles(w, h)[k], x, y);
    }
    if Touched(Tiles(w, h), x, y) {
      var k :| 0 <= k < PIECES && Inside(Tiles(w, h)[k], x, y);
      TileWithinCovered(w, h, k);
    }
  }

  /** When both dimensions have at least twenty pixels, every pixel has at most one tile. */
  lemma TilesDisjoint(w: int, h: int, k: int, k': int, x: int, y: int)
    requires w >= SIDE && h >= SIDE && 0 <= k < PIECES && 0 <= k' < PIECES
    requires Inside(TileAt(w, h, k), x, y) && Inside(TileAt(w, h, k'), x, y)
    ensures k == k'
  {
    StripsDisjoint(w, k / SIDE, k' / SIDE, x);
    StripsDisjoint(h, k % SIDE, k' % SIDE, y);
  }

  /** Below twenty pixels the clamped strips repeat, so the bound of twenty is needed. */
  lemma TilesOverlapBelowTwenty(w: int, h: int)
    requires 1 <= w < SIDE && h >= 1
    ensures TileAt(w, h, PIECES - SIDE) == TileAt(w, h, PIECES - 2 * SIDE)
  {
    StepFacts(w);
  }

  /**
   The all-zero tile looks like the end marker of the visualizer stream. It exists
   exactly for images smaller than forty pixels in both dimensions.
   */
  lemma ZeroTileIff(w: int, h: int)
    requires w >= 1 && h >= 1
    ensures Area(0, 0, 0, 0) in Tiles(w, h) <==> w < 2 * SIDE && h < 2 * SIDE
  {
    var zero := Area(0, 0, 0, 0);
    if w < 2 * SIDE && h < 2 * SIDE {
      assert Tiles(w, h)[0] == zero;
    }
    if zero in Tiles(w, h) {
      var k :| 0 <= k < PIECES && zero == TileAt(w, h, k);
      StepFacts(w);
      StepFacts(h);
      MultiplyMonotone(StepFor(w), 1, k / SIDE + 1);
      MultiplyMonotone(StepFor(h), 1, k % SIDE + 1);
    }
  }

  /** Rearranged tiles: still inside the image, still reaching exactly the covered rectangle. */
  lemma RearrangedTilesCover(tiles: seq<Area>, w: int, h: int, x: int, y: int)
    requires w >= 1 && h >= 1 && multiset(tiles) == multiset(Tiles(w, h))
    ensures |tiles| == PIECES
    ensures forall k :: 0 <= k < |tiles| ==> WellFormed(tiles[k], w, h) && tiles[k].imax < Covered(w) && tiles[k].jmax < Covered(h)
    ensures Touched(tiles, x, y) <==> InCovered(w, h, x, y)
  {
    assert |multiset(tiles)| == |multiset(Tiles(w, h))|;
    forall k | 0 <= k < |tiles|
      ensures WellFormed(tiles[k], w, h) && tiles[k].imax < Covered(w) && tiles[k].jmax < Covered(h)
      ensures tiles[k] in Tiles(w, h)
    {
      assert tiles[k] in multiset(tiles);
      var n :| 0 <= n < PIECES && Tiles(w, h)[n] == tiles[k];
      TileWithinCovered(w, h, n);
    }
    TilesCover(w, h, x, y);
    if InCovered(w, h, x, y) {
      var n :| 0 <= n < PIECES && Inside(Tiles(w, h)[n], x, y);
      assert Tiles(w, h)[n] in multiset(Tiles(w, h));
      assert Tiles(w, h)[n] in tiles;
    }
  }
}
