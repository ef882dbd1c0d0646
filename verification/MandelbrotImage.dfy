/** The picture that is drawn: every pixel has the escape-time count of its point. */
module MandelbrotImage {
  import opened Common
  import opened Tiling
  import opened Image
  import opened Escape
  import Dispatch
  import DispatchResults
  import FenceRounds
  import FencePixels

  /** What the user asks for; with a Julia constant the iteration uses it instead of the point itself. */
  datatype View = View(xMin: real, xMax: real, yMin: real, yMax: real, across: int, down: int,
                       max: int, limit: real, julia: Option<Complex>)

  predicate ValidView(v: View) { v.across >= 1 && v.down >= 1 }

  /** Pixels go from left to right and from top to bottom. */
  function PointAt(v: View, x: int, y: int, xResolution: real, yResolution: real): Complex {
    Complex(v.xMin + x as real * xResolution, v.yMax - y as real * yResolution)
  }

  function PointOf(v: View, x: int, y: int): Complex
    requires ValidView(v)
  {
    PointAt(v, x, y, (v.xMax - v.xMin) / v.across as real, (v.yMax - v.yMin) / v.down as real)
  }

  // ------------------------------------------------------------------- the points of the pixels

  /** One pixel to the right: the real part is larger by one share of the width. */
  predicate RightOf(v: View, z: Complex, z': Complex) {
    v.across as real * (z'.re - z.re) == v.xMax - v.xMin && z'.im == z.im
  }

  /** One pixel down: the imaginary part is smaller by one share of the height. */
  predicate BelowOf(v: View, z: Complex, z': Complex) {
    v.down as real * (z.im - z'.im) == v.yMax - v.yMin && z'.re == z.re
  }

  /** The points of a view: pixel (0, 0) is its upper left corner, and steps are equal shares. */
  ghost predicate IsGrid(v: View, at: (int, int) -> Complex) {
    && at(0, 0) == Complex(v.xMin, v.yMax)
    && (forall x, x', y :: x' == x + 1 ==> RightOf(v, at(x, y), at(x', y)))
    && (forall x, y, y' :: y' == y + 1 ==> BelowOf(v, at(x, y), at(x, y')))
  }

  lemma ShareIff(part: real, whole: real, n: real)
    requires n != 0.0
    ensures n * part == whole <==> part == whole / n
  {
    var q := whole / n;
    assert q * n == whole;
    assert n * (part - q) == n * part - n * q;
  }

  lemma OneMore(x: int, step: real)
    ensures (x + 1) as real * step - x as real * step == step
  {
    assert (x + 1) as real == x as real + 1.0;
  }

  /** One share of the width and one of the height. */
  ghost predicate AreShares(v: View, dx: real, dy: real) {
    v.across as real * dx == v.xMax - v.xMin && v.down as real * dy == v.yMax - v.yMin
  }

  lemma Shares(v: View) returns (dx: real, dy: real)
    requires ValidView(v)
    ensures AreShares(v, dx, dy) && dx == (v.xMax - v.xMin) / v.across as real && dy == (v.yMax - v.yMin) / v.down as real
  {
    dx, dy := (v.xMax - v.xMin) / v.across as real, (v.yMax - v.yMin) / v.down as real;
    ShareIff(dx, v.xMax - v.xMin, v.across as real);
    ShareIff(dy, v.yMax - v.yMin, v.down as real);
  }

  /** What the workers compute is such a grid. */
  lemma PointsAreGrid(v: View)
    requires ValidView(v)
    ensures IsGrid(v, (x, y) => PointOf(v, x, y))
  {
    var dx, dy := Shares(v);
    forall x, x', y | x' == x + 1
      ensures RightOf(v, PointOf(v, x, y), PointOf(v, x', y))
    {
      OneMore(x, dx);
      assert PointOf(v, x', y).re - PointOf(v, x, y).re == dx;
    }
    forall x, y, y' | y' == y + 1
      ensures BelowOf(v, PointOf(v, x, y), PointOf(v, x, y'))
    {
      OneMore(y, dy);
      assert PointOf(v, x, y).im - PointOf(v, x, y').im == dy;
    }
  }

  lemma SameShare(n: real, p: real, q: real)
    requires n != 0.0 && n * p == n * q
    ensures p == q
  {
    assert n * (p - q) == 0.0;
  }

  lemma OneRight(v: View, at: (int, int) -> Complex, x: int, y: int, dx: real, dy: real)
    requires ValidView(v) && IsGrid(v, at) && AreShares(v, dx, dy)
    ensures at(x, y) == PointAt(v, x, y, dx, dy) <==> at(x + 1, y) == PointAt(v, x + 1, y, dx, dy)
  {
    var x' := x + 1;
    assert RightOf(v, at(x, y), at(x', y));
    SameShare(v.across as real, at(x', y).re - at(x, y).re, dx);
    OneMore(x, dx);
  }

  lemma OneDown(v: View, at: (int, int) -> Complex, x: int, y: int, dx: real, dy: real)
    requires ValidView(v) && IsGrid(v, at) && AreShares(v, dx, dy)
    ensures at(x, y) == PointAt(v, x, y, dx, dy) <==> at(x, y + 1) == PointAt(v, x, y + 1, dx, dy)
  {
    var y' := y + 1;
    assert BelowOf(v, at(x, y), at(x, y'));
    SameShare(v.down as real, at(x, y).im - at(x, y').im, dy);
    OneMore(y, dy);
  }

  /** So all points are fixed. */
  lemma {:induction false} GridPoint(v: View, at: (int, int) -> Complex, x: int, y: int, dx: real, dy: real)
    requires ValidView(v) && IsGrid(v, at) && AreShares(v, dx, dy)
    ensures at(x, y) == PointAt(v, x, y, dx, dy)
    decreases (if x < 0 then -x else x) + (if y < 0 then -y else y)
  {
    if x > 0 {
      GridPoint(v, at, x - 1, y, dx, dy);
      OneRight(v, at, x - 1, y, dx, dy);
    } else if x < 0 {
      GridPoint(v, at, x + 1, y, dx, dy);
      OneRight(v, at, x, y, dx, dy);
    } else if y > 0 {
      GridPoint(v, at, x, y - 1, dx, dy);
      OneDown(v, at, x, y - 1, dx, dy);
    } else if y < 0 {
      GridPoint(v, at, x, y + 1, dx, dy);
      OneDown(v, at, x, y, dx, dy);
    }
  }

  /** There is no other grid than what the workers compute. */
  lemma GridIsPoints(v: View, at: (int, int) -> Complex, x: int, y: int)
    requires ValidView(v) && IsGrid(v, at)
    ensures at(x, y) == PointOf(v, x, y)
  {
    var dx, dy := Shares(v);
    GridPoint(v, at, x, y, dx, dy);
  }

  lemma LastPoint(v: View, dx: real, dy: real)
    requires AreShares(v, dx, dy)
    ensures PointAt(v, v.across, v.down, dx, dy) == Complex(v.xMax, v.yMin)
  {
  }

  /** A whole width and a whole height away is the lower right corner. */
  lemma GridCorner(v: View, at: (int, int) -> Complex)
    requires ValidView(v) && IsGrid(v, at)
    ensures at(v.across, v.down) == Complex(v.xMax, v.yMin)
  {
    var dx, dy := SomeShares(v);
    GridPoint(v, at, v.across, v.down, dx, dy);
    LastPoint(v, dx, dy);
  }

  lemma SomeShares(v: View) returns (dx: real, dy: real)
    requires ValidView(v)
    ensures AreShares(v, dx, dy)
  {
    dx, dy := Shares(v);
  }

  // ------------------------------------------------------------------- counts

  function ConstantOf(v: View, z: Complex): Complex {
    if v.julia.Some? then v.julia.value else z
  }

  /** `n` is the escape-time count of a pixel. */
  ghost predicate IsCountOf(v: View, x: int, y: int, n: int)
    requires ValidView(v)
  {
    n >= 0 && EscapesAt(PointOf(v, x, y), ConstantOf(v, PointOf(v, x, y)), v.max, v.limit, n)
  }

  lemma EscapeExists(z0: Complex, c: Complex, max: int, limit: real, k: nat) returns (n: nat)
    requires (forall j :: 0 <= j < k ==> Below(Orbit(z0, c, j), limit)) && (k == 0 || k <= max)
    ensures EscapesAt(z0, c, max, limit, n)
    decreases max - k
  {
    if k < max && Below(Orbit(z0, c, k), limit) {
      n := EscapeExists(z0, c, max, limit, k + 1);
    } else {
      n := k;
    }
  }

  lemma CountExists(v: View, x: int, y: int)
    requires ValidView(v)
    ensures exists n: int :: IsCountOf(v, x, y, n)
  {
    var n := EscapeExists(PointOf(v, x, y), ConstantOf(v, PointOf(v, x, y)), v.max, v.limit, 0);
    assert IsCountOf(v, x, y, n);
  }

  ghost function CountOf(v: View, x: int, y: int): (n: int)
    requires ValidView(v)
    ensures IsCountOf(v, x, y, n)
  {
    CountExists(v, x, y);
    var n :| IsCountOf(v, x, y, n);
    n
  }

  /** Each pixel has one count, so the counts are a picture. */
  ghost function MandelbrotPicture(v: View): Picture
    requires ValidView(v)
  {
    (x: int, y: int) => CountOf(v, x, y)
  }

  /** `n` is the count of the point itself in a Mandelbrot set, and with the constant in a Julia set. */
  ghost predicate Counts(v: View, z: Complex, n: int) {
    n >= 0 && match v.julia
              case None => EscapesAt(z, z, v.max, v.limit, n)
              case Some(k) => EscapesAt(z, k, v.max, v.limit, n)
  }

  lemma PictureCounts(v: View, at: (int, int) -> Complex, x: int, y: int)
    requires ValidView(v) && IsGrid(v, at)
    ensures Counts(v, at(x, y), MandelbrotPicture(v)(x, y))
  {
    GridIsPoints(v, at, x, y);
  }

  /** Row after row, the counts of the points of an area. */
  ghost predicate CountsInRows(v: View, a: Area, at: (int, int) -> Complex, px: seq<int>)
    requires NonEmpty(a)
  {
    |px| == Size(a) && forall k :: 0 <= k < |px| ==> Counts(v, at(a.imin + k % Columns(a), a.jmin + k / Columns(a)), px[k])
  }

  lemma PackedCounts(v: View, a: Area, at: (int, int) -> Complex, px: seq<int>)
    requires ValidView(v) && NonEmpty(a) && IsGrid(v, at) && px == Packed(a, MandelbrotPicture(v))
    ensures CountsInRows(v, a, at, px)
  {
    forall k | 0 <= k < |px|
      ensures Counts(v, at(a.imin + k % Columns(a), a.jmin + k / Columns(a)), px[k])
    {
      PictureCounts(v, at, PixelX(a, k), PixelY(a, k));
    }
  }

  /** The worker's two nested loops. */
  method CountPixels(v: View, a: Area, ghost at: (int, int) -> Complex) returns (px: seq<int>)
    requires ValidView(v) && NonEmpty(a) && IsGrid(v, at)
    ensures px == Packed(a, MandelbrotPicture(v))
    ensures CountsInRows(v, a, at, px)
  {
    ghost var pic := MandelbrotPicture(v);
    px := [];
    var j := a.jmin;
    while j <= a.jmax
      invariant a.jmin <= j <= a.jmax + 1
      invariant |px| == (j - a.jmin) * Columns(a) <= Size(a)
      invariant px == Packed(a, pic)[..|px|]
    {
      var i := a.imin;
      MultiplyMonotone(Columns(a), j + 1 - a.jmin, Rows(a));
      while i <= a.imax
        invariant a.imin <= i <= a.imax + 1
        invariant |px| == (j - a.jmin) * Columns(a) + (i - a.imin) <= Size(a)
        invariant px == Packed(a, pic)[..|px|]
      {
        ghost var k := PixelAt(a, i, j);
        var z := PointOf(v, i, j);
        var count := SingleMandelbrotPoint(z, ConstantOf(v, z), v.max, v.limit);
        EscapeIsUnique(z, ConstantOf(v, z), v.max, v.limit, count, CountOf(v, i, j));
        px := px + [count];
        i := i + 1;
      }
      j := j + 1;
    }
    assert Packed(a, pic)[..|px|] == Packed(a, pic);
    PackedCounts(v, a, at, px);
  }

  // ------------------------------------------------------------------- finished images

  /** Every pixel that tiles reach holds the count of its point of the grid. */
  ghost predicate HoldsCounts(cells: seq<int>, v: View, at: (int, int) -> Complex)
    requires ValidView(v) && |cells| == v.across * v.down
  {
    forall x, y {:trigger InCovered(v.across, v.down, x, y)} :: InCovered(v.across, v.down, x, y) ==>
      0 <= x < v.across && 0 <= y < v.down && Counts(v, at(x, y), cells[Cell(v.across, v.down, x, y)])
  }

  lemma ShownAreCounts(cells: seq<int>, before: seq<int>, v: View, at: (int, int) -> Complex)
    requires ValidView(v) && IsGrid(v, at) && |cells| == |before| == v.across * v.down
    requires Shows(cells, before, v.across, v.down, MandelbrotPicture(v))
    ensures HoldsCounts(cells, v, at)
  {
    var w, h := v.across, v.down;
    forall x, y | InCovered(w, h, x, y)
      ensures 0 <= x < w && 0 <= y < h && Counts(v, at(x, y), cells[Cell(w, h, x, y)])
    {
      StepFacts(w);
      StepFacts(h);
      PictureCounts(v, at, x, y);
      assert cells[Cell(w, h, x, y)] == MandelbrotPicture(v)(x, y);
    }
  }

  /** The image of the message-passing programs, square or of one row, after any run and any number of earlier images. */
  lemma AssembledCounts(c: Dispatch.Config, s: Dispatch.State, v: View, at: (int, int) -> Complex)
    requires Dispatch.ValidConfig(c) && Dispatch.Reachable(c, s) && DispatchResults.ImageDone(c, s)
    requires ValidView(v) && DispatchResults.JobsFor(c, v.across, v.down) && (v.across == v.down || v.down == 1)
    requires c.jobs[s.image].pic == MandelbrotPicture(v) && IsGrid(v, at)
    ensures v.across * v.down >= 0 && Paintable(s.past + s.drawn, v.down, v.across * v.down)
    ensures HoldsCounts(DispatchResults.OutGrid(s, v.across, v.down), v, at)
  {
    DispatchResults.AssembledImage(c, s, v.across, v.down);
    ShownAreCounts(DispatchResults.OutGrid(s, v.across, v.down), seq(v.across * v.down, _ => 0), v, at);
  }

  /** The image of the one-sided program, of any shape. */
  lemma FinishedCounts(c: FenceRounds.Config, s: FenceRounds.State, v: View, at: (int, int) -> Complex, before: seq<int>)
    requires FenceRounds.ValidConfig(c) && FenceRounds.Reachable(c, s) && s.root == FenceRounds.End
    requires ValidView(v) && IsGrid(v, at) && GoodTiles(c.tiles, v.across, v.down) && |before| == v.across * v.down
    ensures Paintable(FencePixels.Drawn(s.landed, MandelbrotPicture(v)), v.across, v.across * v.down)
    ensures HoldsCounts(PaintAll(before, v.across, FencePixels.Drawn(s.landed, MandelbrotPicture(v))), v, at)
  {
    var pic := MandelbrotPicture(v);
    FencePixels.FinishedImage(c, s, v.across, v.down, pic, before);
    ShownAreCounts(PaintAll(before, v.across, FencePixels.Drawn(s.landed, pic)), before, v, at);
  }
}
