/** The format of the byte stream between the root and the visualizer, and what the visualizer draws. */
module Stream {
  import opened Tiling
  import opened Image
  import opened Sockets

  const INT_MIN := -0x8000_0000
  const INT_END := 0x8000_0000

  predicate Fits(v: int) { INT_MIN <= v < INT_END }

  /** A 32-bit integer as it lies in memory, least significant byte first. */
  function IntBytes(v: int): (bs: seq<Byte>)
    requires Fits(v)
    ensures |bs| == 4
  {
    var u := if v < 0 then v + 0x1_0000_0000 else v;
    [(u % 256) as Byte, (u / 256 % 256) as Byte, (u / 65536 % 256) as Byte, (u / 16777216) as Byte]
  }

  function BytesInt(bs: seq<Byte>): (v: int)
    requires |bs| == 4
    ensures Fits(v)
  {
    var u := bs[0] as int + 256 * bs[1] as int + 65536 * bs[2] as int + 16777216 * bs[3] as int;
    if u >= INT_END then u - 0x1_0000_0000 else u
  }

  lemma IntRoundTrip(v: int)
    requires Fits(v)
    ensures BytesInt(IntBytes(v)) == v
  {
    var u := if v < 0 then v + 0x1_0000_0000 else v;
    assert u / 65536 == u / 256 / 256 && u / 16777216 == u / 65536 / 256;
  }

  predicate AllFit(vs: seq<int>) {
    forall i :: 0 <= i < |vs| ==> Fits(vs[i])
  }

  function IntsBytes(vs: seq<int>): (bs: seq<Byte>)
    requires AllFit(vs)
    ensures |bs| == 4 * |vs|
  {
    if vs == [] then [] else IntBytes(vs[0]) + IntsBytes(vs[1..])
  }

  function BytesInts(bs: seq<Byte>): (vs: seq<int>)
    requires |bs| % 4 == 0
    ensures |vs| == |bs| / 4
  {
    if bs == [] then [] else [BytesInt(bs[..4])] + BytesInts(bs[4..])
  }

  lemma {:induction false} IntsRoundTrip(vs: seq<int>)
    requires AllFit(vs)
    ensures BytesInts(IntsBytes(vs)) == vs
  {
    if vs != [] {
      var bs := IntsBytes(vs);
      assert bs[..4] == IntBytes(vs[0]) && bs[4..] == IntsBytes(vs[1..]);
      IntRoundTrip(vs[0]);
      IntsRoundTrip(vs[1..]);
    }
  }

  // ------------------------------------------------------------------- the format

  const END := Area(0, 0, 0, 0)

  function Header(a: Area): seq<int> {
    [a.imin, a.imax, a.jmin, a.jmax]
  }

  /** A piece that can be sent: its numbers fit and it has the pixels its header announces. */
  ghost predicate Sendable(p: Piece) {
    NonEmpty(p.area) && AllFit(Header(p.area)) && AllFit(p.pixels) && |p.pixels| == Size(p.area)
  }

  ghost predicate AllSendable(log: seq<Piece>) {
    forall n :: 0 <= n < |log| ==> Sendable(log[n])
  }

  ghost function PieceBytes(p: Piece): seq<Byte>
    requires Sendable(p)
  {
    IntsBytes(Header(p.area)) + IntsBytes(p.pixels)
  }

  /** Everything the root writes for one image. */
  ghost function ImageBytes(log: seq<Piece>): seq<Byte>
    requires AllSendable(log)
  {
    if log == [] then IntsBytes(Header(END)) else PieceBytes(log[0]) + ImageBytes(log[1..])
  }

  datatype Decoded = Decoded(log: seq<Piece>, rest: seq<Byte>) | Malformed

  function FirstHeader(bs: seq<Byte>): Area
    requires |bs| >= 16
  {
    var t := BytesInts(bs[..16]);
    Area(t[0], t[1], t[2], t[3])
  }

  /** A stream too short for a header or for the pixels that it announces, or that announces fewer than none. */
  predicate Incomplete(bs: seq<Byte>) {
    |bs| < 16 || (FirstHeader(bs) != END && (Size(FirstHeader(bs)) < 0 || |bs| < 16 + 4 * Size(FirstHeader(bs))))
  }

  function PieceLength(bs: seq<Byte>): (n: nat)
    requires !Incomplete(bs)
    ensures 16 <= n <= |bs| && n % 4 == 0
  {
    if FirstHeader(bs) == END then 16 else 16 + 4 * Size(FirstHeader(bs))
  }

  function FirstPiece(bs: seq<Byte>): Piece
    requires !Incomplete(bs)
  {
    Piece(FirstHeader(bs), BytesInts(bs[16..PieceLength(bs)]))
  }

  /** What the reader makes of a stream: pieces up to the all-zero header. */
  function ReadImage(bs: seq<Byte>): Decoded
    decreases |bs|
  {
    if Incomplete(bs) then Malformed
    else if FirstHeader(bs) == END then Decoded([], bs[16..])
    else
      var rest := ReadImage(bs[PieceLength(bs)..]);
      if rest.Malformed? then Malformed else Decoded([FirstPiece(bs)] + rest.log, rest.rest)
  }

  /** The pieces before the first one that looks like the end marker. */
  function BeforeEnd(log: seq<Piece>): seq<Piece> {
    if log == [] || log[0].area == END then [] else [log[0]] + BeforeEnd(log[1..])
  }

  lemma HeaderRoundTrip(a: Area, more: seq<Byte>)
    requires AllFit(Header(a))
    ensures |IntsBytes(Header(a))| == 16 && BytesInts((IntsBytes(Header(a)) + more)[..16]) == Header(a)
  {
    IntsRoundTrip(Header(a));
    assert (IntsBytes(Header(a)) + more)[..16] == IntsBytes(Header(a));
  }

  /** The least significant byte comes first, and a negative number is as it is modulo 2 to the 32. */
  lemma IntLayout(v: int)
    requires Fits(v)
    ensures (IntBytes(v)[0] as int + 256 * (IntBytes(v)[1] as int + 256 * (IntBytes(v)[2] as int + 256 * IntBytes(v)[3] as int))) % 0x1_0000_0000
         == v % 0x1_0000_0000
  {
    IntRoundTrip(v);
  }

  /** Of a row of integers, number `k`. */
  lemma {:induction false} IntOfRow(vs: seq<int>, k: nat)
    requires AllFit(vs) && k < |vs|
    ensures BytesInt(IntsBytes(vs)[4 * k..4 * k + 4]) == vs[k]
  {
    var bs := IntsBytes(vs);
    if k == 0 {
      assert bs[0..4] == IntBytes(vs[0]);
      IntRoundTrip(vs[0]);
    } else {
      assert bs[4..] == IntsBytes(vs[1..]);
      assert bs[4..][4 * (k - 1)..4 * (k - 1) + 4] == bs[4 * k..4 * k + 4];
      IntOfRow(vs[1..], k - 1);
    }
  }

  /** Of a header: the first and last column, and then the first and last row. */
  lemma HeaderLayout(a: Area)
    requires AllFit(Header(a))
    ensures var bs := IntsBytes(Header(a));
      BytesInt(bs[0..4]) == a.imin && BytesInt(bs[4..8]) == a.imax && BytesInt(bs[8..12]) == a.jmin && BytesInt(bs[12..16]) == a.jmax
  {
    IntOfRow(Header(a), 0);
    IntOfRow(Header(a), 1);
    IntOfRow(Header(a), 2);
    IntOfRow(Header(a), 3);
  }

  lemma PieceRoundTrip(p: Piece, more: seq<Byte>)
    requires Sendable(p) && p.area != END
    ensures var rest := ReadImage(more);
      ReadImage(PieceBytes(p) + more) == if rest.Malformed? then Malformed else Decoded([p] + rest.log, rest.rest)
  {
    var bs := PieceBytes(p) + more;
    SizePositive(p.area);
    HeaderRoundTrip(p.area, IntsBytes(p.pixels) + more);
    assert bs == IntsBytes(Header(p.area)) + (IntsBytes(p.pixels) + more);
    assert bs[16..16 + 4 * Size(p.area)] == IntsBytes(p.pixels);
    assert bs[16 + 4 * Size(p.area)..] == more;
    IntsRoundTrip(p.pixels);
  }

  lemma EndIsRead(tail: seq<Byte>)
    ensures ReadImage(IntsBytes(Header(END)) + tail) == Decoded([], tail)
  {
    HeaderRoundTrip(END, tail);
    assert (IntsBytes(Header(END)) + tail)[16..] == tail;
  }

  /** The reader gets the pieces that were written, in order, up to the first all-zero header. */
  lemma {:induction false} ReaderStopsAtFirstZero(log: seq<Piece>, more: seq<Byte>)
    requires AllSendable(log)
    ensures ReadImage(ImageBytes(log) + more).Decoded?
    ensures ReadImage(ImageBytes(log) + more).log == BeforeEnd(log)
    ensures BeforeEnd(log) == log ==> ReadImage(ImageBytes(log) + more).rest == more
  {
    if log == [] {
      EndIsRead(more);
    } else {
      var p, later := log[0], ImageBytes(log[1..]) + more;
      assert ImageBytes(log) + more == PieceBytes(p) + later;
      if p.area == END {
        assert PieceBytes(p) + later == IntsBytes(Header(END)) + (IntsBytes(p.pixels) + later);
        EndIsRead(IntsBytes(p.pixels) + later);
      } else {
        ReaderStopsAtFirstZero(log[1..], more);
        PieceRoundTrip(p, later);
        assert BeforeEnd(log)[1..] == BeforeEnd(log[1..]);
      }
    }
  }

  lemma {:induction false} BeforeEndIff(log: seq<Piece>)
    ensures BeforeEnd(log) == log <==> forall n :: 0 <= n < |log| ==> log[n].area != END
  {
    if log != [] {
      BeforeEndIff(log[1..]);
      assert forall n :: 0 < n < |log| ==> log[n] == log[1..][n - 1];
      if log[0].area != END && BeforeEnd(log) == log {
        assert BeforeEnd(log)[1..] == BeforeEnd(log[1..]);
      }
      if forall n :: 0 <= n < |log| ==> log[n].area != END {
        assert [log[0]] + log[1..] == log;
      }
    }
  }

  /** The whole image arrives exactly when no tile of it is the all-zero one. */
  lemma StreamRoundTripIff(log: seq<Piece>, more: seq<Byte>)
    requires AllSendable(log)
    ensures ReadImage(ImageBytes(log) + more) == Decoded(log, more)
       <==> forall n :: 0 <= n < |log| ==> log[n].area != END
  {
    ReaderStopsAtFirstZero(log, more);
    BeforeEndIff(log);
  }

  // ------------------------------------------------------------------- the bitmap

  type Bitmap = map<(int, int), int>

  /** The bitmap after the first `n` pixels of a piece have been set. */
  function SetFirst(bm: Bitmap, p: Piece, n: nat): Bitmap
    requires n <= Size(p.area) <= |p.pixels| && (n > 0 ==> NonEmpty(p.area))
  {
    if n == 0 then bm
    else SetFirst(bm, p, n - 1)[(PixelX(p.area, n - 1), PixelY(p.area, n - 1)) := p.pixels[n - 1]]
  }

  /** The drawing loops of the reader; they do nothing for a header with an end before its start. */
  function SetPiece(bm: Bitmap, p: Piece): Bitmap
    requires NonEmpty(p.area) ==> Size(p.area) <= |p.pixels|
  {
    if NonEmpty(p.area) then SizePositive(p.area); SetFirst(bm, p, Size(p.area)) else bm
  }

  predicate Filled(log: seq<Piece>) {
    forall n :: 0 <= n < |log| && NonEmpty(log[n].area) ==> Size(log[n].area) <= |log[n].pixels|
  }

  function SetAll(bm: Bitmap, log: seq<Piece>): Bitmap
    requires Filled(log)
  {
    if log == [] then bm else SetPiece(SetAll(bm, log[..|log| - 1]), log[|log| - 1])
  }

  lemma {:induction false} SetFirstShows(bm: Bitmap, p: Piece, n: nat, pic: Picture, x: int, y: int)
    requires NonEmpty(p.area) && n <= Size(p.area) && p.pixels == Packed(p.area, pic)
    ensures var r := SetFirst(bm, p, n);
      if exists k :: 0 <= k < n && PixelX(p.area, k) == x && PixelY(p.area, k) == y then (x, y) in r && r[(x, y)] == pic(x, y)
      else ((x, y) in r <==> (x, y) in bm) && ((x, y) in bm ==> r[(x, y)] == bm[(x, y)])
  {
    if n > 0 {
      SetFirstShows(bm, p, n - 1, pic, x, y);
      if PixelX(p.area, n - 1) != x || PixelY(p.area, n - 1) != y {
        assert (exists k :: 0 <= k < n && PixelX(p.area, k) == x && PixelY(p.area, k) == y)
          <==> (exists k :: 0 <= k < n - 1 && PixelX(p.area, k) == x && PixelY(p.area, k) == y);
      } else {
        assert 0 <= n - 1 < n;
      }
    }
  }

  ghost predicate InLog(log: seq<Piece>, x: int, y: int) {
    exists n :: 0 <= n < |log| && Inside(log[n].area, x, y)
  }

  lemma {:induction false} SetAllShows(bm: Bitmap, log: seq<Piece>, pic: Picture, x: int, y: int)
    requires forall n :: 0 <= n < |log| ==> NonEmpty(log[n].area) && log[n].pixels == Packed(log[n].area, pic)
    ensures Filled(log)
    ensures var r := SetAll(bm, log);
      if InLog(log, x, y) then (x, y) in r && r[(x, y)] == pic(x, y)
      else ((x, y) in r <==> (x, y) in bm) && ((x, y) in bm ==> r[(x, y)] == bm[(x, y)])
  {
    if log != [] {
      var m := |log| - 1;
      var front := log[..m];
      SetAllShows(bm, front, pic, x, y);
      var a := log[m].area;
      SizePositive(a);
      SetFirstShows(SetAll(bm, front), log[m], Size(a), pic, x, y);
      if Inside(a, x, y) {
        var k := PixelAt(a, x, y);
        assert InLog(log, x, y);
      } else {
        forall k | 0 <= k < Size(a)
          ensures PixelX(a, k) != x || PixelY(a, k) != y
        {
          PixelInside(a, k);
        }
        assert InLog(log, x, y) ==> InLog(front, x, y) by {
          if InLog(log, x, y) {
            var n :| 0 <= n < |log| && Inside(log[n].area, x, y);
            assert front[n] == log[n];
          }
        }
        assert InLog(front, x, y) ==> InLog(log, x, y) by {
          if InLog(front, x, y) {
            var n :| 0 <= n < |front| && Inside(front[n].area, x, y);
            assert log[n] == front[n];
          }
        }
      }
    }
  }

  /** The visualizer's picture is right for every width and height; no stride is involved. */
  lemma BitmapShowsPicture(bm: Bitmap, w: int, h: int, tiles: seq<Area>, log: seq<Piece>, pic: Picture, x: int, y: int)
    requires GoodTiles(tiles, w, h) && Draws(log, tiles, pic)
    ensures Filled(log)
    ensures InCovered(w, h, x, y) ==> (x, y) in SetAll(bm, log) && SetAll(bm, log)[(x, y)] == pic(x, y)
    ensures !InCovered(w, h, x, y) && (x, y) in bm ==> (x, y) in SetAll(bm, log) && SetAll(bm, log)[(x, y)] == bm[(x, y)]
    ensures !InCovered(w, h, x, y) && (x, y) !in bm ==> (x, y) !in SetAll(bm, log)
  {
    SetAllShows(bm, log, pic, x, y);
    assert InLog(log, x, y) <==> Touched(tiles, x, y) by {
      if InLog(log, x, y) {
        var n :| 0 <= n < |log| && Inside(log[n].area, x, y);
        var t :| 0 <= t < |tiles| && tiles[t] == log[n].area;
        assert Inside(tiles[t], x, y);
      }
      if Touched(tiles, x, y) {
        var t :| 0 <= t < |tiles| && Inside(tiles[t], x, y);
        assert DrawsArea(log, tiles[t]);
        var n :| 0 <= n < |log| && log[n].area == tiles[t];
      }
    }
  }

  /** Drawing one piece, pixel by pixel. */
  method DrawPiece(bm0: Bitmap, p: Piece) returns (bm: Bitmap)
    requires NonEmpty(p.area) ==> Size(p.area) <= |p.pixels|
    ensures bm == SetPiece(bm0, p)
  {
    bm := bm0;
    var a := p.area;
    if !NonEmpty(a) { return; }
    SizePositive(a);
    var k := 0;
    var j := a.jmin;
    while j <= a.jmax
      invariant a.jmin <= j <= a.jmax + 1
      invariant 0 <= k == (j - a.jmin) * Columns(a) <= Size(a)
      invariant bm == SetFirst(bm0, p, k)
    {
      RowFits(a, j);
      ghost var row := k;
      var i := a.imin;
      while i <= a.imax
        invariant a.imin <= i <= a.imax + 1
        invariant k == row + (i - a.imin) <= Size(a)
        invariant bm == SetFirst(bm0, p, k)
      {
        ghost var n := PixelAt(a, i, j);
        bm := bm[(i, j) := p.pixels[k]];
        k := k + 1;
        i := i + 1;
      }
      j := j + 1;
    }
    assert j - a.jmin == Rows(a);
    assert k == Size(a);
  }
}
