/** From the dispatch protocol through the byte stream to the visualizer's bitmap. */
module EndToEnd {
  import opened Tiling
  import opened Image
  import opened Dispatch
  import opened DispatchResults
  import opened Sockets
  import opened Stream
  import opened Transmission

  ghost predicate PictureFits(pic: Picture) {
    forall x, y :: Fits(pic(x, y))
  }

  lemma DrawnIsSendable(w: int, h: int, tiles: seq<Area>, log: seq<Piece>, pic: Picture)
    requires GoodTiles(tiles, w, h) && Draws(log, tiles, pic) && PictureFits(pic) && w < INT_END && h < INT_END
    ensures AllSendable(log)
  {
    DrawnLogWithin(w, h, tiles, log, pic);
    forall n | 0 <= n < |log|
      ensures Sendable(log[n])
    {
      assert log[n].pixels == Packed(log[n].area, pic);
    }
  }

  /**
   After any run: the bytes the root has written for the finished image are read back as the
   pieces it drew exactly when the image has at least forty pixels in one dimension.
   */
  lemma StreamCarriesImageIff(c: Config, s: State, w: int, h: int, more: seq<Byte>)
    requires ValidConfig(c) && Reachable(c, s) && ImageDone(c, s) && JobsFor(c, w, h)
    requires PictureFits(c.jobs[s.image].pic) && w < INT_END && h < INT_END
    ensures AllSendable(s.drawn)
    ensures ReadImage(ImageBytes(s.drawn) + more) == Decoded(s.drawn, more) <==> w >= 2 * SIDE || h >= 2 * SIDE
  {
    var job := c.jobs[s.image];
    AllDrawnWithin(c, s, w, h);
    DrawnIsSendable(w, h, job.tiles, s.drawn, job.pic);
    StreamRoundTripIff(s.drawn, more);
    ZeroTileIff(w, h);
    ZeroTileDrawnIff(job.tiles, w, h, s.drawn, job.pic);
  }

  /** Some run draws a whole image, and if both its dimensions are below forty it is not read back. */
  lemma SmallImageOccurs(c: Config, w: int, h: int, more: seq<Byte>) returns (s: State)
    requires ValidConfig(c) && JobsFor(c, w, h) && w < 2 * SIDE && h < 2 * SIDE
    requires PictureFits(c.jobs[|c.jobs| - 1].pic)
    ensures Reachable(c, s) && ImageDone(c, s) && AllSendable(s.drawn)
    ensures ReadImage(ImageBytes(s.drawn) + more) != Decoded(s.drawn, more)
  {
    s := FinalOccurs(c);
    StreamCarriesImageIff(c, s, w, h, more);
  }

  lemma ZeroTileDrawnIff(tiles: seq<Area>, w: int, h: int, log: seq<Piece>, pic: Picture)
    requires GoodTiles(tiles, w, h) && Draws(log, tiles, pic) && multiset(tiles) == multiset(Tiles(w, h))
    ensures (exists n :: 0 <= n < |log| && log[n].area == END) <==> END in Tiles(w, h)
  {
    assert END in Tiles(w, h) <==> END in multiset(Tiles(w, h));
    assert END in tiles <==> END in multiset(tiles);
    if END in tiles {
      var t :| 0 <= t < |tiles| && tiles[t] == END;
      assert DrawsArea(log, tiles[t]);
    }
  }

  /** What is written for an image is read as the pieces up to an all-zero header. */
  lemma ImageIsRead(log: seq<Piece>)
    requires AllSendable(log)
    ensures ReadImage(ImageBytes(log)).Decoded? && ReadImage(ImageBytes(log)).log == BeforeEnd(log)
  {
    ReaderStopsAtFirstZero(log, []);
    assert ImageBytes(log) + [] == ImageBytes(log);
  }

  /** The pieces in any beginning of it are the first of these, and all of them once the end has come. */
  lemma SeenSoFar(log: seq<Piece>, n: nat, k: nat)
    requires AllSendable(log) && k <= n <= |ImageBytes(log)|
    ensures PiecesIn(ImageBytes(log)[..n][..k]) <= BeforeEnd(log)
    ensures ReadImage(ImageBytes(log)[..n]).Decoded? ==> ReadImage(ImageBytes(log)[..n]).log == BeforeEnd(log)
  {
    var bs := ImageBytes(log);
    ImageIsRead(log);
    PiecesOfImage(bs);
    assert bs[..n][..k] == bs[..k];
    PiecesGrow(bs, k);
    if ReadImage(bs[..n]).Decoded? { ImageOfPrefix(bs, n); }
  }

  /** The bitmap has been drawn from the first pieces of an image, from all of them in the end. */
  ghost predicate Shown(log: seq<Piece>, bm0: Bitmap, bm: Bitmap, r: Outcome) {
    && (exists seen :: seen <= BeforeEnd(log) && Filled(seen) && bm == SetAll(bm0, seen))
    && (r == Complete ==> Filled(BeforeEnd(log)) && bm == SetAll(bm0, BeforeEnd(log)))
  }

  lemma ShownIsSent(log: seq<Piece>, n: nat, left: seq<Byte>, recvs: seq<Transfer>, bm0: Bitmap, bm: Bitmap, r: Outcome, used: nat)
    requires AllSendable(log) && n <= |ImageBytes(log)|
    requires ReadAs(ImageBytes(log)[..n], left, bm0, bm, r, recvs, used)
    ensures Shown(log, bm0, bm, r)
  {
    SeenSoFar(log, n, Taken(ImageBytes(log)[..n], left));
  }

  lemma AllArrives(log: seq<Piece>, left: seq<Byte>, recvs: seq<Transfer>, bm0: Bitmap, bm: Bitmap, r: Outcome, used: nat)
    requires AllSendable(log) && ReadAs(ImageBytes(log), left, bm0, bm, r, recvs, used)
    ensures Flows(recvs) && Moves(recvs) >= |ImageBytes(log)| ==> r == Complete
  {
    ImageIsRead(log);
    EnoughArrives(ImageBytes(log), left, bm0, bm, r, recvs, used);
  }

  /** The bitmap has been drawn from the pieces in a beginning of what was sent, from all of them in the end. */
  ghost predicate ShownFrom(sent: seq<Byte>, bm0: Bitmap, bm: Bitmap, r: Outcome) {
    && (exists k :: 0 <= k <= |sent| && var seen := PiecesIn(sent[..k]); Filled(seen) && bm == SetAll(bm0, seen))
    && (r == Complete ==> ReadImage(sent).Decoded? && Filled(ReadImage(sent).log) && bm == SetAll(bm0, ReadImage(sent).log))
  }

  lemma ReadIsShown(sent: seq<Byte>, left: seq<Byte>, recvs: seq<Transfer>, bm0: Bitmap, bm: Bitmap, r: Outcome, used: nat)
    requires ReadAs(sent, left, bm0, bm, r, recvs, used)
    ensures ShownFrom(sent, bm0, bm, r)
  {
    assert 0 <= Taken(sent, left) <= |sent|;
  }

  /** Whatever happens to them, the writes for an image have sent beginnings of what they should, and this is what is shown. */
  ghost predicate ShownInParts(log: seq<Piece>, bm0: Bitmap, bm: Bitmap, r: Outcome)
    requires AllSendable(log)
  {
    exists sent :: InParts(ImageWrites(log), sent) && ShownFrom(sent, bm0, bm, r)
  }

  lemma SentIsBeginning(log: seq<Piece>, sent: seq<Byte>, w: Outcome, sends: seq<Transfer>, used: nat)
    requires AllSendable(log) && PutImage([], sent, log, w, sends, used) && StaysBroken(sends)
    ensures |sent| <= |ImageBytes(log)| && sent == ImageBytes(log)[..|sent|]
  {
    assert sends[..used] + sends[used..] == sends;
    StaysBrokenBetween(sends[..used], sends[used..]);
    assert [] + ImageBytes(log)[..|sent|] == ImageBytes(log)[..|sent|];
  }

  lemma SentInParts(log: seq<Piece>, sent: seq<Byte>, w: Outcome, sends: seq<Transfer>, used: nat)
    requires AllSendable(log) && PutImage([], sent, log, w, sends, used)
    ensures InParts(ImageWrites(log), sent)
  {
    assert sent[0..] == sent;
  }

  lemma SentIsShown(log: seq<Piece>, sent: seq<Byte>, w: Outcome, sends: seq<Transfer>, written: nat,
                    left: seq<Byte>, recvs: seq<Transfer>, bm0: Bitmap, bm: Bitmap, r: Outcome, used: nat)
    requires AllSendable(log) && PutImage([], sent, log, w, sends, written) && ReadAs(sent, left, bm0, bm, r, recvs, used)
    ensures StaysBroken(sends) ==> Shown(log, bm0, bm, r)
    ensures ShownInParts(log, bm0, bm, r)
  {
    SentInParts(log, sent, w, sends, written);
    ReadIsShown(sent, left, recvs, bm0, bm, r, used);
    if StaysBroken(sends) {
      SentIsBeginning(log, sent, w, sends, written);
      ShownIsSent(log, |sent|, left, recvs, bm0, bm, r, used);
    }
  }

  /**
   Root, connection and visualizer together: the root writes what it has drawn and the visualizer
   reads it, each with calls that move any number of bytes. What a call reads does not depend on how
   much more has been written by then, so the writing comes first here.
   */
  method SendAndShow(log: seq<Piece>, sends: seq<Transfer>, recvs: seq<Transfer>, bm0: Bitmap) returns (r: Outcome, bm: Bitmap)
    requires AllSendable(log)
    ensures StaysBroken(sends) ==> Shown(log, bm0, bm, r)
    ensures ShownInParts(log, bm0, bm, r)
    ensures Broken !in sends && Moves(sends) >= |ImageBytes(log)| && Flows(recvs) && Moves(recvs) >= |ImageBytes(log)| ==> r == Complete
  {
    var conn := new Connection();
    var w, written := WriteImage(conn, log, sends);
    ghost var sent := conn.stream;
    var used;
    r, used, bm := GetPmandelData(conn, bm0, recvs);
    SentIsShown(log, sent, w, sends, written, conn.stream, recvs, bm0, bm, r, used);
    if sent == ImageBytes(log) { AllArrives(log, conn.stream, recvs, bm0, bm, r, used); }
  }

  /**
   After any run of the dispatcher, for any width and height: when nothing breaks and there are
   calls enough, the visualizer comes to the end of the image. It has then drawn every piece exactly
   when one dimension is at least forty, and shows the picture where tiles reach.
   */
  method ShowImage(ghost c: Config, ghost s: State, ghost w: int, ghost h: int, log: seq<Piece>,
                   sends: seq<Transfer>, recvs: seq<Transfer>, bm0: Bitmap)
      returns (r: Outcome, bm: Bitmap)
    requires ValidConfig(c) && Reachable(c, s) && ImageDone(c, s) && JobsFor(c, w, h)
    requires PictureFits(c.jobs[s.image].pic) && w < INT_END && h < INT_END
    requires log == s.drawn
    ensures AllSendable(log)
    ensures ShownInParts(log, bm0, bm, r)
    ensures Broken !in sends && Moves(sends) >= |ImageBytes(log)| && Flows(recvs) && Moves(recvs) >= |ImageBytes(log)| ==> r == Complete
    ensures BeforeEnd(log) == log <==> w >= 2 * SIDE || h >= 2 * SIDE
    ensures StaysBroken(sends) && r == Complete ==> Filled(BeforeEnd(log)) && bm == SetAll(bm0, BeforeEnd(log))
    ensures StaysBroken(sends) && r == Complete && (w >= 2 * SIDE || h >= 2 * SIDE) ==>
      forall x, y :: InCovered(w, h, x, y) ==> (x, y) in bm && bm[(x, y)] == c.jobs[s.image].pic(x, y)
  {
    StreamCarriesImageIff(c, s, w, h, []);
    r, bm := SendAndShow(log, sends, recvs, bm0);
    ReaderStopsAtFirstZero(log, []);
    if w >= 2 * SIDE || h >= 2 * SIDE { AllDrawnShows(c, s, w, h, bm0); }
  }

  lemma AllDrawnShows(c: Config, s: State, w: int, h: int, bm0: Bitmap)
    requires ValidConfig(c) && Reachable(c, s) && ImageDone(c, s) && JobsFor(c, w, h)
    ensures Filled(s.drawn)
    ensures forall x, y :: InCovered(w, h, x, y) ==>
      (x, y) in SetAll(bm0, s.drawn) && SetAll(bm0, s.drawn)[(x, y)] == c.jobs[s.image].pic(x, y)
  {
    AllDrawnWithin(c, s, w, h);
    BitmapShowsPicture(bm0, w, h, c.jobs[s.image].tiles, s.drawn, c.jobs[s.image].pic, 0, 0);
    forall x, y | InCovered(w, h, x, y)
      ensures (x, y) in SetAll(bm0, s.drawn) && SetAll(bm0, s.drawn)[(x, y)] == c.jobs[s.image].pic(x, y)
    {
      BitmapShowsPicture(bm0, w, h, c.jobs[s.image].tiles, s.drawn, c.jobs[s.image].pic, x, y);
    }
  }
}
