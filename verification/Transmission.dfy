/**
 The two programs at the ends of the connection: the root in pmandel.c, which writes every piece it
 has drawn and then the end marker, and the reading loop of the visualizer in sock.cpp.
 */
module Transmission {
  import opened Common
  import opened Tiling
  import opened Image
  import opened Sockets
  import opened Stream

  // ------------------------------------------------------------------- writing

  /**
   A row of writes that should add `bytes` to the stream: what they have added, and how they ended.
   The root does not look at the result of a write, so it goes on after one that has failed. As long
   as nothing moves any more after a failure, what has been added is a beginning of the bytes.
   */
  ghost predicate Put(before: seq<Byte>, after: seq<Byte>, bytes: seq<Byte>, r: Outcome, outcomes: seq<Transfer>, used: nat) {
    && used <= |outcomes| && before <= after && |after| - |before| <= Counts(outcomes[..used])
    && (r == Complete ==> after == before + bytes && Broken !in outcomes[..used])
    && (r == Pending ==> used == |outcomes|)
    && (r == Failed ==> Broken in outcomes[..used])
    && (StaysBroken(outcomes[..used]) ==>
          var k := |after| - |before|;
          && Moves(outcomes[..used]) <= k <= |bytes| && after == before + bytes[..k] && (k == |bytes| ==> r == Complete))
  }

  function Joint(r1: Outcome, r2: Outcome): Outcome {
    if r1 == Complete || r2 == Pending then r2 else r1
  }

  lemma UsedBetween(outcomes: seq<Transfer>, used: nat, more: nat)
    requires used <= |outcomes| && more <= |outcomes| - used
    ensures outcomes[..used + more] == outcomes[..used] + outcomes[used..][..more]
    ensures Moves(outcomes[..used + more]) == Moves(outcomes[..used]) + Moves(outcomes[used..][..more])
    ensures Counts(outcomes[..used + more]) == Counts(outcomes[..used]) + Counts(outcomes[used..][..more])
  {
    assert outcomes[..used + more] == outcomes[..used] + outcomes[used..][..more];
    MovesAppend(outcomes[..used], outcomes[used..][..more]);
    CountsAppend(outcomes[..used], outcomes[used..][..more]);
  }

  lemma PutMoreBeginning(b0: seq<Byte>, b1: seq<Byte>, b2: seq<Byte>, x: seq<Byte>, y: seq<Byte>, r1: Outcome, r2: Outcome,
                         outcomes: seq<Transfer>, used: nat, more: nat)
    requires Put(b0, b1, x, r1, outcomes, used) && r1 != Pending && Put(b1, b2, y, r2, outcomes[used..], more)
    requires StaysBroken(outcomes[..used + more])
    ensures var k := |b2| - |b0|;
            && Moves(outcomes[..used + more]) <= k <= |x + y| && b2 == b0 + (x + y)[..k] && (k == |x + y| ==> Joint(r1, r2) == Complete)
  {
    var first, second := outcomes[..used], outcomes[used..][..more];
    UsedBetween(outcomes, used, more);
    StaysBrokenBetween(first, second);
    var k := |b2| - |b1|;
    if r1 == Complete {
      assert x[..|x|] == x;
      assert b2 == b0 + (x + y[..k]);
      assert x + y[..k] == (x + y)[..|x| + k];
    } else {
      assert b2 == b1;
      assert x[..|b1| - |b0|] == (x + y)[..|b1| - |b0|];
    }
  }

  lemma PutMore(b0: seq<Byte>, b1: seq<Byte>, b2: seq<Byte>, x: seq<Byte>, y: seq<Byte>, r1: Outcome, r2: Outcome,
                outcomes: seq<Transfer>, used: nat, more: nat)
    requires Put(b0, b1, x, r1, outcomes, used) && r1 != Pending && Put(b1, b2, y, r2, outcomes[used..], more)
    ensures Put(b0, b2, x + y, Joint(r1, r2), outcomes, used + more)
  {
    UsedBetween(outcomes, used, more);
    if StaysBroken(outcomes[..used + more]) { PutMoreBeginning(b0, b1, b2, x, y, r1, r2, outcomes, used, more); }
  }

  lemma PutHeld(b0: seq<Byte>, b1: seq<Byte>, x: seq<Byte>, y: seq<Byte>, outcomes: seq<Transfer>, used: nat)
    requires Put(b0, b1, x, Pending, outcomes, used)
    ensures Put(b0, b1, x + y, Pending, outcomes, used)
  {
    if StaysBroken(outcomes[..used]) {
      assert x[..|b1| - |b0|] == (x + y)[..|b1| - |b0|];
    }
  }

  lemma WriteIsPut(before: seq<Byte>, after: seq<Byte>, bytes: seq<Byte>, total: nat, r: Outcome, outcomes: seq<Transfer>, used: nat)
    requires total <= |bytes| && after == before + bytes[..total] && (r == Complete <==> total == |bytes|)
    requires used <= |outcomes| && Moves(outcomes[..used]) <= total <= Counts(outcomes[..used]) && (r == Pending ==> used == |outcomes|)
    requires if r == Failed then used > 0 && outcomes[used - 1] == Broken else Broken !in outcomes[..used]
    ensures Put(before, after, bytes, r, outcomes, used) && Beginning(before, after, bytes)
  {
    assert r == Failed ==> outcomes[..used][used - 1] == Broken;
    assert bytes[..|bytes|] == bytes;
  }

  // In any case every write has added a beginning of what it should.

  /** Some of the first of these bytes have been added. */
  predicate Beginning(before: seq<Byte>, after: seq<Byte>, bytes: seq<Byte>) {
    before <= after && after[|before|..] <= bytes
  }

  /** These bytes are beginnings of the writes, one after the other. */
  ghost predicate InParts(writes: seq<seq<Byte>>, added: seq<Byte>) {
    if writes == [] then added == []
    else
      var n := |writes| - 1;
      exists at: nat :: at <= |added| && InParts(writes[..n], added[..at]) && added[at..] <= writes[n]
  }

  ghost predicate PutParts(before: seq<Byte>, after: seq<Byte>, writes: seq<seq<Byte>>) {
    before <= after && InParts(writes, after[|before|..])
  }

  lemma OnePart(b0: seq<Byte>, b1: seq<Byte>, b2: seq<Byte>, writes: seq<seq<Byte>>, x: seq<Byte>)
    requires PutParts(b0, b1, writes) && Beginning(b1, b2, x)
    ensures PutParts(b0, b2, writes + [x])
  {
    var added, at := b2[|b0|..], |b1| - |b0|;
    assert (writes + [x])[..|writes|] == writes;
    assert added[..at] == b1[|b0|..] && added[at..] == b2[|b1|..];
  }

  lemma NoPart(b0: seq<Byte>, b1: seq<Byte>, writes: seq<seq<Byte>>, x: seq<Byte>)
    requires PutParts(b0, b1, writes)
    ensures PutParts(b0, b1, writes + [x])
  {
    OnePart(b0, b1, b1, writes, x);
  }

  /** The writes for the pieces of an image: header and pixels of each. */
  ghost function Writes(log: seq<Piece>): seq<seq<Byte>>
    requires AllSendable(log)
  {
    if log == [] then []
    else
      var p := log[|log| - 1];
      Writes(log[..|log| - 1]) + [IntsBytes(Header(p.area))] + [IntsBytes(p.pixels)]
  }

  /** The end marker: what is still to be written after all pieces. */
  ghost function EndBytes(log: seq<Piece>): seq<Byte>
    requires AllSendable(log)
  {
    ImageBytes(log[|log|..])
  }

  lemma MarkerEnds(log: seq<Piece>, marker: Area)
    requires AllSendable(log) && marker == END
    ensures EndBytes(log) == IntsBytes(Header(marker))
  {
  }

  /** All of an image's writes. */
  ghost function ImageWrites(log: seq<Piece>): seq<seq<Byte>>
    requires AllSendable(log)
  {
    Writes(log) + [EndBytes(log)]
  }

  lemma {:induction false} NoMoreParts(b0: seq<Byte>, b1: seq<Byte>, log: seq<Piece>, n: nat)
    requires AllSendable(log) && n <= |log| && PutParts(b0, b1, Writes(log[..n]))
    ensures PutParts(b0, b1, Writes(log))
    decreases |log|
  {
    if n == |log| {
      assert log[..n] == log;
    } else {
      var front, p := log[..|log| - 1], log[|log| - 1];
      assert front[..n] == log[..n];
      NoMoreParts(b0, b1, front, n);
      NoPart(b0, b1, Writes(front), IntsBytes(Header(p.area)));
      NoPart(b0, b1, Writes(front) + [IntsBytes(Header(p.area))], IntsBytes(p.pixels));
    }
  }

  /** One write, of a row of integers. */
  method WriteInts(conn: Connection, vs: seq<int>, outcomes: seq<Transfer>) returns (r: Outcome, used: nat)
    requires AllFit(vs)
    modifies conn
    ensures Put(old(conn.stream), conn.stream, IntsBytes(vs), r, outcomes, used)
    ensures Beginning(old(conn.stream), conn.stream, IntsBytes(vs))
  {
    var total;
    total, r, used := conn.SockWrite(IntsBytes(vs), outcomes);
    WriteIsPut(old(conn.stream), conn.stream, IntsBytes(vs), total, r, outcomes, used);
  }

  /** Two writes: as they should be together, and each a beginning. */
  ghost predicate PutPiece(before: seq<Byte>, after: seq<Byte>, p: Piece, r: Outcome, outcomes: seq<Transfer>, used: nat)
    requires Sendable(p)
  {
    && Put(before, after, PieceBytes(p), r, outcomes, used)
    && exists middle :: Beginning(before, middle, IntsBytes(Header(p.area))) && Beginning(middle, after, IntsBytes(p.pixels))
  }

  lemma HeaderOnly(b0: seq<Byte>, b1: seq<Byte>, p: Piece, outcomes: seq<Transfer>, used: nat)
    requires Sendable(p) && Put(b0, b1, IntsBytes(Header(p.area)), Pending, outcomes, used)
    requires Beginning(b0, b1, IntsBytes(Header(p.area)))
    ensures PutPiece(b0, b1, p, Pending, outcomes, used)
  {
    PutHeld(b0, b1, IntsBytes(Header(p.area)), IntsBytes(p.pixels), outcomes, used);
    assert Beginning(b1, b1, IntsBytes(p.pixels));
  }

  /** The two writes for a piece. */
  method WritePiece(conn: Connection, p: Piece, outcomes: seq<Transfer>) returns (r: Outcome, used: nat)
    requires Sendable(p)
    modifies conn
    ensures PutPiece(old(conn.stream), conn.stream, p, r, outcomes, used)
  {
    ghost var s0 := conn.stream;
    r, used := WriteInts(conn, Header(p.area), outcomes);
    ghost var s1 := conn.stream;
    if r == Pending {
      HeaderOnly(s0, s1, p, outcomes, used);
      return;
    }
    var r2, more := WriteInts(conn, p.pixels, outcomes[used..]);
    PutMore(s0, s1, conn.stream, IntsBytes(Header(p.area)), IntsBytes(p.pixels), r, r2, outcomes, used, more);
    r, used := Joint(r, r2), used + more;
  }

  /** What is written for the pieces alone. */
  ghost function LogBytes(log: seq<Piece>): seq<Byte>
    requires AllSendable(log)
  {
    if log == [] then [] else LogBytes(log[..|log| - 1]) + PieceBytes(log[|log| - 1])
  }

  lemma {:induction false} ImageIsLogAndEnd(log: seq<Piece>, n: nat)
    requires AllSendable(log) && n <= |log|
    ensures ImageBytes(log) == LogBytes(log[..n]) + ImageBytes(log[n..])
    decreases n
  {
    if n == 0 {
      assert log[0..] == log;
    } else {
      ImageIsLogAndEnd(log, n - 1);
      assert log[..n][..n - 1] == log[..n - 1] && log[n - 1..][1..] == log[n..];
      AppendAssociates(LogBytes(log[..n - 1]), PieceBytes(log[n - 1]), ImageBytes(log[n..]));
    }
  }

  /** The first `n` pieces have been written. */
  ghost predicate PutLog(before: seq<Byte>, after: seq<Byte>, log: seq<Piece>, n: nat, r: Outcome, outcomes: seq<Transfer>, used: nat)
    requires AllSendable(log) && n <= |log|
  {
    Put(before, after, LogBytes(log[..n]), r, outcomes, used) && PutParts(before, after, Writes(log[..n]))
  }

  lemma PutNext(b0: seq<Byte>, b1: seq<Byte>, b2: seq<Byte>, log: seq<Piece>, n: nat, r1: Outcome, r2: Outcome,
                outcomes: seq<Transfer>, used: nat, more: nat)
    requires AllSendable(log) && n < |log| && PutLog(b0, b1, log, n, r1, outcomes, used) && r1 != Pending
    requires PutPiece(b1, b2, log[n], r2, outcomes[used..], more)
    ensures PutLog(b0, b2, log, n + 1, Joint(r1, r2), outcomes, used + more)
  {
    assert log[..n + 1][..n] == log[..n];
    PutMore(b0, b1, b2, LogBytes(log[..n]), PieceBytes(log[n]), r1, r2, outcomes, used, more);
    var header, pixels := IntsBytes(Header(log[n].area)), IntsBytes(log[n].pixels);
    var middle :| Beginning(b1, middle, header) && Beginning(middle, b2, pixels);
    OnePart(b0, b1, middle, Writes(log[..n]), header);
    OnePart(b0, middle, b2, Writes(log[..n]) + [header], pixels);
  }

  /** All of an image has been written, or as much as the calls allow. */
  ghost predicate PutImage(before: seq<Byte>, after: seq<Byte>, log: seq<Piece>, r: Outcome, outcomes: seq<Transfer>, used: nat)
    requires AllSendable(log)
  {
    Put(before, after, ImageBytes(log), r, outcomes, used) && PutParts(before, after, ImageWrites(log))
  }

  lemma PiecesOnlyPut(b0: seq<Byte>, b1: seq<Byte>, log: seq<Piece>, n: nat, outcomes: seq<Transfer>, used: nat)
    requires AllSendable(log) && n <= |log| && Put(b0, b1, LogBytes(log[..n]), Pending, outcomes, used)
    ensures Put(b0, b1, ImageBytes(log), Pending, outcomes, used)
    ensures Broken in outcomes || Moves(outcomes) < |ImageBytes(log)|
  {
    ImageIsLogAndEnd(log, n);
    PutHeld(b0, b1, LogBytes(log[..n]), ImageBytes(log[n..]), outcomes, used);
    EnoughRoom(b0, b1, ImageBytes(log), Pending, outcomes, used);
  }

  lemma PiecesOnly(b0: seq<Byte>, b1: seq<Byte>, log: seq<Piece>, n: nat, outcomes: seq<Transfer>, used: nat)
    requires AllSendable(log) && n <= |log| && PutLog(b0, b1, log, n, Pending, outcomes, used)
    ensures PutImage(b0, b1, log, Pending, outcomes, used)
    ensures Broken in outcomes || Moves(outcomes) < |ImageBytes(log)|
  {
    PiecesOnlyPut(b0, b1, log, n, outcomes, used);
    NoMoreParts(b0, b1, log, n);
    NoPart(b0, b1, Writes(log), EndBytes(log));
  }

  lemma EndPut(b0: seq<Byte>, b1: seq<Byte>, b2: seq<Byte>, log: seq<Piece>, end: seq<Byte>, r1: Outcome, r2: Outcome,
               outcomes: seq<Transfer>, used: nat, more: nat)
    requires AllSendable(log) && Put(b0, b1, LogBytes(log), r1, outcomes, used) && r1 != Pending && end == EndBytes(log)
    requires Put(b1, b2, end, r2, outcomes[used..], more)
    ensures Put(b0, b2, ImageBytes(log), Joint(r1, r2), outcomes, used + more)
  {
    assert log[..|log|] == log;
    ImageIsLogAndEnd(log, |log|);
    PutMore(b0, b1, b2, LogBytes(log), end, r1, r2, outcomes, used, more);
  }

  lemma PiecesAndEnd(b0: seq<Byte>, b1: seq<Byte>, b2: seq<Byte>, log: seq<Piece>, n: nat, end: seq<Byte>, r1: Outcome, r2: Outcome,
                     outcomes: seq<Transfer>, used: nat, more: nat)
    requires AllSendable(log) && n == |log| && PutLog(b0, b1, log, n, r1, outcomes, used) && r1 != Pending && end == EndBytes(log)
    requires Put(b1, b2, end, r2, outcomes[used..], more) && Beginning(b1, b2, end)
    ensures PutImage(b0, b2, log, Joint(r1, r2), outcomes, used + more)
    ensures Broken !in outcomes && Moves(outcomes) >= |ImageBytes(log)| ==> Joint(r1, r2) == Complete && b2 == b0 + ImageBytes(log)
  {
    assert log[..n] == log;
    EndPut(b0, b1, b2, log, end, r1, r2, outcomes, used, more);
    OnePart(b0, b1, b2, Writes(log), end);
    EnoughRoom(b0, b2, ImageBytes(log), Joint(r1, r2), outcomes, used + more);
  }

  /** The end marker. */
  method WriteMarker(conn: Connection, ghost log: seq<Piece>, outcomes: seq<Transfer>) returns (r: Outcome, used: nat)
    requires AllSendable(log)
    modifies conn
    ensures Put(old(conn.stream), conn.stream, EndBytes(log), r, outcomes, used)
    ensures Beginning(old(conn.stream), conn.stream, EndBytes(log))
  {
    var marker := END;
    MarkerEnds(log, marker);
    r, used := WriteInts(conn, Header(marker), outcomes);
  }

  /** All the pieces of an image, each as it is drawn, and then the end marker. */
  method WriteImage(conn: Connection, log: seq<Piece>, outcomes: seq<Transfer>) returns (r: Outcome, used: nat)
    requires AllSendable(log)
    modifies conn
    ensures PutImage(old(conn.stream), conn.stream, log, r, outcomes, used)
    ensures Broken !in outcomes && Moves(outcomes) >= |ImageBytes(log)| ==>
      r == Complete && conn.stream == old(conn.stream) + ImageBytes(log)
  {
    ghost var s0 := conn.stream;
    var n;
    r, used, n := WritePieces(conn, log, outcomes);
    if r == Pending {
      PiecesOnly(s0, conn.stream, log, n, outcomes, used);
    } else {
      ghost var s1 := conn.stream;
      var r2, more := WriteMarker(conn, log, outcomes[used..]);
      PiecesAndEnd(s0, s1, conn.stream, log, n, EndBytes(log), r, r2, outcomes, used, more);
      r, used := Joint(r, r2), used + more;
    }
  }

  method WritePieces(conn: Connection, log: seq<Piece>, outcomes: seq<Transfer>) returns (r: Outcome, used: nat, n: nat)
    requires AllSendable(log)
    modifies conn
    ensures n <= |log| && PutLog(old(conn.stream), conn.stream, log, n, r, outcomes, used)
    ensures r != Pending ==> n == |log|
  {
    ghost var s0 := conn.stream;
    r, used, n := Complete, 0, 0;
    while n < |log| && r != Pending
      invariant n <= |log| && PutLog(s0, conn.stream, log, n, r, outcomes, used)
    {
      ghost var s1 := conn.stream;
      var r2, more := WritePiece(conn, log[n], outcomes[used..]);
      PutNext(s0, s1, conn.stream, log, n, r, r2, outcomes, used, more);
      r, used, n := Joint(r, r2), used + more, n + 1;
    }
  }

  /** Writes that never fail and have room enough are complete. */
  lemma EnoughRoom(before: seq<Byte>, after: seq<Byte>, bytes: seq<Byte>, r: Outcome, outcomes: seq<Transfer>, used: nat)
    requires Put(before, after, bytes, r, outcomes, used)
    ensures Broken !in outcomes && Moves(outcomes) >= |bytes| ==> r == Complete && after == before + bytes
  {
    assert outcomes[..|outcomes|] == outcomes;
    if Broken !in outcomes { UnbrokenStays(outcomes[..used]); }
  }

  // ------------------------------------------------------------------- the pieces in a stretch of the stream

  /** The pieces that are there in full, up to the all-zero header. */
  function PiecesIn(bs: seq<Byte>): seq<Piece>
    decreases |bs|
  {
    if Incomplete(bs) || FirstHeader(bs) == END then [] else [FirstPiece(bs)] + PiecesIn(bs[PieceLength(bs)..])
  }

  /** A stream that starts with the pieces `got` and then goes on with `rest`. */
  predicate Splits(bs: seq<Byte>, got: seq<Piece>, rest: seq<Byte>) {
    if got == [] then rest == bs
    else !Incomplete(bs) && got[0] == FirstPiece(bs) && got[0].area != END && Splits(bs[PieceLength(bs)..], got[1..], rest)
  }

  lemma {:induction false} SplitsFurther(bs: seq<Byte>, got: seq<Piece>, rest: seq<Byte>, p: Piece, later: seq<Byte>)
    requires Splits(bs, got, rest) && !Incomplete(rest) && p == FirstPiece(rest) && p.area != END && later == rest[PieceLength(rest)..]
    ensures Splits(bs, got + [p], later)
    decreases |got|
  {
    if got == [] {
      assert Splits(later, [p][1..], later);
    } else {
      SplitsFurther(bs[PieceLength(bs)..], got[1..], rest, p, later);
      assert (got + [p])[1..] == got[1..] + [p];
    }
  }

  lemma {:induction false} SplitsImage(bs: seq<Byte>, got: seq<Piece>, rest: seq<Byte>)
    requires Splits(bs, got, rest)
    ensures ReadImage(bs) == if ReadImage(rest).Malformed? then Malformed else Decoded(got + ReadImage(rest).log, ReadImage(rest).rest)
    decreases |got|
  {
    if got != [] {
      SplitsImage(bs[PieceLength(bs)..], got[1..], rest);
      if ReadImage(rest).Decoded? {
        assert [got[0]] + (got[1..] + ReadImage(rest).log) == got + ReadImage(rest).log;
      }
    } else if ReadImage(rest).Decoded? {
      assert got + ReadImage(rest).log == ReadImage(rest).log;
    }
  }

  /** A longer stretch begins with the same piece. */
  lemma SamePiece(bs: seq<Byte>, n: nat)
    requires n <= |bs| && !Incomplete(bs[..n])
    ensures !Incomplete(bs) && PieceLength(bs) == PieceLength(bs[..n]) && FirstPiece(bs) == FirstPiece(bs[..n])
    ensures bs[..n][PieceLength(bs)..] == bs[PieceLength(bs)..][..n - PieceLength(bs)]
  {
    assert bs[..n][..16] == bs[..16];
    assert bs[..n][16..PieceLength(bs)] == bs[16..PieceLength(bs)];
  }

  lemma CompleteEnough(bs: seq<Byte>, n: nat)
    requires !Incomplete(bs) && PieceLength(bs) <= n <= |bs|
    ensures !Incomplete(bs[..n])
  {
    assert bs[..n][..16] == bs[..16];
  }

  lemma PiecesCons(bs: seq<Byte>, n: nat)
    requires !Incomplete(bs) && FirstHeader(bs) != END && PieceLength(bs) <= n <= |bs|
    ensures PiecesIn(bs[..n]) == [FirstPiece(bs)] + PiecesIn(bs[PieceLength(bs)..][..n - PieceLength(bs)])
  {
    CompleteEnough(bs, n);
    SamePiece(bs, n);
  }

  lemma OneBefore(bs: seq<Byte>, p: Piece, later: seq<Byte>, k: nat, got: seq<Piece>, more: seq<Piece>)
    requires !Incomplete(bs) && FirstPiece(bs) == p && p.area != END && later == bs[PieceLength(bs)..]
    requires k <= |later| && PiecesIn(later[..k]) == got + more
    ensures PiecesIn(bs[..|bs| - |later| + k]) == [p] + got + more
  {
    PiecesCons(bs, |bs| - |later| + k);
    assert [p] + (got + more) == [p] + got + more;
  }

  lemma {:induction false} SplitsPieces(bs: seq<Byte>, got: seq<Piece>, rest: seq<Byte>, m: nat)
    requires Splits(bs, got, rest) && m <= |rest|
    ensures |rest| <= |bs| && PiecesIn(bs[..|bs| - |rest| + m]) == got + PiecesIn(rest[..m])
    decreases |got|
  {
    if got == [] {
      assert got + PiecesIn(rest[..m]) == PiecesIn(rest[..m]);
    } else {
      var later := bs[PieceLength(bs)..];
      SplitsPieces(later, got[1..], rest, m);
      OneBefore(bs, got[0], later, |later| - |rest| + m, got[1..], PiecesIn(rest[..m]));
      assert [got[0]] + got[1..] == got;
    }
  }

  lemma {:induction false} PiecesGrow(bs: seq<Byte>, n: nat)
    requires n <= |bs|
    ensures PiecesIn(bs[..n]) <= PiecesIn(bs)
    decreases n
  {
    if !Incomplete(bs[..n]) && FirstHeader(bs[..n]) != END {
      SamePiece(bs, n);
      PiecesGrow(bs[PieceLength(bs)..], n - PieceLength(bs));
    }
  }

  /** An end marker that has come is where a longer stream ends too. */
  lemma {:induction false} ImageOfPrefix(bs: seq<Byte>, n: nat)
    requires n <= |bs| && ReadImage(bs[..n]).Decoded?
    ensures ReadImage(bs).Decoded? && ReadImage(bs).log == ReadImage(bs[..n]).log
    decreases n
  {
    SamePiece(bs, n);
    if FirstHeader(bs[..n]) != END { ImageOfPrefix(bs[PieceLength(bs)..], n - PieceLength(bs)); }
  }

  lemma {:induction false} PiecesOfImage(bs: seq<Byte>)
    ensures ReadImage(bs).Decoded? ==> PiecesIn(bs) == ReadImage(bs).log && |ReadImage(bs).rest| < |bs|
    decreases |bs|
  {
    if !Incomplete(bs) && FirstHeader(bs) != END { PiecesOfImage(bs[PieceLength(bs)..]); }
  }

  // ------------------------------------------------------------------- reading

  function Taken(before: seq<Byte>, left: seq<Byte>): int { |before| - |left| }

  /** Reads the four integers of a header. */
  method ReadHeader(conn: Connection, outcomes: seq<Transfer>) returns (r: Outcome, used: nat, a: Area)
    modifies conn
    ensures Took(old(conn.stream), conn.stream, outcomes, used)
    ensures Excused(r, outcomes, used, |old(conn.stream)| < 16)
    ensures if r == Complete then Taken(old(conn.stream), conn.stream) == 16 && a == FirstHeader(old(conn.stream))
            else Taken(old(conn.stream), conn.stream) < 16
    ensures r == Complete ==> used > 0
  {
    ghost var start := conn.stream;
    var temp := new Byte[16];
    r, used := conn.ReadData(temp, 16, outcomes);
    a := END;
    if r != Complete { return; }
    assert temp[..] == start[..16];
    var t := BytesInts(temp[..]);
    a := Area(t[0], t[1], t[2], t[3]);
  }

  /** What reading one more piece has done. */
  ghost predicate OneRead(start: seq<Byte>, now: seq<Byte>, r: Outcome, outcomes: seq<Transfer>, used: nat, p: Piece) {
    && Took(start, now, outcomes, used) && Excused(r, outcomes, used, Incomplete(start))
    && (if r == Complete then used > 0 && !Incomplete(start) && Taken(start, now) == PieceLength(start) && p == FirstPiece(start)
        else Incomplete(start[..Taken(start, now)]))
  }

  /** Reads `4 * size` bytes of pixels. */
  method ReadPixels(conn: Connection, size: nat, outcomes: seq<Transfer>) returns (r: Outcome, used: nat, pixels: seq<int>)
    modifies conn
    ensures Took(old(conn.stream), conn.stream, outcomes, used)
    ensures Excused(r, outcomes, used, |old(conn.stream)| < 4 * size)
    ensures if r == Complete then Taken(old(conn.stream), conn.stream) == 4 * size && pixels == BytesInts(old(conn.stream)[..4 * size])
            else Taken(old(conn.stream), conn.stream) < 4 * size
  {
    ghost var start := conn.stream;
    var buffer := new Byte[4 * size];
    r, used := conn.ReadData(buffer, 4 * size, outcomes);
    pixels := [];
    if r != Complete { return; }
    assert buffer[..] == start[..4 * size];
    pixels := BytesInts(buffer[..]);
  }

  lemma PrefixHeader(start: seq<Byte>, left: seq<Byte>)
    requires |left| <= |start| && Taken(start, left) >= 16
    ensures FirstHeader(start[..Taken(start, left)]) == FirstHeader(start)
  {
    assert start[..Taken(start, left)][..16] == start[..16];
  }

  /** A header that could not be read, the end marker, or one that announces fewer pixels than none. */
  lemma HeaderIsAll(start: seq<Byte>, now: seq<Byte>, r: Outcome, outcomes: seq<Transfer>, used: nat, a: Area)
    requires Took(start, now, outcomes, used) && Excused(r, outcomes, used, |start| < 16)
    requires if r == Complete then used > 0 && Taken(start, now) == 16 && a == FirstHeader(start) else Taken(start, now) < 16
    ensures r != Complete || a == END ==> OneRead(start, now, r, outcomes, used, Piece(a, []))
    ensures r == Complete && a != END && Size(a) < 0 ==> OneRead(start, now, Failed, outcomes, used, Piece(a, []))
  {
    if r == Complete { PrefixHeader(start, now); }
  }

  /** A header and the reading of its pixels. */
  lemma HeaderAndPixels(start: seq<Byte>, middle: seq<Byte>, now: seq<Byte>, r: Outcome, outcomes: seq<Transfer>, used: nat, more: nat,
                        a: Area, pixels: seq<int>)
    requires Took(start, middle, outcomes, used) && used > 0 && Taken(start, middle) == 16 && a == FirstHeader(start)
    requires a != END && Size(a) >= 0
    requires Took(middle, now, outcomes[used..], more) && Excused(r, outcomes[used..], more, |middle| < 4 * Size(a))
    requires if r == Complete then Taken(middle, now) == 4 * Size(a) && pixels == BytesInts(middle[..4 * Size(a)])
             else Taken(middle, now) < 4 * Size(a)
    ensures OneRead(start, now, r, outcomes, used + more, Piece(a, pixels))
  {
    TookMore(start, middle, now, outcomes, used, more);
    PrefixHeader(start, now);
    if r == Complete { assert middle[..4 * Size(a)] == start[16..16 + 4 * Size(a)]; }
  }

  /** Reads one header and, unless it is the end marker, the pixels announced by it. */
  method ReadPiece(conn: Connection, outcomes: seq<Transfer>) returns (r: Outcome, used: nat, p: Piece)
    modifies conn
    ensures OneRead(old(conn.stream), conn.stream, r, outcomes, used, p)
  {
    ghost var start := conn.stream;
    var a;
    r, used, a := ReadHeader(conn, outcomes);
    p := Piece(a, []);
    ghost var middle := conn.stream;
    HeaderIsAll(start, middle, r, outcomes, used, a);
    if r != Complete || a == END { return; }
    var size := Size(a);
    if size < 0 { return Failed, used, p; }
    var more, pixels;
    r, more, pixels := ReadPixels(conn, size, outcomes[used..]);
    HeaderAndPixels(start, middle, conn.stream, r, outcomes, used, more, a, pixels);
    p := Piece(a, pixels);
    used := used + more;
  }

  /** What the reading loop has done to the stream and the bitmap, and why it has ended. */
  ghost predicate ReadAs(before: seq<Byte>, left: seq<Byte>, bm0: Bitmap, bm: Bitmap, r: Outcome, outcomes: seq<Transfer>, used: nat) {
    && Took(before, left, outcomes, used) && Excused(r, outcomes, used, ReadImage(before).Malformed?)
    && (var seen := PiecesIn(before[..Taken(before, left)]); Filled(seen) && bm == SetAll(bm0, seen))
    && (if r == Complete
        then ReadImage(before) == Decoded(PiecesIn(before[..Taken(before, left)]), left)
        else ReadImage(before).Decoded? ==> |left| > |ReadImage(before).rest|)
  }

  lemma MarkerIsNoPiece(start: seq<Byte>)
    requires !Incomplete(start) && FirstHeader(start) == END
    ensures ReadImage(start) == Decoded([], start[16..]) && PiecesIn(start[..16]) == []
  {
    assert start[..16][..16] == start[..16];
  }

  lemma EndsAtMarker(bs: seq<Byte>, got: seq<Piece>, start: seq<Byte>)
    requires Splits(bs, got, start) && !Incomplete(start) && FirstHeader(start) == END
    ensures |start| <= |bs| && ReadImage(bs) == Decoded(got, start[16..]) && PiecesIn(bs[..|bs| - |start| + 16]) == got
  {
    MarkerIsNoPiece(start);
    SplitsImage(bs, got, start);
    SplitsPieces(bs, got, start, 16);
    assert got + [] == got;
  }

  lemma EndsShort(bs: seq<Byte>, got: seq<Piece>, start: seq<Byte>, m: nat)
    requires Splits(bs, got, start) && m <= |start| && Incomplete(start[..m])
    ensures |start| <= |bs| && PiecesIn(bs[..|bs| - |start| + m]) == got
    ensures Incomplete(start) ==> ReadImage(bs).Malformed?
    ensures ReadImage(bs).Decoded? ==> |start| - m > |ReadImage(bs).rest|
  {
    SplitsImage(bs, got, start);
    SplitsPieces(bs, got, start, m);
    assert got + [] == got;
    if ReadImage(start).Decoded? {
      if PieceLength(start) <= m { CompleteEnough(start, m); }
      PiecesOfImage(start[PieceLength(start)..]);
    }
  }

  /** What is known in the middle of reading: the pieces `got` have come and been drawn, `now` is still to come. */
  ghost predicate Underway(bs: seq<Byte>, got: seq<Piece>, now: seq<Byte>, bm0: Bitmap, bm: Bitmap, outcomes: seq<Transfer>, used: nat) {
    Took(bs, now, outcomes, used) && Splits(bs, got, now) && Filled(got) && bm == SetAll(bm0, got)
  }

  lemma GoesOn(bs: seq<Byte>, got: seq<Piece>, start: seq<Byte>, now: seq<Byte>, bm0: Bitmap, bm: Bitmap,
               outcomes: seq<Transfer>, used: nat, more: nat, p: Piece)
    requires Underway(bs, got, start, bm0, bm, outcomes, used)
    requires OneRead(start, now, Complete, outcomes[used..], more, p) && p.area != END
    ensures NonEmpty(p.area) ==> Size(p.area) <= |p.pixels|
    ensures Underway(bs, got + [p], now, bm0, SetPiece(bm, p), outcomes, used + more)
  {
    TookMore(bs, start, now, outcomes, used, more);
    SplitsFurther(bs, got, start, p, now);
    OneMore(bm0, got, p);
  }

  lemma SeenIsGot(bs: seq<Byte>, got: seq<Piece>, left: seq<Byte>, bm0: Bitmap, bm: Bitmap)
    requires |left| <= |bs| && PiecesIn(bs[..Taken(bs, left)]) == got && Filled(got) && bm == SetAll(bm0, got)
    ensures var seen := PiecesIn(bs[..Taken(bs, left)]); Filled(seen) && bm == SetAll(bm0, seen)
  {
  }

  lemma EndsComplete(bs: seq<Byte>, got: seq<Piece>, start: seq<Byte>, now: seq<Byte>, bm0: Bitmap, bm: Bitmap,
                     outcomes: seq<Transfer>, used: nat, more: nat, p: Piece)
    requires Underway(bs, got, start, bm0, bm, outcomes, used)
    requires OneRead(start, now, Complete, outcomes[used..], more, p) && p.area == END
    ensures ReadAs(bs, now, bm0, bm, Complete, outcomes, used + more)
  {
    TookMore(bs, start, now, outcomes, used, more);
    EndsAtMarker(bs, got, start);
    assert Taken(bs, now) == |bs| - |start| + 16;
    SeenIsGot(bs, got, now, bm0, bm);
  }

  lemma EndsEarly(bs: seq<Byte>, got: seq<Piece>, start: seq<Byte>, now: seq<Byte>, bm0: Bitmap, bm: Bitmap,
                  r: Outcome, outcomes: seq<Transfer>, used: nat, more: nat, p: Piece)
    requires Underway(bs, got, start, bm0, bm, outcomes, used)
    requires OneRead(start, now, r, outcomes[used..], more, p) && r != Complete
    ensures ReadAs(bs, now, bm0, bm, r, outcomes, used + more)
  {
    TookMore(bs, start, now, outcomes, used, more);
    ExcusedLater(r, outcomes, used, more, Incomplete(start));
    EndsShort(bs, got, start, Taken(start, now));
    assert Taken(bs, now) == |bs| - |start| + Taken(start, now);
    SeenIsGot(bs, got, now, bm0, bm);
  }

  lemma ExcusedLater(r: Outcome, outcomes: seq<Transfer>, used: nat, more: nat, short: bool)
    requires used <= |outcomes| && Excused(r, outcomes[used..], more, short)
    ensures Excused(r, outcomes, used + more, short)
  {
  }

  /** The body of the reading loop: `more` when it goes round again. */
  method ReadAndDraw(conn: Connection, bm1: Bitmap, outcomes: seq<Transfer>, from: nat,
                     ghost bs: seq<Byte>, ghost got1: seq<Piece>, ghost bm0: Bitmap)
      returns (r: Outcome, more: bool, used: nat, bm: Bitmap, ghost got: seq<Piece>)
    requires Underway(bs, got1, conn.stream, bm0, bm1, outcomes, from)
    modifies conn
    ensures if more then from < used && Underway(bs, got, conn.stream, bm0, bm, outcomes, used)
            else ReadAs(bs, conn.stream, bm0, bm, r, outcomes, used)
  {
    ghost var start := conn.stream;
    var p;
    r, used, p := ReadPiece(conn, outcomes[from..]);
    bm, got, more := bm1, got1, r == Complete && p.area != END;
    if more {
      GoesOn(bs, got1, start, conn.stream, bm0, bm1, outcomes, from, used, p);
      bm := DrawPiece(bm1, p);
      got := got1 + [p];
    } else if r == Complete {
      EndsComplete(bs, got1, start, conn.stream, bm0, bm1, outcomes, from, used, p);
    } else {
      EndsEarly(bs, got1, start, conn.stream, bm0, bm1, r, outcomes, from, used, p);
    }
    used := from + used;
  }

  /**
   The reading loop. However the bytes were split and however it ends, the bitmap has exactly the
   pieces that were received in full; it ends normally, at the end marker, unless the connection
   breaks or closes or the stream is no image.
   */
  method GetPmandelData(conn: Connection, bm0: Bitmap, outcomes: seq<Transfer>) returns (r: Outcome, used: nat, bm: Bitmap)
    modifies conn
    ensures ReadAs(old(conn.stream), conn.stream, bm0, bm, r, outcomes, used)
    ensures Flows(outcomes) && ReadImage(old(conn.stream)).Decoded?
      && Moves(outcomes) >= |old(conn.stream)| - |ReadImage(old(conn.stream)).rest|
      ==> r == Complete
  {
    r, used, bm := Pending, 0, bm0;
    ghost var got: seq<Piece> := [];
    ghost var all := conn.stream;
    var more := true;
    while more
      invariant if more then used <= |outcomes| && Underway(all, got, conn.stream, bm0, bm, outcomes, used)
                else ReadAs(all, conn.stream, bm0, bm, r, outcomes, used)
      decreases more, |outcomes| - used
    {
      r, more, used, bm, got := ReadAndDraw(conn, bm, outcomes, used, all, got, bm0);
    }
    EnoughArrives(all, conn.stream, bm0, bm, r, outcomes, used);
  }

  /** Reading that never fails, of a whole image that arrives, ends normally. */
  lemma EnoughArrives(before: seq<Byte>, left: seq<Byte>, bm0: Bitmap, bm: Bitmap, r: Outcome, outcomes: seq<Transfer>, used: nat)
    requires ReadAs(before, left, bm0, bm, r, outcomes, used)
    ensures Flows(outcomes) && ReadImage(before).Decoded? && Moves(outcomes) >= |before| - |ReadImage(before).rest| ==> r == Complete
  {
    assert outcomes[..|outcomes|] == outcomes;
  }

  lemma OneMore(bm: Bitmap, got: seq<Piece>, p: Piece)
    requires Filled(got) && (NonEmpty(p.area) ==> Size(p.area) <= |p.pixels|)
    ensures Filled(got + [p]) && SetAll(bm, got + [p]) == SetPiece(SetAll(bm, got), p)
  {
    assert (got + [p])[..|got + [p]| - 1] == got;
  }
}
