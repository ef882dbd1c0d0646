/**
 What the visualizer reads when a write of the root has stopped in the middle and the root has gone
 on: `sock_write` tells how many bytes it wrote, and nobody looks.
 */
module BrokenWrites {
  import opened Common
  import opened Image
  import opened Sockets
  import opened Stream
  import opened Transmission

  // ------------------------------------------------------------------- other bytes are other integers

  lemma LowDigit(u: int, b: int, v: int)
    requires 0 <= b < 256 && u == b + 256 * v
    ensures u % 256 == b && u / 256 == v
  {
  }

  lemma FourDigits(b0: int, b1: int, b2: int, b3: int, u: int)
    requires 0 <= b0 < 256 && 0 <= b1 < 256 && 0 <= b2 < 256 && 0 <= b3 < 256
    requires u == b0 + 256 * b1 + 65536 * b2 + 16777216 * b3
    ensures u % 256 == b0 && u / 256 % 256 == b1 && u / 65536 % 256 == b2 && u / 16777216 == b3
  {
    var w := b2 + 256 * b3;
    var v := b1 + 256 * w;
    LowDigit(u, b0, v);
    LowDigit(v, b1, w);
    LowDigit(w, b2, b3);
    assert u / 65536 == u / 256 / 256 && u / 16777216 == u / 65536 / 256;
  }

  lemma BytesRoundTrip(bs: seq<Byte>)
    requires |bs| == 4
    ensures IntBytes(BytesInt(bs)) == bs
  {
    var u := bs[0] as int + 256 * bs[1] as int + 65536 * bs[2] as int + 16777216 * bs[3] as int;
    FourDigits(bs[0] as int, bs[1] as int, bs[2] as int, bs[3] as int, u);
    var v := BytesInt(bs);
    assert u == if v < 0 then v + 0x1_0000_0000 else v;
  }

  lemma {:induction false} BytesIntsFit(bs: seq<Byte>)
    requires |bs| % 4 == 0
    ensures AllFit(BytesInts(bs)) && IntsBytes(BytesInts(bs)) == bs
    decreases |bs|
  {
    if bs != [] {
      BytesIntsFit(bs[4..]);
      BytesRoundTrip(bs[..4]);
      assert BytesInts(bs)[1..] == BytesInts(bs[4..]);
      assert bs == bs[..4] + bs[4..];
    }
  }

  /** Bytes that are read as these integers are the ones that are written for them. */
  lemma ReadAsWritten(bs: seq<Byte>, vs: seq<int>)
    requires |bs| % 4 == 0 && BytesInts(bs) == vs
    ensures AllFit(vs) && bs == IntsBytes(vs)
  {
    BytesIntsFit(bs);
  }

  // ------------------------------------------------------------------- the piece at hand

  lemma PieceSize(p: Piece)
    requires Sendable(p)
    ensures Size(p.area) >= 0 && |PieceBytes(p)| == 16 + 4 * Size(p.area)
    ensures PieceBytes(p)[..16] == IntsBytes(Header(p.area)) && PieceBytes(p)[16..] == IntsBytes(p.pixels)
  {
    SizePositive(p.area);
  }

  /** A stream that begins as a piece does has its header. */
  lemma HeaderIsRead(p: Piece, bs: seq<Byte>)
    requires Sendable(p) && |bs| >= 16 && bs[..16] == PieceBytes(p)[..16]
    ensures FirstHeader(bs) == p.area
  {
    PieceSize(p);
    IntsRoundTrip(Header(p.area));
  }

  /** The next piece read is this one exactly when all its bytes come first. */
  lemma FirstPieceIff(p: Piece, bs: seq<Byte>)
    requires Sendable(p) && p.area != END
    ensures !Incomplete(bs) && FirstPiece(bs) == p <==> PieceBytes(p) <= bs
  {
    PieceSize(p);
    if PieceBytes(p) <= bs { WholePieceIsRead(p, bs); }
    if !Incomplete(bs) && FirstPiece(bs) == p { ReadPieceIsWhole(p, bs); }
  }

  lemma WholePieceIsRead(p: Piece, bs: seq<Byte>)
    requires Sendable(p) && p.area != END && PieceBytes(p) <= bs
    ensures !Incomplete(bs) && FirstPiece(bs) == p
  {
    PieceSize(p);
    var all := PieceBytes(p);
    assert bs[..|all|] == all;
    assert bs[..16] == all[..16];
    HeaderIsRead(p, bs);
    assert bs[16..|all|] == all[16..];
    IntsRoundTrip(p.pixels);
  }

  lemma ReadPieceIsWhole(p: Piece, bs: seq<Byte>)
    requires Sendable(p) && p.area != END && !Incomplete(bs) && FirstPiece(bs) == p
    ensures PieceBytes(p) <= bs
  {
    PieceSize(p);
    var n := PieceLength(bs);
    ReadAsWritten(bs[..16], Header(p.area));
    ReadAsWritten(bs[16..n], p.pixels);
    assert bs[..n] == bs[..16] + bs[16..n];
  }

  // ------------------------------------------------------------------- the pieces before it

  lemma OnePieceOff(p: Piece, rest: seq<Byte>)
    requires Sendable(p) && p.area != END
    ensures var bs := PieceBytes(p) + rest; !Incomplete(bs) && FirstPiece(bs) == p && bs[PieceLength(bs)..] == rest
  {
    PieceSize(p);
    WholePieceIsRead(p, PieceBytes(p) + rest);
  }

  lemma {:induction false} WrittenSplits(log: seq<Piece>, rest: seq<Byte>)
    requires AllSendable(log) && forall i :: 0 <= i < |log| ==> log[i].area != END
    ensures Splits(LogBytes(log) + rest, log, rest)
    decreases |log|
  {
    if log == [] {
      assert LogBytes(log) + rest == rest;
    } else {
      var front, p := log[..|log| - 1], log[|log| - 1];
      var bs := PieceBytes(p) + rest;
      WrittenSplits(front, bs);
      OnePieceOff(p, rest);
      SplitsFurther(LogBytes(front) + bs, front, bs, p, rest);
      AppendAssociates(LogBytes(front), PieceBytes(p), rest);
      assert front + [p] == log;
    }
  }

  lemma PiecesAfterWritten(log: seq<Piece>, rest: seq<Byte>)
    requires AllSendable(log) && forall i :: 0 <= i < |log| ==> log[i].area != END
    ensures PiecesIn(LogBytes(log) + rest) == log + PiecesIn(rest)
  {
    WrittenSplits(log, rest);
    SplitsPieces(LogBytes(log) + rest, log, rest, |rest|);
    assert rest[..|rest|] == rest;
    assert (LogBytes(log) + rest)[..|LogBytes(log) + rest|] == LogBytes(log) + rest;
  }

  // ------------------------------------------------------------------- a write that has stopped

  /** The stream when the pieces before `p` have been written in full, of `p` only `m` bytes, and then something else. */
  ghost function Stopped(before: seq<Piece>, p: Piece, m: nat, later: seq<Byte>): seq<Byte>
    requires AllSendable(before) && Sendable(p) && m <= |PieceBytes(p)|
  {
    LogBytes(before) + (PieceBytes(p)[..m] + later)
  }

  ghost predicate Piecewise(before: seq<Piece>, p: Piece, m: nat) {
    && AllSendable(before) && (forall i :: 0 <= i < |before| ==> before[i].area != END)
    && Sendable(p) && p.area != END && m <= |PieceBytes(p)|
  }

  /** The piece is drawn, but it is another one. */
  ghost predicate Misread(before: seq<Piece>, p: Piece, m: nat, later: seq<Byte>)
    requires AllSendable(before) && Sendable(p) && m <= |PieceBytes(p)|
  {
    var seen := PiecesIn(Stopped(before, p, m, later));
    |seen| > |before| && seen[|before|] != p
  }

  /** What is written in full is read as it is; the piece is read as it is exactly when what comes next is what was missing. */
  lemma StoppedPieceIff(before: seq<Piece>, p: Piece, m: nat, later: seq<Byte>)
    requires Piecewise(before, p, m)
    ensures before <= PiecesIn(Stopped(before, p, m, later))
    ensures before + [p] <= PiecesIn(Stopped(before, p, m, later)) <==> PieceBytes(p)[m..] <= later
  {
    var rest := PieceBytes(p)[..m] + later;
    PiecesAfterWritten(before, rest);
    FirstPieceIff(p, rest);
    MissingIff(PieceBytes(p), m, later);
    var seen := PiecesIn(rest);
    assert before + [p] <= before + seen <==> seen != [] && seen[0] == p by { NextInList(before, p, seen); }
  }

  lemma MissingIff(all: seq<Byte>, m: nat, later: seq<Byte>)
    requires m <= |all|
    ensures all <= all[..m] + later <==> all[m..] <= later
  {
    var rest := all[..m] + later;
    if all <= rest {
      assert forall i :: 0 <= i < |all| - m ==> all[m..][i] == rest[m + i] == later[i];
    }
    if all[m..] <= later {
      assert all == all[..m] + all[m..];
      assert forall i :: 0 <= i < |all| ==> all[i] == rest[i];
    }
  }

  lemma NextInList(before: seq<Piece>, p: Piece, seen: seq<Piece>)
    ensures before + [p] <= before + seen <==> seen != [] && seen[0] == p
  {
    if before + [p] <= before + seen { assert (before + seen)[|before|] == (before + [p])[|before|]; }
  }

  /** It is misread exactly when enough comes to make a piece, but not what was missing. */
  lemma MisreadIff(before: seq<Piece>, p: Piece, m: nat, later: seq<Byte>)
    requires Piecewise(before, p, m)
    ensures var rest := PieceBytes(p)[..m] + later;
            Misread(before, p, m, later) <==> !Incomplete(rest) && FirstHeader(rest) != END && !(PieceBytes(p)[m..] <= later)
  {
    var rest := PieceBytes(p)[..m] + later;
    PiecesAfterWritten(before, rest);
    FirstPieceIff(p, rest);
    MissingIff(PieceBytes(p), m, later);
    var seen := PiecesIn(rest);
    assert seen != [] ==> (before + seen)[|before|] == seen[0];
  }

  /** When the header got through, enough is as many bytes as are missing, whatever they are. */
  lemma PixelsMisreadIff(before: seq<Piece>, p: Piece, m: nat, later: seq<Byte>)
    requires Piecewise(before, p, m) && m >= 16
    ensures Misread(before, p, m, later) <==> |later| >= |PieceBytes(p)| - m && !(PieceBytes(p)[m..] <= later)
  {
    var rest := PieceBytes(p)[..m] + later;
    MisreadIff(before, p, m, later);
    PieceSize(p);
    assert rest[..16] == PieceBytes(p)[..16];
    HeaderIsRead(p, rest);
  }

  /** When nothing comes any more, as on a connection that stays broken, nothing is misread. */
  lemma NothingMoreNothingMisread(before: seq<Piece>, p: Piece, m: nat)
    requires Piecewise(before, p, m)
    ensures !Misread(before, p, m, [])
  {
    MisreadIff(before, p, m, []);
    var all := PieceBytes(p);
    var rest := all[..m] + [];
    PieceSize(p);
    if m >= 16 {
      PixelsMisreadIff(before, p, m, []);
      if m == |all| { assert all[m..] == []; }
    }
  }
}
