/**
 The loops around `send` and `recv`: `sock_write` in pmandel.c and `read_data` in sock.cpp. What
 the successive calls of `send` or `recv` do is a parameter.
 */
module Sockets {
  import opened Common

  newtype Byte = b: int | 0 <= b < 256

  /** What one call of `send` or `recv` does: moves up to some number of bytes, would block, or fails. */
  datatype Transfer = Moved(n: nat) | WouldBlock | Broken

  /** `Pending`: the given outcomes ran out before the loop ended. */
  datatype Outcome = Complete | Failed | Pending

  /** The bytes that a row of outcomes makes room for. */
  function Counts(outcomes: seq<Transfer>): nat {
    if outcomes == [] then 0 else
      var o := outcomes[|outcomes| - 1];
      Counts(outcomes[..|outcomes| - 1]) + if o.Moved? then o.n else 0
  }

  /** How many of them move anything. */
  function Moves(outcomes: seq<Transfer>): nat {
    if outcomes == [] then 0 else
      var o := outcomes[|outcomes| - 1];
      Moves(outcomes[..|outcomes| - 1]) + if o.Moved? && o.n > 0 then 1 else 0
  }

  lemma {:induction false} MovesAppend(a: seq<Transfer>, b: seq<Transfer>)
    ensures Moves(a + b) == Moves(a) + Moves(b)
    decreases |b|
  {
    if b == [] {
      assert a + b == a;
    } else {
      assert (a + b)[..|a + b| - 1] == a + b[..|b| - 1];
      MovesAppend(a, b[..|b| - 1]);
    }
  }

  lemma {:induction false} CountsAppend(a: seq<Transfer>, b: seq<Transfer>)
    ensures Counts(a + b) == Counts(a) + Counts(b)
    decreases |b|
  {
    if b == [] {
      assert a + b == a;
    } else {
      assert (a + b)[..|a + b| - 1] == a + b[..|b| - 1];
      CountsAppend(a, b[..|b| - 1]);
    }
  }

  /** After a call that fails no other moves anything. */
  predicate StaysBroken(outcomes: seq<Transfer>) {
    outcomes == []
    || var front, o := outcomes[..|outcomes| - 1], outcomes[|outcomes| - 1];
       StaysBroken(front) && (Broken in front && o.Moved? ==> o.n == 0)
  }

  /** Two stretches of a connection that stays broken: if a call fails in the first, the second moves nothing. */
  lemma {:induction false} StaysBrokenBetween(a: seq<Transfer>, b: seq<Transfer>)
    requires StaysBroken(a + b)
    ensures StaysBroken(a) && StaysBroken(b) && (Broken in a ==> Counts(b) == 0)
    decreases |b|
  {
    if b == [] {
      assert a + b == a;
    } else {
      var front := b[..|b| - 1];
      assert (a + b)[..|a + b| - 1] == a + front;
      StaysBrokenBetween(a, front);
      if Broken in front { assert Broken in a + front; }
    }
  }

  lemma {:induction false} UnbrokenStays(outcomes: seq<Transfer>)
    requires Broken !in outcomes
    ensures StaysBroken(outcomes)
    decreases |outcomes|
  {
    if outcomes != [] { UnbrokenStays(outcomes[..|outcomes| - 1]); }
  }

  /** Receiving no byte means that the peer has closed the connection. */
  predicate Stops(o: Transfer) { o == Broken || o == Moved(0) }

  predicate Flows(outcomes: seq<Transfer>) {
    forall k :: 0 <= k < |outcomes| ==> !Stops(outcomes[k])
  }

  /** The first `used` outcomes have taken the bytes up to what is left now, at least one for each that moves any. */
  ghost predicate Took(before: seq<Byte>, left: seq<Byte>, outcomes: seq<Transfer>, used: nat) {
    && used <= |outcomes| && |left| <= |before| && left == before[|before| - |left|..]
    && Flows(outcomes[..used]) && |before| - |left| >= Moves(outcomes[..used])
  }

  /** Why a reading loop has ended, if it is not complete. */
  predicate Excused(r: Outcome, outcomes: seq<Transfer>, used: nat, short: bool) {
    && (r == Pending ==> used == |outcomes|)
    && (r == Failed ==> short || (used < |outcomes| && Stops(outcomes[used])))
  }

  /** One stretch of reading after another. */
  lemma TookMore(b0: seq<Byte>, b1: seq<Byte>, b2: seq<Byte>, outcomes: seq<Transfer>, used: nat, more: nat)
    requires Took(b0, b1, outcomes, used) && Took(b1, b2, outcomes[used..], more)
    ensures Took(b0, b2, outcomes, used + more)
  {
    assert outcomes[..used + more] == outcomes[..used] + outcomes[used..][..more];
    MovesAppend(outcomes[..used], outcomes[used..][..more]);
    assert b2 == b0[|b0| - |b2|..];
  }

  /** How many bytes the outcomes bring when `length` are asked for and `available` will come. */
  function Brought(length: nat, available: nat, outcomes: seq<Transfer>): (b: nat)
    ensures b <= length && b <= available
  {
    if outcomes == [] then 0 else
      var o, b := outcomes[|outcomes| - 1], Brought(length, available, outcomes[..|outcomes| - 1]);
      b + if o.Moved? then Min(Min(o.n, length - b), available - b) else 0
  }

  lemma {:induction false} BroughtIsMin(length: nat, available: nat, outcomes: seq<Transfer>)
    ensures Brought(length, available, outcomes) == Min(Min(length, available), Counts(outcomes))
    decreases |outcomes|
  {
    if outcomes != [] { BroughtIsMin(length, available, outcomes[..|outcomes| - 1]); }
  }

  lemma AllUsed(length: nat, available: nat, outcomes: seq<Transfer>)
    ensures Counts(outcomes) >= length && available >= length ==> Brought(length, available, outcomes[..|outcomes|]) == length
  {
    BroughtIsMin(length, available, outcomes);
    assert outcomes[..|outcomes|] == outcomes;
  }

  /** What is known in the middle of reading. */
  predicate GoneOn(length: nat, available: nat, outcomes: seq<Transfer>, used: nat, at: nat) {
    && used <= |outcomes| && Flows(outcomes[..used])
    && Moves(outcomes[..used]) <= at == Brought(length, available, outcomes[..used])
    && (length > 0 && at == length ==> used > 0 && Brought(length, available, outcomes[..used - 1]) < length)
  }

  lemma OneOutcome(length: nat, available: nat, outcomes: seq<Transfer>, used: nat, at: nat, count: nat)
    requires GoneOn(length, available, outcomes, used, at) && at < length && used < |outcomes|
    requires count == if outcomes[used].Moved? then Min(Min(outcomes[used].n, length - at), available - at) else 0
    ensures count > 0 || outcomes[used] == WouldBlock ==> GoneOn(length, available, outcomes, used + 1, at + count)
    ensures count > 0 || outcomes[used] == WouldBlock || Stops(outcomes[used]) || available < length
  {
    assert outcomes[..used + 1][..used] == outcomes[..used];
    assert outcomes[..used + 1][used] == outcomes[used];
  }

  /** What the end of the loop says of the bytes taken. */
  lemma ReadEnds(bs: seq<Byte>, length: nat, outcomes: seq<Transfer>, used: nat, at: nat, r: Outcome)
    requires at <= |bs| && GoneOn(length, |bs|, outcomes, used, at) && (r == Complete <==> at == length)
    requires r == Pending ==> used == |outcomes|
    requires r == Failed ==> used < |outcomes| && (Stops(outcomes[used]) || |bs| < length)
    ensures Took(bs, bs[at..], outcomes, used) && Excused(r, outcomes, used, |bs| < length)
    ensures Flows(outcomes) && Counts(outcomes) >= length && |bs| >= length ==> r == Complete
  {
    AllUsed(length, |bs|, outcomes);
  }

  class Connection {
    /** Bytes written and not yet read. */
    var stream: seq<Byte>

    constructor ()
      ensures stream == []
    {
      stream := [];
    }

    /** The retry loop; `outcomes` are the results of the successive calls of `send`. */
    method SockWrite(buffer: seq<Byte>, outcomes: seq<Transfer>) returns (total: nat, r: Outcome, used: nat)
      modifies this
      ensures total <= |buffer| && stream == old(stream) + buffer[..total]
      ensures used <= |outcomes| && Moves(outcomes[..used]) <= total == Min(|buffer|, Counts(outcomes[..used]))
      ensures r == Complete <==> total == |buffer|
      ensures r == Complete && buffer != [] ==> used > 0 && Counts(outcomes[..used - 1]) < |buffer|
      ensures r == Pending ==> used == |outcomes|
      ensures if r == Failed then used > 0 && outcomes[used - 1] == Broken && Broken !in outcomes[..used - 1] else Broken !in outcomes[..used]
      ensures Broken !in outcomes && Counts(outcomes) >= |buffer| ==> r == Complete
    {
      var length: nat := |buffer|;
      total, r, used := 0, Pending, 0;
      while length > 0 && used < |outcomes|
        invariant total <= |buffer| && length == |buffer| - total && used <= |outcomes|
        invariant r == Pending && stream == old(stream) + buffer[..total]
        invariant Broken !in outcomes[..used] && Moves(outcomes[..used]) <= total == Min(|buffer|, Counts(outcomes[..used]))
        invariant length == 0 && buffer != [] ==> used > 0 && Counts(outcomes[..used - 1]) < |buffer|
        decreases |outcomes| - used
      {
        assert outcomes[..used + 1][..used] == outcomes[..used];
        used := used + 1;
        match outcomes[used - 1] {
          case Moved(n) =>
            var count := if n <= length then n else length;
            stream := stream + buffer[total..total + count];
            assert buffer[..total + count] == buffer[..total] + buffer[total..total + count];
            length := length - count;
            total := total + count;
          case WouldBlock =>
          case Broken =>
            r := Failed;
            break;
        }
      }
      if length == 0 { r := Complete; }
      assert outcomes[..|outcomes|] == outcomes;
    }

    /** The buffer has the first `at` bytes of a stream at its front and is otherwise as it was. */
    ghost predicate Holds(buffer: array<Byte>, bs: seq<Byte>, at: nat, b0: seq<Byte>)
      requires at <= |bs| && at <= |b0| == buffer.Length
      reads buffer
    {
      forall k :: 0 <= k < buffer.Length ==> buffer[k] == if k < at then bs[k] else b0[k]
    }

    /**
     One call of `recv` that makes room for `left` bytes behind the first `at` of the buffer, and the
     tests of its result. `bs` and `b0`: what stream and buffer were when the first byte was asked for.
     */
    method Recv(buffer: array<Byte>, at: nat, left: nat, o: Transfer, ghost bs: seq<Byte>, ghost b0: seq<Byte>)
        returns (count: nat, stop: bool)
      requires at + left <= buffer.Length && at <= |bs| && stream == bs[at..]
      requires |b0| == buffer.Length && Holds(buffer, bs, at, b0)
      modifies this, buffer
      ensures count == if o.Moved? then Min(Min(o.n, left), |bs| - at) else 0
      ensures stream == bs[at + count..] && Holds(buffer, bs, at + count, b0)
      ensures stop <==> o != WouldBlock && count == 0
    {
      count, stop := 0, o.Broken?;
      if o.Moved? {
        count := Min(Min(o.n, left), |stream|);
        stop := count == 0;
        forall i | 0 <= i < count {
          buffer[at + i] := stream[i];
        }
        stream := stream[count..];
      }
    }

    /** Fills the first `length` bytes of the buffer; `outcomes` are the results of the successive calls of `recv`. */
    method ReadData(buffer: array<Byte>, length: nat, outcomes: seq<Transfer>) returns (r: Outcome, used: nat)
      requires length <= buffer.Length
      modifies this, buffer
      ensures Took(old(stream), stream, outcomes, used)
      ensures |old(stream)| - |stream| <= length && Holds(buffer, old(stream), |old(stream)| - |stream|, old(buffer[..]))
      ensures |old(stream)| - |stream| == Brought(length, |old(stream)|, outcomes[..used])
      ensures r == Complete <==> |old(stream)| - |stream| == length
      ensures r == Complete && length > 0 ==> used > 0 && Brought(length, |old(stream)|, outcomes[..used - 1]) < length
      ensures Excused(r, outcomes, used, |old(stream)| < length)
      ensures Flows(outcomes) && Counts(outcomes) >= length && |old(stream)| >= length ==> r == Complete
    {
      var left: nat, at: nat := length, 0;
      r, used := Pending, 0;
      ghost var s0, b0 := stream, buffer[..];
      while left > 0 && used < |outcomes|
        invariant at <= length && left == length - at && used <= |outcomes| && at <= |s0|
        invariant r == Pending && stream == s0[at..]
        invariant Holds(buffer, s0, at, b0)
        invariant GoneOn(length, |s0|, outcomes, used, at)
        decreases |outcomes| - used
      {
        var count, stop := Recv(buffer, at, left, outcomes[used], s0, b0);
        OneOutcome(length, |s0|, outcomes, used, at, count);
        if stop {
          r := Failed;
          break;
        }
        left := left - count;
        at := at + count;
        used := used + 1;
      }
      if left == 0 { r := Complete; }
      ReadEnds(s0, length, outcomes, used, at, r);
    }
  }
}
