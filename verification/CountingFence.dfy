/**
 The counting fence of the distributed RMA design (dm.c): every process counts the remote
 handler calls it makes per target and those it has processed, and a fence compares the two.
 */
module CountingFence {
  import opened Common

  /** The guard as printed joins the three conditions with "and"; the design notes ask for "or". */
  datatype Guard = Printed | Documented

  datatype Kind = Get | PutEager | PutLarge

  /**
   One remote operation. `handled`: its handler call has run at the target. `flagDone`: the call's
   completion flag at the origin is set. A get and a large put move their data in a message of
   their own, from a send at one end to a receive at the other, both made with `tag`. `sendDone`:
   the request of that send has completed. `taken`: some receive has got what it sent. `got`: the
   operation whose data the receive has got, when it has. Operations on one's own window are
   plain copies and take part in nothing here.
   */
  datatype Op = Op(kind: Kind, src: nat, target: nat, epoch: nat, tag: nat,
                   handled: bool, flagDone: bool, sendDone: bool, taken: bool, got: Option<nat>)

  datatype PC = Working | InAlltoall | Looping | InBarrier

  /** `fence`: how many fences the process has returned from. */
  datatype Proc = Proc(fence: nat, pc: PC, cnts: seq<nat>, processed: nat, reqs: int, flags: int, tag: nat,
                       contributed: seq<nat>, incoming: int)

  /** `sends` and `recvs`: the operations whose send or receive is posted and not yet matched, oldest first. */
  datatype State = State(procs: seq<Proc>, ops: seq<Op>, sends: seq<nat>, recvs: seq<nat>)

  datatype Step =
    | Issue(p: nat, kind: Kind, target: nat)
    | Handle(i: nat)
    | CompleteFlag(i: nat)
    | CompleteSend(i: nat)
    | Receive(m: nat, n: nat)
    | EnterFence(p: nat)
    | LeaveAlltoall(p: nat)
    | LeaveLoop(p: nat)
    | LeaveBarrier(p: nat)

  ghost function Init(np: nat): State {
    State(seq(np, _ => Proc(0, Working, seq(np, _ => 0), 0, 0, 0, 0, seq(np, _ => 0), 0)), [], [], [])
  }

  predicate Shape(s: State) {
    && (forall p :: 0 <= p < |s.procs| ==> |s.procs[p].cnts| == |s.procs[p].contributed| == |s.procs|)
    && (forall i :: 0 <= i < |s.ops| ==> s.ops[i].src < |s.procs| && s.ops[i].target < |s.procs|)
    && (forall m :: 0 <= m < |s.sends| ==> s.sends[m] < |s.ops|)
    && (forall n :: 0 <= n < |s.recvs| ==> s.recvs[n] < |s.ops|)
  }

  predicate HasData(o: Op) { !o.kind.PutEager? }

  // The data of a get goes from the target to the origin, that of a large put the other way. One
  // end posts its half of the transfer when the operation is called, the other in the handler.

  function Sender(o: Op): nat { if o.kind.Get? then o.target else o.src }
  function Receiver(o: Op): nat { if o.kind.Get? then o.src else o.target }
  predicate SendPosted(o: Op) { o.kind.PutLarge? || (o.kind.Get? && o.handled) }
  predicate RecvPosted(o: Op) { o.kind.Get? || (o.kind.PutLarge? && o.handled) }

  /** The request of the origin, and that of the target, has completed. */
  predicate OriginDone(o: Op) { if o.kind.Get? then o.got.Some? else o.sendDone }
  predicate TargetDone(o: Op) { if o.kind.Get? then o.sendDone else o.got.Some? }

  /** All that a send and a receive are matched by: the two processes and the tag. */
  predicate SameChannel(o: Op, o': Op) {
    HasData(o) && HasData(o') && Sender(o) == Sender(o') && Receiver(o) == Receiver(o') && o.tag == o'.tag
  }

  /** Nothing before position `at` of a list is on the channel of an operation. */
  predicate Oldest(s: State, list: seq<nat>, at: nat, o: Op)
    requires forall m :: 0 <= m < |list| ==> list[m] < |s.ops|
  {
    at < |list| && forall m :: 0 <= m < at ==> !SameChannel(s.ops[list[m]], o)
  }

  /** The process has called the collective operation that opens its fence number `n`. */
  predicate Entered(q: Proc, n: nat) {
    q.fence > n || (q.fence == n && q.pc != Working)
  }

  predicate AtBarrier(q: Proc, n: nat) {
    q.fence > n || (q.fence == n && q.pc == InBarrier)
  }

  predicate KeepsWaiting(g: Guard, q: Proc) {
    match g
    case Printed => q.processed < q.incoming && q.reqs > 0 && q.flags > 0
    case Documented => q.processed < q.incoming || q.reqs > 0 || q.flags > 0
  }

  predicate Enabled(g: Guard, s: State, a: Step)
    requires Shape(s)
  {
    match a
    case Issue(p, _, t) => p < |s.procs| && t < |s.procs| && t != p && s.procs[p].pc == Working
    case Handle(i) => i < |s.ops| && !s.ops[i].handled
    case CompleteFlag(i) => i < |s.ops| && !s.ops[i].flagDone
    case CompleteSend(i) => i < |s.ops| && SendPosted(s.ops[i]) && !s.ops[i].sendDone
    case Receive(m, n) =>
      && m < |s.sends| && n < |s.recvs|
      && SameChannel(s.ops[s.sends[m]], s.ops[s.recvs[n]])
      && Oldest(s, s.sends, m, s.ops[s.sends[m]]) && Oldest(s, s.recvs, n, s.ops[s.recvs[n]])
    case EnterFence(p) => p < |s.procs| && s.procs[p].pc == Working
    case LeaveAlltoall(p) =>
      p < |s.procs| && s.procs[p].pc == InAlltoall && forall q :: 0 <= q < |s.procs| ==> Entered(s.procs[q], s.procs[p].fence)
    case LeaveLoop(p) => p < |s.procs| && s.procs[p].pc == Looping && !KeepsWaiting(g, s.procs[p])
    case LeaveBarrier(p) =>
      p < |s.procs| && s.procs[p].pc == InBarrier && forall q :: 0 <= q < |s.procs| ==> AtBarrier(s.procs[q], s.procs[p].fence)
  }

  function WithProc(s: State, p: nat, q: Proc): State
    requires p < |s.procs|
  {
    s.(procs := s.procs[p := q])
  }

  function Without(list: seq<nat>, at: nat): (r: seq<nat>)
    requires at < |list|
    ensures |r| == |list| - 1 && forall k :: 0 <= k < |r| ==> r[k] == list[if k < at then k else k + 1]
  {
    list[..at] + list[at + 1..]
  }

  function Transferred(o: Op, i: nat, x: nat, y: nat): Op {
    var sent := if i == x then o.(taken := true) else o;
    if i == y then sent.(got := Some(x)) else sent
  }

  /** Operation `y` has got what operation `x` sent. */
  function Delivered(ops: seq<Op>, x: nat, y: nat): (r: seq<Op>)
    requires x < |ops| && y < |ops|
    ensures |r| == |ops| && forall i :: 0 <= i < |ops| ==> r[i] == Transferred(ops[i], i, x, y)
  {
    var sent := ops[x := ops[x].(taken := true)];
    sent[y := sent[y].(got := Some(x))]
  }

  /** Column `p` of the contributed counts: what the all-to-all exchange delivers to process `p`. */
  function Column(s: State, p: nat): seq<int>
    requires Shape(s) && p < |s.procs|
  {
    seq(|s.procs|, q requires 0 <= q < |s.procs| => s.procs[q].contributed[p])
  }

  /** `MPID_Get` and `MPID_Put` on another process. */
  function Issued(s: State, p: nat, kind: Kind, t: nat): (s': State)
    requires Shape(s) && p < |s.procs| && t < |s.procs|
    ensures Shape(s') && |s'.procs| == |s.procs|
  {
    var q := s.procs[p];
    var o := Op(kind, p, t, q.fence, q.tag, false, false, false, false, None);
    var data := if HasData(o) then 1 else 0;
    WithProc(s, p, q.(cnts := q.cnts[t := q.cnts[t] + 1], flags := q.flags + 1, reqs := q.reqs + data, tag := q.tag + data))
      .(ops := s.ops + [o],
        sends := if SendPosted(o) then s.sends + [|s.ops|] else s.sends,
        recvs := if RecvPosted(o) then s.recvs + [|s.ops|] else s.recvs)
  }

  /** The three handlers. */
  function Ran(s: State, i: nat): (s': State)
    requires Shape(s) && i < |s.ops|
    ensures Shape(s') && |s'.procs| == |s.procs|
  {
    var o := s.ops[i];
    var q := s.procs[o.target];
    WithProc(s, o.target, q.(processed := q.processed + 1, reqs := q.reqs + if HasData(o) then 1 else 0))
      .(ops := s.ops[i := o.(handled := true)],
        sends := if o.kind.Get? then s.sends + [i] else s.sends,
        recvs := if o.kind.PutLarge? then s.recvs + [i] else s.recvs)
  }

  /** A message arrives: a receive gets what a send has sent, and its request completes. */
  function Matched(s: State, m: nat, n: nat): (s': State)
    requires Shape(s) && m < |s.sends| && n < |s.recvs|
    ensures Shape(s') && |s'.procs| == |s.procs|
  {
    var r := Receiver(s.ops[s.recvs[n]]);
    var q := s.procs[r];
    WithProc(s, r, q.(reqs := q.reqs - 1))
      .(ops := Delivered(s.ops, s.sends[m], s.recvs[n]), sends := Without(s.sends, m), recvs := Without(s.recvs, n))
  }

  function Apply(g: Guard, s: State, a: Step): (s': State)
    requires Shape(s) && Enabled(g, s, a)
    ensures Shape(s') && |s'.procs| == |s.procs|
  {
    match a
    case Issue(p, kind, t) => Issued(s, p, kind, t)
    case Handle(i) => Ran(s, i)
    case CompleteFlag(i) =>
      var o := s.ops[i];
      var q := s.procs[o.src];
      WithProc(s, o.src, q.(flags := q.flags - 1)).(ops := s.ops[i := o.(flagDone := true)])
    case CompleteSend(i) =>
      var o := s.ops[i];
      var q := s.procs[Sender(o)];
      WithProc(s, Sender(o), q.(reqs := q.reqs - 1)).(ops := s.ops[i := o.(sendDone := true)])
    case Receive(m, n) => Matched(s, m, n)
    case EnterFence(p) =>
      var q := s.procs[p];
      WithProc(s, p, q.(pc := InAlltoall, contributed := q.cnts))
    case LeaveAlltoall(p) =>
      WithProc(s, p, s.procs[p].(pc := Looping, incoming := Sum(Column(s, p))))
    case LeaveLoop(p) =>
      var q := s.procs[p];
      WithProc(s, p, q.(pc := InBarrier, cnts := seq(|q.cnts|, _ => 0), processed := 0, tag := 0))
    case LeaveBarrier(p) =>
      var q := s.procs[p];
      WithProc(s, p, q.(pc := Working, fence := q.fence + 1))
  }

  ghost predicate Next(g: Guard, s: State, s': State) {
    Shape(s) && exists a :: Enabled(g, s, a) && s' == Apply(g, s, a)
  }

  /** A finite run that starts in `from`. */
  ghost predicate RunFrom(g: Guard, from: State, run: seq<State>) {
    |run| >= 1 && if |run| == 1 then run == [from] else RunFrom(g, from, run[..|run| - 1]) && Next(g, run[|run| - 2], run[|run| - 1])
  }

  ghost predicate ReachableFrom(g: Guard, from: State, s: State) {
    exists run :: RunFrom(g, from, run) && run[|run| - 1] == s
  }

  ghost predicate Reachable(g: Guard, np: nat, s: State) {
    ReachableFrom(g, Init(np), s)
  }

  /** Nothing of the operation is still open: its call, its flag, and the requests at both ends. */
  predicate Closed(o: Op) {
    o.handled && o.flagDone && (HasData(o) ==> o.sendDone && o.got.Some?)
  }

  /** The operation has had its effect on the memory it writes: its receive has got its own data. */
  predicate TookEffect(ops: seq<Op>, i: nat)
    requires i < |ops|
  {
    if HasData(ops[i]) then ops[i].got == Some(i) else ops[i].handled
  }

  // ------------------------------------------------------------------- counting operations

  function Count(ops: seq<Op>, f: Op -> bool): nat {
    if ops == [] then 0 else Count(ops[..|ops| - 1], f) + if f(ops[|ops| - 1]) then 1 else 0
  }

  lemma CountAppend(ops: seq<Op>, o: Op, f: Op -> bool)
    ensures Count(ops + [o], f) == Count(ops, f) + if f(o) then 1 else 0
  {
    assert (ops + [o])[..|ops + [o]| - 1] == ops;
  }

  lemma {:induction false} CountReplace(ops: seq<Op>, i: nat, o: Op, f: Op -> bool)
    requires i < |ops|
    ensures Count(ops[i := o], f) == Count(ops, f) - (if f(ops[i]) then 1 else 0) + if f(o) then 1 else 0
    decreases |ops|
  {
    var m := |ops| - 1;
    if i == m {
      assert ops[i := o][..m] == ops[..m];
    } else {
      assert ops[i := o][..m] == ops[..m][i := o];
      CountReplace(ops[..m], i, o, f);
    }
  }

  /** When the finer condition counts as many as the coarser, the coarser implies the finer. */
  lemma {:induction false} CountAll(ops: seq<Op>, fine: Op -> bool, coarse: Op -> bool)
    requires forall o :: fine(o) ==> coarse(o)
    ensures Count(ops, fine) <= Count(ops, coarse)
    ensures Count(ops, fine) == Count(ops, coarse) ==> forall i :: 0 <= i < |ops| && coarse(ops[i]) ==> fine(ops[i])
    decreases |ops|
  {
    if ops != [] {
      CountAll(ops[..|ops| - 1], fine, coarse);
      assert forall i :: 0 <= i < |ops| - 1 ==> ops[..|ops| - 1][i] == ops[i];
    }
  }

  lemma {:induction false} CountNone(ops: seq<Op>, f: Op -> bool)
    ensures Count(ops, f) == 0 <==> forall i :: 0 <= i < |ops| ==> !f(ops[i])
    decreases |ops|
  {
    if ops != [] {
      CountNone(ops[..|ops| - 1], f);
      assert forall i :: 0 <= i < |ops| - 1 ==> ops[..|ops| - 1][i] == ops[i];
    }
  }

  lemma {:induction false} CountSplit(ops: seq<Op>, f: Op -> bool, f1: Op -> bool, f2: Op -> bool)
    requires forall o :: f(o) <==> f1(o) || f2(o)
    requires forall o :: !(f1(o) && f2(o))
    ensures Count(ops, f) == Count(ops, f1) + Count(ops, f2)
    decreases |ops|
  {
    if ops != [] { CountSplit(ops[..|ops| - 1], f, f1, f2); }
  }

  function Handled(t: nat, e: nat): Op -> bool { (o: Op) => o.handled && o.target == t && o.epoch == e }
  function InFlight(t: nat, e: nat): Op -> bool { (o: Op) => !o.handled && o.target == t && o.epoch == e }
  function To(t: nat, e: nat): Op -> bool { (o: Op) => o.target == t && o.epoch == e }
  function FromTo(p: nat, t: nat, e: nat): Op -> bool { (o: Op) => o.src == p && o.target == t && o.epoch == e }
  function OriginPending(p: nat): Op -> bool { (o: Op) => HasData(o) && !OriginDone(o) && o.src == p }
  function TargetPending(p: nat): Op -> bool { (o: Op) => HasData(o) && o.handled && !TargetDone(o) && o.target == p }
  function Unflagged(p: nat): Op -> bool { (o: Op) => !o.flagDone && o.src == p }

  function PerSource(ops: seq<Op>, np: nat, t: nat, e: nat): seq<int> {
    seq(np, p requires 0 <= p < np => Count(ops, FromTo(p, t, e)))
  }

  lemma {:induction false} SumOverSources(ops: seq<Op>, np: nat, t: nat, e: nat)
    requires forall i :: 0 <= i < |ops| ==> ops[i].src < np
    ensures Sum(PerSource(ops, np, t, e)) == Count(ops, To(t, e))
    decreases |ops|
  {
    if ops == [] {
      SumOfZeros(PerSource(ops, np, t, e));
    } else {
      var front, o := ops[..|ops| - 1], ops[|ops| - 1];
      SumOverSources(front, np, t, e);
      var before := PerSource(front, np, t, e);
      var v := before[o.src] + if To(t, e)(o) then 1 else 0;
      assert PerSource(ops, np, t, e) == before[o.src := v];
      SumUpdate(before, o.src, v);
    }
  }

  // ------------------------------------------------------------------- the invariant

  /** The epoch that a process's counters belong to: the next one as soon as they are cleared. */
  function CounterEpoch(q: Proc): nat {
    if q.pc == InBarrier then q.fence + 1 else q.fence
  }

  ghost predicate OpOk(s: State, o: Op)
    requires o.src < |s.procs|
  {
    && o.epoch <= s.procs[o.src].fence && o.src != o.target
    && (HasData(o) && TargetDone(o) ==> o.handled)
    && (o.taken || o.sendDone ==> SendPosted(o))
  }

  /** What is in the two lists is posted and not yet matched. */
  ghost predicate ListsOk(s: State)
    requires Shape(s)
  {
    && (forall m :: 0 <= m < |s.sends| ==> SendPosted(s.ops[s.sends[m]]) && !s.ops[s.sends[m]].taken)
    && (forall n :: 0 <= n < |s.recvs| ==> RecvPosted(s.ops[s.recvs[n]]) && s.ops[s.recvs[n]].got.None?)
    && (forall m, m' :: 0 <= m < m' < |s.sends| ==> s.sends[m] != s.sends[m'])
    && (forall n, n' :: 0 <= n < n' < |s.recvs| ==> s.recvs[n] != s.recvs[n'])
  }

  /** What a process has counted, contributed and been told about calls. */
  ghost predicate CallsOk(s: State, p: nat)
    requires Shape(s) && p < |s.procs|
  {
    var q := s.procs[p];
    && (forall t :: 0 <= t < |s.procs| ==> q.cnts[t] == Count(s.ops, FromTo(p, t, CounterEpoch(q))))
    && (q.pc != Working ==> forall t :: 0 <= t < |s.procs| ==> q.contributed[t] == Count(s.ops, FromTo(p, t, q.fence)))
    && (q.pc == Looping ==> q.incoming == Count(s.ops, To(p, q.fence)))
  }

  /** Its open requests and flags. */
  ghost predicate OpenOk(s: State, p: nat)
    requires p < |s.procs|
  {
    && s.procs[p].reqs == Count(s.ops, OriginPending(p)) + Count(s.ops, TargetPending(p))
    && s.procs[p].flags == Count(s.ops, Unflagged(p))
  }

  ghost predicate CountersOk(s: State, p: nat)
    requires Shape(s) && p < |s.procs|
  {
    CallsOk(s, p) && OpenOk(s, p)
  }

  /** With the printed guard late calls of earlier epochs are counted too, so this is exact only at first. */
  ghost predicate ProcessedOk(g: Guard, s: State, p: nat)
    requires p < |s.procs|
  {
    var q := s.procs[p];
    && q.processed >= Count(s.ops, Handled(p, CounterEpoch(q)))
    && (g.Documented? || CounterEpoch(q) == 0 ==> q.processed == Count(s.ops, Handled(p, CounterEpoch(q))))
  }

  /** Processes are at most one fence apart, and a lagging one waits at the barrier. */
  ghost predicate InStep(s: State) {
    && (forall p, q :: 0 <= p < |s.procs| && 0 <= q < |s.procs| ==>
          s.procs[q].fence <= s.procs[p].fence || (s.procs[q].fence == s.procs[p].fence + 1 && s.procs[p].pc == InBarrier))
    && (forall p, q :: 0 <= p < |s.procs| && 0 <= q < |s.procs| && (s.procs[p].pc == Looping || s.procs[p].pc == InBarrier) ==>
          Entered(s.procs[q], s.procs[p].fence))
  }

  /** What processes that have left their loop may rely on, for operations of the epoch they closed. */
  ghost predicate Settled(s: State, o: Op)
    requires o.src < |s.procs| && o.target < |s.procs|
  {
    && (o.epoch < CounterEpoch(s.procs[o.target]) ==> o.handled && (HasData(o) ==> TargetDone(o)))
    && (o.epoch < CounterEpoch(s.procs[o.src]) ==> o.flagDone && (HasData(o) ==> OriginDone(o)))
  }

  ghost predicate Inv(g: Guard, s: State) {
    && Shape(s) && InStep(s) && ListsOk(s)
    && (forall i :: 0 <= i < |s.ops| ==> OpOk(s, s.ops[i]))
    && (forall p :: 0 <= p < |s.procs| ==> CountersOk(s, p) && ProcessedOk(g, s, p))
    && (g.Documented? ==> forall i :: 0 <= i < |s.ops| ==> Settled(s, s.ops[i]))
  }

  lemma InitInv(g: Guard, np: nat)
    ensures Inv(g, Init(np))
  {
  }

  /** How the counts that matter to process `r` change when an operation is added. */
  lemma CountsAfterIssue(ops: seq<Op>, o: Op, r: nat, e: nat)
    ensures Count(ops + [o], Handled(r, e)) == Count(ops, Handled(r, e)) + if Handled(r, e)(o) then 1 else 0
    ensures Count(ops + [o], OriginPending(r)) == Count(ops, OriginPending(r)) + if OriginPending(r)(o) then 1 else 0
    ensures Count(ops + [o], TargetPending(r)) == Count(ops, TargetPending(r)) + if TargetPending(r)(o) then 1 else 0
    ensures Count(ops + [o], Unflagged(r)) == Count(ops, Unflagged(r)) + if Unflagged(r)(o) then 1 else 0
    ensures Count(ops + [o], To(r, e)) == Count(ops, To(r, e)) + if To(r, e)(o) then 1 else 0
    ensures forall u :: Count(ops + [o], FromTo(r, u, e)) == Count(ops, FromTo(r, u, e)) + if FromTo(r, u, e)(o) then 1 else 0
  {
    CountAppend(ops, o, Handled(r, e));
    CountAppend(ops, o, OriginPending(r));
    CountAppend(ops, o, TargetPending(r));
    CountAppend(ops, o, Unflagged(r));
    CountAppend(ops, o, To(r, e));
    forall u
      ensures Count(ops + [o], FromTo(r, u, e)) == Count(ops, FromTo(r, u, e)) + if FromTo(r, u, e)(o) then 1 else 0
    {
      CountAppend(ops, o, FromTo(r, u, e));
    }
  }

  /** And when one advances without changing its two ends and its epoch. */
  lemma CountsAfterAdvance(ops: seq<Op>, i: nat, o: Op, r: nat, e: nat)
    requires i < |ops|
    ensures var f := Handled(r, e); Count(ops[i := o], f) == Count(ops, f) - (if f(ops[i]) then 1 else 0) + if f(o) then 1 else 0
    ensures var f := OriginPending(r); Count(ops[i := o], f) == Count(ops, f) - (if f(ops[i]) then 1 else 0) + if f(o) then 1 else 0
    ensures var f := TargetPending(r); Count(ops[i := o], f) == Count(ops, f) - (if f(ops[i]) then 1 else 0) + if f(o) then 1 else 0
    ensures var f := Unflagged(r); Count(ops[i := o], f) == Count(ops, f) - (if f(ops[i]) then 1 else 0) + if f(o) then 1 else 0
  {
    CountReplace(ops, i, o, Handled(r, e));
    CountReplace(ops, i, o, OriginPending(r));
    CountReplace(ops, i, o, TargetPending(r));
    CountReplace(ops, i, o, Unflagged(r));
  }

  lemma SameEndsSameCalls(ops: seq<Op>, i: nat, o: Op, r: nat, e: nat)
    requires i < |ops| && o.src == ops[i].src && o.target == ops[i].target && o.epoch == ops[i].epoch
    ensures Count(ops[i := o], To(r, e)) == Count(ops, To(r, e))
    ensures forall u :: Count(ops[i := o], FromTo(r, u, e)) == Count(ops, FromTo(r, u, e))
  {
    CountReplace(ops, i, o, To(r, e));
    forall u
      ensures Count(ops[i := o], FromTo(r, u, e)) == Count(ops, FromTo(r, u, e))
    {
      CountReplace(ops, i, o, FromTo(r, u, e));
    }
  }

  lemma IssueCounters(g: Guard, s: State, p: nat, kind: Kind, t: nat, r: nat)
    requires Inv(g, s) && Enabled(g, s, Issue(p, kind, t)) && r < |s.procs|
    ensures CountersOk(Apply(g, s, Issue(p, kind, t)), r) && ProcessedOk(g, Apply(g, s, Issue(p, kind, t)), r)
  {
    var o := Apply(g, s, Issue(p, kind, t)).ops[|s.ops|];
    assert CountersOk(s, r) && ProcessedOk(g, s, r);
    CountsAfterIssue(s.ops, o, r, CounterEpoch(s.procs[r]));
    CountsAfterIssue(s.ops, o, r, s.procs[r].fence);
    if s.procs[r].pc == Looping || s.procs[r].pc == InBarrier {
      assert Entered(s.procs[p], s.procs[r].fence);
    }
  }

  lemma IssueOps(g: Guard, s: State, p: nat, kind: Kind, t: nat, i: nat)
    requires Inv(g, s) && Enabled(g, s, Issue(p, kind, t)) && i <= |s.ops|
    ensures var s' := Apply(g, s, Issue(p, kind, t)); OpOk(s', s'.ops[i]) && (g.Documented? ==> Settled(s', s'.ops[i]))
  {
    if i < |s.ops| {
      assert OpOk(s, s.ops[i]);
    } else {
      assert s.procs[t].pc == InBarrier ==> Entered(s.procs[p], s.procs[t].fence);
    }
  }

  lemma IssueLists(g: Guard, s: State, p: nat, kind: Kind, t: nat)
    requires Shape(s) && ListsOk(s) && Enabled(g, s, Issue(p, kind, t))
    ensures ListsOk(Apply(g, s, Issue(p, kind, t)))
  {
  }

  lemma IssueInStep(g: Guard, s: State, p: nat, kind: Kind, t: nat)
    requires Shape(s) && InStep(s) && Enabled(g, s, Issue(p, kind, t))
    ensures InStep(Apply(g, s, Issue(p, kind, t)))
  {
    assert SameStanding(s, Apply(g, s, Issue(p, kind, t)));
  }

  lemma IssueInv(g: Guard, s: State, p: nat, kind: Kind, t: nat)
    requires Inv(g, s) && Enabled(g, s, Issue(p, kind, t))
    ensures Inv(g, Apply(g, s, Issue(p, kind, t)))
  {
    var s' := Apply(g, s, Issue(p, kind, t));
    IssueLists(g, s, p, kind, t);
    IssueInStep(g, s, p, kind, t);
    forall r | 0 <= r < |s.procs|
      ensures CountersOk(s', r) && ProcessedOk(g, s', r)
    {
      IssueCounters(g, s, p, kind, t, r);
    }
    forall i | 0 <= i < |s'.ops|
      ensures OpOk(s', s'.ops[i]) && (g.Documented? ==> Settled(s', s'.ops[i]))
    {
      IssueOps(g, s, p, kind, t, i);
    }
  }

  /** Steps of single operations, made by no process's own program. */
  predicate Advances(a: Step) {
    a.Handle? || a.CompleteFlag? || a.CompleteSend? || a.Receive?
  }

  /** A call is never counted after the counters of its epoch have been cleared. */
  lemma CountedInItsEpoch(g: Guard, s: State, i: nat)
    requires Inv(g, s) && i < |s.ops| && !s.ops[i].handled
    ensures s.ops[i].epoch <= CounterEpoch(s.procs[s.ops[i].target])
    ensures g.Documented? ==> s.ops[i].epoch == CounterEpoch(s.procs[s.ops[i].target])
  {
    assert OpOk(s, s.ops[i]);
  }

  lemma AdvanceSameCalls(g: Guard, s: State, a: Step, r: nat, e: nat)
    requires Shape(s) && Enabled(g, s, a) && Advances(a)
    ensures var ops' := Apply(g, s, a).ops;
            Count(ops', To(r, e)) == Count(s.ops, To(r, e)) && forall u :: Count(ops', FromTo(r, u, e)) == Count(s.ops, FromTo(r, u, e))
  {
    var ops' := Apply(g, s, a).ops;
    if a.Receive? {
      var x, y := s.sends[a.m], s.recvs[a.n];
      var sent := s.ops[x := s.ops[x].(taken := true)];
      SameEndsSameCalls(s.ops, x, sent[x], r, e);
      SameEndsSameCalls(sent, y, ops'[y], r, e);
    } else {
      SameEndsSameCalls(s.ops, a.i, ops'[a.i], r, e);
    }
  }

  lemma AdvanceSameCounters(g: Guard, s: State, a: Step, r: nat)
    requires Shape(s) && Enabled(g, s, a) && Advances(a) && r < |s.procs|
    ensures var q, q' := s.procs[r], Apply(g, s, a).procs[r];
            q'.cnts == q.cnts && q'.contributed == q.contributed && q'.incoming == q.incoming && q'.pc == q.pc && q'.fence == q.fence
  {
  }

  lemma AdvanceCalls(g: Guard, s: State, a: Step, r: nat)
    requires Shape(s) && Enabled(g, s, a) && Advances(a) && r < |s.procs| && CallsOk(s, r)
    ensures CallsOk(Apply(g, s, a), r)
  {
    AdvanceSameCounters(g, s, a, r);
    AdvanceSameCalls(g, s, a, r, CounterEpoch(s.procs[r]));
    AdvanceSameCalls(g, s, a, r, s.procs[r].fence);
  }

  lemma HandleCounters(g: Guard, s: State, i: nat, r: nat)
    requires Shape(s) && Enabled(g, s, Handle(i)) && r < |s.procs| && OpenOk(s, r) && ProcessedOk(g, s, r)
    requires OpOk(s, s.ops[i])
    requires s.ops[i].epoch <= CounterEpoch(s.procs[s.ops[i].target])
    requires g.Documented? ==> s.ops[i].epoch == CounterEpoch(s.procs[s.ops[i].target])
    ensures OpenOk(Apply(g, s, Handle(i)), r) && ProcessedOk(g, Apply(g, s, Handle(i)), r)
  {
    CountsAfterAdvance(s.ops, i, Apply(g, s, Handle(i)).ops[i], r, CounterEpoch(s.procs[r]));
  }

  lemma FlagCounters(g: Guard, s: State, i: nat, r: nat)
    requires Shape(s) && Enabled(g, s, CompleteFlag(i)) && r < |s.procs| && OpenOk(s, r) && ProcessedOk(g, s, r)
    ensures OpenOk(Apply(g, s, CompleteFlag(i)), r) && ProcessedOk(g, Apply(g, s, CompleteFlag(i)), r)
  {
    CountsAfterAdvance(s.ops, i, Apply(g, s, CompleteFlag(i)).ops[i], r, CounterEpoch(s.procs[r]));
  }

  /** A completed send changes the counts of open requests by that one. */
  lemma SendingCounts(ops: seq<Op>, i: nat, r: nat, e: nat)
    requires i < |ops| && SendPosted(ops[i]) && !ops[i].sendDone && ops[i].src != ops[i].target
    ensures var ops' := ops[i := ops[i].(sendDone := true)];
            && Count(ops', Handled(r, e)) == Count(ops, Handled(r, e)) && Count(ops', Unflagged(r)) == Count(ops, Unflagged(r))
            && Count(ops', OriginPending(r)) + Count(ops', TargetPending(r))
               == Count(ops, OriginPending(r)) + Count(ops, TargetPending(r)) - if Sender(ops[i]) == r then 1 else 0
  {
    CountsAfterAdvance(ops, i, ops[i].(sendDone := true), r, e);
  }

  lemma SendCounters(g: Guard, s: State, i: nat, r: nat)
    requires Shape(s) && Enabled(g, s, CompleteSend(i)) && r < |s.procs| && OpenOk(s, r) && ProcessedOk(g, s, r)
    requires OpOk(s, s.ops[i])
    ensures OpenOk(Apply(g, s, CompleteSend(i)), r) && ProcessedOk(g, Apply(g, s, CompleteSend(i)), r)
  {
    SendingCounts(s.ops, i, r, CounterEpoch(s.procs[r]));
  }

  lemma TakingCountsNothing(ops: seq<Op>, x: nat, r: nat, e: nat)
    requires x < |ops|
    ensures var sent := ops[x := ops[x].(taken := true)];
            && Count(sent, Handled(r, e)) == Count(ops, Handled(r, e)) && Count(sent, Unflagged(r)) == Count(ops, Unflagged(r))
            && Count(sent, OriginPending(r)) == Count(ops, OriginPending(r))
            && Count(sent, TargetPending(r)) == Count(ops, TargetPending(r))
  {
    CountsAfterAdvance(ops, x, ops[x].(taken := true), r, e);
  }

  /** Getting data changes the counts of open requests by the receive that completes. */
  lemma GettingCounts(ops: seq<Op>, y: nat, v: nat, r: nat, e: nat)
    requires y < |ops| && HasData(ops[y]) && RecvPosted(ops[y]) && ops[y].got.None? && ops[y].src != ops[y].target
    ensures var ops' := ops[y := ops[y].(got := Some(v))];
            && Count(ops', Handled(r, e)) == Count(ops, Handled(r, e)) && Count(ops', Unflagged(r)) == Count(ops, Unflagged(r))
            && Count(ops', OriginPending(r)) + Count(ops', TargetPending(r))
               == Count(ops, OriginPending(r)) + Count(ops, TargetPending(r)) - if Receiver(ops[y]) == r then 1 else 0
  {
    CountsAfterAdvance(ops, y, ops[y].(got := Some(v)), r, e);
  }

  lemma CountsAfterDelivery(ops: seq<Op>, x: nat, y: nat, r: nat, e: nat)
    requires x < |ops| && y < |ops| && HasData(ops[y]) && RecvPosted(ops[y]) && ops[y].got.None? && ops[y].src != ops[y].target
    ensures var ops' := Delivered(ops, x, y);
            && Count(ops', Handled(r, e)) == Count(ops, Handled(r, e)) && Count(ops', Unflagged(r)) == Count(ops, Unflagged(r))
            && Count(ops', OriginPending(r)) + Count(ops', TargetPending(r))
               == Count(ops, OriginPending(r)) + Count(ops, TargetPending(r)) - if Receiver(ops[y]) == r then 1 else 0
  {
    TakingCountsNothing(ops, x, r, e);
    GettingCounts(ops[x := ops[x].(taken := true)], y, x, r, e);
  }

  lemma ReceiveCounters(g: Guard, s: State, m: nat, n: nat, r: nat)
    requires Shape(s) && m < |s.sends| && n < |s.recvs| && r < |s.procs| && OpenOk(s, r) && ProcessedOk(g, s, r)
    requires OpOk(s, s.ops[s.recvs[n]]) && HasData(s.ops[s.recvs[n]])
    requires RecvPosted(s.ops[s.recvs[n]]) && s.ops[s.recvs[n]].got.None?
    ensures OpenOk(Matched(s, m, n), r) && ProcessedOk(g, Matched(s, m, n), r)
  {
    CountsAfterDelivery(s.ops, s.sends[m], s.recvs[n], r, CounterEpoch(s.procs[r]));
  }

  lemma AdvanceCounters(g: Guard, s: State, a: Step, r: nat)
    requires Inv(g, s) && Enabled(g, s, a) && Advances(a) && r < |s.procs|
    ensures CountersOk(Apply(g, s, a), r) && ProcessedOk(g, Apply(g, s, a), r)
  {
    assert CountersOk(s, r) && ProcessedOk(g, s, r);
    AdvanceCalls(g, s, a, r);
    match a
    case Handle(i) =>
      CountedInItsEpoch(g, s, i);
      assert OpOk(s, s.ops[i]);
      HandleCounters(g, s, i, r);
    case CompleteFlag(i) => FlagCounters(g, s, i, r);
    case CompleteSend(i) =>
      assert OpOk(s, s.ops[i]);
      SendCounters(g, s, i, r);
    case Receive(m, n) =>
      assert OpOk(s, s.ops[s.recvs[n]]);
      ReceiveCounters(g, s, m, n, r);
  }

  /** An operation keeps its kind, its ends, its epoch and its tag, and what is done stays done. */
  predicate Follows(o: Op, o': Op) {
    && o'.kind == o.kind && o'.src == o.src && o'.target == o.target && o'.epoch == o.epoch && o'.tag == o.tag
    && (o.handled ==> o'.handled) && (o.flagDone ==> o'.flagDone) && (o.sendDone ==> o'.sendDone) && (o.taken ==> o'.taken)
    && (o.got.Some? ==> o'.got == o.got)
  }

  lemma AdvanceFollows(g: Guard, s: State, a: Step, i: nat)
    requires Shape(s) && ListsOk(s) && Enabled(g, s, a) && Advances(a) && i < |s.ops|
    ensures |Apply(g, s, a).ops| == |s.ops| && Follows(s.ops[i], Apply(g, s, a).ops[i])
  {
  }

  lemma AdvanceOps(g: Guard, s: State, a: Step, i: nat)
    requires Shape(s) && ListsOk(s) && Enabled(g, s, a) && Advances(a) && i < |s.ops| && OpOk(s, s.ops[i])
    requires g.Documented? ==> Settled(s, s.ops[i])
    ensures var s' := Apply(g, s, a); OpOk(s', s'.ops[i]) && (g.Documented? ==> Settled(s', s'.ops[i]))
  {
    AdvanceFollows(g, s, a, i);
  }

  lemma ReceiveLists(g: Guard, s: State, m: nat, n: nat)
    requires Shape(s) && ListsOk(s) && Enabled(g, s, Receive(m, n))
    ensures ListsOk(Apply(g, s, Receive(m, n)))
  {
  }

  lemma HandleLists(g: Guard, s: State, i: nat)
    requires Shape(s) && ListsOk(s) && Enabled(g, s, Handle(i)) && OpOk(s, s.ops[i])
    ensures ListsOk(Apply(g, s, Handle(i)))
  {
    var s' := Apply(g, s, Handle(i));
    assert forall k :: 0 <= k < |s.sends| ==> s'.sends[k] == s.sends[k];
    assert forall k :: 0 <= k < |s.recvs| ==> s'.recvs[k] == s.recvs[k];
  }

  lemma AdvanceLists(g: Guard, s: State, a: Step)
    requires Inv(g, s) && Enabled(g, s, a) && Advances(a)
    ensures ListsOk(Apply(g, s, a))
  {
    match a
    case Receive(m, n) => ReceiveLists(g, s, m, n);
    case Handle(i) =>
      assert OpOk(s, s.ops[i]);
      HandleLists(g, s, i);
    case _ =>
  }

  /** The part of a process that decides where it stands relative to the others. */
  predicate SameStanding(s: State, s': State) {
    |s'.procs| == |s.procs| && forall p :: 0 <= p < |s.procs| ==> s'.procs[p].fence == s.procs[p].fence && s'.procs[p].pc == s.procs[p].pc
  }

  lemma AdvanceInStep(g: Guard, s: State, a: Step)
    requires Shape(s) && InStep(s) && Enabled(g, s, a) && Advances(a)
    ensures SameStanding(s, Apply(g, s, a)) && InStep(Apply(g, s, a))
  {
    assert SameStanding(s, Apply(g, s, a));
  }

  lemma AdvanceAllCounters(g: Guard, s: State, a: Step)
    requires Inv(g, s) && Enabled(g, s, a) && Advances(a)
    ensures forall r :: 0 <= r < |s.procs| ==> CountersOk(Apply(g, s, a), r) && ProcessedOk(g, Apply(g, s, a), r)
  {
    forall r | 0 <= r < |s.procs|
      ensures CountersOk(Apply(g, s, a), r) && ProcessedOk(g, Apply(g, s, a), r)
    {
      AdvanceCounters(g, s, a, r);
    }
  }

  lemma AdvanceAllOps(g: Guard, s: State, a: Step)
    requires Inv(g, s) && Enabled(g, s, a) && Advances(a)
    ensures var s' := Apply(g, s, a);
            forall i :: 0 <= i < |s'.ops| ==> OpOk(s', s'.ops[i]) && (g.Documented? ==> Settled(s', s'.ops[i]))
  {
    var s' := Apply(g, s, a);
    forall i | 0 <= i < |s'.ops|
      ensures OpOk(s', s'.ops[i]) && (g.Documented? ==> Settled(s', s'.ops[i]))
    {
      AdvanceOps(g, s, a, i);
    }
  }

  lemma AdvanceInv(g: Guard, s: State, a: Step)
    requires Inv(g, s) && Enabled(g, s, a) && Advances(a)
    ensures Inv(g, Apply(g, s, a))
  {
    AdvanceInStep(g, s, a);
    AdvanceLists(g, s, a);
    AdvanceAllCounters(g, s, a);
    AdvanceAllOps(g, s, a);
  }

  /** Entering the fence and leaving the barrier touch no counter and no operation. */
  lemma EnterFenceInv(g: Guard, s: State, p: nat)
    requires Inv(g, s) && Enabled(g, s, EnterFence(p))
    ensures Inv(g, Apply(g, s, EnterFence(p)))
  {
    CountersUntouched(g, s, Apply(g, s, EnterFence(p)));
  }

  lemma LeaveBarrierInStep(g: Guard, s: State, p: nat)
    requires Inv(g, s) && Enabled(g, s, LeaveBarrier(p))
    ensures InStep(Apply(g, s, LeaveBarrier(p)))
  {
  }

  lemma LeaveBarrierInv(g: Guard, s: State, p: nat)
    requires Inv(g, s) && Enabled(g, s, LeaveBarrier(p))
    ensures Inv(g, Apply(g, s, LeaveBarrier(p)))
  {
    LeaveBarrierInStep(g, s, p);
    CountersUntouched(g, s, Apply(g, s, LeaveBarrier(p)));
  }

  /** Same operations, same counters, same epochs to count for. */
  lemma CountersUntouched(g: Guard, s: State, s': State)
    requires Inv(g, s) && Shape(s') && s'.ops == s.ops && |s'.procs| == |s.procs|
    requires forall r :: 0 <= r < |s.procs| ==>
      var q, q' := s.procs[r], s'.procs[r];
      && CounterEpoch(q') == CounterEpoch(q) && q'.fence >= q.fence
      && q'.cnts == q.cnts && q'.processed == q.processed && q'.reqs == q.reqs && q'.flags == q.flags
      && (q'.pc == Working
          || (q'.contributed == q.contributed && q'.fence == q.fence && q.pc != Working)
          || (q.pc == Working && q'.contributed == q.cnts && q'.fence == q.fence && q'.pc == InAlltoall))
      && (q'.pc == Looping ==> q'.incoming == q.incoming && q.pc == Looping)
    ensures forall r :: 0 <= r < |s'.procs| ==> CountersOk(s', r) && ProcessedOk(g, s', r)
    ensures forall i :: 0 <= i < |s'.ops| ==> OpOk(s', s'.ops[i]) && (g.Documented? ==> Settled(s', s'.ops[i]))
  {
    forall r | 0 <= r < |s.procs|
      ensures CountersOk(s', r) && ProcessedOk(g, s', r)
    {
      assert CountersOk(s, r) && ProcessedOk(g, s, r);
    }
    forall i | 0 <= i < |s'.ops|
      ensures OpOk(s', s'.ops[i]) && (g.Documented? ==> Settled(s', s'.ops[i]))
    {
      assert OpOk(s, s.ops[i]);
    }
  }

  /** The exchange delivers the number of calls made to this process in the epoch. */
  lemma IncomingIsExact(g: Guard, s: State, p: nat)
    requires Inv(g, s) && Enabled(g, s, LeaveAlltoall(p))
    ensures Sum(Column(s, p)) == Count(s.ops, To(p, s.procs[p].fence))
  {
    var f := s.procs[p].fence;
    forall q | 0 <= q < |s.procs|
      ensures s.procs[q].contributed[p] == Count(s.ops, FromTo(q, p, f))
    {
      assert CountersOk(s, q) && Entered(s.procs[q], f);
    }
    assert Column(s, p) == PerSource(s.ops, |s.procs|, p, f);
    SumOverSources(s.ops, |s.procs|, p, f);
  }

  lemma LeaveAlltoallCounters(g: Guard, s: State, p: nat, r: nat)
    requires Inv(g, s) && Enabled(g, s, LeaveAlltoall(p)) && r < |s.procs|
    ensures CountersOk(Apply(g, s, LeaveAlltoall(p)), r) && ProcessedOk(g, Apply(g, s, LeaveAlltoall(p)), r)
  {
    IncomingIsExact(g, s, p);
    assert CountersOk(s, r) && ProcessedOk(g, s, r);
  }

  lemma LeaveAlltoallInv(g: Guard, s: State, p: nat)
    requires Inv(g, s) && Enabled(g, s, LeaveAlltoall(p))
    ensures Inv(g, Apply(g, s, LeaveAlltoall(p)))
  {
    var s' := Apply(g, s, LeaveAlltoall(p));
    forall r | 0 <= r < |s.procs|
      ensures CountersOk(s', r) && ProcessedOk(g, s', r)
    {
      LeaveAlltoallCounters(g, s, p, r);
    }
    forall i | 0 <= i < |s'.ops|
      ensures OpOk(s', s'.ops[i]) && (g.Documented? ==> Settled(s', s'.ops[i]))
    {
      assert OpOk(s, s.ops[i]);
    }
  }

  /** No operation of a later epoch exists yet when a process clears its counters. */
  lemma NoLaterCalls(g: Guard, s: State, p: nat, e: nat)
    requires Inv(g, s) && p < |s.procs| && s.procs[p].pc == Looping && e == s.procs[p].fence + 1
    ensures Count(s.ops, Handled(p, e)) == 0
    ensures forall t :: Count(s.ops, FromTo(p, t, e)) == 0
  {
    forall i | 0 <= i < |s.ops|
      ensures s.ops[i].epoch < e
    {
      assert OpOk(s, s.ops[i]);
    }
    CountNone(s.ops, Handled(p, e));
    forall t
      ensures Count(s.ops, FromTo(p, t, e)) == 0
    {
      CountNone(s.ops, FromTo(p, t, e));
    }
  }

  /** With the documented guard, leaving the loop means that nothing of the epoch is open here. */
  lemma LoopExitSettles(s: State, p: nat, i: nat)
    requires Shape(s) && Enabled(Documented, s, LeaveLoop(p)) && i < |s.ops|
    requires CountersOk(s, p) && ProcessedOk(Documented, s, p) && OpOk(s, s.ops[i]) && Settled(s, s.ops[i])
    ensures Settled(Apply(Documented, s, LeaveLoop(p)), s.ops[i])
  {
    var q, o := s.procs[p], s.ops[i];
    CountAll(s.ops, Handled(p, q.fence), To(p, q.fence));
    CountNone(s.ops, OriginPending(p));
    CountNone(s.ops, TargetPending(p));
    CountNone(s.ops, Unflagged(p));
    assert !OriginPending(p)(o) && !TargetPending(p)(o) && !Unflagged(p)(o);
    assert o.target == p && o.epoch == q.fence ==> To(p, q.fence)(o) && Handled(p, q.fence)(o);
  }

  lemma LeaveLoopCounters(g: Guard, s: State, p: nat, r: nat)
    requires Inv(g, s) && Enabled(g, s, LeaveLoop(p)) && r < |s.procs|
    ensures CountersOk(Apply(g, s, LeaveLoop(p)), r) && ProcessedOk(g, Apply(g, s, LeaveLoop(p)), r)
  {
    assert CountersOk(s, r) && ProcessedOk(g, s, r);
    NoLaterCalls(g, s, p, s.procs[p].fence + 1);
  }

  lemma LeaveLoopOps(g: Guard, s: State, p: nat, i: nat)
    requires Inv(g, s) && Enabled(g, s, LeaveLoop(p)) && i < |s.ops|
    ensures var s' := Apply(g, s, LeaveLoop(p)); OpOk(s', s.ops[i]) && (g.Documented? ==> Settled(s', s.ops[i]))
  {
    assert OpOk(s, s.ops[i]);
    if g.Documented? {
      assert CountersOk(s, p) && ProcessedOk(g, s, p) && Settled(s, s.ops[i]);
      LoopExitSettles(s, p, i);
    }
  }

  lemma LeaveLoopInStep(g: Guard, s: State, p: nat)
    requires Shape(s) && InStep(s) && ListsOk(s) && Enabled(g, s, LeaveLoop(p))
    ensures InStep(Apply(g, s, LeaveLoop(p))) && ListsOk(Apply(g, s, LeaveLoop(p)))
  {
  }

  lemma LeaveLoopInv(g: Guard, s: State, p: nat)
    requires Inv(g, s) && Enabled(g, s, LeaveLoop(p))
    ensures Inv(g, Apply(g, s, LeaveLoop(p)))
  {
    var s' := Apply(g, s, LeaveLoop(p));
    LeaveLoopInStep(g, s, p);
    forall r | 0 <= r < |s.procs|
      ensures CountersOk(s', r) && ProcessedOk(g, s', r)
    {
      LeaveLoopCounters(g, s, p, r);
    }
    forall i | 0 <= i < |s'.ops|
      ensures OpOk(s', s'.ops[i]) && (g.Documented? ==> Settled(s', s'.ops[i]))
    {
      LeaveLoopOps(g, s, p, i);
    }
  }

  lemma StepInv(g: Guard, s: State, a: Step)
    requires Inv(g, s) && Enabled(g, s, a)
    ensures Inv(g, Apply(g, s, a))
  {
    match a
    case Issue(p, kind, t) => IssueInv(g, s, p, kind, t);
    case Handle(_) => AdvanceInv(g, s, a);
    case CompleteFlag(_) => AdvanceInv(g, s, a);
    case CompleteSend(_) => AdvanceInv(g, s, a);
    case Receive(_, _) => AdvanceInv(g, s, a);
    case EnterFence(p) => EnterFenceInv(g, s, p);
    case LeaveAlltoall(p) => LeaveAlltoallInv(g, s, p);
    case LeaveLoop(p) => LeaveLoopInv(g, s, p);
    case LeaveBarrier(p) => LeaveBarrierInv(g, s, p);
  }

  lemma LastStep(g: Guard, from: State, run: seq<State>) returns (front: seq<State>, s: State, a: Step)
    requires RunFrom(g, from, run) && |run| > 1
    ensures RunFrom(g, from, front) && |front| == |run| - 1 && s == front[|front| - 1]
    ensures Shape(s) && Enabled(g, s, a) && run[|run| - 1] == Apply(g, s, a)
  {
    front, s := run[..|run| - 1], run[|run| - 2];
    a :| Enabled(g, s, a) && run[|run| - 1] == Apply(g, s, a);
  }

  lemma ExtendRun(g: Guard, from: State, run: seq<State>, s': State)
    requires RunFrom(g, from, run) && Next(g, run[|run| - 1], s')
    ensures RunFrom(g, from, run + [s'])
  {
    assert (run + [s'])[..|run + [s']| - 1] == run;
  }

  lemma StepIsPrinted(s: State, a: Step)
    requires Shape(s) && Enabled(Documented, s, a)
    ensures Enabled(Printed, s, a) && Apply(Printed, s, a) == Apply(Documented, s, a)
  {
  }

  lemma NextIsPrinted(s: State, s': State)
    requires Next(Documented, s, s')
    ensures Next(Printed, s, s')
  {
    var a :| Enabled(Documented, s, a) && s' == Apply(Documented, s, a);
    StepIsPrinted(s, a);
  }

  /** The documented guard only ever waits longer, so its runs are runs of the printed one too. */
  lemma {:induction false} DocumentedRunIsPrinted(from: State, run: seq<State>)
    requires RunFrom(Documented, from, run)
    ensures RunFrom(Printed, from, run)
    decreases |run|
  {
    if |run| > 1 {
      DocumentedRunIsPrinted(from, run[..|run| - 1]);
      NextIsPrinted(run[|run| - 2], run[|run| - 1]);
    }
  }

  lemma DocumentedIsPrinted(from: State, s: State)
    requires ReachableFrom(Documented, from, s)
    ensures ReachableFrom(Printed, from, s)
  {
    var run :| RunFrom(Documented, from, run) && run[|run| - 1] == s;
    DocumentedRunIsPrinted(from, run);
  }

  lemma ExtendTo(g: Guard, from: State, s: State, s': State)
    requires ReachableFrom(g, from, s) && Next(g, s, s')
    ensures ReachableFrom(g, from, s')
  {
    var run :| RunFrom(g, from, run) && run[|run| - 1] == s;
    ExtendRun(g, from, run, s');
  }

  lemma Extend(g: Guard, from: State, s: State, a: Step)
    requires ReachableFrom(g, from, s) && Shape(s) && Enabled(g, s, a)
    ensures ReachableFrom(g, from, Apply(g, s, a))
  {
    assert Next(g, s, Apply(g, s, a));
    ExtendTo(g, from, s, Apply(g, s, a));
  }

  lemma {:induction false} JoinedRun(g: Guard, from: State, s: State, run: seq<State>)
    requires ReachableFrom(g, from, s) && RunFrom(g, s, run)
    ensures ReachableFrom(g, from, run[|run| - 1])
    decreases |run|
  {
    if |run| > 1 {
      var front, t, a := LastStep(g, s, run);
      JoinedRun(g, from, s, front);
      Extend(g, from, t, a);
    }
  }

  lemma Joined(g: Guard, from: State, s: State, s': State)
    requires ReachableFrom(g, from, s) && ReachableFrom(g, s, s')
    ensures ReachableFrom(g, from, s')
  {
    var run :| RunFrom(g, s, run) && run[|run| - 1] == s';
    JoinedRun(g, from, s, run);
  }

  lemma StartIsReachable(g: Guard, from: State)
    ensures ReachableFrom(g, from, from)
  {
    assert RunFrom(g, from, [from]);
  }

  lemma {:induction false} RunInv(g: Guard, from: State, run: seq<State>)
    requires Inv(g, from) && RunFrom(g, from, run)
    ensures Inv(g, run[|run| - 1])
    decreases |run|
  {
    if |run| > 1 {
      var front, s, a := LastStep(g, from, run);
      RunInv(g, from, front);
      StepInv(g, s, a);
    }
  }

  lemma ReachableInv(g: Guard, np: nat, s: State)
    requires Reachable(g, np, s)
    ensures Inv(g, s)
  {
    InitInv(g, np);
    var run :| RunFrom(g, Init(np), run) && run[|run| - 1] == s;
    RunInv(g, Init(np), run);
  }

  lemma InvFrom(g: Guard, from: State, s: State)
    requires Inv(g, from) && ReachableFrom(g, from, s)
    ensures Inv(g, s)
  {
    var run :| RunFrom(g, from, run) && run[|run| - 1] == s;
    RunInv(g, from, run);
  }

  // ------------------------------------------------------------------- results

  /** The counts of all sources towards `t`, as the fence would exchange them. */
  function CountsTo(s: State, t: nat): seq<int>
    requires Shape(s) && t < |s.procs|
  {
    seq(|s.procs|, p requires 0 <= p < |s.procs| => s.procs[p].cnts[t])
  }

  lemma CountedAreProcessedOrUnderWay(s: State, t: nat, e: nat)
    requires Shape(s) && t < |s.procs| && s.procs[t].processed == Count(s.ops, Handled(t, e))
    requires forall p :: 0 <= p < |s.procs| ==> s.procs[p].cnts[t] == Count(s.ops, FromTo(p, t, e))
    ensures Sum(CountsTo(s, t)) == s.procs[t].processed + Count(s.ops, InFlight(t, e))
  {
    assert CountsTo(s, t) == PerSource(s.ops, |s.procs|, t, e);
    SumOverSources(s.ops, |s.procs|, t, e);
    CountSplit(s.ops, To(t, e), Handled(t, e), InFlight(t, e));
  }

  /**
   Conservation: while all processes count for the same epoch, the calls counted by all
   sources for a target are those processed there plus those still under way to it.
   */
  lemma CallsAreConserved(np: nat, s: State, t: nat)
    requires Reachable(Documented, np, s) && t < |s.procs| && Shape(s)
    requires forall p :: 0 <= p < |s.procs| ==> CounterEpoch(s.procs[p]) == CounterEpoch(s.procs[t])
    ensures Sum(CountsTo(s, t)) == s.procs[t].processed + Count(s.ops, InFlight(t, CounterEpoch(s.procs[t])))
  {
    ReachableInv(Documented, np, s);
    var e := CounterEpoch(s.procs[t]);
    forall p | 0 <= p < |s.procs|
      ensures s.procs[p].cnts[t] == Count(s.ops, FromTo(p, t, e))
    {
      assert CountersOk(s, p);
    }
    assert ProcessedOk(Documented, s, t);
    CountedAreProcessedOrUnderWay(s, t, e);
  }

  /** When any process has returned from `n` fences, nothing of an operation of an earlier epoch is open at any process. */
  lemma FenceClosesEpoch(np: nat, s: State, p: nat, i: nat)
    requires Reachable(Documented, np, s) && p < |s.procs| && i < |s.ops| && s.ops[i].epoch < s.procs[p].fence
    ensures Closed(s.ops[i])
  {
    ReachableInv(Documented, np, s);
    ClosedBefore(s, p, i);
  }

  lemma ClosedBefore(s: State, p: nat, i: nat)
    requires Inv(Documented, s) && p < |s.procs| && i < |s.ops| && s.ops[i].epoch < s.procs[p].fence
    ensures Closed(s.ops[i])
  {
    assert Settled(s, s.ops[i]) && OpOk(s, s.ops[i]);
  }

  /** No handler call is ever charged to another epoch than the one it was made in. */
  lemma NoCallCrossesEpochs(np: nat, s: State, i: nat)
    requires Reachable(Documented, np, s) && Shape(s) && Enabled(Documented, s, Handle(i))
    ensures s.ops[i].epoch == CounterEpoch(s.procs[s.ops[i].target])
  {
    ReachableInv(Documented, np, s);
    CountedInItsEpoch(Documented, s, i);
  }
}
