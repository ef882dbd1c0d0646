/** The counting fence with its documented guard always ends: nothing is stuck, and no step inside it can be repeated for ever. */
module FenceProgress {
  import opened Common
  import opened CountingFence
  import opened FenceMatching

  // ------------------------------------------------------------------- nothing is stuck

  /** The oldest entry of a list that is on the channel of an operation. */
  lemma OldestOf(s: State, list: seq<nat>, k: nat, o: Op) returns (at: nat)
    requires Shape(s) && (forall m :: 0 <= m < |list| ==> list[m] < |s.ops|)
    requires k < |list| && SameChannel(s.ops[list[k]], o)
    ensures at <= k && Oldest(s, list, at, o) && SameChannel(s.ops[list[at]], o)
    decreases k
  {
    if m :| 0 <= m < k && SameChannel(s.ops[list[m]], o) {
      at := OldestOf(s, list, m, o);
    } else {
      at := k;
    }
  }

  /** Some operation on a channel has not sent its data to anyone while one of them still waits for data. */
  lemma SomeNotTaken(s: State, i: nat) returns (k: nat)
    requires Balanced(s) && i < |s.ops| && HasData(s.ops[i]) && s.ops[i].got.None?
    ensures k < |s.ops| && IsOn(s.ops[k], ChannelOf(s.ops[i])) && !s.ops[k].taken
  {
    var c := ChannelOf(s.ops[i]);
    CountAll(s.ops, GotOn(c), On(c));
    assert On(c)(s.ops[i]) && !GotOn(c)(s.ops[i]);
    if forall k :: 0 <= k < |s.ops| ==> TakenOn(c)(s.ops[k]) == On(c)(s.ops[k]) {
      CountsAgree(s.ops, TakenOn(c), On(c));
    }
    k :| 0 <= k < |s.ops| && TakenOn(c)(s.ops[k]) != On(c)(s.ops[k]);
  }

  /** A posted receive that waits can be helped: its message can arrive, or a handler can run that posts one. */
  lemma ReceiveIsHelped(s: State, i: nat) returns (a: Step)
    requires Shape(s) && MatchInv(s) && i < |s.ops| && HasData(s.ops[i]) && RecvPosted(s.ops[i]) && s.ops[i].got.None?
    ensures Advances(a) && Enabled(Documented, s, a)
  {
    var k := SomeNotTaken(s, i);
    if !s.ops[k].handled {
      a := Handle(k);
    } else {
      var m0 :| 0 <= m0 < |s.sends| && s.sends[m0] == k;
      var n0 :| 0 <= n0 < |s.recvs| && s.recvs[n0] == i;
      var m := OldestOf(s, s.sends, m0, s.ops[i]);
      var n := OldestOf(s, s.recvs, n0, s.ops[i]);
      SameChannelAs(s, s.sends[m], s.recvs[n], i);
      a := Receive(m, n);
    }
  }

  lemma SameChannelAs(s: State, x: nat, y: nat, i: nat)
    requires x < |s.ops| && y < |s.ops| && i < |s.ops| && SameChannel(s.ops[x], s.ops[i]) && SameChannel(s.ops[y], s.ops[i])
    ensures SameChannel(s.ops[x], s.ops[y])
    ensures forall o :: SameChannel(o, s.ops[i]) <==> SameChannel(o, s.ops[x])
    ensures forall o :: SameChannel(o, s.ops[i]) <==> SameChannel(o, s.ops[y])
  {
  }

  /** An operation with an open request or call can go on. */
  lemma OpenIsHelped(s: State, i: nat) returns (a: Step)
    requires Shape(s) && MatchInv(s) && i < |s.ops| && !Closed(s.ops[i])
    ensures Advances(a) && Enabled(Documented, s, a)
  {
    if !s.ops[i].handled { a := Handle(i); }
    else if !s.ops[i].flagDone { a := CompleteFlag(i); }
    else if !s.ops[i].sendDone { a := CompleteSend(i); }
    else { a := ReceiveIsHelped(s, i); }
  }

  /** A process that must wait waits for something that is open. */
  lemma WaitsForSomething(s: State, p: nat) returns (i: nat)
    requires Inv(Documented, s) && p < |s.procs| && s.procs[p].pc == Looping && KeepsWaiting(Documented, s.procs[p])
    ensures i < |s.ops| && !Closed(s.ops[i])
  {
    var q := s.procs[p];
    assert CountersOk(s, p) && ProcessedOk(Documented, s, p);
    CountSplit(s.ops, To(p, q.fence), Handled(p, q.fence), InFlight(p, q.fence));
    CountNone(s.ops, InFlight(p, q.fence));
    CountNone(s.ops, Unflagged(p));
    CountNone(s.ops, OriginPending(p));
    CountNone(s.ops, TargetPending(p));
    i :| 0 <= i < |s.ops| &&
      (InFlight(p, q.fence)(s.ops[i]) || Unflagged(p)(s.ops[i]) || OriginPending(p)(s.ops[i]) || TargetPending(p)(s.ops[i]));
  }

  /** A step that no program decides on: everything but calling an operation or a fence. */
  predicate Inside(a: Step) { !a.Issue? && !a.EnterFence? }

  predicate InFence(s: State, p: nat) { p < |s.procs| && s.procs[p].pc != Working }

  lemma LoopGoesOn(s: State, p: nat) returns (a: Step)
    requires Inv(Documented, s) && MatchInv(s) && p < |s.procs| && s.procs[p].pc == Looping
    ensures Inside(a) && Enabled(Documented, s, a)
  {
    if KeepsWaiting(Documented, s.procs[p]) {
      var i := WaitsForSomething(s, p);
      a := OpenIsHelped(s, i);
    } else {
      a := LeaveLoop(p);
    }
  }

  /** Once every process has called the fence some process in it is at, the fence goes on by itself. */
  lemma FenceGoesOn(s: State, p: nat) returns (a: Step)
    requires Inv(Documented, s) && MatchInv(s) && InFence(s, p)
    requires forall q :: 0 <= q < |s.procs| ==> Entered(s.procs[q], s.procs[p].fence)
    ensures Inside(a) && Enabled(Documented, s, a)
  {
    var f := s.procs[p].fence;
    if q :| 0 <= q < |s.procs| && s.procs[q].fence == f && s.procs[q].pc == Looping {
      a := LoopGoesOn(s, q);
    } else if q :| 0 <= q < |s.procs| && s.procs[q].fence == f && s.procs[q].pc == InAlltoall {
      a := LeaveAlltoall(q);
    } else {
      assert forall q :: 0 <= q < |s.procs| ==> AtBarrier(s.procs[q], f);
      a := LeaveBarrier(p);
    }
  }

  /**
   While a process is in a fence, the exchange and the barrier included, something can go on: a
   step inside a fence, or a process that has not called this fence may call it.
   */
  lemma NoDeadlock(np: nat, s: State, p: nat) returns (a: Step)
    requires Reachable(Documented, np, s) && InFence(s, p)
    ensures Shape(s) && !a.Issue? && Enabled(Documented, s, a)
    ensures a.EnterFence? ==> s.procs[a.p].fence <= s.procs[p].fence
  {
    ReachableMatch(np, s);
    if q :| 0 <= q < |s.procs| && !Entered(s.procs[q], s.procs[p].fence) {
      if s.procs[q].pc == Working {
        a := EnterFence(q);
      } else {
        BehindIsEntered(s, p, q);
        a := FenceGoesOn(s, q);
      }
    } else {
      a := FenceGoesOn(s, p);
    }
  }

  /** A process that lags a whole fence behind is in one that all have called. */
  lemma BehindIsEntered(s: State, p: nat, q: nat)
    requires Inv(Documented, s) && p < |s.procs| && q < |s.procs| && s.procs[q].fence < s.procs[p].fence
    ensures forall r :: 0 <= r < |s.procs| ==> Entered(s.procs[r], s.procs[q].fence)
  {
    assert s.procs[q].pc == InBarrier;
  }

  // ------------------------------------------------------------------- a measure

  /** What is still to happen to an operation. */
  function ToDo(o: Op): int {
    (if o.handled then 0 else 1) + (if o.flagDone then 0 else 1)
    + if HasData(o) then (if o.sendDone then 0 else 1) + (if o.got.Some? then 0 else 1) else 0
  }

  /** And to a process, until it has returned from the fence it is in. */
  function Phase(q: Proc): int {
    match q.pc
    case Working => 0
    case InAlltoall => 3
    case Looping => 2
    case InBarrier => 1
  }

  function ToDos(ops: seq<Op>): (r: seq<int>)
    ensures |r| == |ops| && forall i :: 0 <= i < |ops| ==> r[i] == ToDo(ops[i])
  {
    seq(|ops|, i requires 0 <= i < |ops| => ToDo(ops[i]))
  }

  function Phases(procs: seq<Proc>): (r: seq<int>)
    ensures |r| == |procs| && forall p :: 0 <= p < |procs| ==> r[p] == Phase(procs[p])
  {
    seq(|procs|, p requires 0 <= p < |procs| => Phase(procs[p]))
  }

  function Measure(s: State): int {
    Sum(ToDos(s.ops)) + Sum(Phases(s.procs))
  }

  lemma MeasureNonNegative(s: State)
    ensures Measure(s) >= 0
  {
    SumNonNegative(ToDos(s.ops));
    SumNonNegative(Phases(s.procs));
  }

  lemma ToDoOfOne(ops: seq<Op>, i: nat, o: Op)
    requires i < |ops|
    ensures Sum(ToDos(ops[i := o])) == Sum(ToDos(ops)) - ToDo(ops[i]) + ToDo(o)
  {
    assert ToDos(ops[i := o]) == ToDos(ops)[i := ToDo(o)];
    SumUpdate(ToDos(ops), i, ToDo(o));
  }

  lemma PhaseOfOne(procs: seq<Proc>, p: nat, q: Proc)
    requires p < |procs|
    ensures Sum(Phases(procs[p := q])) == Sum(Phases(procs)) - Phase(procs[p]) + Phase(q)
  {
    assert Phases(procs[p := q]) == Phases(procs)[p := Phase(q)];
    SumUpdate(Phases(procs), p, Phase(q));
  }

  lemma ReceiveDescends(s: State, m: nat, n: nat)
    requires Shape(s) && m < |s.sends| && n < |s.recvs|
    requires HasData(s.ops[s.recvs[n]]) && s.ops[s.recvs[n]].got.None?
    ensures Sum(ToDos(Matched(s, m, n).ops)) < Sum(ToDos(s.ops))
  {
    var x, y := s.sends[m], s.recvs[n];
    var sent := s.ops[x := s.ops[x].(taken := true)];
    ToDoOfOne(s.ops, x, sent[x]);
    ToDoOfOne(sent, y, sent[y].(got := Some(x)));
  }

  lemma AdvanceDescends(s: State, a: Step)
    requires Shape(s) && ListsOk(s) && Enabled(Documented, s, a) && Advances(a)
    ensures Sum(ToDos(Apply(Documented, s, a).ops)) < Sum(ToDos(s.ops))
  {
    match a
    case Handle(i) => ToDoOfOne(s.ops, i, s.ops[i].(handled := true));
    case CompleteFlag(i) => ToDoOfOne(s.ops, i, s.ops[i].(flagDone := true));
    case CompleteSend(i) => ToDoOfOne(s.ops, i, s.ops[i].(sendDone := true));
    case Receive(m, n) => ReceiveDescends(s, m, n);
  }

  lemma AdvancePhases(s: State, a: Step)
    requires Shape(s) && Enabled(Documented, s, a) && Advances(a)
    ensures Phases(Apply(Documented, s, a).procs) == Phases(s.procs)
  {
  }

  /** Every step inside fences lowers the measure. */
  lemma EveryStepDescends(np: nat, s: State, a: Step)
    requires Reachable(Documented, np, s) && Shape(s) && Enabled(Documented, s, a) && Inside(a)
    ensures 0 <= Measure(Apply(Documented, s, a)) < Measure(s)
  {
    ReachableInv(Documented, np, s);
    InsideDescends(s, a);
  }

  lemma InsideDescends(s: State, a: Step)
    requires Shape(s) && ListsOk(s) && Enabled(Documented, s, a) && Inside(a)
    ensures 0 <= Measure(Apply(Documented, s, a)) < Measure(s)
  {
    var s' := Apply(Documented, s, a);
    MeasureNonNegative(s');
    if Advances(a) {
      AdvanceDescends(s, a);
      AdvancePhases(s, a);
    } else {
      PhaseOfOne(s.procs, a.p, s'.procs[a.p]);
    }
  }

  // ------------------------------------------------------------------- a whole fence

  /** All processes are in fence number `e`, or have just returned from it. */
  predicate Closing(s: State, e: nat) {
    forall p :: 0 <= p < |s.procs| ==>
      (s.procs[p].fence == e && s.procs[p].pc != Working) || (s.procs[p].fence == e + 1 && s.procs[p].pc == Working)
  }

  /** All processes are working in epoch `e`. */
  predicate AllWorking(s: State, e: nat) {
    forall p :: 0 <= p < |s.procs| ==> s.procs[p].fence == e && s.procs[p].pc == Working
  }

  predicate AllFollow(ops: seq<Op>, ops': seq<Op>) {
    |ops'| == |ops| && forall i :: 0 <= i < |ops| ==> Follows(ops[i], ops'[i])
  }

  lemma InsideFollows(s: State, a: Step)
    requires Shape(s) && ListsOk(s) && Enabled(Documented, s, a) && !a.Issue?
    ensures AllFollow(s.ops, Apply(Documented, s, a).ops)
  {
    if Advances(a) {
      forall i | 0 <= i < |s.ops|
        ensures |Apply(Documented, s, a).ops| == |s.ops| && Follows(s.ops[i], Apply(Documented, s, a).ops[i])
      {
        AdvanceFollows(Documented, s, a, i);
      }
    }
  }

  lemma ClosingStep(s: State, a: Step, e: nat)
    requires Shape(s) && Closing(s, e) && Enabled(Documented, s, a) && Inside(a)
    ensures Closing(Apply(Documented, s, a), e)
  {
  }

  lemma FollowOn(ops: seq<Op>, ops': seq<Op>, ops'': seq<Op>)
    requires AllFollow(ops, ops') && AllFollow(ops', ops'')
    ensures AllFollow(ops, ops'')
  {
  }

  lemma DrainStep(s: State, e: nat, p: nat) returns (s': State)
    requires Inv(Documented, s) && MatchInv(s) && Closing(s, e) && p < |s.procs| && s.procs[p].fence == e
    ensures Next(Documented, s, s') && Inv(Documented, s') && MatchInv(s') && Closing(s', e)
    ensures |s'.procs| == |s.procs| && AllFollow(s.ops, s'.ops) && 0 <= Measure(s') < Measure(s)
  {
    var a := FenceGoesOn(s, p);
    s' := Apply(Documented, s, a);
    InsideDescends(s, a);
    InsideFollows(s, a);
    ClosingStep(s, a, e);
    StepInv(Documented, s, a);
    StepMatch(s, a);
  }

  /** From the moment all have called it, the fence can be gone through to its end. */
  lemma Drain(from: State, s: State, e: nat) returns (s': State)
    requires ReachableFrom(Documented, from, s) && Inv(Documented, s) && MatchInv(s) && Closing(s, e)
    ensures ReachableFrom(Documented, from, s') && AllWorking(s', e + 1)
    ensures |s'.procs| == |s.procs| && AllFollow(s.ops, s'.ops)
    decreases Measure(s)
  {
    if p :| 0 <= p < |s.procs| && s.procs[p].fence == e {
      var s1 := DrainStep(s, e, p);
      ExtendTo(Documented, from, s, s1);
      s' := Drain(from, s1, e);
      FollowOn(s.ops, s1.ops, s'.ops);
    } else {
      s' := s;
    }
  }

  /** The first `n` processes have called the fence, the others are still working. */
  predicate Entering(s: State, e: nat, n: nat) {
    n <= |s.procs| && forall p :: 0 <= p < |s.procs| ==> s.procs[p].fence == e && (s.procs[p].pc == if p < n then InAlltoall else Working)
  }

  lemma EnterAll(from: State, s: State, e: nat, n: nat) returns (s': State)
    requires ReachableFrom(Documented, from, s) && Shape(s) && Entering(s, e, n)
    ensures ReachableFrom(Documented, from, s') && Shape(s') && Closing(s', e) && s'.ops == s.ops && |s'.procs| == |s.procs|
    ensures Entering(s', e, |s'.procs|)
    decreases |s.procs| - n
  {
    if n < |s.procs| {
      Extend(Documented, from, s, EnterFence(n));
      s' := EnterAll(from, Apply(Documented, s, EnterFence(n)), e, n + 1);
    } else {
      s' := s;
    }
  }

  /** All processes can go through their fence together, whatever they have called. */
  lemma PassFence(np: nat, s: State, e: nat) returns (s': State)
    requires Reachable(Documented, np, s) && Shape(s) && AllWorking(s, e)
    ensures ReachableFrom(Documented, s, s') && Reachable(Documented, np, s') && AllWorking(s', e + 1)
    ensures |s'.procs| == |s.procs| && AllFollow(s.ops, s'.ops)
  {
    StartIsReachable(Documented, s);
    var s1 := EnterAll(s, s, e, 0);
    Joined(Documented, Init(np), s, s1);
    ReachableMatch(np, s1);
    s' := Drain(s, s1, e);
    Joined(Documented, Init(np), s, s');
  }
}
