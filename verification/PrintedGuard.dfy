/** What the guard of dm.c as printed is worth: exactly when its fence, of any epoch, can return too early. */
module PrintedGuard {
  import opened CountingFence
  import opened FenceProgress
  import opened FenceTags

  predicate InLoop(s: State, p: nat, e: nat) {
    p < |s.procs| && s.procs[p].fence == e && s.procs[p].pc == Looping
  }

  /** Something of the operation is open at process `p`: its call or a request there, or its flag. */
  predicate OpenAt(o: Op, p: nat) {
    || (o.target == p && (!o.handled || (HasData(o) && !TargetDone(o))))
    || (o.src == p && (!o.flagDone || (HasData(o) && !OriginDone(o))))
  }

  /** An operation of epoch `e` is open at `p`. */
  ghost predicate HasOpen(s: State, p: nat, e: nat) {
    exists i :: 0 <= i < |s.ops| && s.ops[i].epoch == e && OpenAt(s.ops[i], p)
  }

  /** An operation of epoch `e` between `p` and another process has not had its effect. */
  ghost predicate HasPending(s: State, p: nat, e: nat) {
    exists i :: 0 <= i < |s.ops| && s.ops[i].epoch == e && (s.ops[i].src == p || s.ops[i].target == p) && !TookEffect(s.ops, i)
  }

  /** The process has returned from the fence that closes epoch `e`, the barrier included. */
  predicate Returned(s: State, p: nat, e: nat) {
    p < |s.procs| && s.procs[p].fence > e
  }

  // ------------------------------------------------------------------- leaving

  /** All processes are in that fence. */
  predicate AllInFence(s: State, e: nat) {
    forall q :: 0 <= q < |s.procs| ==> s.procs[q].fence == e && s.procs[q].pc != Working
  }

  lemma LoopIsCalled(s: State, p: nat, e: nat)
    requires Inv(Printed, s) && InLoop(s, p, e)
    ensures AllInFence(s, e)
  {
    assert forall q :: 0 <= q < |s.procs| ==> Entered(s.procs[q], e);
  }

  /** Only flags have completed, and only flags of processes that were not at the barrier. */
  predicate OnlyFlags(s: State, s': State) {
    && Shape(s) && |s'.procs| == |s.procs| && |s'.ops| == |s.ops|
    && (forall i :: 0 <= i < |s.ops| ==> s'.ops[i] == s.ops[i].(flagDone := s'.ops[i].flagDone))
    && (forall i :: 0 <= i < |s.ops| && s.procs[s.ops[i].src].pc == InBarrier ==> s'.ops[i] == s.ops[i])
    && (forall q :: 0 <= q < |s.procs| && s.procs[q].pc == InBarrier ==> s'.procs[q].pc == InBarrier)
  }

  lemma OnlyFlagsFurther(s: State, s': State, s'': State)
    requires OnlyFlags(s, s') && OnlyFlags(s', s'')
    ensures OnlyFlags(s, s'')
  {
    forall i | 0 <= i < |s.ops|
      ensures s''.ops[i] == s.ops[i].(flagDone := s''.ops[i].flagDone)
      ensures s.procs[s.ops[i].src].pc == InBarrier ==> s''.ops[i] == s.ops[i]
    {
      assert s'.ops[i] == s.ops[i].(flagDone := s'.ops[i].flagDone);
    }
  }

  /** Process `p` has taken a step of its own. */
  predicate WentOn(s: State, s': State, p: nat, e: nat)
    requires p < |s.procs|
  {
    && AllInFence(s', e) && OnlyFlags(s, s') && s'.procs[p].pc != InAlltoall
    && (s'.procs[p].pc == s.procs[p].pc ==> 0 <= s'.procs[p].flags < s.procs[p].flags)
    && forall q :: 0 <= q < |s.procs| && q != p ==> s'.procs[q] == s.procs[q]
  }

  lemma AlltoallGoesOn(s: State, p: nat, e: nat)
    requires Shape(s) && AllInFence(s, e) && p < |s.procs| && s.procs[p].pc == InAlltoall
    ensures Enabled(Printed, s, LeaveAlltoall(p)) && WentOn(s, Apply(Printed, s, LeaveAlltoall(p)), p, e)
  {
  }

  lemma LoopEnds(s: State, p: nat, e: nat)
    requires Shape(s) && AllInFence(s, e) && p < |s.procs| && s.procs[p].pc == Looping && !KeepsWaiting(Printed, s.procs[p])
    ensures Enabled(Printed, s, LeaveLoop(p)) && WentOn(s, Apply(Printed, s, LeaveLoop(p)), p, e)
  {
  }

  lemma FlagGoesOn(s: State, p: nat, e: nat) returns (a: Step)
    requires Shape(s) && AllInFence(s, e) && p < |s.procs| && s.procs[p].pc == Looping && s.procs[p].flags > 0 && OpenOk(s, p)
    ensures Enabled(Printed, s, a) && WentOn(s, Apply(Printed, s, a), p, e)
  {
    CountNone(s.ops, Unflagged(p));
    var j :| 0 <= j < |s.ops| && Unflagged(p)(s.ops[j]);
    a := CompleteFlag(j);
  }

  /** The next step of a process that only ever lets its own flags complete. */
  lemma OwnStep(s: State, p: nat, e: nat) returns (a: Step)
    requires Inv(Printed, s) && AllInFence(s, e) && p < |s.procs| && s.procs[p].pc != InBarrier
    ensures Enabled(Printed, s, a) && WentOn(s, Apply(Printed, s, a), p, e)
  {
    if s.procs[p].pc == InAlltoall {
      a := LeaveAlltoall(p);
      AlltoallGoesOn(s, p, e);
    } else if KeepsWaiting(Printed, s.procs[p]) {
      assert CountersOk(s, p);
      a := FlagGoesOn(s, p, e);
    } else {
      a := LeaveLoop(p);
      LoopEnds(s, p, e);
    }
  }

  lemma {:induction false} Leave(from: State, s: State, p: nat, e: nat) returns (s': State)
    requires Inv(Printed, from) && ReachableFrom(Printed, from, s) && Shape(s) && AllInFence(s, e) && p < |s.procs|
    ensures ReachableFrom(Printed, from, s') && Shape(s') && AllInFence(s', e) && OnlyFlags(s, s') && s'.procs[p].pc == InBarrier
    decreases s.procs[p].pc == InAlltoall, s.procs[p].flags
  {
    if s.procs[p].pc == InBarrier {
      s' := s;
    } else {
      InvFrom(Printed, from, s);
      var a := OwnStep(s, p, e);
      var s1 := Apply(Printed, s, a);
      Extend(Printed, from, s, a);
      if s1.procs[p].pc == InBarrier {
        s' := s1;
      } else {
        s' := Leave(from, s1, p, e);
        OnlyFlagsFurther(s, s1, s');
      }
    }
  }

  /** Every process can leave its loop, whatever calls and requests are open. */
  lemma {:induction false} AllLeave(from: State, s: State, n: nat, e: nat) returns (s': State)
    requires Inv(Printed, from) && ReachableFrom(Printed, from, s) && Shape(s) && AllInFence(s, e) && n <= |s.procs|
    requires forall q :: 0 <= q < n ==> s.procs[q].pc == InBarrier
    ensures ReachableFrom(Printed, from, s') && Shape(s') && AllInFence(s', e) && OnlyFlags(s, s')
    ensures forall q :: 0 <= q < |s.procs| ==> s'.procs[q].pc == InBarrier
    decreases |s.procs| - n
  {
    if n == |s.procs| {
      s' := s;
    } else {
      var s1 := Leave(from, s, n, e);
      forall q | 0 <= q < n + 1
        ensures s1.procs[q].pc == InBarrier
      {
        assert q == n || s.procs[q].pc == InBarrier;
      }
      s' := AllLeave(from, s1, n + 1, e);
      OnlyFlagsFurther(s, s1, s');
    }
  }

  /** So a process returns with all operations as they were, up to flags. */
  lemma ReturnsAnyway(from: State, s: State, p: nat, e: nat) returns (s': State)
    requires Inv(Printed, from) && ReachableFrom(Printed, from, s) && Shape(s) && AllInFence(s, e) && p < |s.procs|
    ensures ReachableFrom(Printed, from, s') && Returned(s', p, e)
    ensures exists t :: OnlyFlags(s, t) && s'.ops == t.ops
  {
    var t := AllLeave(from, s, 0, e);
    Extend(Printed, from, t, LeaveBarrier(p));
    s' := Apply(Printed, t, LeaveBarrier(p));
  }

  // ------------------------------------------------------------------- what can still happen

  /** After all have called the fence the epoch's operations only go forward, and no new ones join them. */
  ghost predicate Since(from: State, s: State, e: nat) {
    && Inv(Printed, s) && |s.procs| == |from.procs| && |from.ops| <= |s.ops|
    && (forall q :: 0 <= q < |s.procs| ==> Entered(s.procs[q], e))
    && (forall i :: 0 <= i < |from.ops| ==> Follows(from.ops[i], s.ops[i]))
    && (forall i :: |from.ops| <= i < |s.ops| ==> s.ops[i].epoch > e)
  }

  lemma StepFollows(s: State, a: Step, i: nat)
    requires Shape(s) && ListsOk(s) && Enabled(Printed, s, a) && i < |s.ops|
    ensures |s.ops| <= |Apply(Printed, s, a).ops| && Follows(s.ops[i], Apply(Printed, s, a).ops[i])
  {
    if Advances(a) { AdvanceFollows(Printed, s, a, i); }
  }

  lemma StepAdds(s: State, a: Step, e: nat)
    requires Inv(Printed, s) && Enabled(Printed, s, a) && forall q :: 0 <= q < |s.procs| ==> Entered(s.procs[q], e)
    ensures var s' := Apply(Printed, s, a);
            && |s.ops| <= |s'.ops| && (forall q :: 0 <= q < |s'.procs| ==> Entered(s'.procs[q], e))
            && forall i :: |s.ops| <= i < |s'.ops| ==> s'.ops[i].epoch > e
  {
  }

  lemma SinceStep(from: State, s: State, a: Step, e: nat)
    requires Since(from, s, e) && Enabled(Printed, s, a)
    ensures Since(from, Apply(Printed, s, a), e)
  {
    var s' := Apply(Printed, s, a);
    StepInv(Printed, s, a);
    StepAdds(s, a, e);
    forall i | 0 <= i < |s.ops|
      ensures Follows(s.ops[i], s'.ops[i])
    {
      StepFollows(s, a, i);
    }
  }

  lemma {:induction false} SinceRun(from: State, run: seq<State>, e: nat)
    requires Inv(Printed, from) && AllInFence(from, e) && RunFrom(Printed, from, run)
    ensures Since(from, run[|run| - 1], e)
    decreases |run|
  {
    if |run| > 1 {
      var front, s, a := LastStep(Printed, from, run);
      SinceRun(from, front, e);
      SinceStep(from, s, a, e);
    }
  }

  lemma SinceReachable(from: State, s: State, e: nat)
    requires Inv(Printed, from) && AllInFence(from, e) && ReachableFrom(Printed, from, s)
    ensures Since(from, s, e)
  {
    var run :| RunFrom(Printed, from, run) && run[|run| - 1] == s;
    SinceRun(from, run, e);
  }

  /** What is open or without effect later was so before. */
  lemma OpenBefore(from: State, s: State, p: nat, e: nat)
    requires Since(from, s, e) && HasOpen(s, p, e)
    ensures HasOpen(from, p, e)
  {
    var i :| 0 <= i < |s.ops| && s.ops[i].epoch == e && OpenAt(s.ops[i], p);
    assert Follows(from.ops[i], s.ops[i]);
    assert OpenAt(from.ops[i], p);
  }

  lemma PendingBefore(from: State, s: State, p: nat, e: nat)
    requires Since(from, s, e) && HasPending(s, p, e)
    ensures HasPending(from, p, e)
  {
    var i :| 0 <= i < |s.ops| && s.ops[i].epoch == e && (s.ops[i].src == p || s.ops[i].target == p) && !TookEffect(s.ops, i);
    assert Follows(from.ops[i], s.ops[i]);
    assert !TookEffect(from.ops, i);
  }

  // ------------------------------------------------------------------- results

  /** A process that has not yet processed as many calls as were made to it has one of them still to run. */
  lemma CallIsOpen(s: State, p: nat, e: nat) returns (i: nat)
    requires Inv(Printed, s) && InLoop(s, p, e) && s.procs[p].processed < s.procs[p].incoming
    ensures i < |s.ops| && s.ops[i].epoch == e && s.ops[i].target == p && !s.ops[i].handled
  {
    assert CountersOk(s, p) && ProcessedOk(Printed, s, p);
    CountSplit(s.ops, To(p, e), Handled(p, e), InFlight(p, e));
    CountNone(s.ops, InFlight(p, e));
    i :| 0 <= i < |s.ops| && InFlight(p, e)(s.ops[i]);
  }

  /** In its first loop a process has something open exactly when the documented guard would keep it there. */
  lemma OpenIffWaits(s: State, p: nat)
    requires Inv(Printed, s) && InLoop(s, p, 0)
    ensures HasOpen(s, p, 0) <==> KeepsWaiting(Documented, s.procs[p])
  {
    assert CountersOk(s, p) && ProcessedOk(Printed, s, p);
    CountSplit(s.ops, To(p, 0), Handled(p, 0), InFlight(p, 0));
    CountNone(s.ops, InFlight(p, 0));
    CountNone(s.ops, Unflagged(p));
    CountNone(s.ops, OriginPending(p));
    CountNone(s.ops, TargetPending(p));
    forall i | 0 <= i < |s.ops|
      ensures s.ops[i].epoch == 0
      ensures OpenAt(s.ops[i], p) <==>
        InFlight(p, 0)(s.ops[i]) || Unflagged(p)(s.ops[i]) || OriginPending(p)(s.ops[i]) || TargetPending(p)(s.ops[i])
    {
      LoopIsCalled(s, p, 0);
      assert OpOk(s, s.ops[i]);
    }
  }

  /** A process leaves its loop with something still open, if something is. */
  lemma LeavesOpen(s: State, p: nat, e: nat) returns (s': State)
    requires Inv(Printed, s) && InLoop(s, p, e) && AllInFence(s, e) && HasOpen(s, p, e)
    ensures ReachableFrom(Printed, s, s') && Shape(s') && AllInFence(s', e)
    ensures p < |s'.procs| && s'.procs[p].pc == InBarrier && HasOpen(s', p, e)
  {
    StartIsReachable(Printed, s);
    if KeepsWaiting(Printed, s.procs[p]) {
      var i := CallIsOpen(s, p, e);
      s' := Leave(s, s, p, e);
      assert s'.ops[i] == s.ops[i].(flagDone := s'.ops[i].flagDone);
      assert OpenAt(s'.ops[i], p);
    } else {
      Extend(Printed, s, s, LeaveLoop(p));
      s' := Apply(Printed, s, LeaveLoop(p));
      LoopEnds(s, p, e);
    }
  }

  lemma StaysOpen(s: State, s': State, i: nat, p: nat)
    requires OnlyFlags(s, s') && p < |s.procs| && s.procs[p].pc == InBarrier && i < |s.ops| && OpenAt(s.ops[i], p)
    ensures OpenAt(s'.ops[i], p) && s'.ops[i].epoch == s.ops[i].epoch
  {
    assert s'.ops[i] == s.ops[i].(flagDone := s'.ops[i].flagDone);
  }

  lemma ReturnsOpen(s: State, p: nat, e: nat) returns (s': State)
    requires Inv(Printed, s) && InLoop(s, p, e) && HasOpen(s, p, e)
    ensures ReachableFrom(Printed, s, s') && Returned(s', p, e) && HasOpen(s', p, e)
  {
    LoopIsCalled(s, p, e);
    var s1 := LeavesOpen(s, p, e);
    var i :| 0 <= i < |s1.ops| && s1.ops[i].epoch == e && OpenAt(s1.ops[i], p);
    s' := ReturnsAnyway(s, s1, p, e);
    var t :| OnlyFlags(s1, t) && s'.ops == t.ops;
    StaysOpen(s1, t, i, p);
  }

  lemma ReturnsPending(s: State, p: nat, e: nat) returns (s': State)
    requires Inv(Printed, s) && InLoop(s, p, e) && HasPending(s, p, e)
    ensures ReachableFrom(Printed, s, s') && Returned(s', p, e) && HasPending(s', p, e)
  {
    LoopIsCalled(s, p, e);
    StartIsReachable(Printed, s);
    var i :| 0 <= i < |s.ops| && s.ops[i].epoch == e && (s.ops[i].src == p || s.ops[i].target == p) && !TookEffect(s.ops, i);
    s' := ReturnsAnyway(s, s, p, e);
    var t :| OnlyFlags(s, t) && s'.ops == t.ops;
    assert t.ops[i] == s.ops[i].(flagDone := t.ops[i].flagDone);
    assert !TookEffect(s'.ops, i);
  }

  /**
   From any state in which a process is in the loop of a fence, of whatever epoch: as printed the
   fence may return there, through the barrier, with a call, a request or a flag of the epoch still
   open at that process, exactly when one is open now.
   */
  lemma PrintedGuardReturnsEarlyIff(np: nat, s: State, p: nat, e: nat)
    requires Reachable(Printed, np, s) && InLoop(s, p, e)
    ensures (exists s' :: ReachableFrom(Printed, s, s') && Returned(s', p, e) && HasOpen(s', p, e)) <==> HasOpen(s, p, e)
  {
    ReachableInv(Printed, np, s);
    if HasOpen(s, p, e) { var s' := ReturnsOpen(s, p, e); }
    if s' :| ReachableFrom(Printed, s, s') && Returned(s', p, e) && HasOpen(s', p, e) {
      LoopIsCalled(s, p, e);
      SinceReachable(s, s', e);
      OpenBefore(s, s', p, e);
    }
  }

  /** In the first epoch that is when the documented guard would wait. */
  lemma FirstFenceReturnsEarlyIff(np: nat, s: State, p: nat)
    requires Reachable(Printed, np, s) && InLoop(s, p, 0)
    ensures (exists s' :: ReachableFrom(Printed, s, s') && Returned(s', p, 0) && HasOpen(s', p, 0)) <==> KeepsWaiting(Documented, s.procs[p])
  {
    ReachableInv(Printed, np, s);
    OpenIffWaits(s, p);
    PrintedGuardReturnsEarlyIff(np, s, p, 0);
  }

  /** A request of the operation has been made at process `p` and is not complete. */
  predicate RequestOpen(o: Op, p: nat) {
    HasData(o) && ((o.src == p && !OriginDone(o)) || (o.target == p && o.handled && !TargetDone(o)))
  }

  ghost predicate CallIsOpenAt(s: State, p: nat) {
    exists i :: 0 <= i < |s.ops| && s.ops[i].target == p && !s.ops[i].handled
  }

  ghost predicate RequestIsOpenAt(s: State, p: nat) {
    exists i :: 0 <= i < |s.ops| && RequestOpen(s.ops[i], p)
  }

  ghost predicate FlagIsOpenAt(s: State, p: nat) {
    exists i :: 0 <= i < |s.ops| && s.ops[i].src == p && !s.ops[i].flagDone
  }

  lemma CallsInFirstLoop(s: State, p: nat)
    requires Inv(Printed, s) && InLoop(s, p, 0)
    ensures s.procs[p].processed < s.procs[p].incoming <==> CallIsOpenAt(s, p)
  {
    assert CountersOk(s, p) && ProcessedOk(Printed, s, p);
    CountSplit(s.ops, To(p, 0), Handled(p, 0), InFlight(p, 0));
    CountNone(s.ops, InFlight(p, 0));
    LoopIsCalled(s, p, 0);
    forall i | 0 <= i < |s.ops|
      ensures s.ops[i].target == p && !s.ops[i].handled <==> InFlight(p, 0)(s.ops[i])
    {
      assert OpOk(s, s.ops[i]);
    }
  }

  lemma RequestsCounted(s: State, p: nat)
    requires p < |s.procs| && OpenOk(s, p)
    ensures s.procs[p].reqs > 0 <==> RequestIsOpenAt(s, p)
  {
    CountNone(s.ops, OriginPending(p));
    CountNone(s.ops, TargetPending(p));
    forall i | 0 <= i < |s.ops|
      ensures RequestOpen(s.ops[i], p) <==> OriginPending(p)(s.ops[i]) || TargetPending(p)(s.ops[i])
    {
    }
  }

  lemma FlagsCounted(s: State, p: nat)
    requires p < |s.procs| && OpenOk(s, p)
    ensures s.procs[p].flags > 0 <==> FlagIsOpenAt(s, p)
  {
    CountNone(s.ops, Unflagged(p));
    assert forall i :: 0 <= i < |s.ops| ==> (Unflagged(p)(s.ops[i]) <==> s.ops[i].src == p && !s.ops[i].flagDone);
  }

  /** As printed a first fence waits only while a call, a request and a flag are open there, all three at once. */
  lemma PrintedGuardWaitsIff(np: nat, s: State, p: nat)
    requires Reachable(Printed, np, s) && InLoop(s, p, 0)
    ensures Shape(s)
    ensures !Enabled(Printed, s, LeaveLoop(p)) <==> CallIsOpenAt(s, p) && RequestIsOpenAt(s, p) && FlagIsOpenAt(s, p)
  {
    ReachableInv(Printed, np, s);
    CallsInFirstLoop(s, p);
    assert CountersOk(s, p);
    RequestsCounted(s, p);
    FlagsCounted(s, p);
  }

  /** And with an operation between it and another process without effect, exactly when one has none now. */
  lemma PrintedGuardLosesEffectIff(np: nat, s: State, p: nat, e: nat)
    requires Reachable(Printed, np, s) && InLoop(s, p, e)
    ensures (exists s' :: ReachableFrom(Printed, s, s') && Returned(s', p, e) && HasPending(s', p, e)) <==> HasPending(s, p, e)
  {
    ReachableInv(Printed, np, s);
    if HasPending(s, p, e) { var s' := ReturnsPending(s, p, e); }
    if s' :| ReachableFrom(Printed, s, s') && Returned(s', p, e) && HasPending(s', p, e) {
      LoopIsCalled(s, p, e);
      SinceReachable(s, s', e);
      PendingBefore(s, s', p, e);
    }
  }

  // ------------------------------------------------------------------- what a program may rely on

  /** Call `a` of process `q` is one of `p` or to `p`. */
  predicate CallAt(plan: Plan, p: nat, q: nat, a: nat) {
    q < |plan| && a < |plan[q]| && (q == p || plan[q][a].target == p)
  }

  ghost predicate CallsAt(plan: Plan, p: nat) {
    exists q: nat, a: nat :: CallAt(plan, p, q, a)
  }

  /** However the run goes: once `p` has returned from the fence, its operations have had their effect. */
  ghost predicate PrintedIsSure(e: nat, plan: Plan, p: nat) {
    forall s :: Reachable(Printed, |plan|, s) && Fits(s, e, plan) && Returned(s, p, e) ==> !HasPending(s, p, e)
  }

  /** All processes have called the fence; process `p` is the first to get to its loop. */
  lemma FirstToLoop(np: nat, s: State, e: nat, p: nat) returns (s': State)
    requires Reachable(Printed, np, s) && Shape(s) && Entering(s, e, |s.procs|) && p < |s.procs|
    ensures Reachable(Printed, np, s') && InLoop(s', p, e) && s'.ops == s.ops && |s'.procs| == |s.procs|
  {
    assert forall q :: 0 <= q < |s.procs| ==> Entered(s.procs[q], e);
    Extend(Printed, Init(np), s, LeaveAlltoall(p));
    s' := Apply(Printed, s, LeaveAlltoall(p));
  }

  lemma UntouchedIsPending(s: State, e: nat, plan: Plan, p: nat, q: nat, a: nat)
    requires Untouched(s) && Fits(s, e, plan) && CallAt(plan, p, q, a)
    ensures HasPending(s, p, e)
  {
    var i := CallToOp(s.ops, q, e, a);
    assert !TookEffect(s.ops, i);
  }

  /** Whatever the plan and the epoch: an operation can be left without effect at a process that has returned. */
  lemma PlanLosesEffect(e: nat, plan: Plan, p: nat, q: nat, a: nat) returns (s: State)
    requires ValidPlan(plan) && p < |plan| && CallAt(plan, p, q, a)
    ensures Reachable(Printed, |plan|, s) && Fits(s, e, plan) && Returned(s, p, e) && HasPending(s, p, e)
  {
    var s1 := LoopForPlan(e, plan, p, q, a);
    ReachableInv(Printed, |plan|, s1);
    s := ReturnsPending(s1, p, e);
    Joined(Printed, Init(|plan|), s1, s);
    LoopIsCalled(s1, p, e);
    SinceReachable(s1, s, e);
    LaterFits(s1, s, e, plan);
  }

  lemma ReachableShape(np: nat, s: State)
    requires Reachable(Documented, np, s)
    ensures Shape(s)
  {
    ReachableInv(Documented, np, s);
  }

  /** All processes have called what the plan says and then the fence, and nothing else has happened. */
  lemma FenceForPlan(e: nat, plan: Plan) returns (s: State)
    requires ValidPlan(plan)
    ensures Reachable(Printed, |plan|, s) && Shape(s) && Entering(s, e, |s.procs|) && Untouched(s) && Fits(s, e, plan)
  {
    var s0 := IssueAll(e, plan);
    ReachableShape(|plan|, s0);
    s := EnterAll(Init(|plan|), s0, e, 0);
    DocumentedIsPrinted(Init(|plan|), s);
    SameOpsFit(s0, s, e, plan);
  }

  lemma LoopForPlan(e: nat, plan: Plan, p: nat, q: nat, a: nat) returns (s: State)
    requires ValidPlan(plan) && p < |plan| && CallAt(plan, p, q, a)
    ensures Reachable(Printed, |plan|, s) && InLoop(s, p, e) && Fits(s, e, plan) && HasPending(s, p, e)
  {
    var s0 := FenceForPlan(e, plan);
    UntouchedIsPending(s0, e, plan, p, q, a);
    s := FirstToLoop(|plan|, s0, e, p);
    SameOpsFit(s0, s, e, plan);
  }

  lemma SameOpsFit(s: State, s': State, e: nat, plan: Plan)
    requires Fits(s, e, plan) && s'.ops == s.ops && |s'.procs| == |s.procs|
    ensures Fits(s', e, plan)
  {
  }

  lemma {:induction false} LaterCallsElsewhere(ops: seq<Op>, n: nat, p: nat, e: nat)
    requires n <= |ops| && forall i :: n <= i < |ops| ==> ops[i].epoch != e
    ensures IssuedBy(ops, p, e) == IssuedBy(ops[..n], p, e)
    decreases |ops|
  {
    if n == |ops| {
      assert ops[..n] == ops;
    } else {
      assert ops[..|ops| - 1][..n] == ops[..n];
      LaterCallsElsewhere(ops[..|ops| - 1], n, p, e);
    }
  }

  lemma LaterFits(from: State, s: State, e: nat, plan: Plan)
    requires Since(from, s, e) && Fits(from, e, plan)
    ensures Fits(s, e, plan)
  {
    forall p | 0 <= p < |plan|
      ensures IssuedBy(s.ops, p, e) == plan[p]
    {
      LaterCallsElsewhere(s.ops, |from.ops|, p, e);
      FollowingCalls(from.ops, s.ops[..|from.ops|], p, e);
    }
  }

  lemma PendingIsCalled(s: State, e: nat, plan: Plan, p: nat)
    requires Shape(s) && Fits(s, e, plan) && HasPending(s, p, e)
    ensures CallsAt(plan, p)
  {
    var i :| 0 <= i < |s.ops| && s.ops[i].epoch == e && (s.ops[i].src == p || s.ops[i].target == p) && !TookEffect(s.ops, i);
    var a := OpToCall(s.ops, i);
    assert CallAt(plan, p, s.ops[i].src, a);
  }

  /**
   What can be checked before anything is called: as printed the fence is sure to have had all effects
   at a process exactly when the process calls nothing and nothing is called on it.
   */
  lemma PrintedIsSureIff(e: nat, plan: Plan, p: nat)
    requires ValidPlan(plan) && p < |plan|
    ensures PrintedIsSure(e, plan, p) <==> !CallsAt(plan, p)
  {
    if q: nat, a: nat :| CallAt(plan, p, q, a) { var s := PlanLosesEffect(e, plan, p, q, a); }
    if s :| Reachable(Printed, |plan|, s) && Fits(s, e, plan) && Returned(s, p, e) && HasPending(s, p, e) {
      ReachableInv(Printed, |plan|, s);
      PendingIsCalled(s, e, plan, p);
    }
  }

  /** In particular, for every epoch and kind of operation: a run in which its target has returned and it has had no effect. */
  lemma PrintedGuardFails(e: nat, kind: Kind) returns (s: State)
    ensures Reachable(Printed, 2, s) && Returned(s, 1, e) && HasPending(s, 1, e)
  {
    var plan: Plan := [[Call(kind, 1)], []];
    s := PlanLosesEffect(e, plan, 1, 0, 0);
  }
}
