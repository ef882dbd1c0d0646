/**
 When the data of the counting fence gets to where it belongs: exactly when no get of an epoch has
 the tag of a large put that comes back the other way.
 */
module FenceTags {
  import opened Common
  import opened CountingFence
  import opened FenceMatching
  import opened FenceProgress

  /** What a program says when it calls an operation. */
  datatype Call = Call(kind: Kind, target: nat)

  function CallOf(o: Op): Call { Call(o.kind, o.target) }

  /** What process `p` has called in epoch `e`, in order. */
  function IssuedBy(ops: seq<Op>, p: nat, e: nat): seq<Call> {
    if ops == [] then [] else
      var o, calls := ops[|ops| - 1], IssuedBy(ops[..|ops| - 1], p, e);
      if o.src == p && o.epoch == e then calls + [CallOf(o)] else calls
  }

  /** The tag that call number `a` gets: how many gets and large puts come before it. */
  function TagAt(calls: seq<Call>, a: nat): nat
    requires a <= |calls|
  {
    if a == 0 then 0 else TagAt(calls, a - 1) + if calls[a - 1].kind.PutEager? then 0 else 1
  }

  lemma {:induction false} TagOfPrefix(calls: seq<Call>, more: seq<Call>, a: nat)
    requires a <= |calls|
    ensures TagAt(calls + more, a) == TagAt(calls, a)
    decreases a
  {
    if a > 0 { TagOfPrefix(calls, more, a - 1); }
  }

  // ------------------------------------------------------------------- programs

  /** What each process calls in one epoch. */
  type Plan = seq<seq<Call>>

  predicate ValidPlan(plan: Plan) {
    forall p, a :: 0 <= p < |plan| && 0 <= a < |plan[p]| ==> plan[p][a].target < |plan| && plan[p][a].target != p
  }

  /** Call `a` of process `p` gets from a process whose call `b` is a large put back to `p` with the same tag. */
  predicate TagsMeet(plan: Plan, p: nat, a: nat, b: nat) {
    && p < |plan| && a < |plan[p]| && plan[p][a].kind.Get?
    && var t := plan[p][a].target;
    && t < |plan| && b < |plan[t]| && plan[t][b] == Call(PutLarge, p) && TagAt(plan[t], b) == TagAt(plan[p], a)
  }

  ghost predicate Collides(plan: Plan) {
    exists p: nat, a: nat, b: nat :: TagsMeet(plan, p, a, b)
  }

  /** Every process has called in epoch `e` what the plan says; what was called in other epochs is arbitrary. */
  ghost predicate Fits(s: State, e: nat, plan: Plan) {
    |s.procs| == |plan| && forall p :: 0 <= p < |plan| ==> IssuedBy(s.ops, p, e) == plan[p]
  }

  ghost predicate SomeoneReturned(s: State, e: nat) {
    exists p :: 0 <= p < |s.procs| && s.procs[p].fence > e
  }

  /** However the run goes: once any process has returned from the fence, all operations have had their effect. */
  ghost predicate EffectIsSure(e: nat, plan: Plan) {
    forall s, i ::
      Reachable(Documented, |plan|, s) && Fits(s, e, plan) && SomeoneReturned(s, e)
      && 0 <= i < |s.ops| && s.ops[i].epoch == e
      ==> TookEffect(s.ops, i)
  }

  // ------------------------------------------------------------------- calls and operations

  lemma {:induction false} TagsCount(ops: seq<Op>, p: nat, e: nat)
    ensures Count(ops, DataFrom(p, e)) == TagAt(IssuedBy(ops, p, e), |IssuedBy(ops, p, e)|)
    decreases |ops|
  {
    if ops != [] {
      var front, o := ops[..|ops| - 1], ops[|ops| - 1];
      TagsCount(front, p, e);
      var calls := IssuedBy(front, p, e);
      TagOfPrefix(calls, [CallOf(o)], |calls|);
    }
  }

  lemma {:induction false} CallToOp(ops: seq<Op>, p: nat, e: nat, a: nat) returns (i: nat)
    requires a < |IssuedBy(ops, p, e)|
    ensures i < |ops| && ops[i].src == p && ops[i].epoch == e && CallOf(ops[i]) == IssuedBy(ops, p, e)[a]
    ensures Count(ops[..i], DataFrom(p, e)) == TagAt(IssuedBy(ops, p, e), a)
    decreases |ops|
  {
    var front, o := ops[..|ops| - 1], ops[|ops| - 1];
    var calls := IssuedBy(front, p, e);
    TagOfPrefix(calls, [CallOf(o)], if a < |calls| then a else |calls|);
    if a < |calls| {
      i := CallToOp(front, p, e, a);
      assert front[..i] == ops[..i];
    } else {
      i := |front|;
      TagsCount(front, p, e);
    }
  }

  lemma {:induction false} OpToCall(ops: seq<Op>, i: nat) returns (a: nat)
    requires i < |ops|
    ensures var calls := IssuedBy(ops, ops[i].src, ops[i].epoch);
            a < |calls| && calls[a] == CallOf(ops[i]) && Count(ops[..i], DataFrom(ops[i].src, ops[i].epoch)) == TagAt(calls, a)
    decreases |ops|
  {
    var front, o := ops[..|ops| - 1], ops[|ops| - 1];
    var p, e := ops[i].src, ops[i].epoch;
    var calls := IssuedBy(front, p, e);
    if i < |front| {
      a := OpToCall(front, i);
      assert front[..i] == ops[..i];
      TagOfPrefix(calls, [CallOf(o)], a);
    } else {
      a := |calls|;
      TagsCount(front, p, e);
      TagOfPrefix(calls, [CallOf(o)], a);
    }
  }

  lemma {:induction false} FollowingCalls(ops: seq<Op>, ops': seq<Op>, p: nat, e: nat)
    requires AllFollow(ops, ops')
    ensures IssuedBy(ops', p, e) == IssuedBy(ops, p, e)
    decreases |ops|
  {
    if ops != [] {
      assert Follows(ops[|ops| - 1], ops'[|ops| - 1]);
      FollowingCalls(ops[..|ops| - 1], ops'[..|ops| - 1], p, e);
    }
  }

  /** Two operations that collide are two calls of the plan whose tags meet. */
  lemma CollisionInPlan(s: State, e: nat, plan: Plan, i: nat, j: nat)
    requires Shape(s) && TagsOk(s) && Fits(s, e, plan) && Collision(s.ops, i, j) && s.ops[i].epoch == e
    ensures Collides(plan)
  {
    var a := OpToCall(s.ops, i);
    var b := OpToCall(s.ops, j);
    assert TagsMeet(plan, s.ops[i].src, a, b);
  }

  lemma CollisionInRun(s: State, e: nat, plan: Plan) returns (i: nat, j: nat)
    requires TagsOk(s) && Fits(s, e, plan) && Collides(plan)
    ensures Collision(s.ops, i, j) && s.ops[i].epoch == e
  {
    var p: nat, a: nat, b: nat :| TagsMeet(plan, p, a, b);
    i := CallToOp(s.ops, p, e, a);
    j := CallToOp(s.ops, plan[p][a].target, e, b);
  }

  // ------------------------------------------------------------------- two messages that cross

  predicate Before(list: seq<nat>, x: nat, y: nat) {
    forall m, n :: 0 <= m < |list| && 0 <= n < |list| && list[m] == x && list[n] == y ==> m < n
  }

  /** A get and a large put that collide, each bound to get the data of the other. */
  predicate Crossed(s: State, i: nat, j: nat) {
    && Collision(s.ops, i, j)
    && (if s.ops[i].got == None then !s.ops[j].taken && s.ops[j].got == None && Before(s.sends, j, i) && Before(s.recvs, i, j)
        else s.ops[i].got == Some(j) && s.ops[j].taken && (s.ops[j].got == None || s.ops[j].got == Some(i)))
  }

  lemma OneMateEach(s: State, i: nat, j: nat, k: nat)
    requires TagsOk(s) && Collision(s.ops, i, j) && k < |s.ops| && IsOn(s.ops[k], ChannelOf(s.ops[i]))
    ensures k == i || k == j
  {
    ChannelMates(s, i, k);
    if k != i && k != j {
      if k < j { TagsDiffer(s, k, j); } else { TagsDiffer(s, j, k); }
    }
  }

  /** The oldest of a channel is not the one that comes later. */
  lemma NotTheLater(s: State, list: seq<nat>, m: nat, x: nat, y: nat)
    requires (forall k :: 0 <= k < |list| ==> list[k] < |s.ops|) && m < |list| && Oldest(s, list, m, s.ops[list[m]])
    requires x in list && Before(list, x, y) && SameChannel(s.ops[x], s.ops[list[m]])
    ensures list[m] != y
  {
    var k :| 0 <= k < |list| && list[k] == x;
  }

  /** Who can be matched with whom. */
  predicate Apart(s: State, x: nat, y: nat, i: nat, j: nat)
    requires i < |s.ops|
  {
    (x != i && x != j && y != i && y != j) || (y == i && x == j) || (y == j && x == i && s.ops[i].got == Some(j))
  }

  lemma CrossedReceive(s: State, m: nat, n: nat, i: nat, j: nat)
    requires Inv(Documented, s) && MatchInv(s) && Enabled(Documented, s, Receive(m, n)) && Crossed(s, i, j)
    ensures Apart(s, s.sends[m], s.recvs[n], i, j)
  {
    var x, y := s.sends[m], s.recvs[n];
    MatchedInItsEpoch(s, m, n);
    if x == i || x == j || y == i || y == j {
      OneMateEach(s, i, j, x);
      OneMateEach(s, i, j, y);
      if s.ops[i].got == None {
        NotTheLater(s, s.sends, m, j, i);
        NotTheLater(s, s.recvs, n, i, j);
      }
    }
  }

  lemma StillBefore(list: seq<nat>, at: nat, x: nat, y: nat)
    requires at < |list| && Before(list, x, y)
    ensures Before(Without(list, at), x, y)
  {
  }

  lemma CrossedMatched(s: State, m: nat, n: nat, i: nat, j: nat)
    requires Shape(s) && m < |s.sends| && n < |s.recvs| && Crossed(s, i, j) && Apart(s, s.sends[m], s.recvs[n], i, j)
    ensures Crossed(Matched(s, m, n), i, j)
  {
    if s.ops[i].got == None {
      StillBefore(s.sends, m, j, i);
      StillBefore(s.recvs, n, i, j);
    }
  }

  lemma AppendBefore(list: seq<nat>, k: nat, x: nat, y: nat)
    requires Before(list, x, y) && k != x
    ensures Before(list + [k], x, y)
  {
  }

  /** Nothing is matched, and the lists only get longer, but not by the one that comes first. */
  lemma CrossedKept(s: State, s': State, i: nat, j: nat)
    requires Crossed(s, i, j) && |s.ops| <= |s'.ops| && SameMatches(s.ops, s'.ops[..|s.ops|])
    requires s'.sends == s.sends || exists k: nat :: k != j && s'.sends == s.sends + [k]
    requires s'.recvs == s.recvs || exists k: nat :: k != i && s'.recvs == s.recvs + [k]
    ensures Crossed(s', i, j)
  {
    assert Follows(s.ops[i], s'.ops[i]) && Follows(s.ops[j], s'.ops[j]);
    if s.ops[i].got == None {
      if k: nat :| k != j && s'.sends == s.sends + [k] { AppendBefore(s.sends, k, j, i); }
      if k: nat :| k != i && s'.recvs == s.recvs + [k] { AppendBefore(s.recvs, k, i, j); }
    }
  }

  lemma CrossedIssue(s: State, p: nat, kind: Kind, t: nat, i: nat, j: nat)
    requires Shape(s) && Enabled(Documented, s, Issue(p, kind, t)) && Crossed(s, i, j)
    ensures Crossed(Issued(s, p, kind, t), i, j)
  {
    assert Issued(s, p, kind, t).ops[..|s.ops|] == s.ops;
    CrossedKept(s, Issued(s, p, kind, t), i, j);
  }

  lemma CrossedOther(s: State, a: Step, i: nat, j: nat)
    requires Shape(s) && Enabled(Documented, s, a) && !a.Receive? && !a.Issue? && Crossed(s, i, j)
    ensures Crossed(Apply(Documented, s, a), i, j)
  {
    var s' := Apply(Documented, s, a);
    OtherMatches(s, a);
    assert s'.ops[..|s.ops|] == s'.ops;
    CrossedKept(s, s', i, j);
  }

  lemma CrossedStep(s: State, a: Step, i: nat, j: nat)
    requires Inv(Documented, s) && MatchInv(s) && Enabled(Documented, s, a) && Crossed(s, i, j)
    ensures Crossed(Apply(Documented, s, a), i, j)
  {
    if a.Receive? {
      CrossedReceive(s, a.m, a.n, i, j);
      CrossedMatched(s, a.m, a.n, i, j);
    } else if a.Issue? {
      CrossedIssue(s, a.p, a.kind, a.target, i, j);
    } else {
      CrossedOther(s, a, i, j);
    }
  }

  lemma {:induction false} CrossedRun(from: State, run: seq<State>, i: nat, j: nat)
    requires Inv(Documented, from) && MatchInv(from) && Crossed(from, i, j) && RunFrom(Documented, from, run)
    ensures Crossed(run[|run| - 1], i, j)
    decreases |run|
  {
    if |run| > 1 {
      var front, s, a := LastStep(Documented, from, run);
      CrossedRun(from, front, i, j);
      RunMatch(from, front);
      CrossedStep(s, a, i, j);
    }
  }

  // ------------------------------------------------------------------- a run for every plan

  lemma EmptyEpoch(np: nat, e: nat) returns (s: State)
    ensures Reachable(Documented, np, s) && AllWorking(s, e) && |s.procs| == np && s.ops == []
    decreases e
  {
    if e == 0 {
      s := Init(np);
      StartIsReachable(Documented, s);
    } else {
      var s0 := EmptyEpoch(np, e - 1);
      ReachableInv(Documented, np, s0);
      s := PassFence(np, s0, e - 1);
    }
  }

  function Sizes(plan: Plan): (r: seq<int>)
    ensures |r| == |plan| && forall p :: 0 <= p < |plan| ==> r[p] == |plan[p]|
  {
    seq(|plan|, p requires 0 <= p < |plan| => |plan[p]|)
  }

  /** The plan without the last call of process `p`. */
  function Shorter(plan: Plan, p: nat): Plan
    requires p < |plan| && plan[p] != []
  {
    plan[p := plan[p][..|plan[p]| - 1]]
  }

  lemma ShorterIsSmaller(plan: Plan, p: nat)
    requires p < |plan| && plan[p] != []
    ensures 0 <= Sum(Sizes(Shorter(plan, p))) < Sum(Sizes(plan))
  {
    SumNonNegative(Sizes(Shorter(plan, p)));
    assert Sizes(Shorter(plan, p)) == Sizes(plan)[p := |plan[p]| - 1];
    SumUpdate(Sizes(plan), p, |plan[p]| - 1);
  }

  /** Nothing has happened to an operation yet. */
  predicate Untouched(s: State) {
    forall i :: 0 <= i < |s.ops| ==> !s.ops[i].handled && !s.ops[i].taken && s.ops[i].got == None
  }

  lemma IssuedFits(s: State, e: nat, plan: Plan, p: nat)
    requires Shape(s) && AllWorking(s, e) && Untouched(s) && ValidPlan(plan) && p < |plan| && plan[p] != []
    requires Fits(s, e, Shorter(plan, p))
    ensures var c := plan[p][|plan[p]| - 1];
            && Enabled(Documented, s, Issue(p, c.kind, c.target))
            && var s' := Issued(s, p, c.kind, c.target);
            AllWorking(s', e) && Untouched(s') && Fits(s', e, plan)
  {
    var c := plan[p][|plan[p]| - 1];
    var s' := Issued(s, p, c.kind, c.target);
    assert s'.ops[..|s'.ops| - 1] == s.ops;
    assert plan[p] == Shorter(plan, p)[p] + [c];
  }

  lemma IssueAll(e: nat, plan: Plan) returns (s: State)
    requires ValidPlan(plan)
    ensures Reachable(Documented, |plan|, s) && AllWorking(s, e) && Untouched(s) && Fits(s, e, plan)
    decreases Sum(Sizes(plan))
  {
    if p :| 0 <= p < |plan| && plan[p] != [] {
      ShorterIsSmaller(plan, p);
      var s0 := IssueAll(e, Shorter(plan, p));
      ReachableInv(Documented, |plan|, s0);
      IssuedFits(s0, e, plan, p);
      var c := plan[p][|plan[p]| - 1];
      Extend(Documented, Init(|plan|), s0, Issue(p, c.kind, c.target));
      s := Issued(s0, p, c.kind, c.target);
    } else {
      s := EmptyEpoch(|plan|, e);
    }
  }

  // ------------------------------------------------------------------- results

  /** The two have each other's data. */
  predicate Swapped(ops: seq<Op>, i: nat, j: nat) {
    Collision(ops, i, j) && ops[i].got == Some(j) && ops[j].got == Some(i)
  }

  /** When tags meet there is a run past the fence in which a get and a large put have swapped their data. */
  lemma CollisionSwaps(e: nat, plan: Plan) returns (s: State, i: nat, j: nat)
    requires ValidPlan(plan) && Collides(plan)
    ensures Reachable(Documented, |plan|, s) && Fits(s, e, plan) && AllWorking(s, e + 1)
    ensures Swapped(s.ops, i, j) && s.ops[i].epoch == e
  {
    var s0 := IssueAll(e, plan);
    ReachableMatch(|plan|, s0);
    i, j := CollisionInRun(s0, e, plan);
    UntouchedIsCrossed(s0, i, j);
    s := PassFence(|plan|, s0, e);
    SwappedAtEnd(s0, s, e, i, j);
    FollowingFits(s0, s, e, plan);
  }

  lemma FollowingFits(s0: State, s: State, e: nat, plan: Plan)
    requires Fits(s0, e, plan) && |s.procs| == |s0.procs| && AllFollow(s0.ops, s.ops)
    ensures Fits(s, e, plan)
  {
    forall p | 0 <= p < |plan|
      ensures IssuedBy(s.ops, p, e) == plan[p]
    {
      FollowingCalls(s0.ops, s.ops, p, e);
    }
  }

  lemma UntouchedIsCrossed(s: State, i: nat, j: nat)
    requires Inv(Documented, s) && Untouched(s) && Collision(s.ops, i, j)
    ensures Crossed(s, i, j)
  {
  }

  lemma SwappedAtEnd(s0: State, s: State, e: nat, i: nat, j: nat)
    requires Inv(Documented, s0) && MatchInv(s0) && Crossed(s0, i, j) && s0.ops[i].epoch == e && s0.procs != []
    requires ReachableFrom(Documented, s0, s) && AllWorking(s, e + 1) && |s.procs| == |s0.procs| && AllFollow(s0.ops, s.ops)
    ensures Swapped(s.ops, i, j) && s.ops[i].epoch == e
  {
    var run :| RunFrom(Documented, s0, run) && run[|run| - 1] == s;
    CrossedRun(s0, run, i, j);
    RunMatch(s0, run);
    ClosedBefore(s, 0, i);
    ClosedBefore(s, 0, j);
  }

  lemma NoCollisionNoSwap(e: nat, plan: Plan, s: State, i: nat)
    requires !Collides(plan) && Reachable(Documented, |plan|, s) && Fits(s, e, plan) && SomeoneReturned(s, e)
    requires i < |s.ops| && s.ops[i].epoch == e
    ensures TookEffect(s.ops, i)
  {
    ReachableMatch(|plan|, s);
    var p :| 0 <= p < |s.procs| && s.procs[p].fence > e;
    ClosedBefore(s, p, i);
    if HasData(s.ops[i]) {
      GotOwnOrCollides(s, i);
      var x := s.ops[i].got.value;
      if Collision(s.ops, i, x) { CollisionInPlan(s, e, plan, i, x); }
      if Collision(s.ops, x, i) { CollisionInPlan(s, e, plan, x, i); }
    }
  }

  /**
   Whatever the processes call in an epoch: every operation is sure to have had its effect when the
   fence returns exactly when no get has the tag of a large put from its target back to its origin.
   */
  lemma EffectIsSureIff(e: nat, plan: Plan)
    requires ValidPlan(plan)
    ensures EffectIsSure(e, plan) <==> !Collides(plan)
  {
    if Collides(plan) {
      var s, i, j := CollisionSwaps(e, plan);
      assert s.procs[s.ops[i].src].fence > e by { ReachableInv(Documented, |plan|, s); }
      assert !TookEffect(s.ops, i);
    } else {
      forall s, i | Reachable(Documented, |plan|, s) && Fits(s, e, plan) && SomeoneReturned(s, e)
                    && 0 <= i < |s.ops| && s.ops[i].epoch == e
        ensures TookEffect(s.ops, i)
      {
        NoCollisionNoSwap(e, plan, s, i);
      }
    }
  }

  /** The smallest such plan: two processes, a get one way and a large put the other. */
  lemma GetAgainstPut(e: nat)
    ensures !EffectIsSure(e, [[Call(Get, 1)], [Call(PutLarge, 0)]])
  {
    var plan := [[Call(Get, 1)], [Call(PutLarge, 0)]];
    assert TagsMeet(plan, 0, 0, 0);
    EffectIsSureIff(e, plan);
  }
}
