/**
 Passive-target accumulation (passive_acc.c): rank 0 polls a counter under an exclusive lock
 while every other rank adds to two elements, one at a time, under a shared lock.
 */
module PassiveAccumulate {
  import opened Common

  datatype RootPC = Lock | Read | Unlock | Test | Exited

  /** `Adding`: inside the shared lock, with which of the two elements already added. */
  datatype RankPC = Before | Adding(first: bool, second: bool) | After

  /** `holders`: ranks with the shared lock; `exclusive`: rank 0 has the exclusive one. */
  datatype State = State(root: RootPC, count: int, exclusive: bool, holders: set<nat>,
                         ranks: seq<RankPC>, data0: int, data1: int)

  datatype Step = Root | LockShared(r: nat) | AddFirst(r: nat) | AddSecond(r: nat) | UnlockShared(r: nat)

  /** `ranks[0]` belongs to rank 0 itself and never moves. */
  ghost function Init(np: nat): State {
    State(Lock, 0, false, {}, seq(np, _ => Before), 0, 0)
  }

  predicate IsOrigin(s: State, r: nat) {
    1 <= r < |s.ranks|
  }

  predicate Enabled(s: State, a: Step) {
    match a
    case Root => s.root != Exited && (s.root == Lock ==> s.holders == {} && !s.exclusive)
    case LockShared(r) => IsOrigin(s, r) && s.ranks[r] == Before && !s.exclusive
    case AddFirst(r) => IsOrigin(s, r) && s.ranks[r].Adding? && !s.ranks[r].first
    case AddSecond(r) => IsOrigin(s, r) && s.ranks[r].Adding? && !s.ranks[r].second
    case UnlockShared(r) => IsOrigin(s, r) && s.ranks[r] == Adding(true, true)
  }

  function Apply(s: State, a: Step): State
    requires Enabled(s, a)
  {
    match a
    case Root => (
      match s.root
      case Lock => s.(root := Read, exclusive := true)
      case Read => s.(root := Unlock, count := s.data0)
      case Unlock => s.(root := Test, exclusive := false)
      case Test => s.(root := if s.count < |s.ranks| - 1 then Lock else Exited)
      case Exited => s)
    case LockShared(r) => s.(holders := s.holders + {r}, ranks := s.ranks[r := Adding(false, false)])
    case AddFirst(r) => s.(data0 := s.data0 + 1, ranks := s.ranks[r := Adding(true, s.ranks[r].second)])
    case AddSecond(r) => s.(data1 := s.data1 + r, ranks := s.ranks[r := Adding(s.ranks[r].first, true)])
    case UnlockShared(r) => s.(holders := s.holders - {r}, ranks := s.ranks[r := After])
  }

  ghost predicate Next(s: State, s': State) {
    exists a :: Enabled(s, a) && s' == Apply(s, a)
  }

  ghost predicate Run(np: nat, run: seq<State>) {
    |run| >= 1 && if |run| == 1 then run == [Init(np)] else Run(np, run[..|run| - 1]) && Next(run[|run| - 2], run[|run| - 1])
  }

  ghost predicate Reachable(np: nat, s: State) {
    exists run :: Run(np, run) && run[|run| - 1] == s
  }

  // ------------------------------------------------------------------- what the ranks have added

  function FirstOf(pc: RankPC): int {
    if pc == After || (pc.Adding? && pc.first) then 1 else 0
  }

  function SecondOf(pc: RankPC): int {
    if pc == After || (pc.Adding? && pc.second) then 1 else 0
  }

  function DoneOf(pc: RankPC): int {
    if pc == After then 1 else 0
  }

  function Firsts(s: State): seq<int> { seq(|s.ranks|, r requires 0 <= r < |s.ranks| => FirstOf(s.ranks[r])) }
  function Seconds(s: State): seq<int> { seq(|s.ranks|, r requires 0 <= r < |s.ranks| => r * SecondOf(s.ranks[r])) }
  function Dones(s: State): seq<int> { seq(|s.ranks|, r requires 0 <= r < |s.ranks| => DoneOf(s.ranks[r])) }

  ghost predicate Inv(np: nat, s: State) {
    && |s.ranks| == np && (np > 0 ==> s.ranks[0] == Before)
    && (s.exclusive <==> s.root == Read || s.root == Unlock)
    && (forall r: nat :: r in s.holders <==> r < np && s.ranks[r].Adding?)
    && (s.exclusive ==> s.holders == {})
    && s.data0 == Sum(Firsts(s)) && s.data1 == Sum(Seconds(s))
    && (s.root == Unlock || s.root == Test || s.root == Exited ==> s.count <= Sum(Dones(s)))
    && (s.root == Exited ==> s.count >= np - 1)
  }

  lemma InitInv(np: nat)
    ensures Inv(np, Init(np))
  {
    SumOfZeros(Firsts(Init(np)));
    SumOfZeros(Seconds(Init(np)));
  }

  lemma RankMoves(s: State, s': State, r: nat)
    requires r < |s.ranks| == |s'.ranks| && s'.ranks == s.ranks[r := s'.ranks[r]]
    ensures Sum(Firsts(s')) == Sum(Firsts(s)) - FirstOf(s.ranks[r]) + FirstOf(s'.ranks[r])
    ensures Sum(Seconds(s')) == Sum(Seconds(s)) - r * SecondOf(s.ranks[r]) + r * SecondOf(s'.ranks[r])
    ensures Sum(Dones(s')) == Sum(Dones(s)) - DoneOf(s.ranks[r]) + DoneOf(s'.ranks[r])
  {
    assert Firsts(s') == Firsts(s)[r := FirstOf(s'.ranks[r])];
    assert Seconds(s') == Seconds(s)[r := r * SecondOf(s'.ranks[r])];
    assert Dones(s') == Dones(s)[r := DoneOf(s'.ranks[r])];
    SumUpdate(Firsts(s), r, FirstOf(s'.ranks[r]));
    SumUpdate(Seconds(s), r, r * SecondOf(s'.ranks[r]));
    SumUpdate(Dones(s), r, DoneOf(s'.ranks[r]));
  }

  lemma StepInv(np: nat, s: State, a: Step)
    requires Inv(np, s) && Enabled(s, a)
    ensures Inv(np, Apply(s, a))
  {
    var s' := Apply(s, a);
    if a.Root? {
      assert Firsts(s') == Firsts(s) && Seconds(s') == Seconds(s) && Dones(s') == Dones(s);
      if s.root == Read {
        assert Firsts(s) == Dones(s);
      }
    } else {
      RankMoves(s, s', a.r);
    }
  }

  lemma {:induction false} RunInv(np: nat, run: seq<State>)
    requires Run(np, run)
    ensures Inv(np, run[|run| - 1])
    decreases |run|
  {
    if |run| == 1 {
      InitInv(np);
    } else {
      RunInv(np, run[..|run| - 1]);
      var a :| Enabled(run[|run| - 2], a) && run[|run| - 1] == Apply(run[|run| - 2], a);
      StepInv(np, run[|run| - 2], a);
    }
  }

  lemma ReachableInv(np: nat, s: State)
    requires Reachable(np, s)
    ensures Inv(np, s)
  {
    var run :| Run(np, run) && run[|run| - 1] == s;
    RunInv(np, run);
  }

  // ------------------------------------------------------------------- results

  /** The sum of the numbers below `n`. */
  lemma {:induction false} SumOfNumbers(n: nat)
    ensures Sum(seq(n, r => r)) * 2 == n * (n - 1)
  {
    if n > 0 {
      SumOfNumbers(n - 1);
      assert seq(n, r => r) == seq(n - 1, r => r) + [n - 1];
      SumAppend(seq(n - 1, r => r), [n - 1]);
      assert Sum([n - 1]) == n - 1;
    }
  }

  lemma {:induction false} AllOnes(xs: seq<int>)
    requires forall i :: 0 <= i < |xs| ==> 0 <= xs[i] <= 1
    ensures Sum(xs) <= |xs|
    ensures Sum(xs) == |xs| ==> forall i :: 0 <= i < |xs| ==> xs[i] == 1
  {
    if xs != [] {
      AllOnes(xs[1..]);
      assert forall i :: 0 < i < |xs| ==> xs[i] == xs[1..][i - 1];
    }
  }

  /** While rank 0 holds its lock no rank is half way: both elements count the same ranks. */
  lemma ExclusiveLockSeesWholeAdditions(np: nat, s: State)
    requires Reachable(np, s) && s.exclusive
    ensures forall r :: 0 <= r < |s.ranks| ==> !s.ranks[r].Adding?
    ensures s.data0 == Sum(Dones(s))
    ensures s.data1 == Sum(seq(|s.ranks|, r requires 0 <= r < |s.ranks| => r * DoneOf(s.ranks[r])))
  {
    ReachableInv(np, s);
    forall r | 0 <= r < |s.ranks|
      ensures !s.ranks[r].Adding?
    {
      assert r !in s.holders;
    }
    assert Firsts(s) == Dones(s);
    assert Seconds(s) == seq(|s.ranks|, r requires 0 <= r < |s.ranks| => r * DoneOf(s.ranks[r]));
  }

  lemma AllRanksDone(np: nat, s: State)
    requires np >= 1 && Inv(np, s) && s.root == Exited
    ensures forall r :: 1 <= r < np ==> s.ranks[r] == After
  {
    var d := Dones(s);
    AllOnes(d[1..]);
    assert Sum(d) == d[0] + Sum(d[1..]) && d[0] == 0;
    forall r | 1 <= r < np
      ensures s.ranks[r] == After
    {
      assert d[1..][r - 1] == d[r] == DoneOf(s.ranks[r]);
    }
  }

  /** When the polling loop has ended, both results are final and complete, in every interleaving. */
  lemma PollingLoopIsRight(np: nat, s: State)
    requires np >= 2 && Reachable(np, s) && s.root == Exited
    ensures s.data0 == np - 1
    ensures s.data1 * 2 == np * (np - 1)
    ensures forall a :: !Enabled(s, a)
  {
    ReachableInv(np, s);
    AllRanksDone(np, s);
    var f := Firsts(s);
    assert f == [f[0]] + f[1..] && f[0] == 0;
    AllOnesSum(f[1..]);
    assert Seconds(s) == seq(np, r => r);
    SumOfNumbers(np);
  }

  lemma {:induction false} AllOnesSum(xs: seq<int>)
    requires forall i :: 0 <= i < |xs| ==> xs[i] == 1
    ensures Sum(xs) == |xs|
  {
    if xs != [] { AllOnesSum(xs[1..]); }
  }

  /** Until the loop has ended some step is possible: the locks never block each other for good. */
  lemma NoDeadlock(np: nat, s: State) returns (a: Step)
    requires Reachable(np, s) && s.root != Exited
    ensures Enabled(s, a)
  {
    ReachableInv(np, s);
    if Enabled(s, Root) {
      a := Root;
    } else {
      var r :| r in s.holders;
      var pc := s.ranks[r];
      a := if !pc.first then AddFirst(r) else if !pc.second then AddSecond(r) else UnlockShared(r);
    }
  }

  // ------------------------------------------------------------------- the loop ends

  function Last(run: seq<State>): State
    requires run != []
  {
    run[|run| - 1]
  }

  /** What the ranks still have to do, in steps. */
  function ToDo(pc: RankPC): nat {
    match pc
    case Before => 4
    case Adding(first, second) => 1 + (if first then 0 else 1) + (if second then 0 else 1)
    case After => 0
  }

  function Work(s: State): int {
    Sum(seq(|s.ranks|, r requires 0 <= r < |s.ranks| => if r == 0 then 0 else ToDo(s.ranks[r])))
  }

  /** How far rank 0 is from leaving the loop when it need not read again, and when it must. */
  function Ahead(pc: RootPC): nat {
    match pc
    case Lock => 4
    case Read => 3
    case Unlock => 2
    case Test => 1
    case Exited => 0
  }

  function RootWork(np: nat, s: State): nat {
    Ahead(s.root) + if s.root in {Unlock, Test} && s.count < np - 1 then 4 else 0
  }

  /** No step adds to what the ranks have to do, and every step of theirs takes away from it. */
  lemma RanksDescend(np: nat, s: State, a: Step)
    requires Inv(np, s) && Enabled(s, a)
    ensures 0 <= Work(Apply(s, a)) == Work(s) - (if a.Root? then 0 else 1)
  {
    var s' := Apply(s, a);
    var left, left' := seq(|s.ranks|, r requires 0 <= r < |s.ranks| => if r == 0 then 0 else ToDo(s.ranks[r])),
                       seq(|s'.ranks|, r requires 0 <= r < |s'.ranks| => if r == 0 then 0 else ToDo(s'.ranks[r]));
    SumNonNegative(left');
    if a.Root? {
      assert left' == left;
    } else {
      SumUpdate(left, a.r, ToDo(s'.ranks[a.r]));
      assert left' == left[a.r := ToDo(s'.ranks[a.r])];
    }
  }

  predicate AllAfter(s: State) {
    forall r :: 1 <= r < |s.ranks| ==> s.ranks[r] == After
  }

  lemma AllCounted(np: nat, s: State)
    requires np >= 1 && Inv(np, s) && AllAfter(s)
    ensures s.data0 == np - 1 && s.holders == {}
  {
    var f := Firsts(s);
    assert f == [f[0]] + f[1..] && f[0] == 0;
    AllOnesSum(f[1..]);
  }

  /** When all ranks have unlocked, rank 0 alone can go on, and every step of it brings it nearer to the end. */
  lemma RootDescends(np: nat, s: State)
    requires np >= 1 && Inv(np, s) && AllAfter(s) && s.root != Exited
    ensures forall a :: Enabled(s, a) <==> a == Root
    ensures AllAfter(Apply(s, Root)) && RootWork(np, Apply(s, Root)) == RootWork(np, s) - 1
  {
    AllCounted(np, s);
  }

  /** Rank 0 takes a number of steps, as many as it can. */
  function RootSteps(s: State, n: nat): State
    decreases n
  {
    if n == 0 || !Enabled(s, Root) then s else RootSteps(Apply(s, Root), n - 1)
  }

  /** Six steps are enough: at most it has an old count to test, and then looks once more. */
  lemma {:induction false} SixStepsEnd(np: nat, s: State, n: nat)
    requires np >= 1 && Inv(np, s) && AllAfter(s) && RootWork(np, s) <= n
    ensures RootSteps(s, n).root == Exited && RootWork(np, s) <= 6
    decreases n
  {
    if s.root != Exited {
      RootDescends(np, s);
      StepInv(np, s, Root);
      SixStepsEnd(np, Apply(s, Root), n - 1);
    }
  }

  /** Once every other rank has unlocked, the loop ends within six steps of rank 0. */
  lemma LoopEndsInSix(np: nat, s: State)
    requires np >= 2 && Reachable(np, s) && forall r :: 1 <= r < |s.ranks| ==> s.ranks[r] == After
    ensures RootSteps(s, 6).root == Exited
  {
    ReachableInv(np, s);
    SixStepsEnd(np, s, 6);
  }

  lemma LongerRun(np: nat, run: seq<State>, a: Step)
    requires Run(np, run) && Enabled(Last(run), a)
    ensures Run(np, run + [Apply(Last(run), a)])
  {
    var s := Apply(Last(run), a);
    assert (run + [s])[..|run + [s]| - 1] == run;
    assert Next(Last(run), s);
  }

  /** While a rank has something to do, it can do it, or rank 0 is in its critical section and can get on. */
  lemma SomeRankOrRoot(np: nat, s: State) returns (a: Step)
    requires Inv(np, s) && !AllAfter(s)
    ensures Enabled(s, a) && (a.Root? ==> s.exclusive)
  {
    var r: nat :| 1 <= r < |s.ranks| && s.ranks[r] != After;
    var pc := s.ranks[r];
    a := if pc.Adding? then (if !pc.first then AddFirst(r) else if !pc.second then AddSecond(r) else UnlockShared(r))
         else if s.exclusive then Root else LockShared(r);
  }

  function Distance(np: nat, s: State): nat {
    if AllAfter(s) then RootWork(np, s) else 7 + (if s.exclusive then Ahead(s.root) else 0)
  }

  /** Every run can go on until rank 0 has left the loop, and then both results are complete. */
  lemma {:induction false} RunsEndWell(np: nat, run: seq<State>) returns (longer: seq<State>)
    requires np >= 2 && Run(np, run)
    ensures Run(np, longer) && run <= longer && Last(longer).root == Exited
    ensures Last(longer).data0 == np - 1 && Last(longer).data1 * 2 == np * (np - 1)
    decreases Work(Last(run)), Distance(np, Last(run))
  {
    var s := Last(run);
    RunInv(np, run);
    if s.root == Exited {
      longer := run;
      assert Reachable(np, s);
      PollingLoopIsRight(np, s);
    } else {
      var a := Root;
      if AllAfter(s) { RootDescends(np, s); } else { a := SomeRankOrRoot(np, s); }
      RanksDescend(np, s, a);
      LongerRun(np, run, a);
      longer := RunsEndWell(np, run + [Apply(s, a)]);
      PrefixOfLonger(run, Apply(s, a), longer);
    }
  }
}
