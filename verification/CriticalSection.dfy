/**
 The global critical section (mpiimplthread.h): every MPI routine enters and leaves it, but
 only the outermost of nested routines, told by a per-thread nest count, touches the mutex.
 */
module CriticalSection {
  import opened Common

  // ------------------------------------------------------------------- routines

  /** A routine: enter, what it does, exit. */
  datatype Call = Call(body: seq<Item>)

  /** It works on shared data, or calls other routines between incrementing and decrementing the nest count. */
  datatype Item = Touch | Nested(calls: seq<Call>)

  datatype Instr = Enter | Exit | Incr | Decr | Access

  function CodeOf(call: Call): seq<Instr>
    decreases call
  {
    [Enter] + BodyCode(call.body) + [Exit]
  }

  function BodyCode(body: seq<Item>): seq<Instr>
    decreases body
  {
    if body == [] then [] else ItemCode(body[0]) + BodyCode(body[1..])
  }

  function ItemCode(item: Item): seq<Instr>
    decreases item
  {
    match item
    case Touch => [Access]
    case Nested(calls) => [Incr] + CallsCode(calls) + [Decr]
  }

  function CallsCode(calls: seq<Call>): seq<Instr>
    decreases calls
  {
    if calls == [] then [] else CodeOf(calls[0]) + CallsCode(calls[1..])
  }

  // Nothing of a call is lost: the work on shared data, the frames and the nest sections are all there.

  function TouchesOf(call: Call): nat
    decreases call
  {
    TouchesIn(call.body)
  }

  function TouchesIn(body: seq<Item>): nat
    decreases body
  {
    if body == [] then 0
    else TouchesIn(body[1..]) + match body[0] { case Touch => 1 case Nested(calls) => TouchesInAll(calls) }
  }

  function TouchesInAll(calls: seq<Call>): nat
    decreases calls
  {
    if calls == [] then 0 else TouchesOf(calls[0]) + TouchesInAll(calls[1..])
  }

  /** A call and all calls nested in it. */
  function CallsOf(call: Call): nat
    decreases call
  {
    1 + CallsIn(call.body)
  }

  function CallsIn(body: seq<Item>): nat
    decreases body
  {
    if body == [] then 0
    else CallsIn(body[1..]) + match body[0] { case Touch => 0 case Nested(calls) => CallsInAll(calls) }
  }

  function CallsInAll(calls: seq<Call>): nat
    decreases calls
  {
    if calls == [] then 0 else CallsOf(calls[0]) + CallsInAll(calls[1..])
  }

  function Count(code: seq<Instr>, i: Instr): nat { multiset(code)[i] }

  predicate Has(code: seq<Instr>, touches: nat, calls: nat) {
    Count(code, Access) == touches && Count(code, Enter) == calls && Count(code, Exit) == calls && Count(code, Incr) == Count(code, Decr)
  }

  lemma HasBoth(a: seq<Instr>, b: seq<Instr>, touches: nat, calls: nat, touches': nat, calls': nat)
    requires Has(a, touches, calls) && Has(b, touches', calls')
    ensures Has(a + b, touches + touches', calls + calls')
  {
  }

  lemma {:induction false} CallIsAllThere(call: Call)
    ensures Has(CodeOf(call), TouchesOf(call), CallsOf(call))
    decreases call
  {
    BodyIsAllThere(call.body);
  }

  lemma {:induction false} BodyIsAllThere(body: seq<Item>)
    ensures Has(BodyCode(body), TouchesIn(body), CallsIn(body))
    decreases body
  {
    if body != [] {
      BodyIsAllThere(body[1..]);
      match body[0] {
        case Touch =>
          HasBoth([Access], BodyCode(body[1..]), 1, 0, TouchesIn(body[1..]), CallsIn(body[1..]));
        case Nested(calls) =>
          CallsAreAllThere(calls);
          HasBoth([Incr] + CallsCode(calls) + [Decr], BodyCode(body[1..]), TouchesInAll(calls), CallsInAll(calls),
                  TouchesIn(body[1..]), CallsIn(body[1..]));
      }
    }
  }

  lemma {:induction false} CallsAreAllThere(calls: seq<Call>)
    ensures Has(CallsCode(calls), TouchesInAll(calls), CallsInAll(calls))
    decreases calls
  {
    if calls != [] {
      CallIsAllThere(calls[0]);
      CallsAreAllThere(calls[1..]);
      HasBoth(CodeOf(calls[0]), CallsCode(calls[1..]), TouchesOf(calls[0]), CallsOf(calls[0]), TouchesInAll(calls[1..]), CallsInAll(calls[1..]));
    }
  }

  // ------------------------------------------------------------------- bracket depth

  /** Frames and nest sections open in turn, so one number says what is open: odd means inside a frame. */
  function Delta(i: Instr): int {
    match i
    case Enter | Incr => 1
    case Exit | Decr => -1
    case Access => 0
  }

  predicate Fits(i: Instr, depth: int) {
    match i
    case Enter => depth >= 0 && depth % 2 == 0
    case Incr => depth >= 0 && depth % 2 == 1
    case Access => depth >= 0 && depth % 2 == 1
    case Exit => depth >= 1 && depth % 2 == 1
    case Decr => depth >= 1 && depth % 2 == 0
  }

  function DepthAfter(code: seq<Instr>, depth: int): int {
    if code == [] then depth else DepthAfter(code[1..], depth + Delta(code[0]))
  }

  predicate FitsAll(code: seq<Instr>, depth: int) {
    code == [] || (Fits(code[0], depth) && FitsAll(code[1..], depth + Delta(code[0])))
  }

  lemma {:induction false} Appended(a: seq<Instr>, b: seq<Instr>, depth: int)
    ensures DepthAfter(a + b, depth) == DepthAfter(b, DepthAfter(a, depth))
    ensures FitsAll(a + b, depth) <==> FitsAll(a, depth) && FitsAll(b, DepthAfter(a, depth))
  {
    if a == [] {
      assert a + b == b;
    } else {
      assert (a + b)[1..] == a[1..] + b;
      Appended(a[1..], b, depth + Delta(a[0]));
    }
  }

  lemma One(i: Instr, depth: int)
    ensures DepthAfter([i], depth) == depth + Delta(i)
    ensures FitsAll([i], depth) <==> Fits(i, depth)
  {
    assert [i][1..] == [];
  }

  lemma Bracketed(open: Instr, inner: seq<Instr>, close: Instr, depth: int)
    requires Fits(open, depth) && Delta(open) == 1 && Fits(close, depth + 1) && Delta(close) == -1
    requires FitsAll(inner, depth + 1) && DepthAfter(inner, depth + 1) == depth + 1
    ensures FitsAll([open] + inner + [close], depth) && DepthAfter([open] + inner + [close], depth) == depth
  {
    One(open, depth);
    One(close, depth + 1);
    Appended([open] + inner, [close], depth);
    Appended([open], inner, depth);
  }

  lemma {:induction false} CallFits(call: Call, depth: nat)
    requires depth % 2 == 0
    ensures FitsAll(CodeOf(call), depth) && DepthAfter(CodeOf(call), depth) == depth
    decreases call
  {
    BodyFits(call.body, depth + 1);
    Bracketed(Enter, BodyCode(call.body), Exit, depth);
  }

  lemma {:induction false} BodyFits(body: seq<Item>, depth: nat)
    requires depth % 2 == 1
    ensures FitsAll(BodyCode(body), depth) && DepthAfter(BodyCode(body), depth) == depth
    decreases body
  {
    if body != [] {
      ItemFits(body[0], depth);
      BodyFits(body[1..], depth);
      Appended(ItemCode(body[0]), BodyCode(body[1..]), depth);
    }
  }

  lemma {:induction false} ItemFits(item: Item, depth: nat)
    requires depth % 2 == 1
    ensures FitsAll(ItemCode(item), depth) && DepthAfter(ItemCode(item), depth) == depth
    decreases item
  {
    match item
    case Touch => One(Access, depth);
    case Nested(calls) =>
      CallsFit(calls, depth + 1);
      Bracketed(Incr, CallsCode(calls), Decr, depth);
  }

  lemma {:induction false} CallsFit(calls: seq<Call>, depth: nat)
    requires depth % 2 == 0
    ensures FitsAll(CallsCode(calls), depth) && DepthAfter(CallsCode(calls), depth) == depth
    decreases calls
  {
    if calls != [] {
      CallFits(calls[0], depth);
      CallsFit(calls[1..], depth);
      Appended(CodeOf(calls[0]), CallsCode(calls[1..]), depth);
    }
  }

  // ------------------------------------------------------------------- threads

  /** What each thread has done and has left to do, its nest count, and who holds the global mutex. */
  datatype State = State(did: seq<seq<Instr>>, left: seq<seq<Instr>>, nest: seq<int>, owner: Option<nat>)

  /** Each thread makes some calls, one after the other. */
  type Program = seq<seq<Call>>

  function Initial(p: Program): State {
    State(seq(|p|, _ => []), seq(|p|, t requires 0 <= t < |p| => CallsCode(p[t])), seq(|p|, _ => 0), None)
  }

  predicate Shape(p: Program, s: State) {
    |s.did| == |s.left| == |s.nest| == |p|
  }

  /** A thread waits only to lock the mutex, which it does when its nest count is zero. */
  predicate Enabled(p: Program, s: State, t: nat)
    requires Shape(p, s)
  {
    t < |p| && s.left[t] != [] && (s.left[t][0] == Enter && s.nest[t] == 0 ==> s.owner.None?)
  }

  function Apply(p: Program, s: State, t: nat): State
    requires Shape(p, s) && Enabled(p, s, t)
  {
    var i := s.left[t][0];
    var s' := s.(did := s.did[t := s.did[t] + [i]], left := s.left[t := s.left[t][1..]]);
    match i
    case Enter => if s.nest[t] == 0 then s'.(owner := Some(t)) else s'
    case Exit => if s.nest[t] == 0 then s'.(owner := None) else s'
    case Incr => s'.(nest := s.nest[t := s.nest[t] + 1])
    case Decr => s'.(nest := s.nest[t := s.nest[t] - 1])
    case Access => s'
  }

  predicate Next(p: Program, s: State, s': State) {
    Shape(p, s) && exists t: nat :: t < |p| && Enabled(p, s, t) && s' == Apply(p, s, t)
  }

  predicate Run(p: Program, run: seq<State>)
    decreases |run|
  {
    |run| >= 1 && if |run| == 1 then run[0] == Initial(p) else Run(p, run[..|run| - 1]) && Next(p, run[|run| - 2], run[|run| - 1])
  }

  ghost predicate Reachable(p: Program, s: State) {
    exists run :: Run(p, run) && run[|run| - 1] == s
  }

  // ------------------------------------------------------------------- the invariant

  function Depth(s: State, t: nat): int
    requires t < |s.did|
  {
    DepthAfter(s.did[t], 0)
  }

  /** What one thread's own steps keep. */
  predicate ThreadInv(p: Program, s: State, t: nat)
    requires Shape(p, s) && t < |p|
  {
    && s.did[t] + s.left[t] == CallsCode(p[t])
    && Depth(s, t) >= 0
    && FitsAll(s.left[t], Depth(s, t)) && DepthAfter(s.left[t], Depth(s, t)) == 0
    && s.nest[t] == Depth(s, t) / 2
  }

  /** The mutex is held by the one thread that has a frame open. */
  predicate OwnerInv(p: Program, s: State)
    requires Shape(p, s)
  {
    && (s.owner.Some? ==> s.owner.value < |p|)
    && forall t: nat :: t < |p| ==> ((s.owner == Some(t)) == (Depth(s, t) > 0))
  }

  predicate Inv(p: Program, s: State) {
    Shape(p, s) && OwnerInv(p, s) && forall t: nat :: t < |p| ==> ThreadInv(p, s, t)
  }

  lemma InitialInv(p: Program)
    ensures Inv(p, Initial(p))
  {
    forall t: nat | t < |p|
      ensures ThreadInv(p, Initial(p), t)
    {
      CallsFit(p[t], 0);
      assert [] + CallsCode(p[t]) == CallsCode(p[t]);
    }
  }

  lemma DepthNext(s: State, s': State, t: nat, i: Instr)
    requires t < |s.did| && t < |s'.did| && s'.did[t] == s.did[t] + [i]
    ensures Depth(s', t) == Depth(s, t) + Delta(i)
  {
    Appended(s.did[t], [i], 0);
    One(i, Depth(s, t));
  }

  lemma ThreadStep(p: Program, s: State, t: nat)
    requires Shape(p, s) && Enabled(p, s, t) && ThreadInv(p, s, t)
    ensures ThreadInv(p, Apply(p, s, t), t)
  {
    var s', i := Apply(p, s, t), s.left[t][0];
    DepthNext(s, s', t, i);
    assert s.left[t] == [i] + s'.left[t];
    assert s'.did[t] + s'.left[t] == s.did[t] + s.left[t];
    Nonnegative(s'.left[t], Depth(s', t));
  }

  /** Code that fits and ends at the ground never goes below it. */
  lemma Nonnegative(code: seq<Instr>, depth: int)
    requires FitsAll(code, depth) && DepthAfter(code, depth) == 0
    ensures depth >= 0
  {
  }

  lemma OwnerStep(p: Program, s: State, t: nat)
    requires Shape(p, s) && Enabled(p, s, t) && ThreadInv(p, s, t) && OwnerInv(p, s)
    ensures OwnerInv(p, Apply(p, s, t))
  {
    var s', i := Apply(p, s, t), s.left[t][0];
    DepthNext(s, s', t, i);
    forall u: nat | u < |p|
      ensures (s'.owner == Some(u)) == (Depth(s', u) > 0)
    {
      if u != t { assert s'.did[u] == s.did[u]; }
    }
  }

  lemma StepInv(p: Program, s: State, t: nat)
    requires Inv(p, s) && Enabled(p, s, t)
    ensures Inv(p, Apply(p, s, t))
  {
    var s' := Apply(p, s, t);
    OwnerStep(p, s, t);
    forall u: nat | u < |p|
      ensures ThreadInv(p, s', u)
    {
      if u == t { ThreadStep(p, s, t); } else { assert ThreadInv(p, s, u); }
    }
  }

  lemma {:induction false} RunInv(p: Program, run: seq<State>)
    requires Run(p, run)
    ensures Inv(p, run[|run| - 1])
    decreases |run|
  {
    if |run| == 1 {
      InitialInv(p);
    } else {
      RunInv(p, run[..|run| - 1]);
      var s, s' := run[|run| - 2], run[|run| - 1];
      var t: nat :| t < |p| && Enabled(p, s, t) && s' == Apply(p, s, t);
      StepInv(p, s, t);
    }
  }

  lemma ReachableInv(p: Program, s: State)
    requires Reachable(p, s)
    ensures Inv(p, s)
  {
    var run :| Run(p, run) && run[|run| - 1] == s;
    RunInv(p, run);
  }

  // ------------------------------------------------------------------- results

  /** A thread holds the mutex exactly while what it has done leaves a frame open. */
  lemma HeldExactlyInside(p: Program, s: State, t: nat)
    requires Reachable(p, s) && t < |p|
    ensures Shape(p, s) && ((s.owner == Some(t)) == (DepthAfter(s.did[t], 0) > 0))
  {
    ReachableInv(p, s);
  }

  /** Shared data is only touched by the holder of the mutex. */
  lemma AccessIsExclusive(p: Program, s: State, t: nat)
    requires Reachable(p, s) && t < |p| && t < |s.left| && s.left[t] != [] && s.left[t][0] == Access
    ensures s.owner == Some(t)
  {
    ReachableInv(p, s);
    assert ThreadInv(p, s, t);
  }

  /** The mutex is never locked again by its holder, nor unlocked by anyone else. */
  lemma LockedAndUnlockedInTurn(p: Program, s: State, t: nat)
    requires Reachable(p, s) && t < |p| && t < |s.left| && t < |s.nest| && s.left[t] != [] && s.nest[t] == 0
    ensures s.left[t][0] == Enter ==> s.owner != Some(t)
    ensures s.left[t][0] == Exit ==> s.owner == Some(t)
  {
    ReachableInv(p, s);
    assert ThreadInv(p, s, t);
  }

  /** A call leaves the nest count, and whether the mutex is held, as it found them. */
  lemma CallRestores(p: Program, s: State, s': State, t: nat, call: Call)
    requires Reachable(p, s) && Reachable(p, s') && t < |p| && t < |s.did| && t < |s'.did| && t < |s.left|
    requires CodeOf(call) <= s.left[t] && s'.did[t] == s.did[t] + CodeOf(call)
    ensures t < |s.nest| && t < |s'.nest| && s'.nest[t] == s.nest[t]
    ensures (s'.owner == Some(t)) == (s.owner == Some(t))
  {
    ReachableInv(p, s);
    ReachableInv(p, s');
    var d := Depth(s, t);
    assert ThreadInv(p, s, t) && ThreadInv(p, s', t);
    assert s.left[t][0] == CodeOf(call)[0] == Enter;
    Appended(s.did[t], CodeOf(call), 0);
    CallFits(call, d);
  }

  /** As long as a thread has anything left to do, some thread can go on. */
  lemma NoDeadlock(p: Program, s: State, t: nat) returns (u: nat)
    requires Reachable(p, s) && t < |p| && t < |s.left| && s.left[t] != []
    ensures Shape(p, s) && Enabled(p, s, u)
  {
    ReachableInv(p, s);
    if s.owner.Some? {
      u := s.owner.value;
      assert ThreadInv(p, s, u) && Depth(s, u) > 0;
    } else {
      u := t;
    }
  }

  /** When all is done the mutex is free and every nest count is back at zero. */
  lemma AllReleased(p: Program, s: State)
    requires Reachable(p, s) && forall t :: 0 <= t < |s.left| ==> s.left[t] == []
    ensures s.owner.None? && forall t :: 0 <= t < |s.nest| ==> s.nest[t] == 0
  {
    ReachableInv(p, s);
    forall t: nat | t < |p|
      ensures Depth(s, t) == 0 && s.nest[t] == 0
    {
      assert ThreadInv(p, s, t);
    }
  }

  // ------------------------------------------------------------------- all calls return

  function Last(run: seq<State>): State
    requires run != []
  {
    run[|run| - 1]
  }

  predicate AllDone(s: State) {
    forall t :: 0 <= t < |s.left| ==> s.left[t] == []
  }

  function Lengths(s: State): seq<int> { seq(|s.left|, t requires 0 <= t < |s.left| => |s.left[t]|) }

  /** What the threads have left to do; every step takes one from it. */
  function Work(s: State): int { Sum(Lengths(s)) }

  lemma StepsCount(p: Program, s: State, t: nat)
    requires Shape(p, s) && Enabled(p, s, t)
    ensures 0 <= Work(Apply(p, s, t)) == Work(s) - 1
  {
    var s' := Apply(p, s, t);
    assert Lengths(s') == Lengths(s)[t := |s'.left[t]|];
    SumUpdate(Lengths(s), t, |s'.left[t]|);
    SumNonNegative(Lengths(s'));
  }

  lemma LongerRun(p: Program, run: seq<State>, t: nat)
    requires Run(p, run) && Shape(p, Last(run)) && Enabled(p, Last(run), t)
    ensures Run(p, run + [Apply(p, Last(run), t)])
  {
    var s := Apply(p, Last(run), t);
    assert (run + [s])[..|run + [s]| - 1] == run;
  }

  /** Every run can go on until all calls have returned, and no run can go on for ever: each step is one of those left. */
  lemma {:induction false} RunsEndWell(p: Program, run: seq<State>) returns (longer: seq<State>)
    requires Run(p, run)
    ensures Run(p, longer) && run <= longer && |longer| == |run| + Work(Last(run)) && AllDone(Last(longer))
    decreases Work(Last(run))
  {
    var s := Last(run);
    RunInv(p, run);
    assert Reachable(p, s);
    if AllDone(s) {
      longer := run;
      SumOfZeros(Lengths(s));
    } else {
      var t :| 0 <= t < |s.left| && s.left[t] != [];
      var u := NoDeadlock(p, s, t);
      StepsCount(p, s, u);
      LongerRun(p, run, u);
      longer := RunsEndWell(p, run + [Apply(p, s, u)]);
      PrefixOfLonger(run, Apply(p, s, u), longer);
    }
  }
}
