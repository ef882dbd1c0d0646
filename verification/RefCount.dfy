/**
 Reference counts (mpiimpl.h): holders add and release references to one object in any order,
 each update being one step of the global critical section. After a release a holder decides
 whether to free, by the value the release returned or, wrongly, by reading the count again.
 */
module RefCount {
  import opened Common

  datatype Deciding = ByReturned | ByCount

  /** Who holds how many references at first; the count is set to their sum. */
  datatype Config = Config(deciding: Deciding, initial: seq<int>)

  predicate ValidConfig(c: Config) {
    (forall h :: 0 <= h < |c.initial| ==> c.initial[h] >= 0) && Sum(c.initial) >= 1
  }

  /** `inuse` is what a holder's last release returned, until it has decided. The last two fields are history. */
  datatype State = State(refCount: int, held: seq<int>, inuse: seq<Option<int>>, freed: nat, zeros: nat)

  /** A holder may take a reference for itself or on behalf of any other. */
  datatype Step = Add(h: nat, to: nat) | Release(h: nat) | Decide(h: nat)

  function Initial(c: Config): State {
    State(Sum(c.initial), c.initial, seq(|c.initial|, _ => None), 0, 0)
  }

  predicate Shape(c: Config, s: State) {
    |s.held| == |s.inuse| == |c.initial|
  }

  /** Only a holder of a reference may add one or release one. */
  predicate Enabled(c: Config, s: State, a: Step)
    requires Shape(c, s)
  {
    match a
    case Add(h, to) => h < |s.held| && s.held[h] >= 1 && s.inuse[h].None? && to < |s.held|
    case Release(h) => h < |s.held| && s.held[h] >= 1 && s.inuse[h].None?
    case Decide(h) => h < |s.held| && s.inuse[h].Some?
  }

  function Apply(c: Config, s: State, a: Step): State
    requires Shape(c, s) && Enabled(c, s, a)
  {
    match a
    case Add(_, to) => s.(refCount := s.refCount + 1, held := s.held[to := s.held[to] + 1])
    case Release(h) =>
      s.(refCount := s.refCount - 1, held := s.held[h := s.held[h] - 1],
         inuse := s.inuse[h := Some(s.refCount - 1)],
         zeros := if s.refCount - 1 == 0 then s.zeros + 1 else s.zeros)
    case Decide(h) =>
      var free := if c.deciding == ByReturned then s.inuse[h].value == 0 else s.refCount == 0;
      s.(inuse := s.inuse[h := None], freed := if free then s.freed + 1 else s.freed)
  }

  ghost predicate Next(c: Config, s: State, s': State) {
    Shape(c, s) && exists a :: Enabled(c, s, a) && s' == Apply(c, s, a)
  }

  ghost predicate Run(c: Config, run: seq<State>)
    decreases |run|
  {
    |run| >= 1 && if |run| == 1 then run[0] == Initial(c) else Run(c, run[..|run| - 1]) && Next(c, run[|run| - 2], run[|run| - 1])
  }

  ghost predicate Reachable(c: Config, s: State) {
    exists run :: Run(c, run) && run[|run| - 1] == s
  }

  // ------------------------------------------------------------------- the invariant

  /** The count is the number of references that are held. */
  predicate CountInv(c: Config, s: State) {
    && Shape(c, s)
    && s.refCount == Sum(s.held)
    && forall h :: 0 <= h < |s.held| ==> s.held[h] >= 0
  }

  predicate SawZero(s: State, h: nat) {
    h < |s.inuse| && s.inuse[h] == Some(0)
  }

  /** At most one release has returned zero, and then nothing is held any more. */
  ghost predicate ZerosInv(c: Config, s: State) {
    && s.zeros == (if s.refCount == 0 then 1 else 0)
    && (forall h :: SawZero(s, h) ==> s.refCount == 0)
    && (forall h, k :: SawZero(s, h) && SawZero(s, k) ==> h == k)
  }

  /** With the right way to decide, the one that saw zero has freed the object or is about to. */
  ghost predicate FreedInv(c: Config, s: State) {
    c.deciding == ByReturned ==>
      s.freed == if s.refCount == 0 && !(exists h :: SawZero(s, h)) then 1 else 0
  }

  lemma StepCount(c: Config, s: State, a: Step)
    requires CountInv(c, s) && Enabled(c, s, a)
    ensures CountInv(c, Apply(c, s, a))
    ensures !a.Decide? ==> s.refCount > 0
  {
    if !a.Decide? {
      var h := if a.Add? then a.to else a.h;
      SumUpdate(s.held, h, Apply(c, s, a).held[h]);
      SumNonNegative(s.held);
    }
  }

  /** Who has seen zero after a step: whoever had, but for one that has decided, and whoever released the last. */
  lemma SawZeroAfter(c: Config, s: State, a: Step, h: nat)
    requires Shape(c, s) && Enabled(c, s, a)
    ensures var s' := Apply(c, s, a);
            SawZero(s', h) <==> match a
              case Add(_, _) => SawZero(s, h)
              case Release(k) => if h == k then s'.refCount == 0 else SawZero(s, h)
              case Decide(k) => h != k && SawZero(s, h)
  {
  }

  lemma StepZeros(c: Config, s: State, a: Step)
    requires Shape(c, s) && ZerosInv(c, s) && Enabled(c, s, a) && (!a.Decide? ==> s.refCount > 0)
    ensures ZerosInv(c, Apply(c, s, a))
  {
    var s' := Apply(c, s, a);
    forall h | SawZero(s', h)
      ensures s'.refCount == 0 && (SawZero(s, h) || (a.Release? && a.h == h))
    {
      SawZeroAfter(c, s, a, h);
    }
  }

  lemma StepFreed(c: Config, s: State, a: Step)
    requires Shape(c, s) && ZerosInv(c, s) && FreedInv(c, s) && Enabled(c, s, a) && (!a.Decide? ==> s.refCount > 0)
    ensures FreedInv(c, Apply(c, s, a))
  {
    var s' := Apply(c, s, a);
    forall h
      ensures SawZero(s', h) <==> if a.Release? && h == a.h then s'.refCount == 0 else SawZero(s, h) && !(a.Decide? && h == a.h)
    {
      SawZeroAfter(c, s, a, h);
    }
    if a.Release? && s'.refCount == 0 {
      assert SawZero(s', a.h);
    } else if a.Decide? && !SawZero(s, a.h) {
      assert (exists h :: SawZero(s, h)) ==> exists h :: SawZero(s', h) by {
        if h :| SawZero(s, h) { assert SawZero(s', h); }
      }
    }
  }

  ghost predicate Inv(c: Config, s: State) {
    CountInv(c, s) && ZerosInv(c, s) && FreedInv(c, s)
  }

  lemma {:induction false} RunInv(c: Config, run: seq<State>)
    requires ValidConfig(c) && Run(c, run)
    ensures Inv(c, run[|run| - 1])
    decreases |run|
  {
    if |run| > 1 {
      RunInv(c, run[..|run| - 1]);
      var s, s' := run[|run| - 2], run[|run| - 1];
      var a :| Enabled(c, s, a) && s' == Apply(c, s, a);
      StepCount(c, s, a);
      StepZeros(c, s, a);
      StepFreed(c, s, a);
    }
  }

  lemma ReachableInv(c: Config, s: State)
    requires ValidConfig(c) && Reachable(c, s)
    ensures Inv(c, s)
  {
    var run :| Run(c, run) && run[|run| - 1] == s;
    RunInv(c, run);
  }

  // ------------------------------------------------------------------- results

  /** The count always equals the references outstanding. */
  lemma CountIsOutstanding(c: Config, s: State)
    requires ValidConfig(c) && Reachable(c, s)
    ensures s.refCount == Sum(s.held) >= 0
  {
    ReachableInv(c, s);
    SumNonNegative(s.held);
  }

  /** One release has returned zero exactly when no reference is left, and it was the last update: no other can follow. */
  lemma OneLastRelease(c: Config, s: State, a: Step)
    requires ValidConfig(c) && Reachable(c, s)
    ensures Shape(c, s) && s.zeros <= 1 && (s.zeros == 1 <==> forall h :: 0 <= h < |s.held| ==> s.held[h] == 0)
    ensures s.zeros == 1 && Enabled(c, s, a) ==> a.Decide?
  {
    ReachableInv(c, s);
    SumNonNegative(s.held);
    if s.zeros == 1 {
      assert forall h :: 0 <= h < |s.held| ==> s.held[h] <= Sum(s.held);
    } else if forall h :: 0 <= h < |s.held| ==> s.held[h] == 0 {
      SumOfZeros(s.held);
    }
  }

  /** Deciding on the value a release returned never frees early or twice, and frees once all is released and decided. */
  lemma FreedExactlyOnce(c: Config, s: State)
    requires ValidConfig(c) && c.deciding == ByReturned && Reachable(c, s)
    ensures s.freed <= 1
    ensures s.freed == 1 ==> forall h :: 0 <= h < |s.held| ==> s.held[h] == 0
    ensures (forall h :: 0 <= h < |s.held| ==> s.held[h] == 0 && s.inuse[h].None?) ==> s.freed == 1
  {
    ReachableInv(c, s);
    SumNonNegative(s.held);
    if forall h :: 0 <= h < |s.held| ==> s.held[h] == 0 && s.inuse[h].None? {
      SumOfZeros(s.held);
      assert forall h :: !SawZero(s, h);
    }
  }

  lemma Reached(c: Config, s: State, a: Step, s': State)
    requires Reachable(c, s) && Shape(c, s) && Enabled(c, s, a) && s' == Apply(c, s, a)
    ensures Reachable(c, s')
  {
    var run :| Run(c, run) && run[|run| - 1] == s;
    var longer := run + [s'];
    assert longer[..|longer| - 1] == run;
    assert Run(c, longer);
  }

  // ------------------------------------------------------------------- when reading the count again is safe

  /** With a single holder nobody can come between its release and its decision. */
  predicate AloneInv(s: State) {
    |s.held| == |s.inuse| == 1 && s.freed == if s.refCount == 0 && s.inuse[0].None? then 1 else 0
  }

  lemma StepAlone(c: Config, s: State, a: Step)
    requires c.deciding == ByCount && Shape(c, s) && AloneInv(s) && Enabled(c, s, a) && (!a.Decide? ==> s.refCount > 0)
    ensures AloneInv(Apply(c, s, a))
  {
    assert a.h == 0;
  }

  lemma {:induction false} RunAlone(c: Config, run: seq<State>)
    requires ValidConfig(c) && c.deciding == ByCount && Run(c, run) && |c.initial| == 1
    ensures AloneInv(run[|run| - 1])
    decreases |run|
  {
    if |run| > 1 {
      RunAlone(c, run[..|run| - 1]);
      RunInv(c, run[..|run| - 1]);
      var s, s' := run[|run| - 2], run[|run| - 1];
      var a :| Enabled(c, s, a) && s' == Apply(c, s, a);
      StepCount(c, s, a);
      StepAlone(c, s, a);
    }
  }

  /** Nothing freed, everything decided. */
  predicate Quiet(s: State) {
    s.freed == 0 && forall h :: 0 <= h < |s.inuse| ==> s.inuse[h].None?
  }

  /** A holder gives up a reference that is not the last, and finds the object still in use. */
  lemma DropOne(c: Config, s: State, h: nat) returns (s': State)
    requires c.deciding == ByCount && Reachable(c, s) && Shape(c, s) && Quiet(s) && h < |s.held| && s.held[h] >= 1 && s.refCount >= 2
    ensures Reachable(c, s') && Shape(c, s') && Quiet(s') && s'.refCount == s.refCount - 1 && s'.held == s.held[h := s.held[h] - 1]
  {
    var held, n := s.held[h := s.held[h] - 1], s.refCount - 1;
    var s1 := State(n, held, s.inuse[h := Some(n)], 0, s.zeros);
    Reached(c, s, Release(h), s1);
    s' := State(n, held, s1.inuse[h := None], 0, s.zeros);
    Reached(c, s1, Decide(h), s');
  }

  /** Two holders of one reference each, and no other: both release, then both read zero. */
  lemma BothFree(c: Config, s: State, h: nat, k: nat) returns (s': State)
    requires c.deciding == ByCount && Reachable(c, s) && Shape(c, s) && Quiet(s) && s.refCount == 2
    requires h < |s.held| && k < |s.held| && h != k && s.held[h] >= 1 && s.held[k] >= 1
    ensures Reachable(c, s') && s'.freed == 2
  {
    var s1 := Apply(c, s, Release(h));
    Reached(c, s, Release(h), s1);
    var s2 := Apply(c, s1, Release(k));
    Reached(c, s1, Release(k), s2);
    var s3 := Apply(c, s2, Decide(h));
    Reached(c, s2, Decide(h), s3);
    s' := Apply(c, s3, Decide(k));
    Reached(c, s3, Decide(k), s');
  }

  lemma {:induction false} SpareHolder(held: seq<int>, h: nat, k: nat) returns (m: nat)
    requires h < |held| && k < |held| && h != k && held[h] >= 1 && held[k] >= 1 && Sum(held) > 2
    requires forall i :: 0 <= i < |held| ==> held[i] >= 0
    ensures m < |held| && held[m] >= if m == h || m == k then 2 else 1
  {
    if held[h] >= 2 { return h; }
    if held[k] >= 2 { return k; }
    if i :| 0 <= i < |held| && i != h && i != k && held[i] >= 1 { return i; }
    SumUpdate(held, h, 0);
    SumUpdate(held[h := 0], k, 0);
    SumOfZeros(held[h := 0][k := 0]);
    assert false;
  }

  lemma {:induction false} TwoHoldersFreeTwice(c: Config, s: State, h: nat, k: nat) returns (s': State)
    requires c.deciding == ByCount && ValidConfig(c) && Reachable(c, s) && Shape(c, s) && Quiet(s)
    requires h < |s.held| && k < |s.held| && h != k && s.held[h] >= 1 && s.held[k] >= 1
    ensures Reachable(c, s') && s'.freed == 2
    decreases s.refCount
  {
    ReachableInv(c, s);
    AtLeastTwo(s.held, h, k);
    if s.refCount == 2 {
      s' := BothFree(c, s, h, k);
    } else {
      var m := SpareHolder(s.held, h, k);
      var s1 := DropOne(c, s, m);
      s' := TwoHoldersFreeTwice(c, s1, h, k);
    }
  }

  lemma AtLeastTwo(held: seq<int>, h: nat, k: nat)
    requires h < |held| && k < |held| && h != k && held[h] >= 1 && held[k] >= 1
    requires forall i :: 0 <= i < |held| ==> held[i] >= 0
    ensures Sum(held) >= 2
  {
    SumUpdate(held, h, 0);
    SumNonNegative(held[h := 0]);
    assert held[h := 0][k] == held[k];
  }

  ghost predicate NeverFreedTwice(c: Config) {
    forall s :: Reachable(c, s) ==> s.freed <= 1
  }

  lemma StartIsReachable(c: Config)
    ensures Reachable(c, Initial(c)) && Quiet(Initial(c))
  {
    assert Run(c, [Initial(c)]);
  }

  /** Of two holders one can hand the other a reference, if it has none; then both have one. */
  lemma TwoHaveOne(c: Config, h: nat, k: nat) returns (s: State)
    requires ValidConfig(c) && h < |c.initial| && k < |c.initial| && h != k && c.initial[h] >= 1
    ensures Reachable(c, s) && Shape(c, s) && Quiet(s) && s.held[h] >= 1 && s.held[k] >= 1
  {
    StartIsReachable(c);
    s := Apply(c, Initial(c), Add(h, k));
    Reached(c, Initial(c), Add(h, k), s);
  }

  lemma SomeHolder(c: Config) returns (h: nat)
    requires ValidConfig(c)
    ensures h < |c.initial| && c.initial[h] >= 1
  {
    if forall i :: 0 <= i < |c.initial| ==> c.initial[i] == 0 { SumOfZeros(c.initial); }
    h :| 0 <= h < |c.initial| && c.initial[h] != 0;
  }

  /** Reading the count again never frees twice exactly when there is a single holder, whoever has references at first. */
  lemma CountReadAgainIff(c: Config)
    requires ValidConfig(c) && c.deciding == ByCount
    ensures NeverFreedTwice(c) <==> |c.initial| == 1
  {
    if |c.initial| == 1 {
      forall s | Reachable(c, s)
        ensures s.freed <= 1
      {
        var run :| Run(c, run) && run[|run| - 1] == s;
        RunAlone(c, run);
      }
    } else {
      var h := SomeHolder(c);
      var k := if h == 0 then 1 else 0;
      var s1 := TwoHaveOne(c, h, k);
      var s := TwoHoldersFreeTwice(c, s1, h, k);
      assert Reachable(c, s) && s.freed > 1;
    }
  }
}
