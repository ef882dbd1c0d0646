/**
 First-use initialisation under the global critical section (mpiimplthread.h): the statement
 form, which tests its flag before it locks, and the block form, which tests it inside.
 */
module FirstUse {
  import opened Common

  /** `Checked` is how the library uses the block form: a test before it as well. */
  datatype Form = Stmt | Block | Checked

  datatype Config = Config(form: Form, threads: nat)

  datatype PC =
    | Out        // not using it
    | Locking    // about to lock the mutex
    | Locked     // holding it, about to test the flag again
    | Running    // holding it, in the initialisation
    | Clearing   // initialised, about to clear the flag
    | Leaving    // about to unlock
    | Passed     // past the macro

  /** `flag` is true until it is cleared; `runners` is history: who has initialised. */
  datatype State = State(flag: bool, owner: Option<nat>, pcs: seq<PC>, ran: nat, runners: set<nat>)

  function Initial(c: Config): State {
    State(true, None, seq(c.threads, _ => Out), 0, {})
  }

  predicate Shape(c: Config, s: State) { |s.pcs| == c.threads }

  /** Every step is the next action of a thread; only locking can wait. A thread that has passed may come again. */
  predicate Enabled(c: Config, s: State, t: nat)
    requires Shape(c, s)
  {
    t < c.threads && (s.pcs[t] == Locking ==> s.owner.None?)
  }

  function Apply(c: Config, s: State, t: nat): State
    requires Shape(c, s) && Enabled(c, s, t)
  {
    match s.pcs[t]
    case Out => s.(pcs := s.pcs[t := if c.form == Block || s.flag then Locking else Passed])
    case Locking => s.(owner := Some(t), pcs := s.pcs[t := if c.form == Stmt then Running else Locked])
    case Locked => s.(pcs := s.pcs[t := if s.flag then Running else Leaving])
    case Running => s.(ran := s.ran + 1, runners := s.runners + {t}, pcs := s.pcs[t := Clearing])
    case Clearing => s.(flag := false, pcs := s.pcs[t := Leaving])
    case Leaving => s.(owner := None, pcs := s.pcs[t := Passed])
    case Passed => s.(pcs := s.pcs[t := Out])
  }

  predicate Next(c: Config, s: State, s': State) {
    Shape(c, s) && exists t: nat :: t < c.threads && Enabled(c, s, t) && s' == Apply(c, s, t)
  }

  predicate Run(c: Config, run: seq<State>)
    decreases |run|
  {
    |run| >= 1 && if |run| == 1 then run[0] == Initial(c) else Run(c, run[..|run| - 1]) && Next(c, run[|run| - 2], run[|run| - 1])
  }

  ghost predicate Reachable(c: Config, s: State) {
    exists run :: Run(c, run) && run[|run| - 1] == s
  }

  // ------------------------------------------------------------------- the invariant

  predicate Holding(pc: PC) { pc == Locked || pc == Running || pc == Clearing || pc == Leaving }

  predicate FlagInv(c: Config, s: State) {
    && (forall t: nat :: t < |s.pcs| ==> (s.pcs[t] == Leaving || s.pcs[t] == Passed ==> !s.flag))
    && (!s.flag ==> s.ran >= 1)
    && (forall t: nat :: t < |s.pcs| && s.pcs[t] == Clearing ==> s.ran >= 1)
  }

  predicate MutexInv(c: Config, s: State) {
    && (s.owner.Some? ==> s.owner.value < |s.pcs|)
    && forall t: nat :: t < |s.pcs| ==> (Holding(s.pcs[t]) == (s.owner == Some(t)))
  }

  /** Whoever has initialised is still about to clear the flag, or the flag is cleared for good. */
  predicate RunnersInv(c: Config, s: State) {
    c.form == Stmt ==>
    && s.ran == |s.runners|
    && (forall t :: t in s.runners ==> Settled(s, t))
    && (forall t: nat :: t < |s.pcs| && s.pcs[t] == Clearing ==> t in s.runners)
  }

  predicate Settled(s: State, t: nat) {
    t < |s.pcs| && (s.pcs[t] == Clearing || (!s.flag && s.pcs[t] != Locking && s.pcs[t] != Running))
  }

  /** Where the flag is tested again under the mutex, it tells whether anyone has initialised. */
  predicate OnceInv(c: Config, s: State) {
    c.form != Stmt ==>
      && (forall t: nat :: t < |s.pcs| && s.pcs[t] == Running ==> s.flag && s.ran == 0)
      && (forall t: nat :: t < |s.pcs| && s.pcs[t] == Clearing ==> s.ran == 1)
      && (s.flag && s.ran > 0 ==> s.owner.Some? && s.owner.value < |s.pcs| && s.pcs[s.owner.value] == Clearing)
      && s.ran <= 1
  }

  predicate Inv(c: Config, s: State) {
    Shape(c, s) && FlagInv(c, s) && MutexInv(c, s) && OnceInv(c, s) && RunnersInv(c, s)
  }

  lemma StepFlag(c: Config, s: State, t: nat)
    requires Shape(c, s) && FlagInv(c, s) && Enabled(c, s, t)
    ensures FlagInv(c, Apply(c, s, t))
  {
  }

  lemma StepMutex(c: Config, s: State, t: nat)
    requires Shape(c, s) && MutexInv(c, s) && Enabled(c, s, t)
    ensures MutexInv(c, Apply(c, s, t))
  {
  }

  lemma StepOnce(c: Config, s: State, t: nat)
    requires Shape(c, s) && MutexInv(c, s) && OnceInv(c, s) && FlagInv(c, s) && Enabled(c, s, t)
    ensures OnceInv(c, Apply(c, s, t))
  {
  }

  lemma StaysSettled(c: Config, s: State, t: nat, u: nat)
    requires Shape(c, s) && c.form == Stmt && Enabled(c, s, t) && Settled(s, u)
    ensures Settled(Apply(c, s, t), u)
  {
  }

  lemma StepRunners(c: Config, s: State, t: nat)
    requires Shape(c, s) && RunnersInv(c, s) && Enabled(c, s, t)
    ensures RunnersInv(c, Apply(c, s, t))
  {
    if c.form == Stmt {
      var s' := Apply(c, s, t);
      forall u | u in s'.runners
        ensures Settled(s', u)
      {
        if u in s.runners { StaysSettled(c, s, t, u); }
      }
      if s.pcs[t] == Running { assert !Settled(s, t); }
    }
  }

  lemma {:induction false} RunInv(c: Config, run: seq<State>)
    requires Run(c, run)
    ensures Inv(c, run[|run| - 1])
    decreases |run|
  {
    if |run| > 1 {
      RunInv(c, run[..|run| - 1]);
      var s, s' := run[|run| - 2], run[|run| - 1];
      var t: nat :| t < c.threads && Enabled(c, s, t) && s' == Apply(c, s, t);
      StepFlag(c, s, t);
      StepMutex(c, s, t);
      StepOnce(c, s, t);
      StepRunners(c, s, t);
    }
  }

  lemma ReachableInv(c: Config, s: State)
    requires Reachable(c, s)
    ensures Inv(c, s)
  {
    var run :| Run(c, run) && run[|run| - 1] == s;
    RunInv(c, run);
  }

  // ------------------------------------------------------------------- results

  /** With any form nobody gets past the macro before an initialisation is complete. */
  lemma InitialisedBeforePassing(c: Config, s: State, t: nat)
    requires Reachable(c, s) && t < |s.pcs| && s.pcs[t] == Passed
    ensures s.ran >= 1
  {
    ReachableInv(c, s);
  }

  lemma {:induction false} SetBelow(u: set<nat>, n: nat)
    requires forall t :: t in u ==> t < n
    ensures |u| <= n
    decreases n
  {
    if n == 0 {
      assert u == {};
    } else {
      SetBelow(u - {n - 1}, n - 1);
    }
  }

  /** The block form initialises at most once, the statement form at most once for every thread. */
  lemma RunsAtMost(c: Config, s: State)
    requires Reachable(c, s)
    ensures s.ran <= if c.form == Stmt then c.threads else 1
  {
    ReachableInv(c, s);
    if c.form == Stmt { SetBelow(s.runners, c.threads); }
  }

  lemma Reached(c: Config, s: State, t: nat)
    requires Reachable(c, s) && Shape(c, s) && t < c.threads && Enabled(c, s, t)
    ensures Reachable(c, Apply(c, s, t))
  {
    var run :| Run(c, run) && run[|run| - 1] == s;
    var longer := run + [Apply(c, s, t)];
    assert longer[..|longer| - 1] == run;
    assert Next(c, s, Apply(c, s, t));
    assert Run(c, longer);
  }

  /** All threads up to `k` have tested the flag and wait for the mutex. */
  function Tested(c: Config, k: nat): State {
    State(true, None, seq(c.threads, t => if t < k then Locking else Out), 0, {})
  }

  lemma {:induction false} AllCanTestFirst(c: Config, k: nat)
    requires c.form == Stmt && k <= c.threads
    ensures Reachable(c, Tested(c, k))
  {
    if k == 0 {
      assert Tested(c, 0) == Initial(c);
      assert Run(c, [Initial(c)]);
    } else {
      AllCanTestFirst(c, k - 1);
      var s := Tested(c, k - 1);
      Reached(c, s, k - 1);
      assert Apply(c, s, k - 1) == Tested(c, k);
    }
  }

  function Below(k: nat): set<nat> { if k == 0 then {} else Below(k - 1) + {k - 1} }

  /** Then the first `k` have been through the macro, each having initialised. */
  function Through(c: Config, k: nat): State {
    State(k == 0, None, seq(c.threads, t => if t < k then Passed else Locking), k, Below(k))
  }

  lemma ReachedTo(c: Config, s: State, t: nat, s': State)
    requires Reachable(c, s) && Shape(c, s) && t < c.threads && Enabled(c, s, t) && s' == Apply(c, s, t)
    ensures Reachable(c, s')
  {
    Reached(c, s, t);
  }

  lemma OneRuns(c: Config, s: State, t: nat)
    requires c.form == Stmt && Reachable(c, s) && Shape(c, s) && t < c.threads && s.pcs[t] == Locking && s.owner.None?
    ensures Reachable(c, State(false, None, s.pcs[t := Passed], s.ran + 1, s.runners + {t}))
  {
    var s1 := s.(owner := Some(t), pcs := s.pcs[t := Running]);
    ReachedTo(c, s, t, s1);
    var s2 := s1.(ran := s.ran + 1, runners := s.runners + {t}, pcs := s1.pcs[t := Clearing]);
    ReachedTo(c, s1, t, s2);
    var s3 := s2.(flag := false, pcs := s2.pcs[t := Leaving]);
    ReachedTo(c, s2, t, s3);
    var s4 := s3.(owner := None, pcs := s3.pcs[t := Passed]);
    ReachedTo(c, s3, t, s4);
    assert s4.pcs == s.pcs[t := Passed];
  }

  lemma {:induction false} EachRunsInTurn(c: Config, k: nat)
    requires c.form == Stmt && k <= c.threads
    ensures Reachable(c, Through(c, k))
  {
    if k == 0 {
      AllCanTestFirst(c, c.threads);
      assert Through(c, 0) == Tested(c, c.threads);
    } else {
      EachRunsInTurn(c, k - 1);
      var s := Through(c, k - 1);
      OneRuns(c, s, k - 1);
      assert s.pcs[k - 1 := Passed] == Through(c, k).pcs;
    }
  }

  ghost predicate AtMostOnce(c: Config) {
    forall s :: Reachable(c, s) ==> s.ran <= 1
  }

  /** The initialisation is sure to run at most once exactly when the form is not the statement form, or there is one thread. */
  lemma OnceIff(c: Config)
    requires c.threads >= 1
    ensures AtMostOnce(c) <==> c.form != Stmt || c.threads == 1
  {
    forall s | Reachable(c, s)
      ensures s.ran <= if c.form == Stmt then c.threads else 1
    {
      RunsAtMost(c, s);
    }
    if c.form == Stmt && c.threads > 1 {
      EachRunsInTurn(c, c.threads);
      assert Through(c, c.threads).ran > 1;
    }
  }

  /** No thread waits for ever for a mutex that is not held. */
  lemma NoDeadlock(c: Config, s: State, t: nat) returns (u: nat)
    requires Reachable(c, s) && t < c.threads
    ensures Shape(c, s) && Enabled(c, s, u)
  {
    ReachableInv(c, s);
    u := if s.owner.Some? then s.owner.value else t;
  }

  // ------------------------------------------------------------------- everybody gets past

  function Last(run: seq<State>): State
    requires run != []
  {
    run[|run| - 1]
  }

  function Ahead(pc: PC): nat {
    match pc
    case Out => 6
    case Locking => 5
    case Locked => 4
    case Running => 3
    case Clearing => 2
    case Leaving => 1
    case Passed => 0
  }

  /** The steps until a thread has passed: those of whoever holds the mutex until it is free, and its own. */
  function StepsAhead(s: State, t: nat): nat
    requires t < |s.pcs|
  {
    Ahead(s.pcs[t]) + if s.owner.Some? && s.owner.value < |s.pcs| && s.owner.value != t then Ahead(s.pcs[s.owner.value]) else 0
  }

  lemma OneStepNearer(c: Config, s: State, t: nat) returns (u: nat)
    requires Inv(c, s) && t < c.threads && s.pcs[t] != Passed
    ensures Enabled(c, s, u) && StepsAhead(Apply(c, s, u), t) < StepsAhead(s, t)
  {
    u := if s.owner.Some? then s.owner.value else t;
  }

  lemma LongerRun(c: Config, run: seq<State>, t: nat)
    requires Run(c, run) && Shape(c, Last(run)) && t < c.threads && Enabled(c, Last(run), t)
    ensures Run(c, run + [Apply(c, Last(run), t)])
  {
    var s := Apply(c, Last(run), t);
    assert (run + [s])[..|run + [s]| - 1] == run;
  }

  lemma {:induction false} GoesPast(c: Config, run: seq<State>, t: nat) returns (longer: seq<State>)
    requires Run(c, run) && t < c.threads && Shape(c, Last(run))
    ensures Run(c, longer) && run <= longer && |longer| <= |run| + StepsAhead(Last(run), t)
    ensures Shape(c, Last(longer)) && Last(longer).pcs[t] == Passed
    decreases StepsAhead(Last(run), t)
  {
    var s := Last(run);
    RunInv(c, run);
    if s.pcs[t] == Passed {
      longer := run;
    } else {
      var u := OneStepNearer(c, s, t);
      LongerRun(c, run, u);
      longer := GoesPast(c, run + [Apply(c, s, u)], t);
      PrefixOfLonger(run, Apply(c, s, u), longer);
    }
  }

  /** From every state every thread can get past the macro, within ten steps. */
  lemma EveryThreadCanPass(c: Config, run: seq<State>, t: nat) returns (longer: seq<State>)
    requires Run(c, run) && t < c.threads
    ensures Run(c, longer) && run <= longer && |longer| <= |run| + 10
    ensures t < |Last(longer).pcs| && Last(longer).pcs[t] == Passed
  {
    RunInv(c, run);
    longer := GoesPast(c, run, t);
  }
}
