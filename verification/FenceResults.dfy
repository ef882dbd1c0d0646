/** What the rounds of fences achieve: no races, every tile once and in order, and the finished image. */
module FenceResults {
  import opened Common
  import opened Tiling
  import opened Image
  import opened FenceRounds

  // ------------------------------------------------------------------- turns and rounds

  /** How many rounds it takes to hand out every tile. */
  function Rounds(c: Config): int
    requires ValidConfig(c)
  {
    (|c.tiles| + c.workers - 1) / c.workers
  }

  lemma RoundsIs(c: Config, r: nat)
    requires ValidConfig(c) && r * c.workers < |c.tiles| <= r * c.workers + c.workers
    ensures Rounds(c) == r + 1
  {
    var n, w := |c.tiles|, c.workers;
    var d := n - r * w - 1;
    assert n + w - 1 == (r + 1) * w + d;
    QuotientUnique(n + w - 1, w, r + 1, d);
  }

  /** Every tile has a round and a worker; fillers only come after all tiles. */
  lemma TileHasTurn(c: Config, t: nat) returns (r: nat, w: nat)
    requires ValidConfig(c) && t < |c.tiles|
    ensures r < Rounds(c) && w < c.workers && t == r * c.workers + w
  {
    r, w := t / c.workers, t % c.workers;
    assert t == r * c.workers + w;
    RoundIsOneOf(c, r);
  }

  /** Only one. */
  lemma TurnIsUnique(c: Config, r: nat, w: nat, r': nat, w': nat)
    requires w < c.workers && w' < c.workers && r * c.workers + w == r' * c.workers + w'
    ensures r == r' && w == w'
  {
    QuotientUnique(r * c.workers + w, c.workers, r, w);
    QuotientUnique(r * c.workers + w, c.workers, r', w');
  }

  /** When the root is done, root and workers have all passed three fences a round and two more. */
  lemma FencesPerImage(c: Config, s: State)
    requires ValidConfig(c) && Reachable(c, s) && s.root == End
    ensures s.fences == 3 * Rounds(c) + 2 && s.round + 1 == Rounds(c)
  {
    ReachableInv(c, s);
    RoundsIs(c, s.round);
  }

  // ------------------------------------------------------------------- no races

  lemma PutIsTurn(c: Config, s: State)
    requires ValidConfig(c) && Shape(c, s) && RootInv(c, s) && s.root.Hand? && s.root.i < c.workers
    ensures Enabled(c, s, HandOut)
    ensures Apply(c, s, HandOut).pending == s.pending + [Assign(s.root.i, Now(c, s, s.root.i))]
  {
    HandedIsItem(c, s);
  }

  /** The item the root puts is the one whose turn it is. */
  lemma HandOutIsTurn(c: Config, s: State)
    requires ValidConfig(c) && Reachable(c, s) && s.root.Hand? && s.root.i < c.workers
    ensures Shape(c, s) && Enabled(c, s, HandOut)
    ensures Apply(c, s, HandOut).pending == s.pending + [Assign(s.root.i, Now(c, s, s.root.i))]
  {
    ReachableInv(c, s);
    PutIsTurn(c, s);
  }

  /**
   A worker reads its window only after the fence that closes the root's put to it: it finds the
   item of this round, or the stop message after the last, and no put to a window is under way.
   */
  lemma WorkerReadsClosedPut(c: Config, s: State, w: nat)
    requires ValidConfig(c) && Reachable(c, s) && Shape(c, s) && Enabled(c, s, Compute(w))
    ensures forall j :: 0 <= j < |s.pending| ==> s.pending[j].Result?
    ensures s.slots[w] == if s.root.Mid? then Now(c, s, w) else STOP
  {
    ReachableInv(c, s);
    assert InStep(s.root, s.pcs[w]);
  }

  lemma NothingPending(c: Config, s: State)
    requires Shape(c, s) && PendingInv(c, s) && s.root.Collect?
    ensures s.pending == []
  {
    assert |s.pending| > 0 ==> Timely(c, s, s.pending[0]);
  }

  /** The root collects only after the fence that closes the workers' puts: none is under way, and the tile's has landed. */
  lemma RootReadsClosedPuts(c: Config, s: State)
    requires ValidConfig(c) && Reachable(c, s) && s.root.Collect?
    ensures s.pending == []
    ensures forall t :: 0 <= t < Base(c, s) + c.workers ==> Item(c, t).area in s.landed
  {
    ReachableInv(c, s);
    NothingPending(c, s);
  }

  /** The visualizer gets the tiles in the order of the root's arrays, each once; all of them by the end. */
  lemma TilesSentInOrder(c: Config, s: State)
    requires ValidConfig(c) && Reachable(c, s)
    ensures s.sent <= c.tiles
    ensures s.root.Zero? || s.root.End? ==> s.sent == c.tiles
  {
    ReachableInv(c, s);
    if s.root.Zero? || s.root.End? { assert c.tiles[..|c.tiles|] == c.tiles; }
  }

  // ------------------------------------------------------------------- progress

  predicate Final(c: Config, s: State)
    requires Shape(c, s)
  {
    s.root == End && forall w :: 0 <= w < c.workers ==> s.pcs[w] == Gone
  }

  /** No reachable state is stuck before everyone has left: the fences always match. */
  lemma NoDeadlock(c: Config, s: State) returns (a: Step)
    requires ValidConfig(c) && Reachable(c, s) && Shape(c, s) && !Final(c, s)
    ensures Enabled(c, s, a)
  {
    ReachableInv(c, s);
    if s.pending != [] {
      a := Land(0);
    } else if s.root != End && !s.rootWaits {
      a := if s.root.Hand? && s.root.i < c.workers then HandOut
           else if s.root.Collect? && s.root.i < c.workers then CollectOne
           else if s.root.Zero? && s.root.i < c.workers then HandStop
           else RootFence;
      if a == HandOut { HandedIsItem(c, s); }
    } else if w :| 0 <= w < c.workers && s.pcs[w] == Look {
      a := Compute(w);
    } else if w :| 0 <= w < c.workers && !s.waits[w] && s.pcs[w] != Gone {
      a := WorkerFence(w);
    } else {
      forall w | 0 <= w < c.workers
        ensures s.waits[w]
      {
        assert InStep(s.root, s.pcs[w]);
      }
      a := Fence;
    }
  }

  /** What a worker may still do before the fence it is heading for. */
  function Actions(pc: WorkerPC, waits: bool): int {
    if waits || pc == Gone then 0 else if pc == Look then 3 else 1
  }

  function RootActions(c: Config, s: State): int {
    if s.rootWaits then 0
    else match s.root
      case Begin | Mid => 1
      case Hand(i) => 2 * (c.workers - i) + 1
      case Collect(i) => 2 * (c.workers - i) + 1
      case Zero(i) => 2 * (c.workers - i) + 1
      case End => 0
  }

  ghost function WorkerActions(c: Config, s: State): (r: seq<int>)
    requires Shape(c, s)
    ensures |r| == c.workers && forall w :: 0 <= w < c.workers ==> r[w] == Actions(s.pcs[w], s.waits[w])
  {
    seq(c.workers, w requires 0 <= w < c.workers => Actions(s.pcs[w], s.waits[w]))
  }

  /** Steps left before the next fence. */
  ghost function Before(c: Config, s: State): int
    requires Shape(c, s)
  {
    RootActions(c, s) + Sum(WorkerActions(c, s)) + |s.pending|
  }

  function FencesLeft(c: Config, s: State): int
    requires ValidConfig(c)
  {
    3 * Rounds(c) + 2 - s.fences
  }

  lemma {:induction false} SumBounded(xs: seq<int>, b: int)
    requires forall i :: 0 <= i < |xs| ==> 0 <= xs[i] <= b
    ensures 0 <= Sum(xs) <= b * |xs|
  {
    if xs != [] { SumBounded(xs[1..], b); }
  }

  lemma WorkerStepSum(c: Config, s: State, s': State, w: nat)
    requires Shape(c, s) && Shape(c, s') && w < c.workers
    requires forall v :: 0 <= v < c.workers && v != w ==> s'.pcs[v] == s.pcs[v] && s'.waits[v] == s.waits[v]
    ensures Sum(WorkerActions(c, s')) == Sum(WorkerActions(c, s)) - Actions(s.pcs[w], s.waits[w]) + Actions(s'.pcs[w], s'.waits[w])
  {
    var was, now := WorkerActions(c, s), WorkerActions(c, s');
    assert now == was[w := now[w]];
    SumUpdate(was, w, now[w]);
  }

  lemma WorkerStepDescends(c: Config, s: State, a: Step)
    requires Shape(c, s) && WorkersInv(c, s) && Enabled(c, s, a) && (a.Compute? || a.WorkerFence?)
    ensures Before(c, Apply(c, s, a)) < Before(c, s)
  {
    assert InStep(s.root, s.pcs[a.w]) && !(s.pcs[a.w] == Look && s.waits[a.w]);
    WorkerStepSum(c, s, Apply(c, s, a), a.w);
  }

  /** Every step but a fence leaves fewer to do before the next fence. */
  lemma OtherStepDescends(c: Config, s: State, a: Step)
    requires Shape(c, s) && WorkersInv(c, s) && Enabled(c, s, a) && a != Fence
    requires s.rootWaits ==> AtRootFence(c, s.root)
    ensures Before(c, Apply(c, s, a)) < Before(c, s) && Apply(c, s, a).fences == s.fences
  {
    if a.Compute? || a.WorkerFence? {
      WorkerStepDescends(c, s, a);
    } else {
      assert WorkerActions(c, Apply(c, s, a)) == WorkerActions(c, s);
    }
  }

  lemma BeforeBounded(c: Config, s: State)
    requires Shape(c, s) && s.pending == []
    requires (s.root.Hand? || s.root.Collect? || s.root.Zero?) ==> s.root.i <= c.workers
    ensures 0 <= Before(c, s) <= 5 * c.workers + 1
  {
    SumBounded(WorkerActions(c, s), 3);
  }

  ghost function Measure(c: Config, s: State): int
    requires ValidConfig(c) && Shape(c, s)
  {
    FencesLeft(c, s) * (5 * c.workers + 2) + Before(c, s)
  }

  /** A round that begins before the tiles run out is one of the rounds. */
  lemma RoundIsOneOf(c: Config, r: nat)
    requires ValidConfig(c) && r * c.workers < |c.tiles|
    ensures r < Rounds(c)
  {
    var k, q := c.workers, Rounds(c);
    assert |c.tiles| + k - 1 == q * k + (|c.tiles| + k - 1) % k;
    if r >= q { MultiplyMonotone(k, q, r); }
  }

  lemma FencesLeftNonNegative(c: Config, s: State)
    requires ValidConfig(c) && RootInv(c, s)
    ensures FencesLeft(c, s) >= 0
  {
    RoundIsOneOf(c, s.round);
  }

  lemma MeasureIsSum(c: Config, s: State)
    requires ValidConfig(c) && Shape(c, s) && FencesLeft(c, s) >= 0 && RootActions(c, s) >= 0
    ensures 0 <= Measure(c, s)
  {
    var left, m := FencesLeft(c, s), 5 * c.workers + 2;
    MultiplyMonotone(m, 0, left);
    assert left * m >= 0;
    SumBounded(WorkerActions(c, s), 3);
  }

  lemma MeasureNonNegative(c: Config, s: State)
    requires Inv(c, s)
    ensures 0 <= Measure(c, s)
  {
    FencesLeftNonNegative(c, s);
    assert RootInv(c, s);
    MeasureIsSum(c, s);
  }

  lemma FenceDescends(c: Config, s: State, s': State)
    requires ValidConfig(c) && Shape(c, s) && Shape(c, s') && s'.fences == s.fences + 1
    requires 0 <= Before(c, s) && Before(c, s') <= 5 * c.workers + 1
    ensures Measure(c, s') < Measure(c, s)
  {
    var m := 5 * c.workers + 2;
    assert FencesLeft(c, s) * m == FencesLeft(c, s') * m + m;
  }

  lemma FenceStepDescends(c: Config, s: State)
    requires ValidConfig(c) && Shape(c, s) && RootInv(c, s) && Enabled(c, s, Fence) && RootInv(c, Apply(c, s, Fence))
    ensures Measure(c, Apply(c, s, Fence)) < Measure(c, s)
  {
    BeforeBounded(c, Apply(c, s, Fence));
    SumBounded(WorkerActions(c, s), 3);
    FenceDescends(c, s, Apply(c, s, Fence));
  }

  /** A measure of the whole run goes down at every step, so every run stops. */
  lemma EveryStepDescends(c: Config, s: State, a: Step)
    requires Inv(c, s) && Enabled(c, s, a)
    ensures 0 <= Measure(c, Apply(c, s, a)) < Measure(c, s)
  {
    StepInv(c, s, a);
    MeasureNonNegative(c, Apply(c, s, a));
    if a == Fence { FenceStepDescends(c, s); } else { OtherStepDescends(c, s, a); }
  }

  ghost function Longest(c: Config): int
    requires ValidConfig(c)
  {
    (3 * Rounds(c) + 2) * (5 * c.workers + 2) + 5 * c.workers + 2
  }

  lemma {:induction false} RunDescends(c: Config, run: seq<State>)
    requires ValidConfig(c) && Run(c, run)
    ensures Inv(c, run[|run| - 1])
    ensures Measure(c, run[|run| - 1]) + |run| <= Longest(c)
    decreases |run|
  {
    RunInv(c, run);
    if |run| == 1 {
      BeforeBounded(c, run[0]);
    } else {
      var front := run[..|run| - 1];
      RunDescends(c, front);
      var s, s' := run[|run| - 2], run[|run| - 1];
      assert front[|front| - 1] == s;
      var a :| Enabled(c, s, a) && s' == Apply(c, s, a);
      EveryStepDescends(c, s, a);
    }
  }

  /** No run of an image is longer than a bound that depends on the tiles and workers only. */
  lemma RunsAreFinite(c: Config, run: seq<State>)
    requires ValidConfig(c) && Run(c, run)
    ensures |run| <= Longest(c)
  {
    RunDescends(c, run);
    MeasureNonNegative(c, run[|run| - 1]);
  }

  lemma LongerRun(c: Config, run: seq<State>, s: State)
    requires Run(c, run) && Next(c, run[|run| - 1], s)
    ensures Run(c, run + [s])
  {
    assert (run + [s])[..|run + [s]| - 1] == run;
  }

  lemma GoesOn(c: Config, s: State) returns (s': State)
    requires ValidConfig(c) && Shape(c, s) && Reachable(c, s) && !Final(c, s)
    ensures Next(c, s, s') && Shape(c, s') && 0 <= Measure(c, s') < Measure(c, s)
  {
    ReachableInv(c, s);
    var a := NoDeadlock(c, s);
    s' := Apply(c, s, a);
    StepInv(c, s, a);
    EveryStepDescends(c, s, a);
  }

  function Last<T>(run: seq<T>): T
    requires |run| >= 1
  {
    run[|run| - 1]
  }

  /** And every run can go on until everyone has left. */
  lemma {:induction false} RunsEndWell(c: Config, run: seq<State>) returns (longer: seq<State>)
    requires ValidConfig(c) && Run(c, run) && Shape(c, Last(run))
    ensures Run(c, longer) && run <= longer && Shape(c, Last(longer)) && Final(c, Last(longer))
    decreases Measure(c, Last(run))
  {
    if Final(c, Last(run)) {
      longer := run;
    } else {
      var s := GoesOn(c, Last(run));
      LongerRun(c, run, s);
      longer := RunsEndWell(c, run + [s]);
      PrefixOfLonger(run, s, longer);
    }
  }

  /** In particular some run of an image comes to its end. */
  lemma FinalOccurs(c: Config) returns (s: State)
    requires ValidConfig(c)
    ensures Reachable(c, s) && Shape(c, s) && Final(c, s)
  {
    var n := c.workers;
    var first := FenceRounds.State(Begin, 0, false, seq(n, _ => STOP), false, seq(n, _ => First), seq(n, _ => false), seq(n, _ => STOP),
                                   [], [], [], 0, 0);
    assert Run(c, [first]);
    var run := RunsEndWell(c, [first]);
    s := Last(run);
  }
}
