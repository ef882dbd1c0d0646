/** What the dispatch protocol achieves in every run: each tile once, no deadlock, an end, the right image. */
module DispatchResults {
  import opened Common
  import opened Tiling
  import opened Image
  import opened Dispatch

  /** The root has finished its tail loop. */
  predicate ImageDone(c: Config, s: State) {
    s.pc == Top && s.k == c.pieces && s.tail == c.workers
  }

  // ------------------------------------------------------------------- safety

  /** A rearrangement of the numbers below `n`. */
  predicate Permutation(order: seq<nat>, n: nat) {
    && |order| == n
    && (forall i :: 0 <= i < n ==> order[i] < n)
    && (forall i, j :: 0 <= i < j < n ==> order[i] != order[j])
    && (forall t :: 0 <= t < n ==> t in order)
  }

  /** In every reachable state: the tiles sent are those drawn and those with workers, at most one each. */
  lemma SentEqualsReceivedPlusOutstanding(c: Config, s: State)
    requires ValidConfig(c) && Reachable(c, s)
    ensures s.k == |s.drawn| + Outstanding(s) && Outstanding(s) <= c.workers
    ensures forall v, w :: 0 <= v < w < c.workers && s.held[v].Some? ==> s.held[v] != s.held[w]
    ensures forall w, n :: 0 <= w < c.workers && s.held[w].Some? && 0 <= n < |s.order| ==> s.order[n] != s.held[w].value
  {
    ReachableInv(c, s);
    AtMostOneEach(HeldFlags(s));
  }

  lemma {:induction false} AtMostOneEach(flags: seq<int>)
    requires forall i :: 0 <= i < |flags| ==> flags[i] <= 1
    ensures Sum(flags) <= |flags|
  {
    if flags != [] { AtMostOneEach(flags[1..]); }
  }

  /**
   Pairing: the root asks the process that sent the header, and the data it gets are the
   pixels of the area in that header, as many as it made room for.
   */
  lemma DataMatchesHeader(c: Config, s: State, at: nat)
    requires ValidConfig(c) && Reachable(c, s) && Enabled(c, s, RecvData(at))
    ensures NonEmpty(s.pc.area)
    ensures s.up[s.pc.proc][at] == Data(Packed(s.pc.area, c.jobs[s.image].pic))
    ensures |s.up[s.pc.proc][at].pixels| == Size(s.pc.area)
  {
    ReachableInv(c, s);
    assert Link(c, s, s.pc.proc);
  }

  lemma HeaderNamesItsSender(c: Config, s: State, w: nat, at: nat)
    requires ValidConfig(c) && Reachable(c, s) && Enabled(c, s, RecvHead(w, at))
    ensures ProcOf(c, w, s.up[w][at].first) == w && s.workers[w].image == s.image
  {
    ReachableInv(c, s);
    assert Link(c, s, w);
  }

  /** A worker of this image that has its stop message, in its channel or already read, and owes nothing. */
  predicate Stopped(s: State, w: nat)
    requires w < |s.workers| == |s.down| == |s.up|
  {
    && s.up[w] == [] && s.workers[w].image == s.image
    && ((s.down[w] == [STOP] && s.workers[w].pc == Waiting) || (s.down[w] == [] && s.workers[w].pc == Idle))
  }

  /**
   When the tail loop ends: every tile was drawn exactly once, with its own pixels, for the
   limits of this image; every worker has its stop message; nothing is on its way to the root.
   */
  lemma EveryTileExactlyOnce(c: Config, s: State)
    requires ValidConfig(c) && Reachable(c, s) && ImageDone(c, s)
    ensures Permutation(s.order, c.pieces) && |s.drawn| == c.pieces
    ensures forall n :: 0 <= n < c.pieces ==>
      var t := s.order[n];
      s.drawn[n] == Piece(c.jobs[s.image].tiles[t], Packed(c.jobs[s.image].tiles[t], c.jobs[s.image].pic))
    ensures forall w :: 0 <= w < c.workers ==> Stopped(s, w)
  {
    ReachableInv(c, s);
    DoneState(c, s);
  }

  lemma DoneState(c: Config, s: State)
    requires Inv(c, s) && ImageDone(c, s)
    ensures Permutation(s.order, c.pieces) && |s.drawn| == c.pieces
    ensures Draws(s.drawn, c.jobs[s.image].tiles, c.jobs[s.image].pic)
    ensures forall w :: 0 <= w < c.workers ==> s.held[w].None? && Stopped(s, w)
  {
    FullSet(c.workers, s.stopped);
    forall w | 0 <= w < c.workers
      ensures s.held[w].None? && Stopped(s, w)
    {
      assert Link(c, s, w);
    }
    SumOfZeros(HeldFlags(s));
    AllTilesDrawn(c, s);
  }

  lemma AllTilesDrawn(c: Config, s: State)
    requires Inv(c, s) && s.k == c.pieces && |s.drawn| == c.pieces
    requires forall w :: 0 <= w < c.workers ==> s.held[w].None?
    ensures Permutation(s.order, c.pieces)
    ensures Draws(s.drawn, c.jobs[s.image].tiles, c.jobs[s.image].pic)
  {
    forall t | 0 <= t < c.pieces
      ensures t in s.order && DrawsArea(s.drawn, c.jobs[s.image].tiles[t])
    {
      var n := TileWasDrawn(c, s, t);
    }
    forall n | 0 <= n < |s.drawn|
      ensures s.drawn[n].area in c.jobs[s.image].tiles
    {
      PieceIsTile(c, s, n);
    }
  }

  lemma TileWasDrawn(c: Config, s: State, t: nat) returns (n: nat)
    requires ValidConfig(c) && Shape(c, s) && TilesOk(c, s) && t < s.k == c.pieces
    requires forall w :: 0 <= w < c.workers ==> s.held[w].None?
    ensures n < |s.drawn| && s.order[n] == t && s.drawn[n].area == c.jobs[s.image].tiles[t]
  {
    assert s.place[t].Drawn?;
    n := s.place[t].pos;
  }

  lemma PieceIsTile(c: Config, s: State, n: nat)
    requires ValidConfig(c) && Shape(c, s) && TilesOk(c, s) && n < |s.drawn|
    ensures s.drawn[n].area in c.jobs[s.image].tiles
  {
    assert s.drawn[n].area == c.jobs[s.image].tiles[s.order[n]];
  }

  // ------------------------------------------------------------------- progress

  /** All images are finished and every worker has read its last stop message. */
  predicate Final(c: Config, s: State) {
    && ImageDone(c, s) && s.image + 1 == |c.jobs|
    && forall w :: 0 <= w < |s.workers| ==> s.workers[w].image == s.image && s.workers[w].pc == Idle
  }

  /** Some worker is missing from a set that is too small. */
  lemma {:induction false} Missing(n: nat, ws: set<nat>) returns (w: nat)
    requires |ws| < n
    ensures w < n && w !in ws
  {
    w := n - 1;
    if n - 1 in ws {
      w := Missing(n - 1, ws - {n - 1});
    }
  }

  /** A worker that has something to do, or a message for the root, is never stuck. */
  lemma HolderCanMove(c: Config, s: State, w: nat) returns (a: Step)
    requires Inv(c, s) && w < c.workers && s.held[w].Some? && !HeadTaken(s, w)
    requires RootFree(s) && s.pc == Top && c.workers <= s.k && (s.k < c.pieces || s.tail < c.workers)
    requires c.kind.WaitAny? && s.k == c.pieces ==> w == s.tail
    ensures Enabled(c, s, a)
  {
    assert Link(c, s, w);
    var wk := s.workers[w];
    if s.up[w] != [] {
      a := RecvHead(w, 0);
      assert FirstHead(s.up[w], 0);
    } else if wk.image != s.image && wk.pc == Idle {
      a := NextJob(w);
    } else if wk.pc == Waiting {
      a := TakeWork(w);
    } else {
      a := SendHead(w, false);
    }
  }

  /** A root that waits for its message to be received: the receiver can come to it. */
  lemma BlockedRootIsFreed(c: Config, s: State) returns (a: Step)
    requires Inv(c, s) && !RootFree(s)
    ensures Enabled(c, s, a)
  {
    var w := s.blockedOn.value;
    assert Link(c, s, w);
    a := if s.workers[w].pc == Idle then NextJob(w) else TakeWork(w);
  }

  /** A root that has a header gets the data. */
  lemma DataArrives(c: Config, s: State) returns (a: Step)
    requires Inv(c, s) && RootFree(s) && s.pc.GotHead?
    ensures Enabled(c, s, a)
  {
    var w: nat := s.pc.proc;
    assert Link(c, s, w);
    if s.up[w] == [] {
      a := SendData(w, false);
    } else {
      a := RecvData(0);
      assert FirstData(s.up[w], 0);
    }
  }

  /** A root at the top of one of its loops. */
  lemma RootOrHolderMoves(c: Config, s: State) returns (a: Step)
    requires Inv(c, s) && RootFree(s) && s.pc == Top && !(s.k == c.pieces && s.tail == c.workers)
    ensures Enabled(c, s, a)
  {
    if s.k < c.workers {
      a := Prime(false);
    } else {
      var w := 0;
      if s.k == c.pieces {
        w := Missing(c.workers, s.stopped);
        if c.kind.WaitAny? { w := s.tail; }
      }
      assert Link(c, s, w);
      a := HolderCanMove(c, s, w);
    }
  }

  /** After the last image, a worker that has not stopped yet can read its stop message. */
  lemma LastStops(c: Config, s: State) returns (a: Step)
    requires Inv(c, s) && ImageDone(c, s) && !Final(c, s) && s.image + 1 == |c.jobs|
    ensures Enabled(c, s, a)
  {
    DoneState(c, s);
    var w :| 0 <= w < |s.workers| && !(s.workers[w].image == s.image && s.workers[w].pc == Idle);
    assert Stopped(s, w);
    a := TakeWork(w);
  }

  /** Whatever the system does with sends, some process can always take its next step. */
  lemma NoDeadlock(c: Config, s: State) returns (a: Step)
    requires ValidConfig(c) && Reachable(c, s) && !Final(c, s)
    ensures Enabled(c, s, a)
  {
    ReachableInv(c, s);
    if !RootFree(s) {
      a := BlockedRootIsFreed(c, s);
    } else if s.pc.GotData? {
      a := SendOn(false);
    } else if s.pc.GotHead? {
      a := DataArrives(c, s);
    } else if !ImageDone(c, s) {
      a := RootOrHolderMoves(c, s);
    } else if s.image + 1 < |c.jobs| {
      a := NextImage;
    } else {
      a := LastStops(c, s);
    }
  }

  // ------------------------------------------------------------------- termination

  function PCWeight(pc: WorkerPC): int {
    match pc
    case Waiting => 0
    case Computing(_, _) => 6
    case SendingData(_) => 3
    case Idle => 1
  }

  /** What is left to do at one worker and in its two channels. */
  function WorkerWeight(s: State, w: nat): int
    requires |s.workers| == |s.down| == |s.up| && w < |s.workers|
  {
    7 * |s.down[w]| + PCWeight(s.workers[w].pc) + 2 * |s.up[w]|
  }

  function WorkerWeights(s: State): seq<int>
    requires |s.workers| == |s.down| == |s.up|
  {
    seq(|s.workers|, w requires 0 <= w < |s.workers| => WorkerWeight(s, w))
  }

  function RootWeight(pc: RootPC): int {
    match pc
    case Top => 0
    case GotHead(_, _) => 1
    case GotData(_) => 1
  }

  function ImageWeight(c: Config): int {
    8 * (c.pieces + c.workers) + 1
  }

  /** The work left: images, tiles to send, stops to send, and what is under way. */
  function Measure(c: Config, s: State): int
    requires |s.workers| == |s.down| == |s.up|
  {
    ImageWeight(c) * (|c.jobs| - 1 - s.image) + 8 * (c.pieces - s.k) + 8 * (c.workers - s.tail)
    + RootWeight(s.pc) + Sum(WorkerWeights(s))
  }

  lemma MeasureBounded(c: Config, s: State)
    requires Inv(c, s)
    ensures Measure(c, s) >= 0
  {
    SumNonNegative(WorkerWeights(s));
    MultiplyMonotone(ImageWeight(c), 0, |c.jobs| - 1 - s.image);
  }

  lemma WeightChanges(c: Config, s: State, s': State, w: nat)
    requires Shape(c, s) && Shape(c, s') && w < c.workers
    requires s'.workers == s.workers[w := s'.workers[w]] && s'.down == s.down[w := s'.down[w]] && s'.up == s.up[w := s'.up[w]]
    ensures Sum(WorkerWeights(s')) == Sum(WorkerWeights(s)) - WorkerWeight(s, w) + WorkerWeight(s', w)
  {
    assert WorkerWeights(s') == WorkerWeights(s)[w := WorkerWeight(s', w)];
    SumUpdate(WorkerWeights(s), w, WorkerWeight(s', w));
  }

  /** The worker a step of the root deals with. */
  function Partner(s: State, a: Step): int
    requires a.Prime? || a.RecvHead? || (a.RecvData? && s.pc.GotHead?) || (a.SendOn? && s.pc.GotData?)
  {
    if a.Prime? then s.k else if a.RecvHead? then a.w else s.pc.proc
  }

  lemma RootStepDescends(c: Config, s: State, a: Step)
    requires Shape(c, s) && Enabled(c, s, a) && (a.Prime? || a.RecvHead? || a.RecvData? || a.SendOn?)
    requires Shape(c, Apply(c, s, a))
    ensures Measure(c, Apply(c, s, a)) < Measure(c, s)
  {
    var s' := Apply(c, s, a);
    WeightChanges(c, s, s', Partner(s, a));
    assert s'.image == s.image;
  }

  lemma WorkerStepDescends(c: Config, s: State, a: Step)
    requires Shape(c, s) && Enabled(c, s, a) && (a.TakeWork? || a.SendHead? || a.SendData? || a.NextJob?)
    requires Shape(c, Apply(c, s, a))
    ensures Measure(c, Apply(c, s, a)) < Measure(c, s)
  {
    var s' := Apply(c, s, a);
    WeightChanges(c, s, s', a.w);
    assert s'.image == s.image;
  }

  lemma NextImageDescends(c: Config, s: State)
    requires Inv(c, s) && Enabled(c, s, NextImage)
    ensures Measure(c, Apply(c, s, NextImage)) < Measure(c, s)
  {
    var s' := Apply(c, s, NextImage);
    assert WorkerWeights(s') == WorkerWeights(s);
    OneLess(ImageWeight(c), |c.jobs| - 1 - s.image);
    assert |c.jobs| - 1 - s'.image == |c.jobs| - 1 - s.image - 1;
  }

  lemma OneLess(m: int, n: int)
    ensures m * (n - 1) == m * n - m
  {
  }

  /** Every step uses up some of the work that is left. */
  lemma EveryStepDescends(c: Config, s: State, a: Step)
    requires ValidConfig(c) && Reachable(c, s) && Enabled(c, s, a)
    ensures 0 <= Measure(c, Apply(c, s, a)) < Measure(c, s)
  {
    ReachableInv(c, s);
    StepInv(c, s, a);
    MeasureBounded(c, Apply(c, s, a));
    match a
    case NextImage => NextImageDescends(c, s);
    case Prime(_) => RootStepDescends(c, s, a);
    case RecvHead(_, _) => RootStepDescends(c, s, a);
    case RecvData(_) => RootStepDescends(c, s, a);
    case SendOn(_) => RootStepDescends(c, s, a);
    case TakeWork(_) => WorkerStepDescends(c, s, a);
    case SendHead(_, _) => WorkerStepDescends(c, s, a);
    case SendData(_, _) => WorkerStepDescends(c, s, a);
    case NextJob(_) => WorkerStepDescends(c, s, a);
  }

  lemma {:induction false} RunDescends(c: Config, run: seq<State>)
    requires ValidConfig(c) && Run(c, run)
    ensures Shape(c, Last(run)) && 0 <= Measure(c, Last(run)) <= Measure(c, Init(c)) - (|run| - 1)
    decreases |run|
  {
    RunInv(c, run);
    MeasureBounded(c, Last(run));
    if |run| > 1 {
      var front, s, a := LastStep(c, run);
      RunDescends(c, front);
      assert Reachable(c, s);
      EveryStepDescends(c, s, a);
    }
  }

  lemma InitialMeasure(c: Config)
    requires ValidConfig(c)
    ensures Measure(c, Init(c)) < ImageWeight(c) * |c.jobs|
  {
    SumOfZeros(WorkerWeights(Init(c)));
    OneLess(ImageWeight(c), |c.jobs|);
  }

  /** So every run, over any number of images, stops. */
  lemma RunsAreFinite(c: Config, run: seq<State>)
    requires ValidConfig(c) && Run(c, run)
    ensures |run| <= ImageWeight(c) * |c.jobs|
  {
    RunDescends(c, run);
    InitialMeasure(c);
  }

  lemma LongerRun(c: Config, run: seq<State>, s: State)
    requires Run(c, run) && Next(c, Last(run), s)
    ensures Run(c, run + [s])
  {
    assert (run + [s])[..|run + [s]| - 1] == run;
  }

  lemma GoesOn(c: Config, s: State) returns (s': State)
    requires ValidConfig(c) && Shape(c, s) && Reachable(c, s) && !Final(c, s)
    ensures Next(c, s, s') && Shape(c, s') && 0 <= Measure(c, s') < Measure(c, s)
  {
    ReachableInv(c, s);
    var a := NoDeadlock(c, s);
    s' := Apply(c, s, a);
    StepInv(c, s, a);
    EveryStepDescends(c, s, a);
  }

  /** And every run can go on until all images are finished and all workers have stopped. */
  lemma {:induction false} RunsEndWell(c: Config, run: seq<State>) returns (longer: seq<State>)
    requires ValidConfig(c) && Run(c, run) && Shape(c, Last(run))
    ensures Run(c, longer) && run <= longer && Shape(c, Last(longer)) && Final(c, Last(longer))
    decreases Measure(c, Last(run))
  {
    if Final(c, Last(run)) {
      longer := run;
    } else {
      assert Reachable(c, Last(run));
      var s := GoesOn(c, Last(run));
      LongerRun(c, run, s);
      longer := RunsEndWell(c, run + [s]);
      PrefixOfLonger(run, s, longer);
    }
  }

  /** In particular some run finishes all images. */
  lemma FinalOccurs(c: Config) returns (s: State)
    requires ValidConfig(c)
    ensures Reachable(c, s) && Final(c, s)
  {
    var run := RunsEndWell(c, [Init(c)]);
    s := Last(run);
  }

  // ------------------------------------------------------------------- the image

  /** Every job uses the tiles of one image size, in any order. */
  ghost predicate JobsFor(c: Config, w: int, h: int) {
    w >= 1 && h >= 1 && c.pieces == PIECES
    && forall m :: 0 <= m < |c.jobs| ==> multiset(c.jobs[m].tiles) == multiset(Tiles(w, h))
  }

  lemma JobTilesGood(c: Config, w: int, h: int, m: nat)
    requires JobsFor(c, w, h) && m < |c.jobs|
    ensures GoodTiles(c.jobs[m].tiles, w, h)
  {
    RearrangedTilesAreGood(c.jobs[m].tiles, w, h);
  }

  /** All pieces the root has drawn for earlier images lie in the covered rectangle. */
  lemma {:induction false} PastWithin(c: Config, run: seq<State>, w: int, h: int)
    requires ValidConfig(c) && Run(c, run) && JobsFor(c, w, h)
    ensures LogWithin(Last(run).past, w, h)
    decreases |run|
  {
    if |run| > 1 {
      var front, s, a := LastStep(c, run);
      PastWithin(c, front, w, h);
      RunInv(c, front);
      PastStep(c, s, a, w, h);
    } else {
      assert Last(run) == Init(c);
    }
  }

  lemma PastStep(c: Config, s: State, a: Step, w: int, h: int)
    requires Inv(c, s) && Enabled(c, s, a) && JobsFor(c, w, h) && LogWithin(s.past, w, h)
    ensures LogWithin(Apply(c, s, a).past, w, h)
  {
    if a.NextImage? {
      DoneState(c, s);
      JobTilesGood(c, w, h, s.image);
      DrawnLogWithin(w, h, c.jobs[s.image].tiles, s.drawn, c.jobs[s.image].pic);
    }
  }

  lemma AllDrawnWithin(c: Config, s: State, w: int, h: int)
    requires ValidConfig(c) && Reachable(c, s) && ImageDone(c, s) && JobsFor(c, w, h)
    ensures LogWithin(s.past, w, h) && LogWithin(s.drawn, w, h)
    ensures GoodTiles(c.jobs[s.image].tiles, w, h) && Draws(s.drawn, c.jobs[s.image].tiles, c.jobs[s.image].pic)
  {
    ReachableInv(c, s);
    DoneState(c, s);
    JobTilesGood(c, w, h, s.image);
    var run :| Run(c, run) && Last(run) == s;
    PastWithin(c, run, w, h);
    DrawnLogWithin(w, h, c.jobs[s.image].tiles, s.drawn, c.jobs[s.image].pic);
  }

  /** The array of the root, cleared once at the start and never between images. */
  ghost function OutGrid(s: State, w: int, h: int): (r: seq<int>)
    requires w >= 1 && h >= 1 && w * h >= 0 && Paintable(s.past + s.drawn, h, w * h)
    ensures |r| == w * h
  {
    PaintAll(seq(w * h, _ => 0), h, s.past + s.drawn)
  }

  /**
   For a square image or one of a single row, after any run and any number of earlier images:
   the array shows the sequentially computed picture wherever tiles reach and is zero elsewhere.
   */
  lemma AssembledImage(c: Config, s: State, w: int, h: int)
    requires ValidConfig(c) && Reachable(c, s) && ImageDone(c, s) && JobsFor(c, w, h)
    requires w == h || h == 1
    ensures w * h >= 0 && Paintable(s.past + s.drawn, h, w * h)
    ensures Shows(OutGrid(s, w, h), seq(w * h, _ => 0), w, h, c.jobs[s.image].pic)
  {
    AllDrawnWithin(c, s, w, h);
    MultiplyMonotone(w, 0, h);
    AfterEarlierImages(w, h, c.jobs[s.image].tiles, s.past, s.drawn, c.jobs[s.image].pic);
  }

  lemma AfterEarlierImages(w: int, h: int, tiles: seq<Area>, past: seq<Piece>, drawn: seq<Piece>, pic: Picture)
    requires GoodTiles(tiles, w, h) && Draws(drawn, tiles, pic) && LogWithin(past, w, h) && w * h >= 0
    requires w == h || h == 1
    ensures Paintable(past + drawn, h, w * h)
    ensures var zeros := seq(w * h, _ => 0); Shows(PaintAll(zeros, h, past + drawn), zeros, w, h, pic)
  {
    var zeros := seq(w * h, _ => 0);
    SquareStride(zeros, w, h, past);
    var before := PaintAll(zeros, h, past);
    SquareImageIsRight(before, w, h, tiles, drawn, pic);
    PaintAppend(zeros, h, past, drawn);
    forall x, y {:trigger InCovered(w, h, x, y)} | 0 <= x < w && 0 <= y < h
      ensures InCovered(w, h, x, y) || before[Cell(w, h, x, y)] == 0
    {
      if !InCovered(w, h, x, y) { UncoveredUntouched(zeros, w, h, past, x, y); }
    }
  }

  /** pmandel_spawn.c brings any requested number of children into range; pmandel.c has no such check. */
  const DEFAULT_NUM_SLAVES := 3

  method ClampChildren(requested: int) returns (children: int)
    ensures 1 <= children <= PIECES
    ensures 1 <= requested <= PIECES ==> children == requested
    ensures requested > PIECES ==> children == PIECES
    ensures requested < 1 ==> children == DEFAULT_NUM_SLAVES
  {
    children := requested;
    if children < 1 {
      children := DEFAULT_NUM_SLAVES;
    }
    if children > PIECES {
      children := PIECES;
    }
  }
}
