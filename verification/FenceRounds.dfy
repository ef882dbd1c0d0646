/**
 The one-sided program (pmandel_fence.c) as a state machine: root and workers go from fence to
 fence; between two fences the root hands out work by puts, or the workers put their pixels,
 or the root reads them. A put may take effect at any time up to the fence that closes it.
 */
module FenceRounds {
  import opened Common
  import opened Tiling

  /** The five integers of a worker's window: zero to stop, -1 for a filler, else a tile's number. */
  datatype Work = Work(first: int, area: Area)

  const STOP := Work(0, Area(0, 0, 0, 0))
  const NOWHERE := Area(-1, -1, -1, -1)
  const FILLER := Work(-1, NOWHERE)

  datatype Config = Config(workers: nat, tiles: seq<Area>)

  predicate ValidConfig(c: Config) {
    c.workers >= 1 && |c.tiles| >= 1
  }

  /** What is handed out at turn `t`, counting over all rounds. */
  function Item(c: Config, t: nat): Work {
    if t < |c.tiles| then Work(t + 1, c.tiles[t]) else FILLER
  }

  /** Where the root is between its fences; the argument is the next worker of the loop at hand. */
  datatype RootPC = Begin | Hand(i: nat) | Mid | Collect(i: nat) | Zero(i: nat) | End

  /** Where a worker is between its fences. */
  datatype WorkerPC = First | Receive | Look | Worked | Rest | Gone

  datatype Op = Assign(w: nat, item: Work) | Result(w: nat, area: Area)

  /**
   `work` is the root's copy of what it handed out; `sent` the areas written to the visualizer.
   `landed`, `round` and `fences` are history: no step is guarded by them.
   */
  datatype State = State(
    root: RootPC, k: int, done: bool, work: seq<Work>, rootWaits: bool,
    pcs: seq<WorkerPC>, waits: seq<bool>, slots: seq<Work>,
    pending: seq<Op>, sent: seq<Area>,
    landed: seq<Area>, round: nat, fences: nat)

  datatype Step =
    | HandOut
    | CollectOne
    | HandStop
    | RootFence
    | Compute(w: nat)
    | WorkerFence(w: nat)
    | Land(j: nat)
    | Fence

  ghost predicate Shape(c: Config, s: State) {
    |s.work| == |s.pcs| == |s.waits| == |s.slots| == c.workers
  }

  /** The windows may hold anything at first. */
  ghost predicate Initial(c: Config, s: State) {
    && Shape(c, s)
    && s.root == Begin && s.k == 0 && !s.done && !s.rootWaits
    && (forall w :: 0 <= w < c.workers ==> s.pcs[w] == First && !s.waits[w])
    && s.pending == [] && s.sent == [] && s.landed == [] && s.round == 0 && s.fences == 0
  }

  predicate AtRootFence(c: Config, pc: RootPC) {
    match pc
    case Begin | Mid => true
    case Hand(i) => i == c.workers
    case Collect(i) => i == c.workers
    case Zero(i) => i == c.workers
    case End => false
  }

  predicate AtWorkerFence(pc: WorkerPC) {
    pc == First || pc == Receive || pc == Worked || pc == Rest
  }

  ghost predicate Enabled(c: Config, s: State, a: Step)
    requires Shape(c, s)
  {
    match a
    case HandOut => s.root.Hand? && s.root.i < c.workers && 0 <= s.k < |c.tiles|
    case CollectOne => s.root.Collect? && s.root.i < c.workers
    case HandStop => s.root.Zero? && s.root.i < c.workers
    case RootFence => !s.rootWaits && AtRootFence(c, s.root)
    case Compute(w) => w < c.workers && s.pcs[w] == Look
    case WorkerFence(w) => w < c.workers && !s.waits[w] && AtWorkerFence(s.pcs[w])
    case Land(j) => j < |s.pending| && s.pending[j].w < c.workers
    case Fence => s.rootWaits && (forall w :: 0 <= w < c.workers ==> s.waits[w]) && s.pending == []
  }

  /** The loop head after a fence, where `done` decides. */
  function RootAfter(s: State): RootPC {
    match s.root
    case Begin => Hand(0)
    case Hand(_) => Mid
    case Mid => Collect(0)
    case Collect(_) => if s.done then Zero(0) else Hand(0)
    case Zero(_) => End
    case End => End
  }

  function WorkerAfter(pc: WorkerPC): WorkerPC {
    match pc
    case First => Receive
    case Receive => Look
    case Worked => Rest
    case Rest => Receive
    case Look => Look
    case Gone => Gone
  }

  function Without<T>(q: seq<T>, at: nat): seq<T>
    requires at < |q|
  {
    q[..at] + q[at + 1..]
  }

  ghost function Apply(c: Config, s: State, a: Step): State
    requires Shape(c, s) && Enabled(c, s, a)
  {
    match a
    case HandOut =>
      var i := s.root.i;
      var item := if !s.done then Work(s.k + 1, c.tiles[s.k]) else FILLER;
      s.(root := Hand(i + 1), work := s.work[i := item], pending := s.pending + [Assign(i, item)],
         k := if s.k < |c.tiles| - 1 then s.k + 1 else s.k,
         done := s.done || s.k >= |c.tiles| - 1)
    case CollectOne =>
      var i := s.root.i;
      s.(root := Collect(i + 1), sent := if s.work[i].first != -1 then s.sent + [s.work[i].area] else s.sent)
    case HandStop =>
      var i := s.root.i;
      s.(root := Zero(i + 1), work := s.work[i := STOP], pending := s.pending + [Assign(i, STOP)])
    case RootFence => s.(rootWaits := true)
    case Compute(w) =>
      if s.slots[w].first == 0 then s.(pcs := s.pcs[w := Gone])
      else s.(pcs := s.pcs[w := Worked], pending := s.pending + [Result(w, s.slots[w].area)])
    case WorkerFence(w) => s.(waits := s.waits[w := true])
    case Land(j) =>
      var rest := Without(s.pending, j);
      (match s.pending[j]
       case Assign(w, item) => s.(pending := rest, slots := s.slots[w := item])
       case Result(_, area) => s.(pending := rest, landed := s.landed + [area]))
    case Fence =>
      s.(root := RootAfter(s), rootWaits := false,
         round := if s.root.Collect? && !s.done then s.round + 1 else s.round,
         pcs := seq(c.workers, w requires 0 <= w < c.workers => WorkerAfter(s.pcs[w])),
         waits := seq(c.workers, _ => false),
         fences := s.fences + 1)
  }

  // ------------------------------------------------------------------- runs

  ghost predicate Next(c: Config, s: State, s': State) {
    Shape(c, s) && exists a :: Enabled(c, s, a) && s' == Apply(c, s, a)
  }

  ghost predicate Run(c: Config, run: seq<State>)
    decreases |run|
  {
    |run| >= 1 && if |run| == 1 then Initial(c, run[0]) else Run(c, run[..|run| - 1]) && Next(c, run[|run| - 2], run[|run| - 1])
  }

  ghost predicate Reachable(c: Config, s: State) {
    exists run :: Run(c, run) && run[|run| - 1] == s
  }

  // ------------------------------------------------------------------- the invariant

  /** In which stretch between fences a worker is, given the root's. */
  predicate InStep(root: RootPC, pc: WorkerPC) {
    match root
    case Begin => pc == First
    case Hand(_) | Zero(_) => pc == Receive
    case Mid => pc == Look || pc == Worked
    case Collect(_) => pc == Rest
    case End => pc == Look || pc == Gone
  }

  /** The first turn of this round. */
  function Base(c: Config, s: State): nat {
    s.round * c.workers
  }

  /** How many items are out, and how many of them have been collected. */
  function Handed(c: Config, s: State): int {
    match s.root
    case Begin => 0
    case Hand(i) => Base(c, s) + i
    case _ => Base(c, s) + c.workers
  }

  function Collected(c: Config, s: State): int {
    match s.root
    case Begin => 0
    case Hand(_) | Mid => Base(c, s)
    case Collect(i) => Base(c, s) + i
    case _ => Base(c, s) + c.workers
  }

  function FencesSoFar(s: State): int {
    match s.root
    case Begin => 0
    case Hand(_) => 3 * s.round + 1
    case Mid => 3 * s.round + 2
    case Collect(_) => 3 * s.round + 3
    case Zero(_) => 3 * s.round + 4
    case End => 3 * s.round + 5
  }

  ghost predicate RootInv(c: Config, s: State) {
    var n := |c.tiles|;
    && Base(c, s) < n
    && (s.root == Begin ==> s.round == 0)
    && (s.root.Hand? || s.root.Collect? || s.root.Zero? ==> s.root.i <= c.workers)
    && (s.rootWaits ==> AtRootFence(c, s.root))
    && s.k == Min(Handed(c, s), n - 1)
    && s.done == (Handed(c, s) >= n)
    && (s.root.Zero? || s.root.End? ==> s.done)
    && s.fences == FencesSoFar(s)
    && s.sent == c.tiles[..Min(Collected(c, s), n)]
  }

  ghost predicate WorkersInv(c: Config, s: State)
    requires Shape(c, s)
  {
    forall w :: 0 <= w < c.workers ==> InStep(s.root, s.pcs[w]) && (s.waits[w] ==> AtWorkerFence(s.pcs[w]))
  }

  /** The item worker `w` has in this round. */
  function Now(c: Config, s: State, w: nat): Work {
    Item(c, Base(c, s) + w)
  }

  /** The root's copies are the items of this round, or stop messages, as far as it has handed them out. */
  ghost predicate CopiesInv(c: Config, s: State)
    requires Shape(c, s)
  {
    match s.root
    case Hand(i) => forall w :: 0 <= w < Min(i, c.workers) ==> s.work[w] == Now(c, s, w)
    case Mid | Collect(_) => forall w :: 0 <= w < c.workers ==> s.work[w] == Now(c, s, w)
    case Zero(i) => forall w :: 0 <= w < Min(i, c.workers) ==> s.work[w] == STOP
    case End => forall w :: 0 <= w < c.workers ==> s.work[w] == STOP
    case Begin => true
  }

  ghost predicate Assigning(s: State, w: nat, item: Work) {
    exists j :: 0 <= j < |s.pending| && s.pending[j] == Assign(w, item)
  }

  ghost predicate Putting(s: State, w: nat, area: Area) {
    exists j :: 0 <= j < |s.pending| && s.pending[j] == Result(w, area)
  }

  /** Work puts are under way only while the root hands out, and each holds what the root's copy does. */
  ghost predicate PendingInv(c: Config, s: State)
    requires Shape(c, s)
  {
    forall j :: 0 <= j < |s.pending| ==> Timely(c, s, s.pending[j])
  }

  ghost predicate Timely(c: Config, s: State, op: Op)
    requires Shape(c, s)
  {
    op.w < c.workers &&
    match op
    case Assign(w, item) => (s.root.Hand? || s.root.Zero?) && w < s.root.i && item == s.work[w]
    case Result(w, area) => s.root == Mid && s.pcs[w] == Worked && area == Now(c, s, w).area
  }

  /** A worker's window holds what the root last put, or that put is still under way. */
  ghost predicate SlotsInv(c: Config, s: State)
    requires Shape(c, s)
  {
    match s.root
    case Hand(i) => forall w :: 0 <= w < Min(i, c.workers) ==> s.slots[w] == s.work[w] || Assigning(s, w, s.work[w])
    case Zero(i) => forall w :: 0 <= w < Min(i, c.workers) ==> s.slots[w] == s.work[w] || Assigning(s, w, s.work[w])
    case Begin => true
    case _ => forall w :: 0 <= w < c.workers ==> s.slots[w] == s.work[w]
  }

  /** Turns whose results have been put by the end of the last work stretch. */
  function PutTurns(c: Config, s: State): int {
    if s.root.Begin? || s.root.Hand? || s.root.Mid? then Base(c, s) else Base(c, s) + c.workers
  }

  ghost predicate LandedInv(c: Config, s: State)
    requires Shape(c, s)
  {
    && (forall t :: 0 <= t < PutTurns(c, s) ==> Item(c, t).area in s.landed)
    && (s.root == Mid ==> forall w :: 0 <= w < c.workers && s.pcs[w] == Worked ==>
          Now(c, s, w).area in s.landed || Putting(s, w, Now(c, s, w).area))
  }

  /** Nothing else is put. */
  ghost predicate OriginInv(c: Config, s: State) {
    forall n :: 0 <= n < |s.landed| ==> ComesFrom(c, s, s.landed[n])
  }

  ghost predicate ComesFrom(c: Config, s: State, area: Area) {
    exists t :: 0 <= t < Handed(c, s) && Item(c, t).area == area
  }

  ghost predicate Inv(c: Config, s: State) {
    && ValidConfig(c) && Shape(c, s)
    && RootInv(c, s) && WorkersInv(c, s) && CopiesInv(c, s)
    && PendingInv(c, s) && SlotsInv(c, s) && LandedInv(c, s) && OriginInv(c, s)
  }

  lemma InitialInv(c: Config, s: State)
    requires ValidConfig(c) && Initial(c, s)
    ensures Inv(c, s)
  {
  }

  lemma BaseAfter(c: Config, s: State, s': State)
    requires s'.round == s.round + 1
    ensures Base(c, s') == Base(c, s) + c.workers
  {
    assert (s.round + 1) * c.workers == s.round * c.workers + c.workers;
  }

  // ------------------------------------------------------------------- every step keeps it

  /** The root's item is the one whose turn it is. */
  lemma HandedIsItem(c: Config, s: State)
    requires ValidConfig(c) && RootInv(c, s) && s.root.Hand? && s.root.i < c.workers
    ensures 0 <= s.k < |c.tiles|
    ensures (if !s.done then Work(s.k + 1, c.tiles[s.k]) else FILLER) == Now(c, s, s.root.i)
  {
  }

  lemma CollectRoot(c: Config, s: State)
    requires ValidConfig(c) && Shape(c, s) && RootInv(c, s) && Enabled(c, s, CollectOne)
    requires s.work[s.root.i] == Now(c, s, s.root.i)
    ensures RootInv(c, Apply(c, s, CollectOne))
  {
    var t, n := Base(c, s) + s.root.i, |c.tiles|;
    if t < n { assert c.tiles[..t] + [c.tiles[t]] == c.tiles[..t + 1]; }
  }

  lemma FenceRoot(c: Config, s: State)
    requires ValidConfig(c) && Shape(c, s) && RootInv(c, s) && Enabled(c, s, Fence)
    ensures RootInv(c, Apply(c, s, Fence))
  {
    var s' := Apply(c, s, Fence);
    if s'.round != s.round { BaseAfter(c, s, s'); }
  }

  lemma StepWorkers(c: Config, s: State, a: Step)
    requires ValidConfig(c) && Shape(c, s) && RootInv(c, s) && WorkersInv(c, s) && Enabled(c, s, a)
    requires a.Compute? && s.root.Mid? ==> s.slots[a.w].first != 0
    requires a.Compute? && s.root.End? ==> s.slots[a.w].first == 0
    ensures WorkersInv(c, Apply(c, s, a))
  {
  }

  lemma HandOutCopies(c: Config, s: State)
    requires ValidConfig(c) && Shape(c, s) && RootInv(c, s) && CopiesInv(c, s) && Enabled(c, s, HandOut)
    ensures CopiesInv(c, Apply(c, s, HandOut))
  {
    HandedIsItem(c, s);
    var s' := Apply(c, s, HandOut);
    assert Base(c, s') == Base(c, s);
    forall w | 0 <= w < s'.root.i
      ensures s'.work[w] == Now(c, s', w)
    {
      if w < s.root.i { assert s.work[w] == Now(c, s, w); }
    }
  }

  lemma FenceCopies(c: Config, s: State)
    requires ValidConfig(c) && Shape(c, s) && RootInv(c, s) && CopiesInv(c, s) && Enabled(c, s, Fence)
    ensures CopiesInv(c, Apply(c, s, Fence))
  {
  }

  lemma HandStopCopies(c: Config, s: State)
    requires ValidConfig(c) && Shape(c, s) && RootInv(c, s) && CopiesInv(c, s) && Enabled(c, s, HandStop)
    ensures CopiesInv(c, Apply(c, s, HandStop))
  {
    var s' := Apply(c, s, HandStop);
    forall w | 0 <= w < s'.root.i
      ensures s'.work[w] == STOP
    {
      if w < s.root.i { assert s.work[w] == STOP; }
    }
  }

  lemma CollectCopies(c: Config, s: State)
    requires ValidConfig(c) && Shape(c, s) && RootInv(c, s) && CopiesInv(c, s) && Enabled(c, s, CollectOne)
    ensures CopiesInv(c, Apply(c, s, CollectOne))
  {
    var s' := Apply(c, s, CollectOne);
    assert s'.work == s.work && Base(c, s') == Base(c, s);
  }

  /** Steps that leave the root, its copies and the round alone. */
  predicate Aside(a: Step) { a.RootFence? || a.Compute? || a.WorkerFence? || a.Land? }

  lemma AsideKeepsRoot(c: Config, s: State, a: Step)
    requires Shape(c, s) && Enabled(c, s, a) && Aside(a)
    ensures var s' := Apply(c, s, a);
            s'.root == s.root && s'.work == s.work && s'.round == s.round && s'.sent == s.sent
  {
  }

  lemma SameCopies(c: Config, s: State, s': State)
    requires Shape(c, s) && Shape(c, s') && CopiesInv(c, s) && s'.root == s.root && s'.work == s.work && s'.round == s.round
    ensures CopiesInv(c, s')
  {
    assert Base(c, s') == Base(c, s);
  }

  lemma StepCopies(c: Config, s: State, a: Step)
    requires ValidConfig(c) && Shape(c, s) && RootInv(c, s) && CopiesInv(c, s) && Enabled(c, s, a)
    ensures CopiesInv(c, Apply(c, s, a))
  {
    if a == HandOut { HandOutCopies(c, s); }
    else if a == HandStop { HandStopCopies(c, s); }
    else if a == CollectOne { CollectCopies(c, s); }
    else if a == Fence { FenceCopies(c, s); }
    else {
      AsideKeepsRoot(c, s, a);
      SameCopies(c, s, Apply(c, s, a));
    }
  }

  lemma AsideRoot(c: Config, s: State, a: Step)
    requires ValidConfig(c) && Shape(c, s) && RootInv(c, s) && Enabled(c, s, a) && Aside(a)
    ensures RootInv(c, Apply(c, s, a))
  {
    var s' := Apply(c, s, a);
    AsideKeepsRoot(c, s, a);
    assert s'.k == s.k && s'.done == s.done && s'.fences == s.fences && Base(c, s') == Base(c, s);
  }

  lemma StepRoot(c: Config, s: State, a: Step)
    requires ValidConfig(c) && Shape(c, s) && RootInv(c, s) && Enabled(c, s, a)
    requires s.root.Collect? && s.root.i < c.workers ==> s.work[s.root.i] == Now(c, s, s.root.i)
    ensures RootInv(c, Apply(c, s, a))
  {
    if a == CollectOne { CollectRoot(c, s); }
    else if a == Fence { FenceRoot(c, s); }
    else if Aside(a) { AsideRoot(c, s, a); }
  }

  // ------------------------------------------------------------------- puts under way

  lemma AssignPending(c: Config, s: State, a: Step)
    requires ValidConfig(c) && Shape(c, s) && RootInv(c, s) && PendingInv(c, s) && Enabled(c, s, a) && (a == HandOut || a == HandStop)
    ensures PendingInv(c, Apply(c, s, a))
  {
    var s' := Apply(c, s, a);
    forall j | 0 <= j < |s'.pending|
      ensures s'.pending[j].Assign? && s'.pending[j].w < s'.root.i && s'.pending[j].item == s'.work[s'.pending[j].w]
    {
      if j < |s.pending| { assert s'.pending[j] == s.pending[j]; }
    }
  }

  lemma ComputePending(c: Config, s: State, w: nat)
    requires ValidConfig(c) && Shape(c, s) && WorkersInv(c, s) && PendingInv(c, s) && Enabled(c, s, Compute(w))
    requires s.root.Mid? ==> s.slots[w] == Now(c, s, w)
    requires s.root.End? ==> s.slots[w].first == 0
    ensures PendingInv(c, Apply(c, s, Compute(w)))
  {
    var s' := Apply(c, s, Compute(w));
    assert Base(c, s') == Base(c, s);
    assert InStep(s.root, s.pcs[w]);
    forall j | 0 <= j < |s'.pending|
      ensures s'.root.Mid? && s'.pending[j].Result? && s'.pending[j].w < c.workers && s'.pcs[s'.pending[j].w] == Worked
           && s'.pending[j].area == Now(c, s', s'.pending[j].w).area
    {
      if j < |s.pending| { assert s'.pending[j] == s.pending[j]; }
    }
  }

  lemma LandPending(c: Config, s: State, j: nat)
    requires Shape(c, s) && PendingInv(c, s) && Enabled(c, s, Land(j))
    ensures PendingInv(c, Apply(c, s, Land(j)))
  {
    var s' := Apply(c, s, Land(j));
    assert Base(c, s') == Base(c, s);
    forall i | 0 <= i < |s'.pending|
      ensures s'.pending[i] == s.pending[if i < j then i else i + 1]
    {
    }
  }

  lemma StepPending(c: Config, s: State, a: Step)
    requires ValidConfig(c) && Shape(c, s) && RootInv(c, s) && WorkersInv(c, s) && PendingInv(c, s) && Enabled(c, s, a)
    requires a.Compute? && s.root.Mid? ==> s.slots[a.w] == Now(c, s, a.w)
    requires a.Compute? && s.root.End? ==> s.slots[a.w].first == 0
    ensures PendingInv(c, Apply(c, s, a))
  {
    if a == HandOut || a == HandStop { AssignPending(c, s, a); }
    else if a.Compute? { ComputePending(c, s, a.w); }
    else if a.Land? { LandPending(c, s, a.j); }
    else { assert Apply(c, s, a).pending == s.pending; }
  }

  // ------------------------------------------------------------------- the workers' windows

  lemma AssigningAppended(s: State, s': State, op: Op, w: nat, item: Work)
    requires s'.pending == s.pending + [op] && (Assigning(s, w, item) || op == Assign(w, item))
    ensures Assigning(s', w, item)
  {
    if Assigning(s, w, item) {
      var j :| 0 <= j < |s.pending| && s.pending[j] == Assign(w, item);
      assert s'.pending[j] == Assign(w, item);
    } else {
      assert s'.pending[|s.pending|] == op;
    }
  }

  lemma StillPending(q: seq<Op>, at: nat, op: Op)
    requires at < |q| && op in q && op != q[at]
    ensures op in Without(q, at)
  {
    var j :| 0 <= j < |q| && q[j] == op;
    assert Without(q, at)[if j < at then j else j - 1] == op;
  }

  lemma HandOutSlots(c: Config, s: State, a: Step)
    requires Shape(c, s) && SlotsInv(c, s) && Enabled(c, s, a) && (a == HandOut || a == HandStop)
    ensures SlotsInv(c, Apply(c, s, a))
  {
    var s' := Apply(c, s, a);
    var op := Assign(s.root.i, s'.work[s.root.i]);
    assert s'.pending == s.pending + [op];
    forall w | 0 <= w < s'.root.i
      ensures s'.slots[w] == s'.work[w] || Assigning(s', w, s'.work[w])
    {
      if w == s.root.i || Assigning(s, w, s.work[w]) { AssigningAppended(s, s', op, w, s'.work[w]); }
    }
  }

  lemma LandSlots(c: Config, s: State, j: nat)
    requires Shape(c, s) && PendingInv(c, s) && SlotsInv(c, s) && Enabled(c, s, Land(j))
    ensures SlotsInv(c, Apply(c, s, Land(j)))
  {
    var s', op := Apply(c, s, Land(j)), s.pending[j];
    if op.Assign? {
      forall w | 0 <= w < s.root.i && w < c.workers
        ensures s'.slots[w] == s'.work[w] || Assigning(s', w, s'.work[w])
      {
        if w != op.w && Assigning(s, w, s.work[w]) { StillPending(s.pending, j, Assign(w, s.work[w])); }
      }
    }
  }

  lemma FenceSlots(c: Config, s: State)
    requires Shape(c, s) && SlotsInv(c, s) && RootInv(c, s) && Enabled(c, s, Fence)
    ensures SlotsInv(c, Apply(c, s, Fence))
  {
  }

  lemma StepSlots(c: Config, s: State, a: Step)
    requires ValidConfig(c) && Shape(c, s) && RootInv(c, s) && PendingInv(c, s) && SlotsInv(c, s) && Enabled(c, s, a)
    requires WorkersInv(c, s)
    ensures SlotsInv(c, Apply(c, s, a))
  {
    if a == HandOut || a == HandStop { HandOutSlots(c, s, a); }
    else if a.Land? { LandSlots(c, s, a.j); }
    else if a == Fence { FenceSlots(c, s); }
    else if a.Compute? { assert InStep(s.root, s.pcs[a.w]); }
    else { assert Apply(c, s, a).pending == s.pending; }
  }

  // ------------------------------------------------------------------- the results

  lemma ComesFromGrows(c: Config, s: State, s': State, area: Area)
    requires ComesFrom(c, s, area) && Handed(c, s) <= Handed(c, s')
    ensures ComesFrom(c, s', area)
  {
    var t :| 0 <= t < Handed(c, s) && Item(c, t).area == area;
    assert 0 <= t < Handed(c, s');
  }

  lemma HandedGrows(c: Config, s: State, a: Step)
    requires ValidConfig(c) && Shape(c, s) && RootInv(c, s) && Enabled(c, s, a)
    ensures Handed(c, s) <= Handed(c, Apply(c, s, a))
  {
    var s' := Apply(c, s, a);
    if s'.round != s.round { BaseAfter(c, s, s'); } else { assert Base(c, s') == Base(c, s); }
  }

  lemma StepOrigin(c: Config, s: State, a: Step)
    requires ValidConfig(c) && Shape(c, s) && RootInv(c, s) && PendingInv(c, s) && OriginInv(c, s) && Enabled(c, s, a)
    ensures OriginInv(c, Apply(c, s, a))
  {
    var s' := Apply(c, s, a);
    HandedGrows(c, s, a);
    forall n | 0 <= n < |s'.landed|
      ensures ComesFrom(c, s', s'.landed[n])
    {
      if n < |s.landed| {
        assert s'.landed[n] == s.landed[n];
        ComesFromGrows(c, s, s', s'.landed[n]);
      } else {
        var op := s.pending[a.j];
        assert 0 <= Base(c, s) + op.w < Handed(c, s) && Base(c, s') == Base(c, s);
        assert ComesFrom(c, s', op.area);
      }
    }
  }

  lemma LandLanded(c: Config, s: State, j: nat)
    requires ValidConfig(c) && Shape(c, s) && PendingInv(c, s) && LandedInv(c, s) && Enabled(c, s, Land(j))
    ensures LandedInv(c, Apply(c, s, Land(j)))
  {
    var s', op := Apply(c, s, Land(j)), s.pending[j];
    assert Base(c, s') == Base(c, s) && PutTurns(c, s') == PutTurns(c, s);
    if s.root == Mid {
      forall w | 0 <= w < c.workers && s'.pcs[w] == Worked
        ensures Now(c, s', w).area in s'.landed || Putting(s', w, Now(c, s', w).area)
      {
        var r := Result(w, Now(c, s, w).area);
        if Now(c, s, w).area !in s.landed && r != op { StillPending(s.pending, j, r); }
      }
    }
  }

  lemma ComputeLanded(c: Config, s: State, w: nat)
    requires ValidConfig(c) && Shape(c, s) && WorkersInv(c, s) && LandedInv(c, s) && Enabled(c, s, Compute(w))
    requires s.root.Mid? ==> s.slots[w] == Now(c, s, w)
    ensures LandedInv(c, Apply(c, s, Compute(w)))
  {
    var s' := Apply(c, s, Compute(w));
    assert Base(c, s') == Base(c, s) && PutTurns(c, s') == PutTurns(c, s);
    assert InStep(s.root, s.pcs[w]);
    if s.root == Mid {
      var op := Result(w, Now(c, s, w).area);
      assert s'.pending[|s.pending|] == op;
      forall v | 0 <= v < c.workers && s'.pcs[v] == Worked
        ensures Now(c, s', v).area in s'.landed || Putting(s', v, Now(c, s', v).area)
      {
        if v != w && Putting(s, v, Now(c, s, v).area) {
          var j :| 0 <= j < |s.pending| && s.pending[j] == Result(v, Now(c, s, v).area);
          assert s'.pending[j] == s.pending[j];
        }
      }
    }
  }

  lemma FenceLanded(c: Config, s: State)
    requires ValidConfig(c) && Shape(c, s) && RootInv(c, s) && WorkersInv(c, s) && LandedInv(c, s) && Enabled(c, s, Fence)
    ensures LandedInv(c, Apply(c, s, Fence))
  {
    var s' := Apply(c, s, Fence);
    if s'.round != s.round { BaseAfter(c, s, s'); } else { assert Base(c, s') == Base(c, s); }
    forall t | 0 <= t < PutTurns(c, s')
      ensures Item(c, t).area in s'.landed
    {
      if t >= PutTurns(c, s) {
        var w := t - Base(c, s);
        assert s.root == Mid && s.pcs[w] == Worked by { assert InStep(s.root, s.pcs[w]); }
        assert Now(c, s, w) == Item(c, t);
      }
    }
  }

  lemma OtherLanded(c: Config, s: State, a: Step)
    requires Shape(c, s) && LandedInv(c, s) && Enabled(c, s, a) && !a.Land? && !a.Compute? && !a.Fence?
    ensures LandedInv(c, Apply(c, s, a))
  {
    var s' := Apply(c, s, a);
    assert Base(c, s') == Base(c, s) && PutTurns(c, s') == PutTurns(c, s) && s'.landed == s.landed;
    if s'.root == Mid { assert s'.pending == s.pending && s'.pcs == s.pcs; }
  }

  lemma StepLanded(c: Config, s: State, a: Step)
    requires ValidConfig(c) && Shape(c, s) && RootInv(c, s) && WorkersInv(c, s) && PendingInv(c, s) && LandedInv(c, s) && Enabled(c, s, a)
    requires a.Compute? && s.root.Mid? ==> s.slots[a.w] == Now(c, s, a.w)
    ensures LandedInv(c, Apply(c, s, a))
  {
    if a.Land? { LandLanded(c, s, a.j); }
    else if a.Compute? { ComputeLanded(c, s, a.w); }
    else if a == Fence { FenceLanded(c, s); }
    else { OtherLanded(c, s, a); }
  }

  // ------------------------------------------------------------------- all together

  /** Everything a step relies on beyond its own component. */
  lemma StepReads(c: Config, s: State, a: Step)
    requires Inv(c, s) && Enabled(c, s, a)
    ensures s.root.Collect? && s.root.i < c.workers ==> s.work[s.root.i] == Now(c, s, s.root.i)
    ensures a.Compute? && s.root.Mid? ==> s.slots[a.w] == Now(c, s, a.w) && s.slots[a.w].first != 0
    ensures a.Compute? && s.root.End? ==> s.slots[a.w].first == 0
  {
  }

  lemma StepInv(c: Config, s: State, a: Step)
    requires Inv(c, s) && Enabled(c, s, a)
    ensures Inv(c, Apply(c, s, a))
  {
    StepReads(c, s, a);
    StepRoot(c, s, a);
    StepWorkers(c, s, a);
    StepCopies(c, s, a);
    StepPending(c, s, a);
    StepSlots(c, s, a);
    StepLanded(c, s, a);
    StepOrigin(c, s, a);
  }

  lemma {:induction false} RunInv(c: Config, run: seq<State>)
    requires ValidConfig(c) && Run(c, run)
    ensures Inv(c, run[|run| - 1])
    decreases |run|
  {
    if |run| == 1 {
      InitialInv(c, run[0]);
    } else {
      var front := run[..|run| - 1];
      RunInv(c, front);
      var s, s' := run[|run| - 2], run[|run| - 1];
      assert front[|front| - 1] == s;
      var a :| Enabled(c, s, a) && s' == Apply(c, s, a);
      StepInv(c, s, a);
    }
  }

  lemma ReachableInv(c: Config, s: State)
    requires ValidConfig(c) && Reachable(c, s)
    ensures Inv(c, s)
  {
    var run :| Run(c, run) && run[|run| - 1] == s;
    RunInv(c, run);
  }
}
