/**
 The dispatch protocol of pmandel.c and pmandel_spawn.c as a state machine: a root that hands
 out shuffled tiles, workers that send back a header and the pixels, message channels that
 keep order per pair of processes and per tag, and sends that may or may not be buffered.
 */
module Dispatch {
  import opened Common
  import opened Tiling
  import opened Image

  /** pmandel.c receives from any source; pmandel_spawn.c waits for any posted receive. */
  datatype Kind = AnySource | WaitAny

  /** One image: its shuffled tiles and, for the limits broadcast with it, the value of each pixel. */
  datatype Job = Job(tiles: seq<Area>, pic: Picture)

  datatype Config = Config(kind: Kind, workers: nat, pieces: nat, jobs: seq<Job>)

  ghost predicate ValidConfig(c: Config) {
    && 1 <= c.workers <= c.pieces
    && |c.jobs| >= 1
    && forall m :: 0 <= m < |c.jobs| ==> ValidJob(c.jobs[m], c.pieces)
  }

  ghost predicate ValidJob(job: Job, pieces: nat) {
    |job.tiles| == pieces && forall t :: 0 <= t < pieces ==> NonEmpty(job.tiles[t])
  }

  /** Tag 100: five integers, the first of which is zero to stop and nonzero for work. */
  datatype Work = Work(first: int, area: Area)

  const STOP := Work(0, Area(0, 0, 0, 0))

  /** Tag 200 and tag 201. */
  datatype Reply = Head(first: int, area: Area) | Data(pixels: seq<int>)

  datatype WorkerPC =
    | Waiting
    | Computing(first: int, area: Area)
    | SendingData(area: Area)
    | Idle

  /** `blocked`: the last send was not buffered, so the worker waits until it is received. */
  datatype Worker = Worker(image: nat, pc: WorkerPC, blocked: bool)

  datatype RootPC =
    | Top
    | GotHead(proc: int, area: Area)
    | GotData(proc: int)

  /** What has become of a tile of the current image. */
  datatype Place = Unsent | With(w: nat) | Drawn(pos: nat)

  /**
   `past` and `drawn` are the calls of `output_data` for earlier images and for this one.
   `held`, `place`, `order` and `stopped` are history: no step is guarded by them.
   */
  datatype State = State(
    image: nat, k: nat, tail: nat, pc: RootPC, blockedOn: Option<nat>,
    workers: seq<Worker>, down: seq<seq<Work>>, up: seq<seq<Reply>>,
    past: seq<Piece>, drawn: seq<Piece>,
    held: seq<Option<nat>>, place: seq<Place>, order: seq<nat>, stopped: set<nat>)

  datatype Step =
    | Prime(sync: bool)
    | RecvHead(w: nat, at: nat)
    | RecvData(at: nat)
    | SendOn(sync: bool)
    | NextImage
    | TakeWork(w: nat)
    | SendHead(w: nat, sync: bool)
    | SendData(w: nat, sync: bool)
    | NextJob(w: nat)

  ghost predicate Shape(c: Config, s: State) {
    && |s.workers| == |s.down| == |s.up| == |s.held| == c.workers
    && |s.place| == c.pieces
    && s.image < |c.jobs|
    && (forall w :: 0 <= w < c.workers ==> s.workers[w].image < |c.jobs|)
  }

  ghost function Init(c: Config): State {
    State(0, 0, 0, Top, None,
          seq(c.workers, _ => Worker(0, Waiting, false)), seq(c.workers, _ => []), seq(c.workers, _ => []),
          [], [],
          seq(c.workers, _ => None), seq(c.pieces, _ => Unsent), [], {})
  }

  predicate RootFree(s: State) {
    s.blockedOn.None? || (s.blockedOn.value < |s.down| && s.down[s.blockedOn.value] == [])
  }

  predicate WorkerFree(s: State, w: nat)
    requires w < |s.workers| && w < |s.up|
  {
    !s.workers[w].blocked || s.up[w] == []
  }

  /** A receive takes the first message that carries its tag. */
  predicate FirstHead(q: seq<Reply>, at: nat) {
    at < |q| && q[at].Head? && forall i :: 0 <= i < at ==> !q[i].Head?
  }

  predicate FirstData(q: seq<Reply>, at: nat) {
    at < |q| && q[at].Data? && forall i :: 0 <= i < at ==> !q[i].Data?
  }

  function Without<T>(q: seq<T>, at: nat): seq<T>
    requires at < |q|
  {
    q[..at] + q[at + 1..]
  }

  /** pmandel.c overwrites the first integer with the worker's rank; pmandel_spawn.c echoes it. */
  function HeadFirst(c: Config, w: nat, first: int): int {
    if c.kind.AnySource? then w + 1 else first
  }

  /** The process the data is then received from: `temp[0]`, or the index of the completed request. */
  function ProcOf(c: Config, w: nat, first: int): int {
    if c.kind.AnySource? then first - 1 else w
  }

  ghost predicate Enabled(c: Config, s: State, a: Step)
    requires Shape(c, s)
  {
    match a
    case Prime(_) => RootFree(s) && s.pc == Top && s.k < c.workers && s.k < c.pieces && s.k < |c.jobs[s.image].tiles|
    case RecvHead(w, at) =>
      RootFree(s) && s.pc == Top && c.workers <= s.k && (s.k < c.pieces || s.tail < c.workers)
      && w < c.workers && FirstHead(s.up[w], at)
      && (c.kind.WaitAny? && s.k == c.pieces ==> w == s.tail)
    case RecvData(at) =>
      RootFree(s) && s.pc.GotHead? && 0 <= s.pc.proc < c.workers && FirstData(s.up[s.pc.proc], at)
    case SendOn(_) =>
      RootFree(s) && s.pc.GotData? && 0 <= s.pc.proc < c.workers && s.k <= c.pieces
      && (s.k < c.pieces ==> s.k < |c.jobs[s.image].tiles|)
    case NextImage =>
      RootFree(s) && s.pc == Top && s.k == c.pieces && s.tail == c.workers && s.image + 1 < |c.jobs|
    case TakeWork(w) => w < c.workers && WorkerFree(s, w) && s.workers[w].pc == Waiting && s.down[w] != []
    case SendHead(w, _) => w < c.workers && WorkerFree(s, w) && s.workers[w].pc.Computing?
    case SendData(w, _) => w < c.workers && WorkerFree(s, w) && s.workers[w].pc.SendingData? && NonEmpty(s.workers[w].pc.area)
    case NextJob(w) => w < c.workers && WorkerFree(s, w) && s.workers[w].pc == Idle && s.workers[w].image < s.image
  }

  /** The root sends tile `k` to worker `p`. */
  ghost function HandOut(c: Config, s: State, p: nat, sync: bool): State
    requires Shape(c, s) && p < c.workers && s.k < c.pieces && s.k < |c.jobs[s.image].tiles|
  {
    s.(down := s.down[p := s.down[p] + [Work(s.k + 1, c.jobs[s.image].tiles[s.k])]],
       k := s.k + 1,
       pc := Top,
       blockedOn := if sync then Some(p) else None,
       held := s.held[p := Some(s.k)],
       place := s.place[s.k := With(p)])
  }

  ghost function Apply(c: Config, s: State, a: Step): State
    requires Shape(c, s) && Enabled(c, s, a)
  {
    match a
    case Prime(sync) => HandOut(c, s, s.k, sync)
    case RecvHead(w, at) =>
      s.(pc := GotHead(ProcOf(c, w, s.up[w][at].first), s.up[w][at].area),
         up := s.up[w := Without(s.up[w], at)])
    case RecvData(at) =>
      var p := s.pc.proc;
      s.(pc := GotData(p),
         up := s.up[p := Without(s.up[p], at)],
         drawn := s.drawn + [Piece(s.pc.area, s.up[p][at].pixels)],
         held := s.held[p := None],
         order := if s.held[p].Some? then s.order + [s.held[p].value] else s.order,
         place := if s.held[p].Some? && s.held[p].value < c.pieces then s.place[s.held[p].value := Drawn(|s.drawn|)] else s.place)
    case SendOn(sync) =>
      var p := s.pc.proc;
      if s.k < c.pieces then HandOut(c, s, p, sync)
      else s.(down := s.down[p := s.down[p] + [STOP]],
              tail := s.tail + 1,
              pc := Top,
              blockedOn := if sync then Some(p as nat) else None,
              stopped := s.stopped + {p as nat})
    case NextImage =>
      s.(image := s.image + 1, k := 0, tail := 0, past := s.past + s.drawn, drawn := [],
         place := seq(c.pieces, _ => Unsent), order := [], stopped := {})
    case TakeWork(w) =>
      var m := s.down[w][0];
      s.(down := s.down[w := s.down[w][1..]],
         workers := s.workers[w := s.workers[w].(pc := if m.first == 0 then Idle else Computing(m.first, m.area))])
    case SendHead(w, sync) =>
      var pc := s.workers[w].pc;
      s.(up := s.up[w := s.up[w] + [Head(HeadFirst(c, w, pc.first), pc.area)]],
         workers := s.workers[w := s.workers[w].(pc := SendingData(pc.area), blocked := sync)])
    case SendData(w, sync) =>
      var a := s.workers[w].pc.area;
      s.(up := s.up[w := s.up[w] + [Data(Packed(a, c.jobs[s.workers[w].image].pic))]],
         workers := s.workers[w := s.workers[w].(pc := Waiting, blocked := sync)])
    case NextJob(w) =>
      s.(workers := s.workers[w := s.workers[w].(image := s.workers[w].image + 1, pc := Waiting)])
  }

  ghost predicate Next(c: Config, s: State, s': State) {
    Shape(c, s) && exists a :: Enabled(c, s, a) && s' == Apply(c, s, a)
  }

  function Last<T>(run: seq<T>): T
    requires |run| >= 1
  {
    run[|run| - 1]
  }

  /** A finite run of the system from its initial state. */
  ghost predicate Run(c: Config, run: seq<State>) {
    |run| >= 1 && if |run| == 1 then run == [Init(c)] else Run(c, run[..|run| - 1]) && Next(c, run[|run| - 2], Last(run))
  }

  /** The states that occur in runs. */
  ghost predicate Reachable(c: Config, s: State) {
    Shape(c, s) && exists run :: Run(c, run) && Last(run) == s
  }

  // ------------------------------------------------------------------- the invariant

  function WorkFor(job: Job, t: nat): Work
    requires t < |job.tiles|
  {
    Work(t + 1, job.tiles[t])
  }

  function HeadFor(c: Config, job: Job, w: nat, t: nat): Reply
    requires t < |job.tiles|
  {
    Head(HeadFirst(c, w, t + 1), job.tiles[t])
  }

  ghost function DataFor(job: Job, t: nat): Reply
    requires t < |job.tiles| && NonEmpty(job.tiles[t])
  {
    Data(Packed(job.tiles[t], job.pic))
  }

  predicate HeadTaken(s: State, w: nat) {
    s.pc.GotHead? && s.pc.proc == w
  }

  /** A worker that holds tile `t`: where the tile, its header and its data are. */
  ghost predicate Holding(c: Config, s: State, w: nat, t: nat)
    requires ValidConfig(c) && Shape(c, s) && w < c.workers
  {
    var job := c.jobs[s.image];
    var pc, d, u := s.workers[w].pc, s.down[w], s.up[w];
    && t < s.k && t < c.pieces && w < s.k && w !in s.stopped
    && (|| (d == [WorkFor(job, t)] && pc == Waiting && u == [] && !HeadTaken(s, w))
        || (d == [] && pc == Computing(t + 1, job.tiles[t]) && u == [] && !HeadTaken(s, w))
        || (d == [] && pc == SendingData(job.tiles[t]) && u == if HeadTaken(s, w) then [] else [HeadFor(c, job, w, t)])
        || (d == [] && pc == Waiting && u == (if HeadTaken(s, w) then [] else [HeadFor(c, job, w, t)]) + [DataFor(job, t)]))
  }

  /** A worker of the current image without a tile: before its first, between two, or stopped. */
  ghost predicate EmptyHanded(c: Config, s: State, w: nat)
    requires ValidConfig(c) && Shape(c, s) && w < c.workers
  {
    var pc, d, u := s.workers[w].pc, s.down[w], s.up[w];
    && u == [] && !HeadTaken(s, w)
    && if w in s.stopped then (d == [STOP] && pc == Waiting) || (d == [] && pc == Idle)
       else d == [] && pc == Waiting && (s.k <= w || s.pc == GotData(w))
  }

  /** A worker that has not yet left the previous image. */
  ghost predicate Behind(c: Config, s: State, w: nat)
    requires ValidConfig(c) && Shape(c, s) && w < c.workers
  {
    var pc, d, u := s.workers[w].pc, s.down[w], s.up[w];
    && s.workers[w].image + 1 == s.image
    && u == [] && w !in s.stopped && !HeadTaken(s, w) && s.pc != GotData(w)
    && (s.held[w].Some? ==> s.held[w].value < s.k && s.held[w].value < c.pieces && w < s.k)
    && (s.held[w].None? ==> s.k <= w)
    && var next := if s.held[w].Some? then [WorkFor(c.jobs[s.image], s.held[w].value)] else [];
       (d == [STOP] + next && pc == Waiting) || (d == next && pc == Idle)
  }

  ghost predicate Link(c: Config, s: State, w: nat)
    requires ValidConfig(c) && Shape(c, s) && w < c.workers
  {
    if s.workers[w].image != s.image then Behind(c, s, w)
    else match s.held[w]
      case Some(t) => Holding(c, s, w, t)
      case None => EmptyHanded(c, s, w)
  }

  ghost predicate RootOk(c: Config, s: State)
    requires ValidConfig(c) && Shape(c, s)
  {
    && s.k <= c.pieces && s.tail <= c.workers
    && (s.k < c.workers ==> s.pc == Top && s.tail == 0 && s.drawn == [])
    && (s.tail > 0 ==> s.k == c.pieces)
    && (s.blockedOn.Some? ==> s.blockedOn.value < c.workers)
    && (s.pc != Top ==>
          && 0 <= s.pc.proc < c.workers
          && (s.k < c.pieces || s.tail < c.workers)
          && (c.kind.WaitAny? && s.k == c.pieces ==> s.pc.proc == s.tail))
    && (s.pc.GotHead? ==>
          && s.held[s.pc.proc].Some? && s.held[s.pc.proc].value < c.pieces
          && s.pc.area == c.jobs[s.image].tiles[s.held[s.pc.proc].value])
    && (s.pc.GotData? ==> s.held[s.pc.proc].None? && s.pc.proc !in s.stopped && s.workers[s.pc.proc].image == s.image)
    // the stop messages sent so far
    && |s.stopped| == s.tail
    && (forall w :: w in s.stopped ==> w < c.workers)
    && (c.kind.WaitAny? ==> forall w: nat :: w in s.stopped <==> w < s.tail)
  }

  /** Each tile is at one place, and the history agrees with it. */
  ghost predicate TilesOk(c: Config, s: State)
    requires ValidConfig(c) && Shape(c, s)
  {
    var job := c.jobs[s.image];
    && |s.order| == |s.drawn|
    && (forall t :: 0 <= t < c.pieces ==> (s.place[t] == Unsent <==> s.k <= t))
    && (forall t :: 0 <= t < c.pieces && s.place[t].With? ==> s.place[t].w < c.workers && s.held[s.place[t].w] == Some(t))
    && (forall w :: 0 <= w < c.workers && s.held[w].Some? ==> s.held[w].value < c.pieces && s.place[s.held[w].value] == With(w))
    && (forall t :: 0 <= t < c.pieces && s.place[t].Drawn? ==> s.place[t].pos < |s.order| && s.order[s.place[t].pos] == t)
    && (forall i :: 0 <= i < |s.order| ==>
          && s.order[i] < c.pieces && s.place[s.order[i]] == Drawn(i)
          && s.drawn[i] == Piece(job.tiles[s.order[i]], Packed(job.tiles[s.order[i]], job.pic)))
    && s.k == |s.drawn| + Outstanding(s)
  }

  function HeldFlags(s: State): seq<int> {
    seq(|s.held|, w requires 0 <= w < |s.held| => if s.held[w].Some? then 1 else 0)
  }

  /** The number of tiles that are with workers. */
  function Outstanding(s: State): int {
    Sum(HeldFlags(s))
  }

  ghost predicate Inv(c: Config, s: State) {
    && ValidConfig(c) && Shape(c, s)
    && RootOk(c, s) && TilesOk(c, s)
    && forall w :: 0 <= w < c.workers ==> Link(c, s, w)
  }

  lemma InitInv(c: Config)
    requires ValidConfig(c)
    ensures Inv(c, Init(c))
  {
    SumOfZeros(HeldFlags(Init(c)));
  }

  lemma OutstandingChanges(s: State, s': State, w: nat)
    requires w < |s.held| == |s'.held| && s'.held == s.held[w := s'.held[w]]
    ensures Outstanding(s') == Outstanding(s) - (if s.held[w].Some? then 1 else 0) + (if s'.held[w].Some? then 1 else 0)
  {
    assert HeldFlags(s') == HeldFlags(s)[w := if s'.held[w].Some? then 1 else 0];
    SumUpdate(HeldFlags(s), w, if s'.held[w].Some? then 1 else 0);
  }

  /** When the root may send tile `k` to worker `p`. */
  ghost predicate MayHandOut(c: Config, s: State, p: nat) {
    && Inv(c, s) && p < c.workers && s.k < c.pieces && RootFree(s)
    && ((s.pc == Top && s.k == p && s.k < c.workers) || s.pc == GotData(p))
  }

  lemma HandOutTiles(c: Config, s: State, p: nat, sync: bool)
    requires MayHandOut(c, s, p)
    ensures s.held[p].None?
    ensures RootOk(c, HandOut(c, s, p, sync)) && TilesOk(c, HandOut(c, s, p, sync))
  {
    var s' := HandOut(c, s, p, sync);
    assert Link(c, s, p);
    assert s.held[p].None?;
    OutstandingChanges(s, s', p);
  }

  lemma HandOutLink(c: Config, s: State, p: nat, sync: bool, w: nat)
    requires MayHandOut(c, s, p) && w < c.workers
    ensures Link(c, HandOut(c, s, p, sync), w)
  {
    assert Link(c, s, w);
    assert Link(c, s, p);
  }

  lemma HandOutInv(c: Config, s: State, p: nat, sync: bool)
    requires MayHandOut(c, s, p)
    ensures Inv(c, HandOut(c, s, p, sync))
  {
    HandOutTiles(c, s, p, sync);
    forall w | 0 <= w < c.workers
      ensures Link(c, HandOut(c, s, p, sync), w)
    {
      HandOutLink(c, s, p, sync, w);
    }
  }

  lemma RecvHeadInv(c: Config, s: State, w: nat, at: nat)
    requires Inv(c, s) && Enabled(c, s, RecvHead(w, at))
    ensures Inv(c, Apply(c, s, RecvHead(w, at)))
  {
    var s' := Apply(c, s, RecvHead(w, at));
    assert Link(c, s, w);
    assert s'.pc == GotHead(w, c.jobs[s.image].tiles[s.held[w].value]);
    assert HeldFlags(s') == HeldFlags(s);
    forall v | 0 <= v < c.workers
      ensures Link(c, s', v)
    {
      assert Link(c, s, v);
    }
  }

  lemma RecvDataTiles(c: Config, s: State, at: nat)
    requires Inv(c, s) && Enabled(c, s, RecvData(at))
    ensures RootOk(c, Apply(c, s, RecvData(at))) && TilesOk(c, Apply(c, s, RecvData(at)))
  {
    assert Link(c, s, s.pc.proc);
    OutstandingChanges(s, Apply(c, s, RecvData(at)), s.pc.proc);
  }

  lemma RecvDataInv(c: Config, s: State, at: nat)
    requires Inv(c, s) && Enabled(c, s, RecvData(at))
    ensures Inv(c, Apply(c, s, RecvData(at)))
  {
    RecvDataTiles(c, s, at);
    assert Link(c, s, s.pc.proc);
    forall w | 0 <= w < c.workers
      ensures Link(c, Apply(c, s, RecvData(at)), w)
    {
      assert Link(c, s, w);
    }
  }

  lemma StopInv(c: Config, s: State, sync: bool)
    requires Inv(c, s) && Enabled(c, s, SendOn(sync)) && s.k == c.pieces
    ensures Inv(c, Apply(c, s, SendOn(sync)))
  {
    var s' := Apply(c, s, SendOn(sync));
    assert HeldFlags(s') == HeldFlags(s);
    assert RootOk(c, s');
    forall w | 0 <= w < c.workers
      ensures Link(c, s', w)
    {
      assert Link(c, s, w);
    }
  }

  /** At most `n` numbers are below `n`. */
  lemma {:induction false} SmallSet(n: nat, ws: set<nat>)
    requires forall w :: w in ws ==> w < n
    ensures |ws| <= n
  {
    if n == 0 {
      assert forall w :: w !in ws;
      assert ws == {};
    } else {
      SmallSet(n - 1, ws - {n - 1});
      assert |ws - {n - 1}| == if n - 1 in ws then |ws| - 1 else |ws|;
    }
  }

  /** As many numbers below `n` as there are: all of them. */
  lemma FullSet(n: nat, ws: set<nat>)
    requires |ws| == n && forall w :: w in ws ==> w < n
    ensures forall w :: 0 <= w < n ==> w in ws
  {
    forall w | 0 <= w < n
      ensures w in ws
    {
      if w !in ws { SmallSet(n, ws + {w}); }
    }
  }

  lemma NextImageInv(c: Config, s: State)
    requires Inv(c, s) && Enabled(c, s, NextImage)
    ensures Inv(c, Apply(c, s, NextImage))
  {
    var s' := Apply(c, s, NextImage);
    FullSet(c.workers, s.stopped);
    forall w | 0 <= w < c.workers
      ensures s.held[w].None? && Link(c, s', w)
    {
      assert Link(c, s, w);
    }
    SumOfZeros(HeldFlags(s'));
  }

  lemma TakeWorkInv(c: Config, s: State, w: nat)
    requires Inv(c, s) && Enabled(c, s, TakeWork(w))
    ensures Inv(c, Apply(c, s, TakeWork(w)))
  {
    OtherLinksKept(c, s, Apply(c, s, TakeWork(w)), w);
  }

  lemma SendHeadInv(c: Config, s: State, w: nat, sync: bool)
    requires Inv(c, s) && Enabled(c, s, SendHead(w, sync))
    ensures Inv(c, Apply(c, s, SendHead(w, sync)))
  {
    OtherLinksKept(c, s, Apply(c, s, SendHead(w, sync)), w);
  }

  lemma SendDataInv(c: Config, s: State, w: nat, sync: bool)
    requires Inv(c, s) && Enabled(c, s, SendData(w, sync))
    ensures Inv(c, Apply(c, s, SendData(w, sync)))
  {
    OtherLinksKept(c, s, Apply(c, s, SendData(w, sync)), w);
  }

  lemma NextJobInv(c: Config, s: State, w: nat)
    requires Inv(c, s) && Enabled(c, s, NextJob(w))
    ensures Inv(c, Apply(c, s, NextJob(w)))
  {
    OtherLinksKept(c, s, Apply(c, s, NextJob(w)), w);
  }

  /** A worker's own step leaves the root, the history and the other workers as they were. */
  lemma OtherLinksKept(c: Config, s: State, s': State, w: nat)
    requires Inv(c, s) && w < c.workers && Shape(c, s')
    requires s' == s.(workers := s'.workers, down := s'.down, up := s'.up)
    requires s'.workers == s.workers[w := s'.workers[w]] && s'.down == s.down[w := s'.down[w]] && s'.up == s.up[w := s'.up[w]]
    requires s.workers[w].image == s.image ==> s'.workers[w].image == s.image
    ensures RootOk(c, s') && TilesOk(c, s')
    ensures forall v :: 0 <= v < c.workers && v != w ==> Link(c, s', v)
    ensures Link(c, s, w)
  {
    assert HeldFlags(s') == HeldFlags(s);
    forall v | 0 <= v < c.workers && v != w
      ensures Link(c, s', v)
    {
      assert Link(c, s, v);
    }
  }

  lemma StepInv(c: Config, s: State, a: Step)
    requires Inv(c, s) && Enabled(c, s, a)
    ensures Inv(c, Apply(c, s, a))
  {
    match a
    case Prime(sync) => HandOutInv(c, s, s.k, sync);
    case RecvHead(w, at) => RecvHeadInv(c, s, w, at);
    case RecvData(at) => RecvDataInv(c, s, at);
    case SendOn(sync) => if s.k < c.pieces { HandOutInv(c, s, s.pc.proc, sync); } else { StopInv(c, s, sync); }
    case NextImage => NextImageInv(c, s);
    case TakeWork(w) => TakeWorkInv(c, s, w);
    case SendHead(w, sync) => SendHeadInv(c, s, w, sync);
    case SendData(w, sync) => SendDataInv(c, s, w, sync);
    case NextJob(w) => NextJobInv(c, s, w);
  }

  lemma LastStep(c: Config, run: seq<State>) returns (front: seq<State>, s: State, a: Step)
    requires Run(c, run) && |run| > 1
    ensures Run(c, front) && |front| == |run| - 1 && s == Last(front)
    ensures Shape(c, s) && Enabled(c, s, a) && Last(run) == Apply(c, s, a)
  {
    front, s := run[..|run| - 1], run[|run| - 2];
    a :| Enabled(c, s, a) && Last(run) == Apply(c, s, a);
  }

  /** The invariant holds in every state of every run. */
  lemma {:induction false} RunInv(c: Config, run: seq<State>)
    requires ValidConfig(c) && Run(c, run)
    ensures Inv(c, Last(run))
    decreases |run|
  {
    if |run| == 1 {
      InitInv(c);
    } else {
      var front, s, a := LastStep(c, run);
      RunInv(c, front);
      StepInv(c, s, a);
    }
  }

  lemma ReachableInv(c: Config, s: State)
    requires ValidConfig(c) && Reachable(c, s)
    ensures Inv(c, s)
  {
    var run :| Run(c, run) && Last(run) == s;
    RunInv(c, run);
  }

  /** Every state of every run counts as reachable. */
  lemma {:induction false} RunStatesAreReachable(c: Config, run: seq<State>, i: nat)
    requires ValidConfig(c) && Run(c, run) && i < |run|
    ensures Reachable(c, run[i])
    decreases |run|
  {
    if i == |run| - 1 {
      RunInv(c, run);
    } else {
      RunStatesAreReachable(c, run[..|run| - 1], i);
    }
  }
}
