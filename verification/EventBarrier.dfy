/**
 The reusable two-party barrier of the visualizer (pman_visView.cpp), built from four
 manual-reset events: `mpi_barrier_client` and `mpi_barrier_thread` as interleaved lines.
 */
module EventBarrier {
  import opened Common

  /** Line 0: outside the barrier; lines 1 to 6: about to execute that line of the function. */
  datatype Party = Party(line: nat, entered: nat)

  datatype State = State(client: Party, thread: Party, a: bool, b: bool, c: bool, d: bool)

  datatype Step = Client | Thread

  const INITIAL := State(Party(0, 0), Party(0, 0), false, false, false, false)

  /** Calls that have returned. */
  function Returned(p: Party): int {
    if p.line == 0 then p.entered else p.entered - 1
  }

  /** How many times a party has executed a given line. */
  function Executed(p: Party, line: nat): int {
    if p.line == 0 || p.line > line then p.entered else p.entered - 1
  }

  predicate Enabled(s: State, p: Step) {
    match p
    case Client => s.client.line <= 6 && (s.client.line == 2 ==> s.b) && (s.client.line == 5 ==> s.c)
    case Thread => s.thread.line <= 6 && (s.thread.line == 2 ==> s.a) && (s.thread.line == 5 ==> s.d)
  }

  function Advance(p: Party): Party {
    if p.line == 0 then Party(1, p.entered + 1) else if p.line == 6 then Party(0, p.entered) else Party(p.line + 1, p.entered)
  }

  function Apply(s: State, p: Step): State {
    match p
    case Client =>
      var s' := s.(client := Advance(s.client));
      match s.client.line {
        case 1 => s'.(a := true)
        case 3 => s'.(b := false)
        case 4 => s'.(d := true)
        case 6 => s'.(c := false)
        case _ => s'
      }
    case Thread =>
      var s' := s.(thread := Advance(s.thread));
      match s.thread.line {
        case 1 => s'.(b := true)
        case 3 => s'.(a := false)
        case 4 => s'.(c := true)
        case 6 => s'.(d := false)
        case _ => s'
      }
  }

  predicate Next(s: State, s': State) {
    (Enabled(s, Client) && s' == Apply(s, Client)) || (Enabled(s, Thread) && s' == Apply(s, Thread))
  }

  ghost predicate Run(run: seq<State>) {
    |run| >= 1 && if |run| == 1 then run == [INITIAL] else Run(run[..|run| - 1]) && Next(run[|run| - 2], run[|run| - 1])
  }

  ghost predicate Reachable(s: State) {
    exists run :: Run(run) && run[|run| - 1] == s
  }

  /** An event is set exactly when it has been set once more than it has been reset. */
  predicate EventOk(event: bool, sets: int, resets: int) {
    sets == resets + if event then 1 else 0
  }

  predicate Inv(s: State) {
    var c, t := s.client, s.thread;
    && c.line <= 6 && t.line <= 6 && (c.line > 0 ==> c.entered > 0) && (t.line > 0 ==> t.entered > 0)
    && EventOk(s.a, Executed(c, 1), Executed(t, 3))
    && EventOk(s.b, Executed(t, 1), Executed(c, 3))
    && EventOk(s.c, Executed(t, 4), Executed(c, 6))
    && EventOk(s.d, Executed(c, 4), Executed(t, 6))
    // a wait passes only after the corresponding set
    && Executed(t, 2) <= Executed(c, 1) && Executed(c, 2) <= Executed(t, 1)
    && Executed(c, 5) <= Executed(t, 4) && Executed(t, 5) <= Executed(c, 4)
  }

  lemma ClientInv(s: State)
    requires Inv(s) && Enabled(s, Client)
    ensures Inv(Apply(s, Client))
  {
  }

  lemma ThreadInv(s: State)
    requires Inv(s) && Enabled(s, Thread)
    ensures Inv(Apply(s, Thread))
  {
  }

  lemma NextInv(s: State, s': State)
    requires Inv(s) && Next(s, s')
    ensures Inv(s')
  {
    if Enabled(s, Client) { ClientInv(s); }
    if Enabled(s, Thread) { ThreadInv(s); }
  }

  lemma {:induction false} RunInv(run: seq<State>)
    requires Run(run)
    ensures Inv(run[|run| - 1])
    decreases |run|
  {
    if |run| > 1 {
      RunInv(run[..|run| - 1]);
      NextInv(run[|run| - 2], run[|run| - 1]);
    }
  }

  lemma ReachableInv(s: State)
    requires Reachable(s)
    ensures Inv(s)
  {
    var run :| Run(run) && run[|run| - 1] == s;
    RunInv(run);
  }

  /** Neither party returns from its n-th call before the other has entered its n-th call. */
  lemma BarrierHolds(s: State)
    requires Reachable(s)
    ensures Returned(s.client) <= s.thread.entered && Returned(s.thread) <= s.client.entered
  {
    ReachableInv(s);
  }

  /** So the parties are never more than one round apart. */
  lemma RoundsStayTogether(s: State)
    requires Reachable(s)
    ensures -1 <= s.client.entered - s.thread.entered <= 1
  {
    ReachableInv(s);
  }

  /**
   No signal is lost: an event is never set while it is still set, and never reset except once
   for each set, after the wait it was meant for; no reset hits a later set.
   */
  lemma NoSignalIsLost(s: State, p: Step)
    requires Reachable(s) && Enabled(s, p)
    ensures p.Client? && s.client.line == 1 ==> !s.a
    ensures p.Client? && s.client.line == 4 ==> !s.d
    ensures p.Thread? && s.thread.line == 1 ==> !s.b
    ensures p.Thread? && s.thread.line == 4 ==> !s.c
    ensures p.Client? && s.client.line == 3 ==> s.b && Executed(s.thread, 1) == Executed(s.client, 2)
    ensures p.Client? && s.client.line == 6 ==> s.c && Executed(s.thread, 4) == Executed(s.client, 5)
    ensures p.Thread? && s.thread.line == 3 ==> s.a && Executed(s.client, 1) == Executed(s.thread, 2)
    ensures p.Thread? && s.thread.line == 6 ==> s.d && Executed(s.client, 4) == Executed(s.thread, 5)
  {
    ReachableInv(s);
  }

  /** A party can only be held up by one that has not entered, or that can itself go on. */
  lemma NoDeadlock(s: State) returns (p: Step)
    requires Reachable(s) && s.client.line != 0 && s.thread.line != 0
    ensures Enabled(s, p)
  {
    ReachableInv(s);
    p := if Enabled(s, Client) then Client else Thread;
  }

  /** A waiting party whose partner has finished the same round is not waiting any more. */
  lemma FinishedPartnerReleases(s: State)
    requires Reachable(s)
    ensures Returned(s.thread) >= s.client.entered && s.client.line != 0 ==> Enabled(s, Client)
    ensures Returned(s.client) >= s.thread.entered && s.thread.line != 0 ==> Enabled(s, Thread)
  {
    ReachableInv(s);
  }

  // ------------------------------------------------------------------- rounds come to an end

  /** Seven steps for each round: entering, five lines, and returning with the last. */
  function Position(p: Party): int {
    7 * p.entered - if p.line == 0 then 0 else 7 - p.line
  }

  function StepsTo(p: Party, rounds: nat): nat {
    if Position(p) < 7 * rounds then 7 * rounds - Position(p) else 0
  }

  function StepsAhead(s: State, rounds: nat): nat {
    StepsTo(s.client, rounds) + StepsTo(s.thread, rounds)
  }

  /** Of two parties one of which has not finished so many rounds, one that has not can go on. */
  lemma SomeoneGoesOn(s: State, rounds: nat) returns (p: Step)
    requires Inv(s) && (Returned(s.client) < rounds || Returned(s.thread) < rounds)
    ensures Enabled(s, p) && if p.Client? then Returned(s.client) < rounds else Returned(s.thread) < rounds
  {
    p := if Position(s.client) <= Position(s.thread) && Enabled(s, Client) then Client
         else if Position(s.thread) <= Position(s.client) && Enabled(s, Thread) then Thread
         else if Position(s.client) <= Position(s.thread) then Thread else Client;
  }

  lemma PartyNearer(p: Party, rounds: nat)
    requires p.line <= 6 && Returned(p) < rounds
    ensures StepsTo(Advance(p), rounds) == StepsTo(p, rounds) - 1
  {
  }

  lemma OneMoves(s: State, p: Step)
    ensures Apply(s, p).client == if p.Client? then Advance(s.client) else s.client
    ensures Apply(s, p).thread == if p.Thread? then Advance(s.thread) else s.thread
  {
  }

  lemma OneStepNearer(s: State, rounds: nat, p: Step)
    requires Inv(s) && Enabled(s, p) && if p.Client? then Returned(s.client) < rounds else Returned(s.thread) < rounds
    ensures StepsAhead(Apply(s, p), rounds) < StepsAhead(s, rounds)
  {
    OneMoves(s, p);
    PartyNearer(if p.Client? then s.client else s.thread, rounds);
  }

  lemma LongerRun(run: seq<State>, s: State)
    requires Run(run) && Next(run[|run| - 1], s)
    ensures Run(run + [s])
  {
    assert (run + [s])[..|run + [s]| - 1] == run;
  }

  lemma GoesOn(s: State, rounds: nat) returns (s': State)
    requires Inv(s) && (Returned(s.client) < rounds || Returned(s.thread) < rounds)
    ensures Next(s, s') && StepsAhead(s', rounds) < StepsAhead(s, rounds)
  {
    var p := SomeoneGoesOn(s, rounds);
    OneStepNearer(s, rounds, p);
    s' := Apply(s, p);
  }

  /** Every run can go on until both parties have returned from any number of calls. */
  lemma {:induction false} RoundsComplete(run: seq<State>, rounds: nat) returns (longer: seq<State>)
    requires Run(run)
    ensures Run(longer) && run <= longer
    ensures Returned(longer[|longer| - 1].client) >= rounds && Returned(longer[|longer| - 1].thread) >= rounds
    decreases StepsAhead(run[|run| - 1], rounds)
  {
    var s := run[|run| - 1];
    RunInv(run);
    if Returned(s.client) >= rounds && Returned(s.thread) >= rounds {
      longer := run;
    } else {
      var s' := GoesOn(s, rounds);
      LongerRun(run, s');
      longer := RoundsComplete(run + [s'], rounds);
      PrefixOfLonger(run, s', longer);
    }
  }
}
