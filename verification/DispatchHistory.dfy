/** What the dispatcher has drawn for earlier images, and how sends that are not buffered hold up their senders. */
module DispatchHistory {
  import opened Common
  import opened Image
  import opened Dispatch
  import opened DispatchResults

  // ------------------------------------------------------------------- earlier images

  function Joined(logs: seq<seq<Piece>>): seq<Piece> {
    if logs == [] then [] else Joined(logs[..|logs| - 1]) + logs[|logs| - 1]
  }

  /** One complete log for every image before the current one. */
  ghost predicate Complete(c: Config, image: nat, logs: seq<seq<Piece>>)
    requires ValidConfig(c) && image < |c.jobs|
  {
    |logs| == image && forall m :: 0 <= m < image ==> |logs[m]| == c.pieces && Draws(logs[m], c.jobs[m].tiles, c.jobs[m].pic)
  }

  lemma OneMoreImage(c: Config, s: State, logs: seq<seq<Piece>>)
    requires Inv(c, s) && ImageDone(c, s) && Complete(c, s.image, logs) && s.past == Joined(logs) && s.image + 1 < |c.jobs|
    ensures Complete(c, s.image + 1, logs + [s.drawn]) && s.past + s.drawn == Joined(logs + [s.drawn])
  {
    DoneState(c, s);
    var more := logs + [s.drawn];
    assert more[..|more| - 1] == logs;
    assert forall m :: 0 <= m < |logs| ==> more[m] == logs[m];
  }

  lemma StaysPast(c: Config, s: State, a: Step)
    requires Shape(c, s) && Enabled(c, s, a) && !a.NextImage?
    ensures Apply(c, s, a).past == s.past && Apply(c, s, a).image == s.image
  {
  }

  /** After any run: before it began the current image, the root had drawn every earlier one completely, in their order. */
  lemma {:induction false} EarlierImages(c: Config, run: seq<State>) returns (logs: seq<seq<Piece>>)
    requires ValidConfig(c) && Run(c, run) && Shape(c, Last(run))
    ensures Complete(c, Last(run).image, logs) && Last(run).past == Joined(logs)
    decreases |run|
  {
    logs := [];
    if |run| > 1 {
      var front, s, a := LastStep(c, run);
      RunInv(c, front);
      logs := EarlierImages(c, front);
      if a.NextImage? {
        OneMoreImage(c, s, logs);
        logs := logs + [s.drawn];
      } else {
        StaysPast(c, s, a);
      }
    } else {
      assert Last(run) == Init(c);
    }
  }

  // ------------------------------------------------------------------- sends that are not buffered

  predicate OfRoot(a: Step) {
    a.Prime? || a.RecvHead? || a.RecvData? || a.SendOn? || a.NextImage?
  }

  predicate OfWorker(a: Step, w: nat) {
    (a.TakeWork? || a.SendHead? || a.SendData? || a.NextJob?) && a.w == w
  }

  /** After a send of the root that is not buffered, nothing but the receive at its other end lets the root go on. */
  lemma RootWaits(c: Config, s: State, a: Step, b: Step)
    requires Shape(c, s) && Enabled(c, s, a) && (a == Prime(true) || a == SendOn(true))
    requires Shape(c, Apply(c, s, a)) && OfRoot(b)
    ensures !Enabled(c, Apply(c, s, a), b)
  {
  }

  /** The same for a worker. */
  lemma WorkerWaits(c: Config, s: State, a: Step, b: Step, w: nat)
    requires Shape(c, s) && Enabled(c, s, a) && (a == SendHead(w, true) || a == SendData(w, true))
    requires Shape(c, Apply(c, s, a)) && OfWorker(b, w)
    ensures !Enabled(c, Apply(c, s, a), b)
  {
  }

  /** Other steps do not release it: the message must be received. */
  lemma StillWaits(c: Config, s: State, w: nat, b: Step)
    requires Inv(c, s) && w < c.workers && !WorkerFree(s, w) && Enabled(c, s, b)
    ensures Shape(c, Apply(c, s, b))
    ensures WorkerFree(Apply(c, s, b), w) ==> (b.RecvHead? && b.w == w) || (b.RecvData? && s.pc.proc == w)
  {
    StepInv(c, s, b);
  }

  lemma RootStillWaits(c: Config, s: State, b: Step)
    requires Inv(c, s) && !RootFree(s) && Enabled(c, s, b)
    ensures Shape(c, Apply(c, s, b))
    ensures RootFree(Apply(c, s, b)) ==> b.TakeWork? && s.blockedOn == Some(b.w)
  {
    StepInv(c, s, b);
  }
}
