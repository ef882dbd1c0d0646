/**
 How the data messages of the counting fence are matched: by the two processes and a tag that
 each origin counts for itself, so that two operations can be on one channel.
 */
module FenceMatching {
  import opened Common
  import opened CountingFence

  // ------------------------------------------------------------------- counting, once more

  lemma {:induction false} CountSame(ops: seq<Op>, ops': seq<Op>, f: Op -> bool)
    requires |ops'| == |ops| && forall i :: 0 <= i < |ops| ==> f(ops'[i]) == f(ops[i])
    ensures Count(ops', f) == Count(ops, f)
    decreases |ops|
  {
    if ops != [] {
      var m := |ops| - 1;
      assert forall i :: 0 <= i < m ==> ops[..m][i] == ops[i] && ops'[..m][i] == ops'[i];
      CountSame(ops[..m], ops'[..m], f);
    }
  }

  lemma {:induction false} CountGrows(ops: seq<Op>, i: nat, j: nat, f: Op -> bool)
    requires i < j <= |ops| && f(ops[i])
    ensures Count(ops[..i], f) < Count(ops[..j], f)
    decreases j
  {
    assert ops[..j][..j - 1] == ops[..j - 1];
    if j > i + 1 { CountGrows(ops, i, j - 1, f); }
  }

  // ------------------------------------------------------------------- channels and tags

  /** A channel in one epoch. */
  datatype Channel = Channel(from: nat, to: nat, tag: nat, epoch: nat)

  function ChannelOf(o: Op): Channel { Channel(Sender(o), Receiver(o), o.tag, o.epoch) }

  predicate IsOn(o: Op, c: Channel) { HasData(o) && ChannelOf(o) == c }

  function On(c: Channel): Op -> bool { (o: Op) => IsOn(o, c) }
  function TakenOn(c: Channel): Op -> bool { (o: Op) => IsOn(o, c) && o.taken }
  function GotOn(c: Channel): Op -> bool { (o: Op) => IsOn(o, c) && o.got.Some? }

  function DataFrom(p: nat, e: nat): Op -> bool { (o: Op) => HasData(o) && o.src == p && o.epoch == e }

  /** Tags number the gets and large puts of one process in one epoch. */
  ghost predicate TagsOk(s: State) {
    && (forall p :: 0 <= p < |s.procs| ==> s.procs[p].tag == Count(s.ops, DataFrom(p, CounterEpoch(s.procs[p]))))
    && (forall i {:trigger s.ops[i]} :: 0 <= i < |s.ops| ==> s.ops[i].tag == Count(s.ops[..i], DataFrom(s.ops[i].src, s.ops[i].epoch)))
  }

  /** What is posted and not matched is in its list. */
  ghost predicate ListsComplete(s: State) {
    && (forall i :: 0 <= i < |s.ops| && SendPosted(s.ops[i]) && !s.ops[i].taken ==> i in s.sends)
    && (forall i :: 0 <= i < |s.ops| && RecvPosted(s.ops[i]) && s.ops[i].got.None? ==> i in s.recvs)
  }

  /** Data only comes over the operation's own channel, in its own epoch. */
  predicate GotFrom(ops: seq<Op>, o: Op) {
    o.got.Some? ==> HasData(o) && o.got.value < |ops| && IsOn(ops[o.got.value], ChannelOf(o)) && ops[o.got.value].taken
  }

  ghost predicate GotOk(s: State) {
    forall i :: 0 <= i < |s.ops| ==> GotFrom(s.ops, s.ops[i])
  }

  /** On every channel as many sends have been taken as receives have got something. */
  ghost predicate Balanced(s: State) {
    forall c: Channel :: Count(s.ops, TakenOn(c)) == Count(s.ops, GotOn(c))
  }

  ghost predicate MatchInv(s: State) {
    TagsOk(s) && ListsComplete(s) && GotOk(s) && Balanced(s)
  }

  /** Two gets or two large puts of a process have different tags in an epoch. */
  lemma TagsDiffer(s: State, i: nat, j: nat)
    requires TagsOk(s) && i < j < |s.ops| && HasData(s.ops[i]) && HasData(s.ops[j])
    requires s.ops[i].src == s.ops[j].src && s.ops[i].epoch == s.ops[j].epoch
    ensures s.ops[i].tag < s.ops[j].tag
  {
    CountGrows(s.ops, i, j, DataFrom(s.ops[i].src, s.ops[i].epoch));
  }

  /** A get and a large put, back and forth between two processes, with one tag in one epoch. */
  predicate Collision(ops: seq<Op>, i: nat, j: nat) {
    && i < |ops| && j < |ops| && ops[i].kind == Get && ops[j].kind == PutLarge
    && ops[j].src == ops[i].target && ops[j].target == ops[i].src
    && ops[j].epoch == ops[i].epoch && ops[j].tag == ops[i].tag
  }

  /** Only such a pair shares a channel. */
  lemma ChannelMates(s: State, i: nat, j: nat)
    requires TagsOk(s) && i < |s.ops| && j < |s.ops| && HasData(s.ops[i]) && IsOn(s.ops[j], ChannelOf(s.ops[i]))
    ensures j == i || Collision(s.ops, i, j) || Collision(s.ops, j, i)
  {
    if s.ops[i].kind == s.ops[j].kind {
      if i < j { TagsDiffer(s, i, j); }
      if j < i { TagsDiffer(s, j, i); }
    }
  }

  // ------------------------------------------------------------------- nothing is left over

  /** Everything of an epoch that a process has left behind is matched. */
  lemma StaleIsMatched(s: State, p: nat, i: nat)
    requires Inv(Documented, s) && Balanced(s) && p < |s.procs| && i < |s.ops| && s.ops[i].epoch < s.procs[p].fence
    ensures i !in s.sends && i !in s.recvs
  {
    ClosedBefore(s, p, i);
    var o := s.ops[i];
    if HasData(o) {
      var c := ChannelOf(o);
      forall k | 0 <= k < |s.ops|
        ensures GotOn(c)(s.ops[k]) == On(c)(s.ops[k])
      {
        if s.ops[k].epoch == o.epoch { ClosedBefore(s, p, k); }
      }
      CountsAgree(s.ops, GotOn(c), On(c));
      CountAll(s.ops, TakenOn(c), On(c));
      assert On(c)(o) && TakenOn(c)(o);
    }
  }

  lemma {:induction false} CountsAgree(ops: seq<Op>, f: Op -> bool, g: Op -> bool)
    requires forall i :: 0 <= i < |ops| ==> f(ops[i]) == g(ops[i])
    ensures Count(ops, f) == Count(ops, g)
    decreases |ops|
  {
    if ops != [] {
      var m := |ops| - 1;
      assert forall i :: 0 <= i < m ==> ops[..m][i] == ops[i];
      CountsAgree(ops[..m], f, g);
    }
  }

  /** So a message is only ever matched with a receive of its own epoch. */
  lemma MatchedInItsEpoch(s: State, m: nat, n: nat)
    requires Inv(Documented, s) && Balanced(s) && Enabled(Documented, s, Receive(m, n))
    ensures IsOn(s.ops[s.recvs[n]], ChannelOf(s.ops[s.sends[m]]))
  {
    var x, y := s.sends[m], s.recvs[n];
    assert OpOk(s, s.ops[x]) && OpOk(s, s.ops[y]);
    if s.ops[x].epoch < s.ops[y].epoch { StaleIsMatched(s, s.ops[y].src, x); }
    if s.ops[y].epoch < s.ops[x].epoch { StaleIsMatched(s, s.ops[x].src, y); }
  }

  // ------------------------------------------------------------------- every step keeps it

  lemma InitMatch(np: nat)
    ensures MatchInv(Init(np))
  {
  }

  /** No operation of a later epoch than a process's own exists when it clears its tag counter. */
  lemma NoLaterData(s: State, p: nat)
    requires Inv(Documented, s) && p < |s.procs| && s.procs[p].pc == Looping
    ensures Count(s.ops, DataFrom(p, s.procs[p].fence + 1)) == 0
  {
    forall i | 0 <= i < |s.ops|
      ensures !DataFrom(p, s.procs[p].fence + 1)(s.ops[i])
    {
      assert OpOk(s, s.ops[i]);
    }
    CountNone(s.ops, DataFrom(p, s.procs[p].fence + 1));
  }

  /** Steps that leave all operations as they were, in what the tags depend on. */
  lemma TagsFollow(s: State, s': State)
    requires TagsOk(s) && |s'.procs| == |s.procs| && |s'.ops| == |s.ops|
    requires forall i :: 0 <= i < |s.ops| ==> Follows(s.ops[i], s'.ops[i])
    requires forall p :: 0 <= p < |s.procs| ==>
      s'.procs[p].tag == s.procs[p].tag && CounterEpoch(s'.procs[p]) == CounterEpoch(s.procs[p])
    ensures TagsOk(s')
  {
    forall p | 0 <= p < |s.procs|
      ensures s'.procs[p].tag == Count(s'.ops, DataFrom(p, CounterEpoch(s'.procs[p])))
    {
      CountSame(s.ops, s'.ops, DataFrom(p, CounterEpoch(s.procs[p])));
    }
    forall i {:trigger s'.ops[i]} | 0 <= i < |s.ops|
      ensures s'.ops[i].tag == Count(s'.ops[..i], DataFrom(s'.ops[i].src, s'.ops[i].epoch))
    {
      assert s.ops[i].tag == Count(s.ops[..i], DataFrom(s.ops[i].src, s.ops[i].epoch));
      CountSame(s.ops[..i], s'.ops[..i], DataFrom(s.ops[i].src, s.ops[i].epoch));
    }
  }

  lemma IssueTags(s: State, p: nat, kind: Kind, t: nat)
    requires Inv(Documented, s) && TagsOk(s) && Enabled(Documented, s, Issue(p, kind, t))
    ensures TagsOk(Issued(s, p, kind, t))
  {
    var s' := Issued(s, p, kind, t);
    var o := s'.ops[|s.ops|];
    forall r | 0 <= r < |s.procs|
      ensures s'.procs[r].tag == Count(s'.ops, DataFrom(r, CounterEpoch(s'.procs[r])))
    {
      CountAppend(s.ops, o, DataFrom(r, CounterEpoch(s.procs[r])));
    }
    forall i {:trigger s'.ops[i]} | 0 <= i < |s'.ops|
      ensures s'.ops[i].tag == Count(s'.ops[..i], DataFrom(s'.ops[i].src, s'.ops[i].epoch))
    {
      if i < |s.ops| {
        assert s.ops[i].tag == Count(s.ops[..i], DataFrom(s.ops[i].src, s.ops[i].epoch));
        assert s'.ops[..i] == s.ops[..i];
      } else {
        assert s'.ops[..i] == s.ops;
      }
    }
  }

  lemma LeaveLoopTags(s: State, p: nat)
    requires Shape(s) && TagsOk(s) && Enabled(Documented, s, LeaveLoop(p))
    requires Count(s.ops, DataFrom(p, s.procs[p].fence + 1)) == 0
    ensures TagsOk(Apply(Documented, s, LeaveLoop(p)))
  {
    ClearedTag(s, p, Apply(Documented, s, LeaveLoop(p)));
  }

  lemma ClearedTag(s: State, p: nat, s': State)
    requires TagsOk(s) && p < |s.procs| == |s'.procs| && s'.ops == s.ops
    requires s'.procs[p].tag == 0 == Count(s.ops, DataFrom(p, CounterEpoch(s'.procs[p])))
    requires forall r :: 0 <= r < |s.procs| && r != p ==> s'.procs[r] == s.procs[r]
    ensures TagsOk(s')
  {
  }

  lemma AdvanceKeepsTag(s: State, a: Step)
    requires Shape(s) && Enabled(Documented, s, a) && Advances(a)
    ensures |Apply(Documented, s, a).ops| == |s.ops|
    ensures forall p :: 0 <= p < |s.procs| ==>
      var q, q' := s.procs[p], Apply(Documented, s, a).procs[p];
      q'.tag == q.tag && CounterEpoch(q') == CounterEpoch(q)
  {
  }

  lemma AdvanceTags(s: State, a: Step)
    requires Inv(Documented, s) && TagsOk(s) && Enabled(Documented, s, a) && Advances(a)
    ensures TagsOk(Apply(Documented, s, a))
  {
    AdvanceKeepsTag(s, a);
    forall i | 0 <= i < |s.ops|
      ensures Follows(s.ops[i], Apply(Documented, s, a).ops[i])
    {
      AdvanceFollows(Documented, s, a, i);
    }
    TagsFollow(s, Apply(Documented, s, a));
  }

  predicate Collective(a: Step) { a.EnterFence? || a.LeaveAlltoall? || a.LeaveBarrier? }

  lemma CollectiveTags(s: State, a: Step)
    requires Shape(s) && TagsOk(s) && Enabled(Documented, s, a) && Collective(a)
    ensures TagsOk(Apply(Documented, s, a))
  {
    TagsFollow(s, Apply(Documented, s, a));
  }

  lemma StepTags(s: State, a: Step)
    requires Inv(Documented, s) && TagsOk(s) && Enabled(Documented, s, a)
    ensures TagsOk(Apply(Documented, s, a))
  {
    if a.Issue? { IssueTags(s, a.p, a.kind, a.target); }
    else if a.LeaveLoop? {
      NoLaterData(s, a.p);
      LeaveLoopTags(s, a.p);
    }
    else if Advances(a) { AdvanceTags(s, a); }
    else { CollectiveTags(s, a); }
  }

  // The lists.

  lemma StillListed(list: seq<nat>, at: nat, i: nat)
    requires at < |list| && i in list && i != list[at]
    ensures i in Without(list, at)
  {
    var k :| 0 <= k < |list| && list[k] == i;
    assert Without(list, at)[if k < at then k else k - 1] == i;
  }

  lemma ReceiveListed(s: State, m: nat, n: nat)
    requires Shape(s) && ListsComplete(s) && m < |s.sends| && n < |s.recvs|
    ensures ListsComplete(Matched(s, m, n))
  {
    var s' := Matched(s, m, n);
    forall i | 0 <= i < |s'.ops| && SendPosted(s'.ops[i]) && !s'.ops[i].taken
      ensures i in s'.sends
    {
      StillListed(s.sends, m, i);
    }
    forall i | 0 <= i < |s'.ops| && RecvPosted(s'.ops[i]) && s'.ops[i].got.None?
      ensures i in s'.recvs
    {
      StillListed(s.recvs, n, i);
    }
  }

  lemma HandleListed(s: State, i: nat)
    requires Shape(s) && ListsComplete(s) && i < |s.ops|
    ensures ListsComplete(Ran(s, i))
  {
  }

  lemma IssueListed(s: State, p: nat, kind: Kind, t: nat)
    requires Shape(s) && ListsComplete(s) && Enabled(Documented, s, Issue(p, kind, t))
    ensures ListsComplete(Issued(s, p, kind, t))
  {
  }

  lemma StepListed(s: State, a: Step)
    requires Shape(s) && ListsComplete(s) && Enabled(Documented, s, a)
    ensures ListsComplete(Apply(Documented, s, a))
  {
    match a
    case Issue(p, kind, t) => IssueListed(s, p, kind, t);
    case Handle(i) => HandleListed(s, i);
    case Receive(m, n) => ReceiveListed(s, m, n);
    case _ =>
  }

  // What was got, and the balance of every channel.

  lemma GotFollows(ops: seq<Op>, ops': seq<Op>, o: Op, o': Op)
    requires GotFrom(ops, o) && |ops| <= |ops'| && o'.got == o.got && ChannelOf(o') == ChannelOf(o) && HasData(o') == HasData(o)
    requires forall k :: 0 <= k < |ops| ==> Follows(ops[k], ops'[k])
    ensures GotFrom(ops', o')
  {
  }

  lemma ReceiveGot(s: State, m: nat, n: nat)
    requires Inv(Documented, s) && Balanced(s) && GotOk(s) && Enabled(Documented, s, Receive(m, n))
    ensures GotOk(Matched(s, m, n))
  {
    var s', x, y := Matched(s, m, n), s.sends[m], s.recvs[n];
    MatchedInItsEpoch(s, m, n);
    forall i | 0 <= i < |s'.ops|
      ensures Follows(s.ops[i], s'.ops[i])
    {
      AdvanceFollows(Documented, s, Receive(m, n), i);
    }
    forall i | 0 <= i < |s'.ops|
      ensures GotFrom(s'.ops, s'.ops[i])
    {
      if i != y { GotFollows(s.ops, s'.ops, s.ops[i], s'.ops[i]); }
    }
  }

  lemma DeliveryBalanced(ops: seq<Op>, x: nat, y: nat, c: Channel)
    requires x < |ops| && y < |ops| && HasData(ops[x]) && IsOn(ops[y], ChannelOf(ops[x])) && !ops[x].taken && ops[y].got.None?
    requires Count(ops, TakenOn(c)) == Count(ops, GotOn(c))
    ensures Count(Delivered(ops, x, y), TakenOn(c)) == Count(Delivered(ops, x, y), GotOn(c))
  {
    var sent := ops[x := ops[x].(taken := true)];
    var got := sent[y].(got := Some(x));
    CountReplace(ops, x, sent[x], TakenOn(c));
    CountReplace(sent, y, got, TakenOn(c));
    CountReplace(ops, x, sent[x], GotOn(c));
    CountReplace(sent, y, got, GotOn(c));
  }

  lemma ReceiveBalanced(s: State, m: nat, n: nat, c: Channel)
    requires Inv(Documented, s) && Balanced(s) && Enabled(Documented, s, Receive(m, n))
    ensures Count(Matched(s, m, n).ops, TakenOn(c)) == Count(Matched(s, m, n).ops, GotOn(c))
  {
    MatchedInItsEpoch(s, m, n);
    assert Count(s.ops, TakenOn(c)) == Count(s.ops, GotOn(c));
    DeliveryBalanced(s.ops, s.sends[m], s.recvs[n], c);
  }

  /** A step that matches nothing. */
  predicate SameMatches(ops: seq<Op>, ops': seq<Op>) {
    |ops'| == |ops| && forall i :: 0 <= i < |ops| ==> Follows(ops[i], ops'[i]) && ops'[i].got == ops[i].got && ops'[i].taken == ops[i].taken
  }

  lemma OtherMatches(s: State, a: Step)
    requires Shape(s) && Enabled(Documented, s, a) && !a.Receive? && !a.Issue?
    ensures SameMatches(s.ops, Apply(Documented, s, a).ops)
  {
  }

  lemma OtherGot(s: State, a: Step)
    requires Shape(s) && GotOk(s) && Enabled(Documented, s, a) && !a.Receive?
    ensures GotOk(Apply(Documented, s, a))
  {
    var s' := Apply(Documented, s, a);
    if !a.Issue? { OtherMatches(s, a); }
    forall i | 0 <= i < |s'.ops|
      ensures GotFrom(s'.ops, s'.ops[i])
    {
      if i < |s.ops| { GotFollows(s.ops, s'.ops, s.ops[i], s'.ops[i]); }
    }
  }

  lemma SameBalance(ops: seq<Op>, ops': seq<Op>, c: Channel)
    requires SameMatches(ops, ops') && Count(ops, TakenOn(c)) == Count(ops, GotOn(c))
    ensures Count(ops', TakenOn(c)) == Count(ops', GotOn(c))
  {
    CountSame(ops, ops', TakenOn(c));
    CountSame(ops, ops', GotOn(c));
  }

  lemma OtherBalanced(s: State, a: Step, c: Channel)
    requires Shape(s) && Balanced(s) && Enabled(Documented, s, a) && !a.Receive?
    ensures Count(Apply(Documented, s, a).ops, TakenOn(c)) == Count(Apply(Documented, s, a).ops, GotOn(c))
  {
    var s' := Apply(Documented, s, a);
    assert Count(s.ops, TakenOn(c)) == Count(s.ops, GotOn(c));
    if a.Issue? {
      CountAppend(s.ops, s'.ops[|s.ops|], TakenOn(c));
      CountAppend(s.ops, s'.ops[|s.ops|], GotOn(c));
    } else {
      OtherMatches(s, a);
      SameBalance(s.ops, s'.ops, c);
    }
  }

  lemma StepMatch(s: State, a: Step)
    requires Inv(Documented, s) && MatchInv(s) && Enabled(Documented, s, a)
    ensures MatchInv(Apply(Documented, s, a))
  {
    var s' := Apply(Documented, s, a);
    StepTags(s, a);
    StepListed(s, a);
    if a.Receive? { ReceiveGot(s, a.m, a.n); } else { OtherGot(s, a); }
    forall c: Channel
      ensures Count(s'.ops, TakenOn(c)) == Count(s'.ops, GotOn(c))
    {
      if a.Receive? { ReceiveBalanced(s, a.m, a.n, c); } else { OtherBalanced(s, a, c); }
    }
  }

  lemma {:induction false} RunMatch(from: State, run: seq<State>)
    requires Inv(Documented, from) && MatchInv(from) && RunFrom(Documented, from, run)
    ensures Inv(Documented, run[|run| - 1]) && MatchInv(run[|run| - 1])
    decreases |run|
  {
    if |run| > 1 {
      var front, s, a := LastStep(Documented, from, run);
      RunMatch(from, front);
      StepInv(Documented, s, a);
      StepMatch(s, a);
    }
  }

  lemma ReachableMatch(np: nat, s: State)
    requires Reachable(Documented, np, s)
    ensures Inv(Documented, s) && MatchInv(s)
  {
    InitInv(Documented, np);
    InitMatch(np);
    var run :| RunFrom(Documented, Init(np), run) && run[|run| - 1] == s;
    RunMatch(Init(np), run);
  }

  // ------------------------------------------------------------------- what is got

  /** Data that arrives is the operation's own, or that of one it collides with. */
  lemma GotOwnOrCollides(s: State, i: nat)
    requires MatchInv(s) && i < |s.ops| && s.ops[i].got.Some?
    ensures var x := s.ops[i].got.value;
            x < |s.ops| && (x == i || Collision(s.ops, i, x) || Collision(s.ops, x, i))
  {
    assert GotFrom(s.ops, s.ops[i]);
    ChannelMates(s, i, s.ops[i].got.value);
  }
}
