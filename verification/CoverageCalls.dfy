/** What any number of calls of `Add` and `AddEnd` leave in the list, key by key. */
module CoverageCalls {
  import opened Common
  import opened CoverageSpec

  datatype Call = AddCall(key: Key, file: string, line: int) | EndCall(key: Key, line: int)

  /** The list after one call. */
  function Done(l: seq<Rec>, c: Call): seq<Rec> {
    match c
    case AddCall(k, file, line) => Changed(l, k, AddTo(file, line))
    case EndCall(k, line) => Changed(l, k, EndAt(line))
  }

  function DoneAll(l: seq<Rec>, calls: seq<Call>): seq<Rec> {
    if calls == [] then l else Done(DoneAll(l, calls[..|calls| - 1]), calls[|calls| - 1])
  }

  // ------------------------------------------------------------------- what the calls say of a key

  function Adds(calls: seq<Call>, k: Key): nat {
    if calls == [] then 0
    else
      var c := calls[|calls| - 1];
      Adds(calls[..|calls| - 1], k) + if c.AddCall? && c.key == k then 1 else 0
  }

  /** `n` is the first of the calls that count a key. */
  predicate FirstAdd(calls: seq<Call>, k: Key, n: nat) {
    n < |calls| && calls[n].AddCall? && calls[n].key == k && NoAdd(calls[..n], k)
  }

  predicate NoAdd(calls: seq<Call>, k: Key) {
    forall i :: 0 <= i < |calls| ==> !(calls[i].AddCall? && calls[i].key == k)
  }

  /** `n` is the first of the calls that give a key an end that is not negative. */
  predicate FirstEnd(calls: seq<Call>, k: Key, n: nat) {
    n < |calls| && calls[n].EndCall? && calls[n].key == k && calls[n].line >= 0 && NoEnd(calls[..n], k)
  }

  predicate NoEnd(calls: seq<Call>, k: Key) {
    forall i :: 0 <= i < |calls| ==> !(calls[i].EndCall? && calls[i].key == k && calls[i].line >= 0)
  }

  predicate Mentioned(calls: seq<Call>, k: Key) {
    exists i :: 0 <= i < |calls| && calls[i].key == k
  }

  /** A record before any call: that of the list, or one that has counted nothing and knows nothing. */
  function Old(l: seq<Rec>, k: Key): Rec {
    if Find(l, k).Some? then Find(l, k).value else Rec(k.name, k.argcount, 0, None, -1, -1)
  }

  // ------------------------------------------------------------------- one more call

  lemma AllButLast(front: seq<Call>, c: Call)
    ensures (front + [c])[..|front + [c]| - 1] == front && (front + [c])[|front + [c]| - 1] == c
  {
  }

  lemma DoneSorted(l: seq<Rec>, c: Call)
    requires Sorted(l)
    ensures Sorted(Done(l, c))
  {
    match c
    case AddCall(k, file, line) => ChangedSorted(l, k, AddTo(file, line));
    case EndCall(k, line) => ChangedSorted(l, k, EndAt(line));
  }

  lemma {:induction false} DoneAllSorted(l: seq<Rec>, calls: seq<Call>)
    requires Sorted(l)
    ensures Sorted(DoneAll(l, calls))
    decreases |calls|
  {
    if calls != [] {
      DoneAllSorted(l, calls[..|calls| - 1]);
      DoneSorted(DoneAll(l, calls[..|calls| - 1]), calls[|calls| - 1]);
    }
  }

  /** One call changes the record of its key only: a count is one more, a source or an end is kept once it is there. */
  lemma DoneIs(l: seq<Rec>, c: Call, k: Key)
    requires Sorted(l)
    ensures c.key != k ==> Find(Done(l, c), k) == Find(l, k)
    ensures c.key == k ==> Find(Done(l, c), k).Some?
    ensures var r, r' := Old(l, k), Old(Done(l, c), k);
      c.key == k ==>
      && r'.count == r.count + (if c.AddCall? then 1 else 0)
      && (c.AddCall? && r.sourceFile.None? ==> r'.sourceFile == Some(c.file) && r'.firstLine == c.line)
      && (c.EndCall? || r.sourceFile.Some? ==> r'.sourceFile == r.sourceFile && r'.firstLine == r.firstLine)
      && r'.lastLine == if c.EndCall? && r.lastLine < 0 then c.line else r.lastLine
  {
    match c
    case AddCall(key, file, line) => FindAfterChange(l, key, AddTo(file, line), k);
    case EndCall(key, line) => FindAfterChange(l, key, EndAt(line), k);
  }

  lemma OneMoreCall(l: seq<Rec>, front: seq<Call>, c: Call)
    ensures DoneAll(l, front + [c]) == Done(DoneAll(l, front), c)
    ensures forall k :: Adds(front + [c], k) == Adds(front, k) + if c.AddCall? && c.key == k then 1 else 0
    ensures forall k :: NoAdd(front + [c], k) <==> NoAdd(front, k) && !(c.AddCall? && c.key == k)
    ensures forall k :: NoEnd(front + [c], k) <==> NoEnd(front, k) && !(c.EndCall? && c.key == k && c.line >= 0)
  {
    var calls := front + [c];
    AllButLast(front, c);
    assert forall i :: 0 <= i < |front| ==> front[i] == calls[i];
    assert calls[|front|] == c;
  }

  // ------------------------------------------------------------------- any number of calls

  /** The count of a key is what it was and one for every `Add` of it; the list has the key if it had, or if a call names it. */
  lemma {:induction false} CallsAreCounted(l: seq<Rec>, calls: seq<Call>, k: Key)
    requires Sorted(l)
    ensures Sorted(DoneAll(l, calls))
    ensures Old(DoneAll(l, calls), k).count == Old(l, k).count + Adds(calls, k)
    ensures Find(DoneAll(l, calls), k).Some? <==> Find(l, k).Some? || Mentioned(calls, k)
    ensures !Mentioned(calls, k) ==> Find(DoneAll(l, calls), k) == Find(l, k)
    decreases |calls|
  {
    DoneAllSorted(l, calls);
    if calls != [] {
      var front, c := calls[..|calls| - 1], calls[|calls| - 1];
      assert calls == front + [c];
      CallsAreCounted(l, front, k);
      OneMoreCall(l, front, c);
      DoneAllSorted(l, front);
      DoneIs(DoneAll(l, front), c, k);
      MentionedSnoc(front, c, k);
    }
  }

  lemma MentionedSnoc(front: seq<Call>, c: Call, k: Key)
    ensures Mentioned(front + [c], k) <==> Mentioned(front, k) || c.key == k
  {
    var calls := front + [c];
    if i :| 0 <= i < |calls| && calls[i].key == k {
      if i < |front| { assert front[i] == calls[i]; }
    }
    if i :| 0 <= i < |front| && front[i].key == k { assert calls[i] == front[i]; }
    if c.key == k { assert calls[|front|] == c; }
  }

  lemma Snoc(l: seq<Rec>, calls: seq<Call>, k: Key) returns (front: seq<Call>, c: Call)
    requires Sorted(l) && calls != []
    ensures calls == front + [c] && |front| == |calls| - 1 && DoneAll(l, calls) == Done(DoneAll(l, front), c) && Sorted(DoneAll(l, front))
    ensures NoAdd(calls, k) <==> NoAdd(front, k) && !(c.AddCall? && c.key == k)
    ensures NoEnd(calls, k) <==> NoEnd(front, k) && !(c.EndCall? && c.key == k && c.line >= 0)
  {
    front, c := calls[..|calls| - 1], calls[|calls| - 1];
    assert calls == front + [c];
    OneMoreCall(l, front, c);
    DoneAllSorted(l, front);
  }

  /** A key keeps its source and first line. */
  lemma {:induction false} SourceIsKept(l: seq<Rec>, calls: seq<Call>, k: Key)
    requires Sorted(l) && (Old(l, k).sourceFile.Some? || NoAdd(calls, k))
    ensures var r, r' := Old(l, k), Old(DoneAll(l, calls), k); r'.sourceFile == r.sourceFile && r'.firstLine == r.firstLine
    decreases |calls|
  {
    if calls != [] {
      var front, c := Snoc(l, calls, k);
      SourceIsKept(l, front, k);
      DoneIs(DoneAll(l, front), c, k);
    }
  }

  /** Or it has those of the first `Add` of it. */
  lemma {:induction false} FirstAddIsNoted(l: seq<Rec>, calls: seq<Call>, k: Key, n: nat)
    requires Sorted(l) && Old(l, k).sourceFile.None? && FirstAdd(calls, k, n)
    ensures var r := Old(DoneAll(l, calls), k); r.sourceFile == Some(calls[n].file) && r.firstLine == calls[n].line
    decreases |calls|
  {
    var front, c := Snoc(l, calls, k);
    assert calls[..n] == front[..n];
    if n < |front| {
      FirstAddIsNoted(l, front, k, n);
    } else {
      assert front[..n] == front;
      SourceIsKept(l, front, k);
    }
    DoneIs(DoneAll(l, front), c, k);
  }

  /** A key keeps a last line that is not negative, and one that is negative stays so until it is given another. */
  lemma {:induction false} EndIsKept(l: seq<Rec>, calls: seq<Call>, k: Key)
    requires Sorted(l) && (Old(l, k).lastLine >= 0 || NoEnd(calls, k))
    ensures var r, r' := Old(l, k), Old(DoneAll(l, calls), k); if r.lastLine >= 0 then r'.lastLine == r.lastLine else r'.lastLine < 0
    decreases |calls|
  {
    if calls != [] {
      var front, c := Snoc(l, calls, k);
      EndIsKept(l, front, k);
      DoneIs(DoneAll(l, front), c, k);
    }
  }

  /** Then it has that of the first `AddEnd` of it that is not negative. */
  lemma {:induction false} FirstEndIsNoted(l: seq<Rec>, calls: seq<Call>, k: Key, n: nat)
    requires Sorted(l) && Old(l, k).lastLine < 0 && FirstEnd(calls, k, n)
    ensures Old(DoneAll(l, calls), k).lastLine == calls[n].line
    decreases |calls|
  {
    var front, c := Snoc(l, calls, k);
    assert calls[..n] == front[..n];
    if n < |front| {
      FirstEndIsNoted(l, front, k, n);
    } else {
      assert front[..n] == front;
      EndIsKept(l, front, k);
    }
    DoneIs(DoneAll(l, front), c, k);
  }
}
