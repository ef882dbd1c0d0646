/**
 The coverage list itself (mpicovsimple.cxx): doubly linked records in sorted order, with a
 cursor that remembers where the last search ended.
 */
module Coverage {
  import opened Common
  import opened CoverageSpec
  import opened CoverageCalls

  class CovInfo {
    var name: string
    var argcount: int
    var count: int
    var sourceFile: Option<string>
    var firstLine: int
    var lastLine: int
    var fLink: CovInfo?
    var bLink: CovInfo?

    constructor (name: string, argcount: int)
      ensures Value() == Blank(CoverageSpec.Key(name, argcount)) && fLink == null && bLink == null
    {
      this.name, this.argcount, this.count, this.sourceFile := name, argcount, 0, None;
      this.firstLine, this.lastLine, this.fLink, this.bLink := -1, -1, null, null;
    }

    ghost function Value(): Rec
      reads `name, `argcount, `count, `sourceFile, `firstLine, `lastLine
    {
      Rec(name, argcount, count, sourceFile, firstLine, lastLine)
    }

    method CountCall(file: string, line: int)
      modifies `count, `sourceFile, `firstLine
      ensures Value() == AddTo(file, line)(old(Value()))
    {
      count := count + 1;
      if sourceFile == None {
        sourceFile := Some(file);
        firstLine := line;
      }
    }

    method SetEnd(line: int)
      modifies `lastLine
      ensures Value() == EndAt(line)(old(Value()))
    {
      if lastLine < 0 {
        lastLine := line;
      }
    }

    method Absorb(fp: Line)
      modifies `count, `sourceFile, `firstLine, `lastLine
      ensures Value() == MergeLine(fp)(old(Value()))
    {
      if sourceFile == None {
        sourceFile := Some(fp.sourceFile);
        firstLine := fp.firstLine;
        lastLine := fp.lastLine;
      }
      count := count + fp.count;
    }
  }

  class Coverage {
    var head: CovInfo?
    /** In the source a static variable of `findOrInsert`; there is a single list. */
    var lastp: CovInfo?
    /** The records in list order, and their values. */
    ghost var nodes: seq<CovInfo>
    ghost var contents: seq<Rec>

    /** The record at a position, null beyond both ends. */
    static ghost function At(ns: seq<CovInfo>, i: int): CovInfo? {
      if 0 <= i < |ns| then ns[i] else null
    }

    static ghost predicate Distinct(ns: seq<CovInfo>) {
      forall i, j :: 0 <= i < j < |ns| ==> ns[i] != ns[j]
    }

    /** Forward and backward links are inverse to each other, and null beyond both ends. */
    static ghost predicate Chained(ns: seq<CovInfo>)
      reads ns`fLink, ns`bLink
    {
      && (forall i {:trigger ns[i].fLink} :: 0 <= i < |ns| ==> ns[i].fLink == At(ns, i + 1))
      && (forall i {:trigger ns[i].bLink} :: 0 <= i < |ns| ==> ns[i].bLink == At(ns, i - 1))
    }

    ghost predicate Linked()
      reads `head, `nodes, nodes
    {
      Distinct(nodes) && Chained(nodes) && head == At(nodes, 0)
    }

    ghost predicate Holds()
      reads `nodes, `contents, nodes
    {
      Shows(nodes, contents)
    }

    ghost predicate Valid()
      reads this, nodes
    {
      Linked() && Holds() && Sorted(contents) && (lastp != null ==> lastp in nodes)
    }

    constructor ()
      ensures Valid() && contents == []
    {
      head, lastp, nodes, contents := null, null, [], [];
    }

    /** Where the cursor stands, for the proofs. */
    lemma IndexOf(p: CovInfo) returns (i: nat)
      requires p in nodes
      ensures i < |nodes| && nodes[i] == p
    {
      i :| 0 <= i < |nodes| && nodes[i] == p;
    }

    /** Everything before a position comes before the key. */
    static ghost predicate AllBefore(l: seq<Rec>, k: Key, at: nat) {
      at <= |l| && forall i :: 0 <= i < at ==> Less(KeyOf(l[i]), k)
    }

    /** Skip ahead to the cursor when it is not past the key, else start at the head. */
    method Start(name: string, argcount: int) returns (p: CovInfo?, ghost at: nat)
      requires Valid()
      ensures AllBefore(contents, CoverageSpec.Key(name, argcount), at)
      ensures p == At(nodes, at) && (p == null ==> nodes == [] && at == 0)
    {
      p := head;
      at := 0;
      if lastp != null {
        var cmp := StrCmp(lastp.name, name);
        if cmp < 0 || (cmp == 0 && lastp.argcount <= argcount) {
          p := lastp;
          at := IndexOf(lastp);
          BeforeCursor(contents, CoverageSpec.Key(name, argcount), at);
        }
      }
    }

    /** `cmp` of the search loop for the record at a position. */
    static method Probe(p: CovInfo, name: string, argcount: int) returns (cmp: int)
      ensures cmp == Compare(KeyOf(p.Value()), CoverageSpec.Key(name, argcount))
    {
      cmp := StrCmp(p.name, name);
      if cmp == 0 {
        cmp := p.argcount - argcount;
      }
    }

    /** A position splits a list at a key when everything before it is less, and the record there is not. */
    static ghost predicate Splits(l: seq<Rec>, k: Key, at: nat) {
      AllBefore(l, k, at) && (at < |l| ==> Compare(KeyOf(l[at]), k) >= 0)
    }

    static ghost predicate Hit(l: seq<Rec>, k: Key, at: nat) {
      at < |l| && Compare(KeyOf(l[at]), k) == 0
    }

    /** The search loop, from any position that is not past the key. */
    method Walk(start: CovInfo?, ghost from: nat, name: string, argcount: int)
      returns (found: bool, p: CovInfo?, ghost at: nat)
      requires Linked() && Holds()
      requires start == At(nodes, from) && (start == null ==> nodes == [] && from == 0)
      requires AllBefore(contents, CoverageSpec.Key(name, argcount), from)
      ensures Splits(contents, CoverageSpec.Key(name, argcount), at)
      ensures found == Hit(contents, CoverageSpec.Key(name, argcount), at)
      ensures p == At(nodes, if found then at else at - 1)
    {
      ghost var k := CoverageSpec.Key(name, argcount);
      p, at := start, from;
      found := false;
      while p != null
        invariant p == At(nodes, at) && (p == null ==> nodes == [] && at == 0)
        invariant AllBefore(contents, k, at)
        decreases |nodes| - at
      {
        var cmp := Probe(p, name, argcount);
        assert contents[at] == nodes[at].Value();
        assert nodes[at].fLink == At(nodes, at + 1) && nodes[at].bLink == At(nodes, at - 1);
        if cmp == 0 {
          found := true;
          return;
        }
        if cmp > 0 {
          p := p.bLink;
          return;
        }
        BeforeNext(contents, k, at);
        at := at + 1;
        if p.fLink == null {
          return;
        }
        p := p.fLink;
      }
    }

    static lemma BeforeNext(l: seq<Rec>, k: Key, at: nat)
      requires at < |l| && AllBefore(l, k, at) && Compare(KeyOf(l[at]), k) < 0
      ensures AllBefore(l, k, at + 1)
    {
    }

    /**
     Finding the record with a key, or the one after which it belongs, null meaning at the head.
     The result does not depend on where the search started.
     */
    method Search(name: string, argcount: int) returns (found: bool, p: CovInfo?, ghost at: nat)
      requires Valid()
      ensures at == Place(contents, CoverageSpec.Key(name, argcount))
      ensures found == Present(contents, CoverageSpec.Key(name, argcount))
      ensures p == At(nodes, if found then at else at - 1)
    {
      ghost var from;
      p, from := Start(name, argcount);
      found, p, at := Walk(p, from, name, argcount);
      SplitIsPlace(contents, CoverageSpec.Key(name, argcount), at);
    }

    static lemma SplitIsPlace(l: seq<Rec>, k: Key, at: nat)
      requires Splits(l, k, at)
      ensures at == Place(l, k)
      ensures Hit(l, k, at) <==> Present(l, k)
    {
      PlaceIs(l, k, at);
      if at < |l| { CompareFacts(KeyOf(l[at]), k); }
    }

    static lemma BeforeCursor(l: seq<Rec>, k: Key, at: nat)
      requires Sorted(l) && at < |l| && Compare(KeyOf(l[at]), k) <= 0
      ensures AllBefore(l, k, at)
    {
      CompareFacts(KeyOf(l[at]), k);
      forall i | 0 <= i < at
        ensures Less(KeyOf(l[i]), k)
      {
        if KeyOf(l[at]) != k { LessTransitive(KeyOf(l[i]), KeyOf(l[at]), k); }
      }
    }

    // ----------------------------------------------------------------- inserting

    static ghost function Inserted<T>(ns: seq<T>, at: nat, p: T): seq<T>
      requires at <= |ns|
    {
      ns[..at] + [p] + ns[at..]
    }

    /** The links after a new record took its place among the others. */
    static ghost predicate SplicedForward(ns: seq<CovInfo>, at: nat, p: CovInfo)
      reads ns`fLink, p`fLink
    {
      && p.fLink == At(ns, at)
      && (forall i {:trigger ns[i].fLink} :: 0 <= i < |ns| ==> ns[i].fLink == if i == at - 1 then p else At(ns, i + 1))
    }

    static ghost predicate SplicedBack(ns: seq<CovInfo>, at: nat, p: CovInfo)
      reads ns`bLink, p`bLink
    {
      && p.bLink == At(ns, at - 1)
      && (forall i {:trigger ns[i].bLink} :: 0 <= i < |ns| ==> ns[i].bLink == if i == at then p else At(ns, i - 1))
    }

    static ghost predicate Spliced(ns: seq<CovInfo>, at: nat, p: CovInfo)
      reads ns`fLink, p`fLink, ns`bLink, p`bLink
    {
      SplicedForward(ns, at, p) && SplicedBack(ns, at, p)
    }

    static lemma InsertedMembers(ns: seq<CovInfo>, at: nat, p: CovInfo)
      requires at <= |ns|
      ensures forall n :: n in Inserted(ns, at, p) ==> n in ns || n == p
    {
    }

    static lemma InsertedAt(ns: seq<CovInfo>, at: nat, p: CovInfo, i: int)
      requires at <= |ns|
      ensures At(Inserted(ns, at, p), i) == if i < at then At(ns, i) else if i == at then p else At(ns, i - 1)
    {
    }

    static lemma SplicedIsChained(ns: seq<CovInfo>, at: nat, p: CovInfo)
      requires at <= |ns| && Spliced(ns, at, p)
      ensures Chained(Inserted(ns, at, p))
    {
      var r := Inserted(ns, at, p);
      forall i | 0 <= i < |r|
        ensures r[i].fLink == At(r, i + 1) && r[i].bLink == At(r, i - 1)
      {
        InsertedAt(ns, at, p, i);
        InsertedAt(ns, at, p, i + 1);
        InsertedAt(ns, at, p, i - 1);
      }
    }

    static lemma InsertedDistinct(ns: seq<CovInfo>, at: nat, p: CovInfo)
      requires at <= |ns| && Distinct(ns) && p !in ns
      ensures Distinct(Inserted(ns, at, p))
    {
    }

    /** Link a new record in after `p`, or at the head when `p` is null. */
    method LinkAfter(p: CovInfo?, newp: CovInfo, ghost at: nat)
      requires Distinct(nodes) && Chained(nodes) && head == At(nodes, 0)
      requires at <= |nodes| && p == At(nodes, at - 1) && newp !in nodes
      modifies `head, nodes`fLink, nodes`bLink, newp`fLink, newp`bLink
      ensures Spliced(nodes, at, newp)
      ensures head == if at == 0 then newp else old(head)
    {
      newp.bLink := p;
      if p != null {
        newp.fLink := p.fLink;
        p.fLink := newp;
        if newp.fLink != null {
          newp.fLink.bLink := newp;
        }
      } else {
        newp.fLink := head;
        if head != null {
          head.bLink := newp;
        }
        head := newp;
      }
    }

    /** What the longer list is, once the links around the new record are set. */
    static lemma Longer(ns: seq<CovInfo>, l: seq<Rec>, at: nat, p: CovInfo) returns (ns': seq<CovInfo>, l': seq<Rec>)
      requires at <= |ns| && Distinct(ns) && p !in ns && Spliced(ns, at, p) && Shows(ns, l)
      ensures ns' == Inserted(ns, at, p) && l' == Inserted(l, at, p.Value())
      ensures Distinct(ns') && Chained(ns') && Shows(ns', l') && p in ns'
      ensures At(ns', 0) == if at == 0 then p else At(ns, 0)
    {
      ns', l' := Inserted(ns, at, p), Inserted(l, at, p.Value());
      InsertedDistinct(ns, at, p);
      SplicedIsChained(ns, at, p);
      InsertedHolds(ns, l, at, p);
      InsertedAt(ns, at, p, 0);
      assert ns'[at] == p;
    }

    /** Make a blank record and link it in after `before`; no other record changes but in its links. */
    method MakeAfter(before: CovInfo?, name: string, argcount: int, ghost at: nat) returns (p: CovInfo)
      requires Linked() && at <= |nodes| && before == At(nodes, at - 1) && |contents| == |nodes|
      modifies this, nodes`fLink, nodes`bLink
      ensures lastp == p && fresh(p) && p.Value() == Blank(CoverageSpec.Key(name, argcount)) && Spliced(old(nodes), at, p)
      ensures head == if at == 0 then p else old(head)
      ensures nodes == Inserted(old(nodes), at, p) && contents == Inserted(old(contents), at, p.Value())
    {
      p := new CovInfo(name, argcount);
      LinkAfter(before, p, at);
      nodes, contents := Inserted(nodes, at, p), Inserted(contents, at, p.Value());
      lastp := p;
    }

    /** Put a blank record in the list after `before`. */
    method InsertAfter(before: CovInfo?, name: string, argcount: int, ghost at: nat) returns (p: CovInfo)
      requires Linked() && Holds() && at <= |nodes| && before == At(nodes, at - 1)
      modifies this, nodes
      ensures Linked() && Holds() && lastp == p && fresh(p)
      ensures nodes == Inserted(old(nodes), at, p)
      ensures contents == Inserted(old(contents), at, Blank(CoverageSpec.Key(name, argcount)))
    {
      p := MakeAfter(before, name, argcount, at);
      ghost var ns, l := Longer(old(nodes), old(contents), at, p);
    }

    static ghost predicate Shows(ns: seq<CovInfo>, l: seq<Rec>)
      reads ns`name, ns`argcount, ns`count, ns`sourceFile, ns`firstLine, ns`lastLine
    {
      |l| == |ns| && forall i :: 0 <= i < |ns| ==> ns[i].Value() == l[i]
    }

    static lemma InsertedHolds(ns: seq<CovInfo>, l: seq<Rec>, at: nat, p: CovInfo)
      requires at <= |ns| && Shows(ns, l)
      ensures Shows(Inserted(ns, at, p), Inserted(l, at, p.Value()))
    {
    }

    method PointTo(p: CovInfo)
      requires Valid() && p in nodes
      modifies `lastp
      ensures Valid() && lastp == p
    {
      lastp := p;
    }

    /**
     The record with a key, made if there is none. The records already there keep their values
     and their order, and the cursor is left on the result.
     */
    method FindOrInsert(name: string, argcount: int) returns (p: CovInfo)
      requires Valid()
      modifies this, nodes
      ensures Valid() && lastp == p
      ensures contents == WithKey(old(contents), CoverageSpec.Key(name, argcount))
      ensures Place(old(contents), CoverageSpec.Key(name, argcount)) < |nodes|
      ensures p == nodes[Place(old(contents), CoverageSpec.Key(name, argcount))]
      ensures nodes == if Present(old(contents), CoverageSpec.Key(name, argcount)) then old(nodes)
                       else Inserted(old(nodes), Place(old(contents), CoverageSpec.Key(name, argcount)), p)
      ensures forall i :: 0 <= i < |nodes| ==> nodes[i] in old(nodes) || fresh(nodes[i])
    {
      WithKeySorted(contents, CoverageSpec.Key(name, argcount));
      var found, before, at := Search(name, argcount);
      if found {
        p := before;
        PointTo(p);
        return;
      }
      p := InsertAfter(before, name, argcount, at);
      InsertedMembers(old(nodes), at, p);
    }

    // ----------------------------------------------------------------- the operations

    method CountAt(p: CovInfo, file: string, line: int, ghost at: nat)
      requires Linked() && Holds() && at < |nodes| && p == nodes[at]
      modifies `contents, p`count, p`sourceFile, p`firstLine
      ensures Linked() && Holds() && contents == old(contents)[at := AddTo(file, line)(old(contents)[at])]
    {
      contents := contents[at := AddTo(file, line)(p.Value())];
      p.CountCall(file, line);
    }

    method EndRecord(p: CovInfo, line: int, ghost at: nat)
      requires Linked() && Holds() && at < |nodes| && p == nodes[at]
      modifies `contents, p`lastLine
      ensures Linked() && Holds() && contents == old(contents)[at := EndAt(line)(old(contents)[at])]
    {
      contents := contents[at := EndAt(line)(p.Value())];
      p.SetEnd(line);
    }

    method AbsorbInto(p: CovInfo, fp: Line, ghost at: nat)
      requires Linked() && Holds() && at < |nodes| && p == nodes[at]
      modifies `contents, p`count, p`sourceFile, p`firstLine, p`lastLine
      ensures Linked() && Holds() && contents == old(contents)[at := MergeLine(fp)(old(contents)[at])]
    {
      contents := contents[at := MergeLine(fp)(p.Value())];
      p.Absorb(fp);
    }

    /** Count a call, and note the source of the first one. */
    method Add(name: string, argcnt: int, file: string, line: int)
      requires Valid()
      modifies this, nodes
      ensures Valid() && contents == Done(old(contents), AddCall(CoverageSpec.Key(name, argcnt), file, line))
    {
      ghost var k := CoverageSpec.Key(name, argcnt);
      ChangedSorted(contents, k, AddTo(file, line));
      var p := FindOrInsert(name, argcnt);
      CountAt(p, file, line, Place(old(contents), k));
    }

    /** Note the last line of a record that has none yet. */
    method AddEnd(name: string, argcnt: int, line: int)
      requires Valid()
      modifies this, nodes
      ensures Valid() && contents == Done(old(contents), EndCall(CoverageSpec.Key(name, argcnt), line))
    {
      ghost var k := CoverageSpec.Key(name, argcnt);
      ChangedSorted(contents, k, EndAt(line));
      var p := FindOrInsert(name, argcnt);
      EndRecord(p, line, Place(old(contents), k));
    }

    /** Fold one line of a file into the list. */
    method MergeOne(fp: Line)
      requires Valid()
      modifies this, nodes
      ensures Valid() && contents == Changed(old(contents), LineKey(fp), MergeLine(fp))
      ensures forall i :: 0 <= i < |nodes| ==> nodes[i] in old(nodes) || fresh(nodes[i])
    {
      ChangedSorted(contents, LineKey(fp), MergeLine(fp));
      var p := FindOrInsert(fp.name, fp.argcount);
      AbsorbInto(p, fp, Place(old(contents), LineKey(fp)));
    }

    /** Whether a list of lines is what there is in a file before the end-of-input marker. */
    static ghost predicate UpToMarker(infile: seq<Line>, lines: seq<Line>) {
      && lines <= infile
      && (forall i :: 0 <= i < |lines| ==> infile[i].count != -1)
      && (|lines| < |infile| ==> infile[|lines|].count == -1)
    }

    /** Fold a file into the list: every line up to one with the end-of-input marker for a count. */
    method ReadIn(infile: seq<Line>, ghost lines: seq<Line>)
      requires Valid() && UpToMarker(infile, lines)
      modifies this, nodes
      ensures Valid() && contents == Merged(old(contents), lines)
    {
      ghost var start := contents;
      var i := 0;
      assert lines[..i] == [];
      while i < |infile|
        invariant 0 <= i <= |lines|
        invariant Valid() && contents == Merged(start, lines[..i])
        invariant forall j :: 0 <= j < |nodes| ==> nodes[j] in old(nodes) || fresh(nodes[j])
      {
        var fp := infile[i];
        if fp.count == -1 {
          break;
        }
        MergeOne(fp);
        MergedNext(start, lines, i);
        i := i + 1;
      }
      assert lines[..i] == lines;
    }

    static lemma MergedNext(l: seq<Rec>, file: seq<Line>, i: nat)
      requires i < |file|
      ensures Merged(l, file[..i + 1]) == Changed(Merged(l, file[..i]), LineKey(file[i]), MergeLine(file[i]))
    {
      assert file[..i + 1][..i] == file[..i];
    }

    /** Write the records out in list order. */
    method WriteOut() returns (outfile: seq<Line>)
      requires Valid() && AllKnown(contents)
      ensures outfile == Written(contents)
    {
      outfile := [];
      var p := head;
      while p != null
        invariant |outfile| <= |nodes| && p == At(nodes, |outfile|)
        invariant outfile == Written(contents)[..|outfile|]
        decreases |nodes| - |outfile|
      {
        assert p.Value() == contents[|outfile|];
        outfile := outfile + [Line(p.name, p.argcount, p.count, p.sourceFile.value, p.firstLine, p.lastLine)];
        p := p.fLink;
      }
    }

    /**
     Merge the list with a coverage file and write the result: sorted, one line for each key,
     with the counts of both added up. Every record must have a source file by then.
     */
    method FileMerge(infile: seq<Line>) returns (outfile: seq<Line>)
      requires Valid() && AllKnown(Merged(contents, Readable(infile)))
      modifies this, nodes
      ensures Valid() && contents == Merged(old(contents), Readable(infile))
      ensures outfile == Written(contents)
    {
      ReadableStops(infile);
      ReadIn(infile, Readable(infile));
      outfile := WriteOut();
    }
  }
}
