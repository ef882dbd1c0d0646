/** Records of the coverage list, their order, and what the list operations do to a sorted sequence of them. */
module CoverageSpec {
  import opened Common

  /** `sourceFile` is null in the source until a file is known. */
  datatype Rec = Rec(name: string, argcount: int, count: int, sourceFile: Option<string>, firstLine: int, lastLine: int)

  datatype Key = Key(name: string, argcount: int)

  function KeyOf(r: Rec): Key { Key(r.name, r.argcount) }

  // ------------------------------------------------------------------- the order of keys

  /** The sign of `strcmp`. */
  function StrCmp(a: string, b: string): int {
    if a == [] then (if b == [] then 0 else -1)
    else if b == [] then 1
    else if a[0] < b[0] then -1
    else if a[0] > b[0] then 1
    else StrCmp(a[1..], b[1..])
  }

  lemma {:induction false} StrCmpZero(a: string, b: string)
    ensures StrCmp(a, b) == 0 <==> a == b
  {
    if a != [] && b != [] && a[0] == b[0] {
      StrCmpZero(a[1..], b[1..]);
      if a[1..] == b[1..] { assert a == [a[0]] + a[1..] == b; }
    }
  }

  lemma {:induction false} StrCmpFlip(a: string, b: string)
    ensures StrCmp(b, a) == -StrCmp(a, b)
  {
    if a != [] && b != [] { StrCmpFlip(a[1..], b[1..]); }
  }

  lemma {:induction false} StrCmpTransitive(a: string, b: string, c: string)
    requires StrCmp(a, b) < 0 && StrCmp(b, c) < 0
    ensures StrCmp(a, c) < 0
  {
    if a != [] && a[0] == b[0] == c[0] {
      StrCmpTransitive(a[1..], b[1..], c[1..]);
    }
  }

  /** Names first, then argument counts: the value of `cmp` in the search loop. */
  function Compare(j: Key, k: Key): int {
    var cmp := StrCmp(j.name, k.name);
    if cmp == 0 then j.argcount - k.argcount else cmp
  }

  predicate Less(j: Key, k: Key) { Compare(j, k) < 0 }

  lemma CompareFacts(j: Key, k: Key)
    ensures Compare(j, k) == 0 <==> j == k
    ensures Less(j, k) <==> Compare(k, j) > 0
  {
    StrCmpZero(j.name, k.name);
    StrCmpFlip(j.name, k.name);
  }

  lemma LessTransitive(i: Key, j: Key, k: Key)
    requires Less(i, j) && Less(j, k)
    ensures Less(i, k)
  {
    StrCmpZero(i.name, j.name);
    StrCmpZero(j.name, k.name);
    if i.name != j.name && j.name != k.name { StrCmpTransitive(i.name, j.name, k.name); }
  }

  predicate Sorted(l: seq<Rec>) {
    forall i, j :: 0 <= i < j < |l| ==> Less(KeyOf(l[i]), KeyOf(l[j]))
  }

  // ------------------------------------------------------------------- finding and inserting

  /** How many records come before a key. */
  function Place(l: seq<Rec>, k: Key): (n: nat)
    ensures n <= |l|
    ensures forall i :: 0 <= i < n ==> Less(KeyOf(l[i]), k)
    ensures n < |l| ==> !Less(KeyOf(l[n]), k)
  {
    if l == [] || !Less(KeyOf(l[0]), k) then 0 else 1 + Place(l[1..], k)
  }

  predicate Present(l: seq<Rec>, k: Key) {
    Place(l, k) < |l| && KeyOf(l[Place(l, k)]) == k
  }

  /** A record as `findOrInsert` creates it. */
  function Blank(k: Key): Rec {
    Rec(k.name, k.argcount, 0, None, -1, -1)
  }

  /** The list after a search: unchanged, or with a blank record at the key's place. */
  function WithKey(l: seq<Rec>, k: Key): (m: seq<Rec>)
  {
    var n := Place(l, k);
    if Present(l, k) then l else l[..n] + [Blank(k)] + l[n..]
  }

  /** The list with the record of a key replaced, after making sure there is one. */
  function Changed(l: seq<Rec>, k: Key, f: Rec -> Rec): seq<Rec> {
    var m := WithKey(l, k);
    var n := Place(l, k);
    if n < |m| then m[n := f(m[n])] else m
  }

  /** A place is fixed by what is before it and what is not. */
  lemma PlaceIs(l: seq<Rec>, k: Key, n: nat)
    requires n <= |l| && (forall i :: 0 <= i < n ==> Less(KeyOf(l[i]), k)) && (n < |l| ==> !Less(KeyOf(l[n]), k))
    ensures Place(l, k) == n
  {
  }

  /** In a sorted list a key is present exactly when some record has it, and then only one has. */
  lemma PresentIff(l: seq<Rec>, k: Key)
    requires Sorted(l)
    ensures Present(l, k) <==> exists i :: 0 <= i < |l| && KeyOf(l[i]) == k
    ensures forall i :: 0 <= i < |l| && KeyOf(l[i]) == k ==> i == Place(l, k)
  {
    forall i | 0 <= i < |l| && KeyOf(l[i]) == k
      ensures i == Place(l, k)
    {
      CompareFacts(k, k);
      forall j | 0 <= j < i
        ensures Less(KeyOf(l[j]), k)
      {
        assert Less(KeyOf(l[j]), KeyOf(l[i]));
      }
      PlaceIs(l, k, i);
    }
  }

  /** After a search the list is sorted, has the key, and keeps every record that was there. */
  lemma WithKeySorted(l: seq<Rec>, k: Key)
    requires Sorted(l)
    ensures Sorted(WithKey(l, k)) && Present(WithKey(l, k), k) && Place(WithKey(l, k), k) == Place(l, k)
  {
    var n, m := Place(l, k), WithKey(l, k);
    CompareFacts(k, k);
    if !Present(l, k) {
      forall i | n <= i < |l|
        ensures Less(k, KeyOf(l[i]))
      {
        CompareFacts(k, KeyOf(l[n]));
        CompareFacts(KeyOf(l[n]), k);
        if i > n { LessTransitive(k, KeyOf(l[n]), KeyOf(l[i])); }
      }
      assert m[n] == Blank(k);
      PlaceIs(m, k, n);
    }
  }

  lemma ChangedSorted(l: seq<Rec>, k: Key, f: Rec -> Rec)
    requires Sorted(l) && forall r :: KeyOf(f(r)) == KeyOf(r)
    ensures Sorted(Changed(l, k, f))
  {
    WithKeySorted(l, k);
  }

  /** What a list says about a key. */
  function Find(l: seq<Rec>, k: Key): Option<Rec> {
    if Present(l, k) then Some(l[Place(l, k)]) else None
  }

  lemma FindUnique(l: seq<Rec>, k: Key, i: nat)
    requires Sorted(l) && i < |l| && KeyOf(l[i]) == k
    ensures Find(l, k) == Some(l[i])
  {
    PresentIff(l, k);
  }

  lemma FindChanged(l: seq<Rec>, k: Key, f: Rec -> Rec)
    requires Sorted(l) && forall r :: KeyOf(f(r)) == KeyOf(r)
    ensures Find(Changed(l, k, f), k) == Some(f(if Find(l, k).Some? then Find(l, k).value else Blank(k)))
  {
    WithKeySorted(l, k);
    ChangedSorted(l, k, f);
    FindUnique(Changed(l, k, f), k, Place(l, k));
  }

  /** The records with other keys are those that were there, behind a new one moved by one. */
  predicate OthersStay(l: seq<Rec>, c: seq<Rec>, n: nat, moved: nat, k: Key) {
    && moved <= 1 && |c| == |l| + moved && n < |c| && KeyOf(c[n]) == k && (moved == 0 ==> KeyOf(l[n]) == k)
    && (forall i :: 0 <= i < n ==> c[i] == l[i])
    && (forall i :: n < i < |c| ==> c[i] == l[i - moved])
  }

  lemma ChangedStays(l: seq<Rec>, k: Key, f: Rec -> Rec)
    requires forall r :: KeyOf(f(r)) == KeyOf(r)
    ensures OthersStay(l, Changed(l, k, f), Place(l, k), if Present(l, k) then 0 else 1, k)
  {
    var n, m, c := Place(l, k), WithKey(l, k), Changed(l, k, f);
    assert c == m[n := f(m[n])];
    if !Present(l, k) {
      assert m[n] == Blank(k);
      assert forall i :: n < i < |m| ==> m[i] == l[i - 1];
    }
  }

  lemma FindNone(l: seq<Rec>, k: Key)
    requires forall i :: 0 <= i < |l| ==> KeyOf(l[i]) != k
    ensures Find(l, k) == None
  {
  }

  lemma SameOthers(l: seq<Rec>, c: seq<Rec>, n: nat, moved: nat, k: Key, j: Key)
    requires Sorted(l) && Sorted(c) && OthersStay(l, c, n, moved, k) && j != k
    ensures Find(c, j) == Find(l, j)
  {
    if i :| 0 <= i < |l| && KeyOf(l[i]) == j {
      var i' := if i < n then i else i + moved;
      assert c[i'] == l[i];
      FindUnique(l, j, i);
      FindUnique(c, j, i');
    } else {
      forall i | 0 <= i < |c|
        ensures KeyOf(c[i]) != j
      {
        assert i == n || c[i] == l[if i < n then i else i - moved];
      }
      FindNone(l, j);
      FindNone(c, j);
    }
  }

  lemma FindOther(l: seq<Rec>, k: Key, f: Rec -> Rec, j: Key)
    requires Sorted(l) && j != k && forall r :: KeyOf(f(r)) == KeyOf(r)
    ensures Find(Changed(l, k, f), j) == Find(l, j)
  {
    ChangedSorted(l, k, f);
    ChangedStays(l, k, f);
    SameOthers(l, Changed(l, k, f), Place(l, k), if Present(l, k) then 0 else 1, k, j);
  }

  /** Changing one record, new or old, leaves what the list says about every other key. */
  lemma FindAfterChange(l: seq<Rec>, k: Key, f: Rec -> Rec, j: Key)
    requires Sorted(l) && forall r :: KeyOf(f(r)) == KeyOf(r)
    ensures Find(Changed(l, k, f), j) ==
            if j == k then Some(f(if Find(l, k).Some? then Find(l, k).value else Blank(k))) else Find(l, j)
  {
    if j == k { FindChanged(l, k, f); } else { FindOther(l, k, f, j); }
  }

  // ------------------------------------------------------------------- Add, AddEnd and merging

  function AddTo(file: string, line: int): Rec -> Rec {
    (r: Rec) =>
      if r.sourceFile.None? then r.(count := r.count + 1, sourceFile := Some(file), firstLine := line)
      else r.(count := r.count + 1)
  }

  function EndAt(line: int): Rec -> Rec {
    (r: Rec) => if r.lastLine < 0 then r.(lastLine := line) else r
  }

  /** One line of a coverage file. */
  datatype Line = Line(name: string, argcount: int, count: int, sourceFile: string, firstLine: int, lastLine: int)

  function LineKey(fp: Line): Key { Key(fp.name, fp.argcount) }

  function MergeLine(fp: Line): Rec -> Rec {
    (r: Rec) =>
      if r.sourceFile.None?
      then r.(sourceFile := Some(fp.sourceFile), firstLine := fp.firstLine, lastLine := fp.lastLine, count := r.count + fp.count)
      else r.(count := r.count + fp.count)
  }

  /** The list after merging the lines of a file, in their order. */
  function Merged(l: seq<Rec>, file: seq<Line>): seq<Rec> {
    if file == [] then l
    else
      var fp := file[|file| - 1];
      Changed(Merged(l, file[..|file| - 1]), LineKey(fp), MergeLine(fp))
  }

  /** A count of -1 is the marker for the end of input, so reading stops at such a line. */
  function Readable(file: seq<Line>): (r: seq<Line>)
    ensures r <= file
  {
    if file == [] || file[0].count == -1 then [] else [file[0]] + Readable(file[1..])
  }

  function LineOf(r: Rec): Line
    requires r.sourceFile.Some?
  {
    Line(r.name, r.argcount, r.count, r.sourceFile.value, r.firstLine, r.lastLine)
  }

  predicate AllKnown(l: seq<Rec>) {
    forall i :: 0 <= i < |l| ==> l[i].sourceFile.Some?
  }

  /** The file written from a list. */
  function Written(l: seq<Rec>): (file: seq<Line>)
    requires AllKnown(l)
    ensures |file| == |l| && forall i :: 0 <= i < |l| ==> file[i] == LineOf(l[i])
  {
    seq(|l|, i requires 0 <= i < |l| => LineOf(l[i]))
  }

  // ------------------------------------------------------------------- what merging achieves

  function CountOf(l: seq<Rec>, k: Key): int {
    if Find(l, k).Some? then Find(l, k).value.count else 0
  }

  function FileCount(file: seq<Line>, k: Key): int {
    if file == [] then 0
    else FileCount(file[..|file| - 1], k) + if LineKey(file[|file| - 1]) == k then file[|file| - 1].count else 0
  }

  lemma {:induction false} MergedSorted(l: seq<Rec>, file: seq<Line>)
    requires Sorted(l)
    ensures Sorted(Merged(l, file))
    decreases |file|
  {
    if file != [] {
      var front, fp := file[..|file| - 1], file[|file| - 1];
      MergedSorted(l, front);
      ChangedSorted(Merged(l, front), LineKey(fp), MergeLine(fp));
    }
  }

  /** What merging one more line does to the record of a key. */
  lemma OneMoreLine(l: seq<Rec>, front: seq<Line>, fp: Line, k: Key)
    requires Sorted(l)
    ensures Find(Merged(l, front + [fp]), k) ==
      if LineKey(fp) == k then Some(MergeLine(fp)(if Find(Merged(l, front), k).Some? then Find(Merged(l, front), k).value else Blank(k)))
      else Find(Merged(l, front), k)
  {
    assert (front + [fp])[..|front|] == front;
    MergedSorted(l, front);
    FindAfterChange(Merged(l, front), LineKey(fp), MergeLine(fp), k);
  }

  lemma PresentIsFound(l: seq<Rec>, k: Key)
    ensures Present(l, k) <==> Find(l, k).Some?
  {
  }

  /** Merging keeps the list sorted, and adds up the counts of every key; no other key appears. */
  lemma {:induction false} MergeAddsCounts(l: seq<Rec>, file: seq<Line>, k: Key)
    requires Sorted(l)
    ensures Sorted(Merged(l, file))
    ensures CountOf(Merged(l, file), k) == CountOf(l, k) + FileCount(file, k)
    ensures Present(Merged(l, file), k) <==> Present(l, k) || exists i :: 0 <= i < |file| && LineKey(file[i]) == k
    decreases |file|
  {
    MergedSorted(l, file);
    if file != [] {
      var front, fp := file[..|file| - 1], file[|file| - 1];
      assert file == front + [fp];
      MergeAddsCounts(l, front, k);
      OneMoreLine(l, front, fp, k);
      PresentIsFound(Merged(l, front), k);
      PresentIsFound(Merged(l, file), k);
      assert (exists i :: 0 <= i < |file| && LineKey(file[i]) == k)
        <==> (exists i :: 0 <= i < |front| && LineKey(front[i]) == k) || LineKey(fp) == k by { KeysSnoc(front, fp, k); }
    }
  }

  lemma KeysSnoc(front: seq<Line>, fp: Line, k: Key)
    ensures (exists i :: 0 <= i < |front + [fp]| && LineKey((front + [fp])[i]) == k)
       <==> (exists i :: 0 <= i < |front| && LineKey(front[i]) == k) || LineKey(fp) == k
  {
    var file := front + [fp];
    if i :| 0 <= i < |file| && LineKey(file[i]) == k {
      if i < |front| { assert front[i] == file[i]; }
    }
    if i :| 0 <= i < |front| && LineKey(front[i]) == k { assert file[i] == front[i]; }
    if LineKey(fp) == k { assert file[|front|] == fp; }
  }

  /** Merging the line of a record that comes after all others puts that record at the end. */
  lemma MergeLast(front: seq<Rec>, r: Rec)
    requires Sorted(front + [r]) && r.sourceFile.Some?
    ensures Changed(front, KeyOf(r), MergeLine(LineOf(r))) == front + [r]
  {
    var k, n := KeyOf(r), |front|;
    forall i | 0 <= i < n
      ensures Less(KeyOf(front[i]), k)
    {
      assert (front + [r])[i] == front[i] && (front + [r])[n] == r;
    }
    PlaceIs(front, k, n);
    assert WithKey(front, k) == front + [Blank(k)];
    assert MergeLine(LineOf(r))(Blank(k)) == r;
  }

  lemma {:induction false} WrittenRestores(l: seq<Rec>)
    requires Sorted(l) && AllKnown(l)
    ensures Merged([], Written(l)) == l
    decreases |l|
  {
    if l != [] {
      var n := |l| - 1;
      WrittenRestores(l[..n]);
      assert Written(l)[..n] == Written(l[..n]);
      assert l == l[..n] + [l[n]];
      MergeLast(l[..n], l[n]);
    }
  }

  lemma {:induction false} ReadableIff(file: seq<Line>)
    ensures Readable(file) == file <==> forall i :: 0 <= i < |file| ==> file[i].count != -1
  {
    if file != [] {
      ReadableIff(file[1..]);
      assert forall i :: 0 < i < |file| ==> file[i] == file[1..][i - 1];
      if Readable(file) == file { assert file[0].count != -1 && Readable(file)[1..] == Readable(file[1..]); }
      if file[0].count != -1 && Readable(file[1..]) == file[1..] { assert [file[0]] + file[1..] == file; }
    }
  }

  /** Everything before the first marker is readable, and nothing after it. */
  lemma {:induction false} ReadableStops(file: seq<Line>)
    ensures forall i :: 0 <= i < |Readable(file)| ==> file[i].count != -1
    ensures |Readable(file)| < |file| ==> file[|Readable(file)|].count == -1
  {
    if file != [] && file[0].count != -1 {
      ReadableStops(file[1..]);
      assert forall i :: 0 < i < |Readable(file)| ==> file[i] == file[1..][i - 1];
    }
  }

  lemma {:induction false} MergedLength(l: seq<Rec>, file: seq<Line>)
    ensures |Merged(l, file)| <= |l| + |file|
    decreases |file|
  {
    if file != [] { MergedLength(l, file[..|file| - 1]); }
  }

  /**
   Reading a written file into an empty list reproduces the list exactly when no count of it
   is the end-of-input marker.
   */
  lemma ReloadIff(l: seq<Rec>)
    requires Sorted(l) && AllKnown(l)
    ensures Merged([], Readable(Written(l))) == l <==> forall i :: 0 <= i < |l| ==> l[i].count != -1
  {
    WrittenRestores(l);
    ReadableIff(Written(l));
    MergedLength([], Readable(Written(l)));
    assert forall i :: 0 <= i < |l| ==> Written(l)[i].count == l[i].count;
    if Readable(Written(l)) != Written(l) {
      assert |Readable(Written(l))| < |l|;
    }
  }
}
