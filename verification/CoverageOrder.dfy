/** What the order in which coverage files are merged matters for: only where a key is said to come from. */
module CoverageOrder {
  import opened Common
  import opened CoverageSpec

  /** The list after merging any number of files one after the other. */
  function MergedFiles(l: seq<Rec>, files: seq<seq<Line>>): seq<Rec>
    decreases |files|
  {
    if files == [] then l else Merged(MergedFiles(l, files[..|files| - 1]), Readable(files[|files| - 1]))
  }

  /** All lines that are read, in order. */
  function AllLines(files: seq<seq<Line>>): seq<Line> {
    if files == [] then [] else AllLines(files[..|files| - 1]) + Readable(files[|files| - 1])
  }

  lemma {:induction false} MergedAppend(l: seq<Rec>, a: seq<Line>, b: seq<Line>)
    ensures Merged(l, a + b) == Merged(Merged(l, a), b)
    decreases |b|
  {
    if b == [] {
      assert a + b == a;
    } else {
      assert (a + b)[..|a + b| - 1] == a + b[..|b| - 1];
      MergedAppend(l, a, b[..|b| - 1]);
    }
  }

  lemma {:induction false} FilesAreLines(l: seq<Rec>, files: seq<seq<Line>>)
    ensures MergedFiles(l, files) == Merged(l, AllLines(files))
    decreases |files|
  {
    if files != [] {
      FilesAreLines(l, files[..|files| - 1]);
      MergedAppend(l, AllLines(files[..|files| - 1]), Readable(files[|files| - 1]));
    }
  }

  // ------------------------------------------------------------------- rearranging

  lemma Cut<T>(a: seq<T>, b: seq<T>) returns (x: seq<T>, y: seq<T>)
    requires a != [] && multiset(a) == multiset(b)
    ensures b == x + [a[|a| - 1]] + y && multiset(a[..|a| - 1]) == multiset(x + y)
  {
    var n := |a| - 1;
    assert a == a[..n] + [a[n]];
    assert a[n] in multiset(b);
    var j :| 0 <= j < |b| && b[j] == a[n];
    x, y := b[..j], b[j + 1..];
    assert b == x + [b[j]] + y;
    Without(x, b[j], y);
    Without(a[..n], a[n], []);
    assert a[..n] + [a[n]] + [] == a && a[..n] + [] == a[..n];
    assert multiset(a[..n]) == multiset(a) - multiset{a[n]} == multiset(x + y);
  }

  lemma Without<T>(x: seq<T>, e: T, y: seq<T>)
    ensures multiset(x + [e] + y) == multiset(x + y) + multiset{e}
    ensures multiset(x + [e] + y) - multiset{e} == multiset(x + y)
  {
  }

  lemma {:induction false} LinesAppend(a: seq<seq<Line>>, b: seq<seq<Line>>)
    ensures AllLines(a + b) == AllLines(a) + AllLines(b)
    decreases |b|
  {
    if b == [] {
      assert a + b == a;
    } else {
      var front, f := b[..|b| - 1], Readable(b[|b| - 1]);
      assert (a + b)[..|a + b| - 1] == a + front;
      assert AllLines(a + b) == AllLines(a + front) + f;
      LinesAppend(a, front);
      AppendAssociates(AllLines(a), AllLines(front), f);
    }
  }

  lemma LinesOfOne(x: seq<seq<Line>>, f: seq<Line>, y: seq<seq<Line>>)
    ensures multiset(AllLines(x + [f] + y)) == multiset(AllLines(x + y)) + multiset(Readable(f))
  {
    LinesAppend(x + [f], y);
    LinesAppend(x, [f]);
    LinesAppend(x, y);
    assert AllLines([f]) == Readable(f);
  }

  lemma {:induction false} RearrangedLines(files: seq<seq<Line>>, files': seq<seq<Line>>)
    requires multiset(files) == multiset(files')
    ensures multiset(AllLines(files)) == multiset(AllLines(files'))
    decreases |files|
  {
    if files != [] {
      var x, y := Cut(files, files');
      RearrangedLines(files[..|files| - 1], x + y);
      LinesOfOne(x, files[|files| - 1], y);
    } else {
      assert |multiset(files')| == 0;
    }
  }

  lemma {:induction false} CountOfOne(x: seq<Line>, fp: Line, y: seq<Line>, k: Key)
    ensures FileCount(x + [fp] + y, k) == FileCount(x + y, k) + if LineKey(fp) == k then fp.count else 0
    decreases |y|
  {
    if y == [] {
      assert x + [fp] + y == x + [fp] && x + y == x && (x + [fp])[..|x|] == x;
    } else {
      var n := |y| - 1;
      assert (x + [fp] + y)[..|x| + 1 + n] == x + [fp] + y[..n] && (x + y)[..|x| + n] == x + y[..n];
      CountOfOne(x, fp, y[..n], k);
    }
  }

  lemma {:induction false} RearrangedCount(a: seq<Line>, b: seq<Line>, k: Key)
    requires multiset(a) == multiset(b)
    ensures FileCount(a, k) == FileCount(b, k)
    decreases |a|
  {
    if a != [] {
      var x, y := Cut(a, b);
      RearrangedCount(a[..|a| - 1], x + y, k);
      CountOfOne(x, a[|a| - 1], y, k);
    } else {
      assert |multiset(b)| == 0;
    }
  }

  ghost predicate HasKey(file: seq<Line>, k: Key) {
    exists i :: 0 <= i < |file| && LineKey(file[i]) == k
  }

  lemma RearrangedHasKey(a: seq<Line>, b: seq<Line>, k: Key)
    requires multiset(a) == multiset(b) && HasKey(a, k)
    ensures HasKey(b, k)
  {
    var i :| 0 <= i < |a| && LineKey(a[i]) == k;
    assert a[i] in multiset(a) && a[i] in multiset(b);
  }

  /** In whatever order any number of files is merged, every key has the same count and the same keys are there. */
  lemma MergeOrderIrrelevant(l: seq<Rec>, files: seq<seq<Line>>, files': seq<seq<Line>>, k: Key)
    requires Sorted(l) && multiset(files) == multiset(files')
    ensures CountOf(MergedFiles(l, files), k) == CountOf(MergedFiles(l, files'), k)
    ensures Present(MergedFiles(l, files), k) <==> Present(MergedFiles(l, files'), k)
  {
    var a, b := AllLines(files), AllLines(files');
    FilesAreLines(l, files);
    FilesAreLines(l, files');
    RearrangedLines(files, files');
    RearrangedCount(a, b, k);
    MergeAddsCounts(l, a, k);
    MergeAddsCounts(l, b, k);
    if HasKey(a, k) { RearrangedHasKey(a, b, k); }
    if HasKey(b, k) { RearrangedHasKey(b, a, k); }
  }

  // ------------------------------------------------------------------- where a key comes from

  datatype Origin = Origin(file: string, firstLine: int, lastLine: int)

  function OriginOf(l: seq<Rec>, k: Key): Option<Origin> {
    var r := Find(l, k);
    if r.Some? && r.value.sourceFile.Some? then Some(Origin(r.value.sourceFile.value, r.value.firstLine, r.value.lastLine)) else None
  }

  /** What the first line with a key says. */
  function FirstOrigin(file: seq<Line>, k: Key): Option<Origin> {
    if file == [] then None
    else
      var before, fp := FirstOrigin(file[..|file| - 1], k), file[|file| - 1];
      if before.Some? then before
      else if LineKey(fp) == k then Some(Origin(fp.sourceFile, fp.firstLine, fp.lastLine)) else None
  }

  lemma {:induction false} FirstOriginIff(file: seq<Line>, k: Key)
    ensures FirstOrigin(file, k).Some? <==> HasKey(file, k)
    decreases |file|
  {
    if file != [] {
      var n := |file| - 1;
      FirstOriginIff(file[..n], k);
      if i :| 0 <= i < |file| && LineKey(file[i]) == k {
        if i < n { assert file[..n][i] == file[i]; }
      }
      if i :| 0 <= i < n && LineKey(file[..n][i]) == k { assert file[i] == file[..n][i]; }
    }
  }

  /** The source file and lines of a key stay what they were, or are those of the first line that has it. */
  lemma {:induction false} OriginAfterMerge(l: seq<Rec>, file: seq<Line>, k: Key)
    requires Sorted(l)
    ensures OriginOf(Merged(l, file), k) == if OriginOf(l, k).Some? then OriginOf(l, k) else FirstOrigin(file, k)
    ensures FirstOrigin(file, k).None? ==> Find(Merged(l, file), k) == Find(l, k)
    decreases |file|
  {
    if file != [] {
      var front, fp := file[..|file| - 1], file[|file| - 1];
      assert file == front + [fp];
      OriginAfterMerge(l, front, k);
      OneMoreLine(l, front, fp, k);
    }
  }

  // ------------------------------------------------------------------- lists are what they say of keys

  lemma FindInRest(l: seq<Rec>, k: Key)
    requires Sorted(l) && l != []
    ensures Sorted(l[1..]) && Find(l[1..], k) == if k == KeyOf(l[0]) then None else Find(l, k)
  {
    PresentIff(l, k);
    PresentIff(l[1..], k);
    if Present(l[1..], k) { FindUnique(l, k, Place(l[1..], k) + 1); }
    if Present(l, k) && k != KeyOf(l[0]) {
      assert l[1..][Place(l, k) - 1] == l[Place(l, k)];
      FindUnique(l[1..], k, Place(l, k) - 1);
    }
  }

  lemma FirstIsLeast(l: seq<Rec>, m: seq<Rec>)
    requires Sorted(l) && Sorted(m) && l != [] && m != [] && forall k :: Find(l, k) == Find(m, k)
    ensures l[0] == m[0]
  {
    var a, b := KeyOf(l[0]), KeyOf(m[0]);
    FindUnique(l, a, 0);
    FindUnique(m, b, 0);
    var i, j := Place(m, a), Place(l, b);
    assert KeyOf(m[i]) == a && KeyOf(l[j]) == b;
    CompareFacts(a, b);
  }

  lemma {:induction false} SameFindsSameList(l: seq<Rec>, m: seq<Rec>)
    requires Sorted(l) && Sorted(m) && forall k :: Find(l, k) == Find(m, k)
    ensures l == m
    decreases |l|
  {
    if l == [] {
      if m != [] { FindUnique(m, KeyOf(m[0]), 0); }
    } else {
      FindUnique(l, KeyOf(l[0]), 0);
      FirstIsLeast(l, m);
      forall k
        ensures Find(l[1..], k) == Find(m[1..], k)
      {
        FindInRest(l, k);
        FindInRest(m, k);
      }
      FindInRest(l, KeyOf(l[0]));
      FindInRest(m, KeyOf(l[0]));
      SameFindsSameList(l[1..], m[1..]);
      assert l == [l[0]] + l[1..] && m == [m[0]] + m[1..];
    }
  }

  /** A record found is known by its count and origin, when it has one. */
  lemma FoundIs(l: seq<Rec>, m: seq<Rec>, k: Key)
    requires CountOf(l, k) == CountOf(m, k) && OriginOf(l, k).Some? && OriginOf(l, k) == OriginOf(m, k)
    ensures Find(l, k) == Find(m, k)
  {
  }

  /** The first line of every key that had no origin is the same in both orders. */
  ghost predicate SameFirstOrigins(l: seq<Rec>, files: seq<seq<Line>>, files': seq<seq<Line>>) {
    forall k :: OriginOf(l, k).None? ==> FirstOrigin(AllLines(files), k) == FirstOrigin(AllLines(files'), k)
  }

  /** Two orders of the same files give the same list exactly when every key has its first line from the same place. */
  lemma SameListIff(l: seq<Rec>, files: seq<seq<Line>>, files': seq<seq<Line>>)
    requires Sorted(l) && multiset(files) == multiset(files')
    ensures MergedFiles(l, files) == MergedFiles(l, files') <==> SameFirstOrigins(l, files, files')
  {
    var a, b := AllLines(files), AllLines(files');
    var r, r' := MergedFiles(l, files), MergedFiles(l, files');
    FilesAreLines(l, files);
    FilesAreLines(l, files');
    forall k
      ensures OriginOf(r, k) == (if OriginOf(l, k).Some? then OriginOf(l, k) else FirstOrigin(a, k))
      ensures OriginOf(r', k) == (if OriginOf(l, k).Some? then OriginOf(l, k) else FirstOrigin(b, k))
    {
      OriginAfterMerge(l, a, k);
      OriginAfterMerge(l, b, k);
    }
    if SameFirstOrigins(l, files, files') {
      forall k
        ensures Find(r, k) == Find(r', k)
      {
        SameFound(l, files, files', k);
      }
      MergeAddsCounts(l, a, Key([], 0));
      MergeAddsCounts(l, b, Key([], 0));
      SameFindsSameList(r, r');
    }
  }

  lemma SameFound(l: seq<Rec>, files: seq<seq<Line>>, files': seq<seq<Line>>, k: Key)
    requires Sorted(l) && multiset(files) == multiset(files')
    requires OriginOf(l, k).None? ==> FirstOrigin(AllLines(files), k) == FirstOrigin(AllLines(files'), k)
    ensures Find(MergedFiles(l, files), k) == Find(MergedFiles(l, files'), k)
  {
    var a, b := AllLines(files), AllLines(files');
    FilesAreLines(l, files);
    FilesAreLines(l, files');
    OriginAfterMerge(l, a, k);
    OriginAfterMerge(l, b, k);
    MergeOrderIrrelevant(l, files, files', k);
    if OriginOf(Merged(l, a), k).Some? { FoundIs(Merged(l, a), Merged(l, b), k); }
  }

  // ------------------------------------------------------------------- the order of keys

  /** Names are equal up to some place, where the first ends, or has a smaller character. */
  predicate BeforeAt(a: string, b: string, n: nat) {
    n <= |a| && n < |b| && a[..n] == b[..n] && (n < |a| ==> a[n] < b[n])
  }

  lemma SameFirst(a: string, b: string, n: nat)
    requires BeforeAt(a, b, n)
    ensures n > 0 ==> a[0] == b[0]
  {
    if n > 0 { assert a[..n][0] == b[..n][0]; }
  }

  /** Which is the order of a dictionary. */
  lemma {:induction false} StrCmpIff(a: string, b: string)
    ensures StrCmp(a, b) < 0 <==> exists n: nat :: BeforeAt(a, b, n)
  {
    if a == [] || b == [] || a[0] != b[0] {
      if StrCmp(a, b) < 0 { assert BeforeAt(a, b, 0); }
      if n: nat :| BeforeAt(a, b, n) { SameFirst(a, b, n); }
    } else {
      StrCmpIff(a[1..], b[1..]);
      if n: nat :| BeforeAt(a[1..], b[1..], n) {
        assert a[..n + 1] == [a[0]] + a[1..][..n] && b[..n + 1] == [b[0]] + b[1..][..n];
        assert BeforeAt(a, b, n + 1);
      }
      if n: nat :| BeforeAt(a, b, n) {
        assert n > 0;
        assert a[..n][1..] == a[1..][..n - 1] && b[..n][1..] == b[1..][..n - 1];
        assert BeforeAt(a[1..], b[1..], n - 1);
      }
    }
  }

  /** A key comes first when its name does, or has fewer arguments when the names are the same. */
  lemma LessIff(j: Key, k: Key)
    ensures Less(j, k) <==> (exists n: nat :: BeforeAt(j.name, k.name, n)) || (j.name == k.name && j.argcount < k.argcount)
  {
    StrCmpZero(j.name, k.name);
    StrCmpIff(j.name, k.name);
  }
}
