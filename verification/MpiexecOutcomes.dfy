/** Which of the three outcomes a command line has: parsed, failed, or the list of options and a normal exit. */
module MpiexecOutcomes {
  import opened Common
  import opened MpiexecSpec
  import opened MpiexecOptions

  // ------------------------------------------------------------------- one block

  predicate CallsForHelp(o: Given) {
    o.name == "help" || (o.name != [] && o.name[0] == '?')
  }

  /** An option that is fine by itself and ruled out neither by the settings nor by one before it. */
  predicate Good(s: Settings, os: seq<Given>, i: nat)
    requires i < |os|
  {
    FineAlone(os[i]) && !Ruled(s, os[i]) && forall j :: 0 <= j < i ==> !Clash(os[j], os[i])
  }

  predicate FirstBad(s: Settings, os: seq<Given>, i: nat) {
    i < |os| && !Good(s, os, i) && forall j :: 0 <= j < i ==> Good(s, os, j)
  }

  lemma GoodCons(s: Settings, o: Given, os: seq<Given>, i: nat)
    requires FineAlone(o) && !Ruled(s, o) && i < |os|
    ensures Good(s, [o] + os, i + 1) <==> Good(SetBy(s, o), os, i)
  {
    var all, p := [o] + os, os[i];
    assert all[i + 1] == p && all[0] == o;
    assert Ruled(SetBy(s, o), p) <==> Ruled(s, p) || Clash(o, p);
    if Good(s, all, i + 1) {
      forall j | 0 <= j < i
        ensures !Clash(os[j], p)
      {
        assert all[j + 1] == os[j];
      }
    }
    if Good(SetBy(s, o), os, i) {
      forall j | 0 <= j < i + 1
        ensures !Clash(all[j], p)
      {
        if j > 0 { assert all[j] == os[j - 1]; }
      }
    }
  }

  lemma FirstBadCons(s: Settings, o: Given, os: seq<Given>, i: nat)
    requires FineAlone(o) && !Ruled(s, o) && FirstBad(s, [o] + os, i + 1)
    ensures FirstBad(SetBy(s, o), os, i)
  {
    assert ([o] + os)[i + 1] == os[i];
    GoodCons(s, o, os, i);
    forall j | 0 <= j < i
      ensures Good(SetBy(s, o), os, j)
    {
      GoodCons(s, o, os, j);
      assert Good(s, [o] + os, j + 1);
    }
  }

  /** The first option that is not good ends the scan, and decides how. */
  lemma {:induction false} FirstBadDecides(s: Settings, args: seq<string>, i: nat)
    requires FirstBad(s, AllGiven(args).0, i)
    ensures Options(s, args) == if CallsForHelp(AllGiven(args).0[i]) then ScanHelp else ScanFailed
    decreases i
  {
    var o := FirstGiven(args);
    var (os, rest) := AllGiven(args[Width(o)..]);
    FirstStep(s, args);
    assert AllGiven(args).0 == [o] + os;
    if i > 0 {
      assert Good(s, [o] + os, 0);
      FirstBadCons(s, o, os, i - 1);
      FirstBadDecides(SetBy(s, o), args[Width(o)..], i - 1);
    } else {
      HowItEnds(s, args);
    }
  }

  lemma HowItEnds(s: Settings, args: seq<string>)
    requires args != [] && IsOption(args[0])
    ensures OneOption(s, args).AskHelp? <==> CallsForHelp(FirstGiven(args))
    ensures CallsForHelp(FirstGiven(args)) ==> !FineAlone(FirstGiven(args))
  {
  }

  lemma {:induction false} SomeFirstBad(s: Settings, os: seq<Given>, n: nat) returns (i: nat)
    requires n <= |os| && exists k :: 0 <= k < n && !Good(s, os, k)
    ensures FirstBad(s, os, i)
  {
    if forall k :: 0 <= k < n - 1 ==> Good(s, os, k) {
      i := n - 1;
    } else {
      i := SomeFirstBad(s, os, n - 1);
    }
  }

  ghost predicate AllGood(s: Settings, os: seq<Given>) {
    forall i :: 0 <= i < |os| ==> Good(s, os, i)
  }

  lemma AcceptedIsGood(s: Settings, os: seq<Given>)
    ensures Accepted(s, os) <==> AllGood(s, os)
  {
    if AllGood(s, os) {
      forall i, j | 0 <= i < j < |os|
        ensures !Clash(os[i], os[j])
      {
        assert Good(s, os, j);
      }
      forall i | 0 <= i < |os|
        ensures FineAlone(os[i]) && !Ruled(s, os[i])
      {
        assert Good(s, os, i);
      }
    }
  }

  /** The options of a block are all good, one is a count, and an executable follows. */
  ghost predicate IsCommand(args: seq<string>) {
    var (os, rest) := AllGiven(args);
    AllGood(NO_SETTINGS, os) && HasCount(os) && rest != []
  }

  /** The first option that is not good calls for help. */
  ghost predicate IsHelp(args: seq<string>) {
    var os := AllGiven(args).0;
    exists i: nat :: FirstBad(NO_SETTINGS, os, i) && CallsForHelp(os[i])
  }

  /** A block is parsed, asks for help or fails by these alone. */
  lemma BlockOutcome(args: seq<string>)
    ensures ParseBlock(args).Parsed? <==> IsCommand(args)
    ensures ParseBlock(args) == Help <==> IsHelp(args)
    ensures ParseBlock(args) == Failed <==> !IsCommand(args) && !IsHelp(args)
  {
    var s := NO_SETTINGS;
    var (os, rest) := AllGiven(args);
    BlockParsesIff(args);
    AcceptedIsGood(s, os);
    assert NotRuled(s, os);
    OptionsIff(s, args);
    if !AllGood(s, os) {
      var i := SomeFirstBad(s, os, |os|);
      FirstBadDecides(s, args, i);
    }
    if IsHelp(args) {
      var i: nat :| FirstBad(s, os, i) && CallsForHelp(os[i]);
      FirstBadDecides(s, args, i);
    }
  }

  // ------------------------------------------------------------------- whole command lines

  /** The lists of words a command line stands for, one for a block or a line of its file; `None` is what cannot be read. */
  function LaterTexts(lines: seq<seq<string>>): seq<Option<seq<string>>> {
    if lines == [] then []
    else [if AsksForFile(TrimFirst(lines[0])) then None else Some(TrimFirst(lines[0]))] + LaterTexts(lines[1..])
  }

  /** No file is named, there is none of that name, or there is nothing in it. */
  predicate NoFile(files: Files, args: seq<string>) {
    |args| < 2 || args[1] !in files || NonBlank(files[args[1]]) == []
  }

  function EntryTexts(files: Files, block: seq<string>): seq<Option<seq<string>>> {
    var args := TrimFirst(block);
    if !AsksForFile(args) then [Some(args)]
    else if NoFile(files, args) then [None]
    else var lines := NonBlank(files[args[1]]); [Some(lines[0])] + LaterTexts(lines[1..])
  }

  function AllTexts(files: Files, blocks: seq<seq<string>>): seq<Option<seq<string>>> {
    if blocks == [] then [] else EntryTexts(files, blocks[0]) + AllTexts(files, blocks[1..])
  }

  ghost predicate TextParses(t: Option<seq<string>>) {
    t.Some? && IsCommand(t.value)
  }

  /** The first list of words that is not parsed. */
  ghost predicate FirstNotParsed(ts: seq<Option<seq<string>>>, n: nat) {
    n < |ts| && !TextParses(ts[n]) && forall m :: 0 <= m < n ==> TextParses(ts[m])
  }

  /** What it makes of a command line, if there is one. */
  ghost predicate Ends(ts: seq<Option<seq<string>>>, r: Outcome) {
    && (r.Parsed? <==> forall n :: 0 <= n < |ts| ==> TextParses(ts[n]))
    && (r == Help <==> exists n: nat :: FirstNotParsed(ts, n) && ts[n].Some? && IsHelp(ts[n].value))
  }

  lemma OneText(t: Option<seq<string>>)
    ensures Ends([t], if t.Some? then ParseBlock(t.value) else Failed)
  {
    if t.Some? { BlockOutcome(t.value); }
    assert [t][0] == t;
    assert FirstNotParsed([t], 0) <==> !TextParses(t);
  }

  lemma NoText()
    ensures Ends([], Parsed([]))
  {
  }

  lemma AfterParsed(a: seq<Option<seq<string>>>, b: seq<Option<seq<string>>>, n: nat)
    requires forall m :: 0 <= m < |a| ==> TextParses(a[m])
    ensures FirstNotParsed(b, n) <==> FirstNotParsed(a + b, |a| + n)
  {
    var all := a + b;
    assert forall m :: 0 <= m < |b| ==> all[|a| + m] == b[m];
    assert forall m :: 0 <= m < |a| ==> all[m] == a[m];
    if FirstNotParsed(all, |a| + n) {
      forall m | 0 <= m < n
        ensures TextParses(b[m])
      {
        assert TextParses(all[|a| + m]);
      }
    }
    if FirstNotParsed(b, n) {
      forall m | 0 <= m < |a| + n
        ensures TextParses(all[m])
      {
        if m >= |a| { assert all[m] == b[m - |a|]; }
      }
    }
  }

  lemma BeforeParsed(a: seq<Option<seq<string>>>, b: seq<Option<seq<string>>>, n: nat)
    requires exists m :: 0 <= m < |a| && !TextParses(a[m])
    ensures FirstNotParsed(a + b, n) <==> FirstNotParsed(a, n)
    ensures FirstNotParsed(a + b, n) ==> n < |a|
  {
    var all := a + b;
    assert forall m :: 0 <= m < |a| ==> all[m] == a[m];
    var m :| 0 <= m < |a| && !TextParses(a[m]);
    assert !TextParses(all[m]);
  }

  lemma ThenEnds(a: seq<Option<seq<string>>>, b: seq<Option<seq<string>>>, r1: Outcome, r2: Outcome)
    requires Ends(a, r1) && Ends(b, r2)
    ensures Ends(a + b, Then(r1, r2))
  {
    var all := a + b;
    assert (forall m :: 0 <= m < |a| ==> all[m] == a[m]) && (forall m :: 0 <= m < |b| ==> all[|a| + m] == b[m]);
    if r1.Parsed? {
      ParsedThen(a, b, r1, r2);
    } else {
      NotParsedThen(a, b, r1);
    }
  }

  lemma ParsedThen(a: seq<Option<seq<string>>>, b: seq<Option<seq<string>>>, r1: Outcome, r2: Outcome)
    requires Ends(a, r1) && Ends(b, r2) && r1.Parsed?
    ensures Ends(a + b, Then(r1, r2))
  {
    var all := a + b;
    assert (forall m :: 0 <= m < |a| ==> all[m] == a[m]) && (forall m :: 0 <= m < |b| ==> all[|a| + m] == b[m]);
    forall n: nat
      ensures FirstNotParsed(b, n) <==> FirstNotParsed(all, |a| + n)
    {
      AfterParsed(a, b, n);
    }
    if n: nat :| FirstNotParsed(all, n) && all[n].Some? && IsHelp(all[n].value) {
      assert n >= |a| && FirstNotParsed(b, n - |a|) && b[n - |a|] == all[n];
    }
    if n: nat :| FirstNotParsed(b, n) && b[n].Some? && IsHelp(b[n].value) {
      assert FirstNotParsed(all, |a| + n) && all[|a| + n] == b[n];
    }
  }

  lemma NotParsedThen(a: seq<Option<seq<string>>>, b: seq<Option<seq<string>>>, r1: Outcome)
    requires Ends(a, r1) && !r1.Parsed?
    ensures Ends(a + b, r1)
  {
    var all := a + b;
    assert forall m :: 0 <= m < |a| ==> all[m] == a[m];
    forall n: nat
      ensures FirstNotParsed(all, n) <==> FirstNotParsed(a, n)
      ensures FirstNotParsed(all, n) ==> n < |a|
    {
      BeforeParsed(a, b, n);
    }
  }

  lemma {:induction false} LinesEnd(lines: seq<seq<string>>)
    ensures Ends(LaterTexts(lines), ParseLines(lines))
  {
    if lines != [] {
      var line := TrimFirst(lines[0]);
      var t := if AsksForFile(line) then None else Some(line);
      OneText(t);
      LinesEnd(lines[1..]);
      ThenEnds([t], LaterTexts(lines[1..]), if t.Some? then ParseBlock(t.value) else Failed, ParseLines(lines[1..]));
    } else {
      NoText();
    }
  }

  lemma EntryEnds(files: Files, block: seq<string>)
    ensures Ends(EntryTexts(files, block), ParseEntry(files, block))
  {
    var args := TrimFirst(block);
    if !AsksForFile(args) {
      OneText(Some(args));
    } else if NoFile(files, args) {
      OneText(None);
    } else {
      var lines := NonBlank(files[args[1]]);
      OneText(Some(lines[0]));
      LinesEnd(lines[1..]);
      ThenEnds([Some(lines[0])], LaterTexts(lines[1..]), ParseBlock(lines[0]), ParseLines(lines[1..]));
    }
  }

  lemma {:induction false} BlocksEnd(files: Files, blocks: seq<seq<string>>)
    ensures Ends(AllTexts(files, blocks), ParseBlocks(files, blocks))
  {
    if blocks != [] {
      EntryEnds(files, blocks[0]);
      BlocksEnd(files, blocks[1..]);
      ThenEnds(EntryTexts(files, blocks[0]), AllTexts(files, blocks[1..]), ParseEntry(files, blocks[0]), ParseBlocks(files, blocks[1..]));
    } else {
      NoText();
    }
  }

  /**
   For every command line and set of files: it is parsed exactly when every list of words is, and it ends with
   the list of options exactly when the first that is not calls for help.
   */
  lemma CommandLineOutcome(files: Files, args: seq<string>)
    ensures Ends(AllTexts(files, Blocks(args)), Parse(files, args))
  {
    BlocksEnd(files, Blocks(args));
  }

  /** So the first list of words that is not parsed decides, and fails in all other cases; there is one unless all are. */
  lemma FirstTextDecides(files: Files, args: seq<string>) returns (n: nat)
    ensures var ts := AllTexts(files, Blocks(args));
      Parse(files, args).Parsed?
      || (FirstNotParsed(ts, n) && Parse(files, args) == if ts[n].Some? && IsHelp(ts[n].value) then Help else Failed)
  {
    var ts := AllTexts(files, Blocks(args));
    CommandLineOutcome(files, args);
    n := 0;
    if !Parse(files, args).Parsed? {
      n := SomeFirstNotParsed(ts);
      if m: nat :| FirstNotParsed(ts, m) && ts[m].Some? && IsHelp(ts[m].value) {
        OneFirst(ts, n, m);
      }
    }
  }

  lemma OneFirst(ts: seq<Option<seq<string>>>, n: nat, m: nat)
    requires FirstNotParsed(ts, n) && FirstNotParsed(ts, m)
    ensures n == m
  {
    BeforeFirst(ts, n, m);
    BeforeFirst(ts, m, n);
  }

  lemma BeforeFirst(ts: seq<Option<seq<string>>>, n: nat, m: nat)
    requires FirstNotParsed(ts, n) && m < |ts|
    ensures m < n ==> TextParses(ts[m])
  {
  }

  lemma SomeFirstNotParsed(ts: seq<Option<seq<string>>>) returns (i: nat)
    requires exists k :: 0 <= k < |ts| && !TextParses(ts[k])
    ensures FirstNotParsed(ts, i)
  {
    i := 0;
    while TextParses(ts[i])
      invariant i < |ts| && forall m :: 0 <= m < i ==> TextParses(ts[m])
      decreases |ts| - i
    {
      i := i + 1;
    }
  }
}
