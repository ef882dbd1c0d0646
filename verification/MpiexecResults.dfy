/** What the reading of a command line gives: sound commands, printing it back, files as blocks. */
module MpiexecResults {
  import opened Decimal
  import opened MpiexecSpec

  // ------------------------------------------------------------------- blocks and colons

  function Join(blocks: seq<seq<string>>): seq<string>
    requires blocks != []
  {
    if |blocks| == 1 then blocks[0] else blocks[0] + [":"] + Join(blocks[1..])
  }

  predicate AllNoSeparator(blocks: seq<seq<string>>) {
    forall i :: 0 <= i < |blocks| ==> NoSeparator(blocks[i])
  }

  lemma {:induction false} BeforeIs(args: seq<string>, n: nat)
    requires n <= |args| && NoSeparator(args[..n]) && (n < |args| ==> IsSeparator(args[n]))
    ensures Before(args) == n
  {
    if n > 0 {
      assert args[0] == args[..n][0];
      assert args[1..][..n - 1] == args[..n][1..];
      BeforeIs(args[1..], n - 1);
    }
  }

  lemma BlocksCons(block: seq<string>, rest: seq<string>)
    requires NoSeparator(block)
    ensures Blocks(block + [":"] + rest) == if rest == [] then [block] else [block] + Blocks(rest)
  {
    var args, n := block + [":"] + rest, |block|;
    assert args[..n] == block && args[n] == ":" && args[n + 1..] == rest;
    BeforeIs(args, n);
  }

  lemma BlocksOne(block: seq<string>)
    requires NoSeparator(block)
    ensures Blocks(block) == [block]
  {
    assert block[..|block|] == block;
    BeforeIs(block, |block|);
  }

  function Trailing(colon: bool): seq<string> { if colon then [":"] else [] }

  /** An empty block at the end is lost when no colon follows it. */
  predicate LosesLast(blocks: seq<seq<string>>, colon: bool) {
    |blocks| > 1 && !colon && blocks[|blocks| - 1] == []
  }

  lemma JoinCons(first: seq<string>, rest: seq<seq<string>>, colon: bool)
    requires rest != []
    ensures Join([first] + rest) + Trailing(colon) == first + [":"] + (Join(rest) + Trailing(colon))
    ensures Join(rest) + Trailing(colon) == [] <==> !colon && rest == [[]]
  {
    assert ([first] + rest)[1..] == rest;
  }

  function Kept(blocks: seq<seq<string>>, colon: bool): seq<seq<string>> {
    if |blocks| <= 1 then blocks
    else if blocks[1..] == [[]] && !colon then [blocks[0]]
    else [blocks[0]] + Kept(blocks[1..], colon)
  }

  lemma DropLastCons(first: seq<string>, rest: seq<seq<string>>)
    requires rest != []
    ensures ([first] + rest)[..|rest|] == [first] + rest[..|rest| - 1] && ([first] + rest)[|rest|] == rest[|rest| - 1]
  {
  }

  lemma {:induction false} KeptIs(blocks: seq<seq<string>>, colon: bool)
    ensures Kept(blocks, colon) == if LosesLast(blocks, colon) then blocks[..|blocks| - 1] else blocks
  {
    if |blocks| > 1 {
      var first, rest := blocks[0], blocks[1..];
      assert blocks == [first] + rest;
      DropLastCons(first, rest);
      if rest != [[]] || colon { KeptIs(rest, colon); }
      if |rest| == 1 { assert rest == [rest[0]] && rest[..0] == []; }
    }
  }

  lemma {:induction false} JoinedBlocks(blocks: seq<seq<string>>, colon: bool)
    requires blocks != [] && AllNoSeparator(blocks)
    ensures Blocks(Join(blocks) + Trailing(colon)) == Kept(blocks, colon)
    decreases |blocks|
  {
    var first, rest := blocks[0], blocks[1..];
    assert blocks == [first] + rest;
    if rest == [] {
      if colon {
        assert first + [":"] + [] == Join(blocks) + Trailing(colon);
        BlocksCons(first, []);
      } else {
        assert first == Join(blocks) + Trailing(colon);
        BlocksOne(first);
      }
    } else {
      JoinCons(first, rest, colon);
      BlocksCons(first, Join(rest) + Trailing(colon));
      if rest != [[]] || colon { JoinedBlocks(rest, colon); }
    }
  }

  /** Blocks joined with colons are found again exactly when the last is not lost. */
  lemma JoinedBlocksIff(blocks: seq<seq<string>>, colon: bool)
    requires blocks != [] && AllNoSeparator(blocks)
    ensures Blocks(Join(blocks) + Trailing(colon)) == blocks <==> !LosesLast(blocks, colon)
  {
    JoinedBlocks(blocks, colon);
    KeptIs(blocks, colon);
    assert |blocks[..|blocks| - 1]| != |blocks|;
  }

  // ------------------------------------------------------------------- what is parsed is sound

  predicate Sound(c: Command) { c.maxprocs >= 1 && !IsOption(c.cmd) }

  predicate AllSound(cmds: seq<Command>) {
    forall i :: 0 <= i < |cmds| ==> Sound(cmds[i])
  }

  lemma {:induction false} OptionsSound(s: Settings, args: seq<string>)
    requires s.nproc >= 0
    ensures Options(s, args).Scanned? ==> Options(s, args).s.nproc >= 0
    decreases |args|
  {
    if args != [] && IsOption(args[0]) {
      var step := OneOption(s, args);
      if step.Use? { OptionsSound(step.s, args[step.n..]); }
    }
  }

  lemma BlockSound(args: seq<string>)
    ensures ParseBlock(args).Parsed? ==> |ParseBlock(args).cmds| == 1 && AllSound(ParseBlock(args).cmds)
  {
    OptionsSound(NO_SETTINGS, args);
  }

  lemma {:induction false} LinesSound(lines: seq<seq<string>>)
    ensures ParseLines(lines).Parsed? ==> |ParseLines(lines).cmds| == |lines| && AllSound(ParseLines(lines).cmds)
  {
    if lines != [] {
      BlockSound(TrimFirst(lines[0]));
      LinesSound(lines[1..]);
    }
  }

  /** A block gives one command, or one for every line of its file that holds anything. */
  lemma EntrySound(files: Files, block: seq<string>)
    ensures var r := ParseEntry(files, block);
            r.Parsed? ==>
              && AllSound(r.cmds)
              && |r.cmds| == if AsksForFile(TrimFirst(block)) then |NonBlank(files[block[1]])| else 1
  {
    BlockSound(TrimFirst(block));
    if |block| >= 2 && block[1] in files {
      var lines := NonBlank(files[block[1]]);
      if lines != [] {
        BlockSound(lines[0]);
        LinesSound(lines[1..]);
      }
    }
  }

  lemma {:induction false} BlocksSound(files: Files, blocks: seq<seq<string>>)
    ensures ParseBlocks(files, blocks).Parsed? ==> AllSound(ParseBlocks(files, blocks).cmds)
  {
    if blocks != [] {
      EntrySound(files, blocks[0]);
      BlocksSound(files, blocks[1..]);
    }
  }

  // ------------------------------------------------------------------- printing a command line

  function Setting(name: string, value: string): seq<string> {
    if value == [] then [] else [name, value]
  }

  function Line(c: Command): (r: seq<string>)
    ensures |r| >= 2 && r[0] == "-n"
  {
    ["-n", Show(c.maxprocs)] +
    (Setting("-wdir", c.wdir) + (Setting("-path", c.path) + (Setting("-host", c.host) + ([c.cmd] + c.argv))))
  }

  function LinesOf(cmds: seq<Command>): (r: seq<seq<string>>)
    ensures |r| == |cmds| && forall i :: 0 <= i < |cmds| ==> r[i] == Line(cmds[i])
  {
    seq(|cmds|, i requires 0 <= i < |cmds| => Line(cmds[i]))
  }

  lemma OptionPair(s: Settings, name: string, value: string, rest: seq<string>)
    requires IsOption(name)
    ensures ([name, value] + rest)[2..] == rest
    ensures var r := OneOption(s, [name, value] + rest);
            Options(s, [name, value] + rest) == if r.Use? then Options(r.s, ([name, value] + rest)[r.n..])
                                                else if r.Bad? then ScanFailed else ScanHelp
  {
  }

  lemma WdirParses(s: Settings, wdir: string, rest: seq<string>)
    requires s.wdir == []
    ensures Options(s, Setting("-wdir", wdir) + rest) == Options(s.(wdir := wdir), rest)
  {
    if wdir == [] { assert [] + rest == rest; } else { OptionPair(s, "-wdir", wdir, rest); }
  }

  lemma PathParses(s: Settings, path: string, rest: seq<string>)
    requires s.path == []
    ensures Options(s, Setting("-path", path) + rest) == Options(s.(path := path), rest)
  {
    if path == [] { assert [] + rest == rest; } else { OptionPair(s, "-path", path, rest); }
  }

  lemma HostParses(s: Settings, host: string, rest: seq<string>)
    requires s.host == []
    ensures Options(s, Setting("-host", host) + rest) == Options(s.(host := host), rest)
  {
    if host == [] { assert [] + rest == rest; } else { OptionPair(s, "-host", host, rest); }
  }

  lemma LineParses(c: Command)
    requires Sound(c)
    ensures ParseBlock(Line(c)) == Parsed([c])
  {
    var rest := [c.cmd] + c.argv;
    var afterN := Setting("-wdir", c.wdir) + (Setting("-path", c.path) + (Setting("-host", c.host) + rest));
    AtoiInvertsShow(c.maxprocs);
    OptionPair(NO_SETTINGS, "-n", Show(c.maxprocs), afterN);
    var s := NO_SETTINGS.(nproc := c.maxprocs);
    WdirParses(s, c.wdir, Setting("-path", c.path) + (Setting("-host", c.host) + rest));
    PathParses(s.(wdir := c.wdir), c.path, Setting("-host", c.host) + rest);
    HostParses(s.(wdir := c.wdir, path := c.path), c.host, rest);
    assert rest[1..] == c.argv;
  }

  lemma LineEntry(files: Files, c: Command)
    requires Sound(c)
    ensures ParseEntry(files, Line(c)) == Parsed([c])
  {
    var line := Line(c);
    assert line[0 := "-n"] == line;
    LineParses(c);
  }

  lemma {:induction false} LinesParse(files: Files, cmds: seq<Command>)
    requires AllSound(cmds)
    ensures ParseBlocks(files, LinesOf(cmds)) == Parsed(cmds)
    decreases |cmds|
  {
    if cmds != [] {
      var c, rest := cmds[0], cmds[1..];
      LineEntry(files, c);
      LinesParse(files, rest);
      assert LinesOf(cmds)[1..] == LinesOf(rest);
      assert cmds == [c] + rest;
    } else {
      assert LinesOf(cmds) == [];
    }
  }

  // ------------------------------------------------------------------- words that begin with a colon

  /** A block cut short is parsed, if at all, as another command. */
  lemma {:induction false} CutOptions(s: Settings, args: seq<string>, n: nat)
    requires n < |args|
    ensures var whole, cut := Options(s, args), Options(s, args[..n]);
            whole.Scanned? && cut.Scanned? && cut.rest != [] ==> cut.s == whole.s && |cut.rest| < |whole.rest|
    decreases |args|
  {
    if n > 0 && IsOption(args[0]) {
      assert args[..n][0] == args[0];
      var step := OneOption(s, args[..n]);
      if step.Use? {
        assert OneOption(s, args) == step;
        assert args[..n][step.n..] == args[step.n..][..n - step.n];
        if step.n <= n { CutOptions(step.s, args[step.n..], n - step.n); }
      }
    }
  }

  lemma CutBlock(args: seq<string>, n: nat)
    requires n < |args| && ParseBlock(args).Parsed?
    ensures ParseBlock(args[..n]) != ParseBlock(args)
  {
    CutOptions(NO_SETTINGS, args, n);
    var whole, cut := Options(NO_SETTINGS, args), Options(NO_SETTINGS, args[..n]);
    assert cut.Scanned? && cut.rest != [] ==> |cut.rest[1..]| < |whole.rest[1..]|;
  }

  lemma FirstBlock(line: seq<string>, more: seq<string>)
    requires !NoSeparator(line)
    ensures Before(line) < |line| && Blocks(line + more)[0] == line[..Before(line)]
  {
    var n := Before(line);
    assert line[..|line|] == line;
    assert (line + more)[..n] == line[..n];
    BeforeIs(line + more, n);
  }

  lemma CutEntry(files: Files, line: seq<string>, n: nat, c: Command)
    requires n < |line| && !AsksForFile(TrimFirst(line)) && ParseBlock(TrimFirst(line)) == Parsed([c])
    ensures ParseEntry(files, line[..n]).Parsed? ==> |ParseEntry(files, line[..n]).cmds| == 1 && ParseEntry(files, line[..n]).cmds != [c]
  {
    assert n > 0 ==> TrimFirst(line[..n]) == TrimFirst(line)[..n];
    if n > 0 {
      CutBlock(TrimFirst(line), n);
      BlockSound(TrimFirst(line)[..n]);
    }
  }

  lemma JoinFirst(lines: seq<seq<string>>) returns (more: seq<string>)
    requires lines != []
    ensures Join(lines) == lines[0] + more
  {
    more := if |lines| == 1 then [] else [":"] + Join(lines[1..]);
  }

  lemma FirstOfBlocks(files: Files, blocks: seq<seq<string>>)
    requires blocks != [] && ParseBlocks(files, blocks).Parsed?
    ensures ParseEntry(files, blocks[0]).Parsed? && ParseBlocks(files, blocks[1..]).Parsed?
    ensures ParseBlocks(files, blocks).cmds == ParseEntry(files, blocks[0]).cmds + ParseBlocks(files, blocks[1..]).cmds
  {
  }

  /** When joined lines give back one command for each line, none of their words begins with a colon. */
  lemma {:induction false} GivenBackNoSeparator(files: Files, lines: seq<seq<string>>, cmds: seq<Command>)
    requires lines != [] && |cmds| == |lines|
    requires forall i :: 0 <= i < |lines| ==>
      lines[i] != [] && !AsksForFile(TrimFirst(lines[i])) && ParseBlock(TrimFirst(lines[i])) == Parsed([cmds[i]])
    requires Parse(files, Join(lines)) == Parsed(cmds)
    ensures AllNoSeparator(lines)
    decreases |lines|
  {
    var blocks := Blocks(Join(lines));
    FirstOfBlocks(files, blocks);
    var first := ParseEntry(files, blocks[0]).cmds;
    assert first <= cmds;
    if NoSeparator(lines[0]) {
      if |lines| > 1 {
        BlocksCons(lines[0], Join(lines[1..]));
        var joined := JoinFirst(lines[1..]);
        assert lines[1] != [];
        assert blocks[1..] == Blocks(Join(lines[1..]));
        assert first == [cmds[0]];
        assert cmds == first + cmds[1..];
        GivenBackNoSeparator(files, lines[1..], cmds[1..]);
      }
    } else {
      var more := JoinFirst(lines);
      FirstBlock(lines[0], more);
      CutEntry(files, lines[0], Before(lines[0]), cmds[0]);
      assert false;
    }
  }

  lemma LineIsItsEntry(c: Command)
    requires Sound(c)
    ensures !AsksForFile(TrimFirst(Line(c))) && ParseBlock(TrimFirst(Line(c))) == Parsed([c])
  {
    LineParses(c);
    assert Line(c)[0 := "-n"] == Line(c);
  }

  /**
   Printing commands as one command line and parsing it gives them back exactly when every one starts
   a process, its executable does not look like an option, and no word begins with a colon.
   */
  lemma CommandLineRoundTripIff(files: Files, cmds: seq<Command>)
    requires cmds != []
    ensures Parse(files, Join(LinesOf(cmds))) == Parsed(cmds) <==> AllSound(cmds) && AllNoSeparator(LinesOf(cmds))
  {
    var lines := LinesOf(cmds);
    if AllNoSeparator(lines) && AllSound(cmds) {
      assert lines[|lines| - 1] == Line(cmds[|cmds| - 1]);
      JoinedBlocksIff(lines, false);
      assert Join(lines) + Trailing(false) == Join(lines);
      LinesParse(files, cmds);
    }
    if Parse(files, Join(lines)) == Parsed(cmds) {
      BlocksSound(files, Blocks(Join(lines)));
      forall i | 0 <= i < |lines|
        ensures lines[i] != [] && !AsksForFile(TrimFirst(lines[i])) && ParseBlock(TrimFirst(lines[i])) == Parsed([cmds[i]])
      {
        LineIsItsEntry(cmds[i]);
      }
      GivenBackNoSeparator(files, lines, cmds);
    }
  }
}
