/**
 The command line parser itself (mpiexec_args.c): it cuts the argument vector into blocks by
 writing nulls over the colons, and shifts each block left as it uses up its options.
 */
module MpiexecArgs {
  import opened Common
  import opened Decimal
  import opened MpiexecSpec

  type Argv = array<Option<string>>

  /** A window of the vector: its slot 0, then arguments, then a null. */
  ghost predicate Shows(av: Argv, base: nat, args: seq<string>)
    reads av
  {
    && base + 1 + |args| < av.Length
    && av[base + 1 + |args|] == None
    && (forall i :: 0 <= i < |args| ==> av[base + 1 + i] == Some(args[i]))
  }

  /** Slots outside a range are left alone. */
  twostate predicate OnlyWithin(av: Argv, lo: int, hi: int)
    reads av
  {
    forall i :: 0 <= i < av.Length && !(lo <= i < hi) ==> av[i] == old(av[i])
  }

  lemma ShiftedShows(was: seq<Option<string>>, av: Argv, base: nat, args: seq<string>, n: nat)
    requires |was| == av.Length && base + 1 + |args| < |was| && n <= |args|
    requires was[base + 1 + |args|] == None && forall i :: 0 <= i < |args| ==> was[base + 1 + i] == Some(args[i])
    requires forall j :: base + 1 <= j < base + 2 + |args| - n ==> av[j] == was[j + n]
    ensures Shows(av, base, args[n..])
  {
    forall i | 0 <= i < |args| - n
      ensures av[base + 1 + i] == Some(args[n..][i])
    {
      assert was[base + 1 + (n + i)] == Some(args[n + i]);
    }
  }

  /** Drop `n` arguments after slot 0; it fails exactly when there are fewer. */
  method StripArgs(av: Argv, base: nat, argc: nat, n: nat, ghost args: seq<string>) returns (argc': nat, ok: bool)
    requires Shows(av, base, args) && argc == 1 + |args|
    modifies av
    ensures ok == (n <= |args|)
    ensures ok ==> Shows(av, base, args[n..]) && argc' == argc - n
    ensures !ok ==> Shows(av, base, args) && argc' == argc
    ensures OnlyWithin(av, base + 1, base + argc)
  {
    if n + 1 > argc {
      return argc, false;
    }
    ghost var was := av[..];
    var i := n + 1;
    while i <= argc
      invariant n + 1 <= i <= argc + 1
      invariant forall j :: base + 1 <= j < base + i - n ==> av[j] == was[j + n]
      invariant forall j :: 0 <= j < av.Length && !(base + 1 <= j < base + i - n) ==> av[j] == was[j]
    {
      av[base + i - n] := av[base + i];
      i := i + 1;
    }
    ShiftedShows(was, av, base, args, n);
    return argc - n, true;
  }

  /** A configuration file being read. */
  class Reader {
    const lines: seq<string>
    var at: nat

    constructor (lines: seq<string>)
      ensures this.lines == lines && at == 0
    {
      this.lines, this.at := lines, 0;
    }

    ghost predicate Valid() reads this { at <= |lines| }

    /** The blocks still to come. */
    ghost function Left(): seq<seq<string>>
      requires Valid()
      reads this
    {
      NonBlank(lines[at..])
    }
  }

  /** Every line leaves room for the null: the vector has 1024 slots and the last is cut off. */
  predicate LinesFit(lines: seq<string>) {
    forall i :: 0 <= i < |lines| ==> |Tokens(lines[i])| < 1023
  }

  /** The tokens still to come once `strtok` has returned one. */
  ghost function Pending(token: Option<string>, rest: string): seq<string> {
    if token.Some? then [token.value] + Tokens(rest) else []
  }

  lemma PendingNext(ts: seq<string>, k: nat, token: Option<string>, rest: string)
    requires k <= |ts| && token.Some? && Pending(token, rest) == ts[k..]
    ensures k < |ts| && token == Some(ts[k])
    ensures Pending(StrTok(rest).0, StrTok(rest).1) == ts[k + 1..]
  {
    assert ts[k..][0] == token.value && ts[k..][1..] == Tokens(rest);
  }

  /** Put the tokens of a line into the vector, slots 1 up to 1023. */
  method Tokenize(line: string, av: Argv, ghost ts: seq<string>) returns (index: nat)
    requires av.Length == 1024 && ts == Tokens(line)
    modifies av
    ensures 1 <= index <= 1024 && index == Min(1 + |ts|, 1024)
    ensures forall i :: 1 <= i < Min(index, 1023) ==> av[i] == Some(ts[i - 1])
    ensures index == 1024 ==> av[1023] == None
  {
    index := 1;
    var (token, rest) := StrTok(line);
    while token.Some?
      invariant 1 <= index < 1024 && index <= 1 + |ts|
      invariant Pending(token, rest) == ts[index - 1..]
      invariant forall i :: 1 <= i < index ==> av[i] == Some(ts[i - 1])
      decreases |ts| - index
    {
      PendingNext(ts, index - 1, token, rest);
      av[index] := token;
      index := index + 1;
      if index == 1024 {
        av[1023] := None;
        break;
      }
      var (t, r) := StrTok(rest);
      token, rest := t, r;
    }
  }

  lemma NonBlankNext(lines: seq<string>, at: nat)
    requires at < |lines|
    ensures NonBlank(lines[at..]) ==
            if Tokens(lines[at]) == [] then NonBlank(lines[at + 1..]) else [Tokens(lines[at])] + NonBlank(lines[at + 1..])
  {
    assert lines[at..][1..] == lines[at + 1..];
  }

  /** The tokens of a line as a vector of arguments; the null goes where `argc` says if the line fits. */
  method LineToArgv(line: string, av: Argv, ghost ts: seq<string>) returns (index: nat)
    requires av.Length == 1024 && ts == Tokens(line) && |ts| < 1023
    modifies av
    ensures index == 1 + |ts| && (ts != [] ==> Shows(av, 0, ts))
  {
    index := Tokenize(line, av, ts);
    if index != 1 {
      av[index] := None;
    }
  }

  /** The next line that holds anything, behind a made-up program name. */
  method GetArgcvFromFile(fin: Reader, av: Argv) returns (ok: bool, argc: nat)
    requires fin.Valid() && LinesFit(fin.lines) && av.Length == 1024
    modifies fin, av
    ensures fin.Valid()
    ensures ok == (old(fin.Left()) != [])
    ensures ok ==> Shows(av, 0, old(fin.Left())[0]) && argc == 1 + |old(fin.Left())[0]| && fin.Left() == old(fin.Left())[1..]
  {
    ghost var left := fin.Left();
    av[0] := Some("bogus.exe");
    while fin.at < |fin.lines|
      invariant fin.Valid() && fin.Left() == left
      decreases |fin.lines| - fin.at
    {
      var line := fin.lines[fin.at];
      NonBlankNext(fin.lines, fin.at);
      fin.at := fin.at + 1;
      var index := LineToArgv(line, av, Tokens(line));
      if index != 1 {
        return true, index;
      }
    }
    return false, 1;
  }

  /** A double dash in the first argument is cut to a single one. */
  method TrimDash(av: Argv, base: nat, ghost args: seq<string>)
    requires Shows(av, base, args) && args != [] && IsOption(args[0])
    modifies av
    ensures Shows(av, base, TrimFirst(args)) && OnlyWithin(av, base + 1, base + 1 + |args|)
  {
    var t := av[base + 1].value;
    if |t| >= 2 && t[1] == '-' {
      av[base + 1] := Some(t[..1] + t[2..]);
    }
  }

  /** One pass of the option loop up to the stripping: trim the option, then act on it. */
  method TakeOption(av: Argv, base: nat, argc: nat, s: Settings, ghost args: seq<string>) returns (r: Step)
    requires Shows(av, base, args) && argc == 1 + |args| && args != [] && IsOption(args[0])
    modifies av
    ensures r == OneOption(s, args)
    ensures Shows(av, base, TrimFirst(args)) && OnlyWithin(av, base + 1, base + 1 + |args|)
  {
    TrimDash(av, base, args);
    ghost var now := TrimFirst(args);
    assert av[base + 1] == Some(now[0]);
    assert |args| >= 2 ==> av[base + 2] == Some(now[1]) && now[1] == args[1];
    var o := av[base + 1].value[1..];
    if o == "np" || o == "n" {
      if s.nproc != 0 { return Bad; }
      if argc < 3 { return Bad; }
      var nproc := Atoi(av[base + 2].value);
      if nproc < 1 { return Bad; }
      return Use(s.(nproc := nproc), 2);
    } else if o == "dir" || o == "wdir" {
      if argc < 3 { return Bad; }
      return Use(s.(wdir := av[base + 2].value), 2);
    } else if o == "configfile" {
      return Bad;
    } else if o == "host" {
      if argc < 3 { return Bad; }
      if s.host != [] { return Bad; }
      return Use(s.(host := av[base + 2].value), 2);
    } else if o == "help" || (o != [] && o[0] == '?') {
      return AskHelp;
    } else if o == "path" {
      if argc < 3 { return Bad; }
      return Use(s.(path := av[base + 2].value), 2);
    }
    return Use(s, 1);
  }

  /** The option loop. Stripping never fails, and every pass leaves fewer arguments. */
  method ParseOptions(av: Argv, base: nat, argc: nat, ghost args: seq<string>)
    returns (stop: Step, s: Settings, argc': nat, ghost rest: seq<string>)
    requires Shows(av, base, args) && argc == 1 + |args|
    modifies av
    ensures Options(NO_SETTINGS, args) ==
            match stop { case Bad => ScanFailed case AskHelp => ScanHelp case Use(_, _) => Scanned(s, rest) }
    ensures stop.Use? ==> Shows(av, base, rest) && argc' == 1 + |rest|
    ensures OnlyWithin(av, base + 1, base + argc)
  {
    s := NO_SETTINGS;
    argc', rest := argc, args;
    stop := Use(s, 0);
    while av[base + 1].Some? && IsOption(av[base + 1].value)
      invariant Shows(av, base, rest) && argc' == 1 + |rest| && |rest| <= |args|
      invariant Options(s, rest) == Options(NO_SETTINGS, args)
      invariant OnlyWithin(av, base + 1, base + argc)
      invariant stop.Use?
      decreases |rest|
    {
      assert rest != [] && av[base + 1] == Some(rest[0]);
      stop := TakeOption(av, base, argc', s, rest);
      if !stop.Use? { return; }
      var ok;
      argc', ok := StripArgs(av, base, argc', stop.n, TrimFirst(rest));
      s := stop.s;
      assert TrimFirst(rest)[stop.n..] == rest[stop.n..];
      rest := rest[stop.n..];
    }
  }

  /** The arguments after the executable. */
  method CopyArgs(av: Argv, base: nat, n: nat, ghost rest: seq<string>) returns (argv: seq<string>)
    requires Shows(av, base, rest) && n == 1 + |rest| && rest != []
    ensures argv == rest[1..]
  {
    argv := [];
    var i := 2;
    while i < n
      invariant 2 <= i <= n && argv == rest[1..i - 1]
    {
      assert av[base + 1 + (i - 1)] == Some(rest[i - 1]);
      argv := argv + [av[base + i].value];
      i := i + 1;
    }
    assert rest[1..n - 1] == rest[1..];
  }

  /** Options, executable and arguments of one block; nothing is returned for a block that fails. */
  method ParseBlockAt(av: Argv, base: nat, argc: nat, ghost args: seq<string>) returns (r: Outcome)
    requires Shows(av, base, args) && argc == 1 + |args|
    modifies av
    ensures r == ParseBlock(args)
    ensures OnlyWithin(av, base + 1, base + argc)
  {
    var stop, s, n, rest := ParseOptions(av, base, argc, args);
    if stop == Bad { return Failed; }
    if stop == AskHelp { return Help; }
    if s.nproc == 0 { return Failed; }
    if n < 2 { return Failed; }
    assert av[base + 1] == Some(rest[0]);
    var cmd := av[base + 1].value;
    var argv := CopyArgs(av, base, n, rest);
    return Parsed([Command(cmd, argv, s.nproc, s.wdir, s.path, s.host)]);
  }

  lemma ThenAssociates(a: Outcome, b: Outcome, c: Outcome)
    ensures Then(Then(a, b), c) == Then(a, Then(b, c))
  {
    if a.Parsed? && b.Parsed? && c.Parsed? {
      assert (a.cmds + b.cmds) + c.cmds == a.cmds + (b.cmds + c.cmds);
    }
  }

  lemma ThenNothing(a: Outcome)
    ensures Then(a, Parsed([])) == a && Then(Parsed([]), a) == a
  {
    if a.Parsed? { assert a.cmds + [] == a.cmds && [] + a.cmds == a.cmds; }
  }

  /** Every file fits the vector its lines are read into. */
  predicate FilesFit(files: Files) {
    forall f :: f in files ==> LinesFit(files[f])
  }

  /** The check for `-configfile`, which must come first in its block and not in a file. */
  method CheckForFile(files: Files, av: Argv, base: nat, argc: nat, inFile: bool, ghost args: seq<string>)
    returns (r: Option<string>, bad: bool)
    requires Shows(av, base, args) && argc == 1 + |args|
    modifies av
    ensures Shows(av, base, TrimFirst(args)) && OnlyWithin(av, base + 1, base + 1 + |args|)
    ensures bad == (AsksForFile(TrimFirst(args)) && (inFile || |args| < 2 || args[1] !in files))
    ensures r.Some? == (AsksForFile(TrimFirst(args)) && !bad)
    ensures r.Some? ==> r.value == args[1]
  {
    if av[base + 1].Some? && IsOption(av[base + 1].value) {
      assert args != [] && av[base + 1] == Some(args[0]);
      TrimDash(av, base, args);
      ghost var now := TrimFirst(args);
      assert av[base + 1] == Some(now[0]);
      if av[base + 1].value[1..] == "configfile" {
        assert now[0] == "-" + now[0][1..];
        if inFile { return None, true; }
        if argc < 3 { return None, true; }
        assert av[base + 2] == Some(now[1]);
        if av[base + 2].value !in files { return None, true; }
        return av[base + 2], false;
      }
    }
    return None, false;
  }

  /** Open the file a block asks for and read its first line. */
  method OpenFile(files: Files, name: string) returns (ok: bool, fin: Reader, av: Argv, argc: nat)
    requires name in files && FilesFit(files)
    ensures fresh(fin) && fresh(av) && fin.Valid() && LinesFit(fin.lines) && av.Length == 1024
    ensures ok == (NonBlank(files[name]) != [])
    ensures ok ==> Shows(av, 0, NonBlank(files[name])[0]) && argc == 1 + |NonBlank(files[name])[0]|
    ensures ok ==> fin.Left() == NonBlank(files[name])[1..]
  {
    fin := new Reader(files[name]);
    av := new Option<string>[1024];
    assert fin.lines[0..] == fin.lines;
    ok, argc := GetArgcvFromFile(fin, av);
  }

  /** The remaining lines of a file that is being read, after its first. */
  method ParseFileFrom(files: Files, fin: Reader, av: Argv, first: seq<Command>) returns (r: Outcome)
    requires fin.Valid() && LinesFit(fin.lines) && av.Length == 1024
    modifies fin, av
    ensures r == Then(Parsed(first), ParseLines(old(fin.Left())))
  {
    var cmds := first;
    ghost var left := fin.Left();
    var more, n := GetArgcvFromFile(fin, av);
    while more
      invariant fin.Valid()
      invariant more == (left != [])
      invariant more ==> Shows(av, 0, left[0]) && n == 1 + |left[0]| && fin.Left() == left[1..]
      invariant Then(Parsed(cmds), ParseLines(left)) == Then(Parsed(first), ParseLines(old(fin.Left())))
      decreases |left|
    {
      var _, bad := CheckForFile(files, av, 0, n, true, left[0]);
      if bad { return Failed; }
      var block := ParseBlockAt(av, 0, n, TrimFirst(left[0]));
      if !block.Parsed? { return block; }
      ThenAssociates(Parsed(cmds), block, ParseLines(left[1..]));
      cmds := cmds + block.cmds;
      left := left[1..];
      more, n := GetArgcvFromFile(fin, av);
    }
    ThenNothing(Parsed(cmds));
    return Parsed(cmds);
  }

  /** One block of the command line, or each line of the file it names in turn. */
  method ParseEntryAt(files: Files, argv: Argv, base: nat, argc: nat, ghost args: seq<string>) returns (r: Outcome)
    requires Shows(argv, base, args) && argc == 1 + |args| && FilesFit(files)
    modifies argv
    ensures r == ParseEntry(files, args)
    ensures OnlyWithin(argv, base + 1, base + argc)
  {
    var name, bad := CheckForFile(files, argv, base, argc, false, args);
    if bad { return Failed; }
    if name.None? {
      r := ParseBlockAt(argv, base, argc, TrimFirst(args));
      return;
    }
    var ok, fin, av, n := OpenFile(files, name.value);
    if !ok { return Failed; }
    ghost var lines := NonBlank(files[name.value]);
    r := ParseBlockAt(av, 0, n, lines[0]);
    if r.Parsed? {
      r := ParseFileFrom(files, fin, av, r.cmds);
    }
  }

  lemma BeforeAll(args: seq<string>)
    ensures forall i :: 0 <= i < Before(args) ==> !IsSeparator(args[i])
  {
    var n := Before(args);
    assert forall i :: 0 <= i < n ==> args[i] == args[..n][i];
  }

  /** What is left of the arguments after the first block. */
  ghost function After(args: seq<string>): (r: seq<string>)
    ensures r != [] ==> |r| < |args|
  {
    var n := Before(args);
    if n < |args| then args[n + 1..] else []
  }

  /** Find where the first block ends. */
  method FindEnd(argv: Argv, base: nat, ghost args: seq<string>) returns (argc: nat)
    requires Shows(argv, base, args)
    ensures argc == 1 + Before(args)
  {
    argc := 1;
    BeforeAll(args);
    while argv[base + argc].Some? && !IsSeparator(argv[base + argc].value)
      invariant 1 <= argc <= 1 + Before(args)
      decreases 1 + Before(args) - argc
    {
      assert argc - 1 < |args| && argv[base + 1 + (argc - 1)] == Some(args[argc - 1]);
      argc := argc + 1;
    }
    if argc - 1 < |args| {
      assert argv[base + 1 + (argc - 1)] == Some(args[argc - 1]);
    }
  }

  lemma CutShows(was: seq<Option<string>>, argv: Argv, base: nat, args: seq<string>, n: nat)
    requires |was| == argv.Length && base + 1 + |args| < |was| && n < |args|
    requires was[base + 1 + |args|] == None && forall i :: 0 <= i < |args| ==> was[base + 1 + i] == Some(args[i])
    requires argv[..] == was[base + 1 + n := None]
    ensures Shows(argv, base, args[..n]) && Shows(argv, base + 1 + n, args[n + 1..])
  {
    forall i | 0 <= i < n
      ensures argv[base + 1 + i] == Some(args[..n][i])
    {
      assert argv[base + 1 + i] == argv[..][base + 1 + i];
    }
    var after := args[n + 1..];
    forall i | 0 <= i < |after|
      ensures argv[base + 1 + n + 1 + i] == Some(after[i])
    {
      assert argv[..][base + 1 + (n + 1 + i)] == was[base + 1 + (n + 1 + i)] == Some(args[n + 1 + i]);
    }
    assert argv[..][base + 1 + n] == None && argv[..][base + 1 + |args|] == None;
  }

  /** Find where the first block ends, and write a null over the separator there. */
  method CutBlock(argv: Argv, base: nat, ghost args: seq<string>) returns (argc: nat, next: nat)
    requires Shows(argv, base, args)
    modifies argv
    ensures argc == 1 + Before(args) && base < next
    ensures base + argc <= next && Shows(argv, base, args[..Before(args)]) && Shows(argv, next - 1, After(args))
  {
    argc := FindEnd(argv, base, args);
    next := base + argc;
    ghost var was, n := argv[..], Before(args);
    if n < |args| {
      assert argv[base + 1 + n] == Some(args[n]);
    }
    if argv[next].Some? {
      argv[next] := None;
      next := next + 1;
      CutShows(was, argv, base, args, n);
    } else {
      assert args[..n] == args;
    }
  }

  /** What the parser returns from here on, given the commands so far. */
  ghost function Onward(files: Files, cmds: seq<Command>, more: bool, rest: seq<string>): Outcome {
    Then(Parsed(cmds), if more then ParseBlocks(files, Blocks(rest)) else Parsed([]))
  }

  ghost function ParseRest(files: Files, rest: seq<string>): Outcome {
    if rest == [] then Parsed([]) else ParseBlocks(files, Blocks(rest))
  }

  lemma BlocksAfter(files: Files, args: seq<string>)
    ensures ParseBlocks(files, Blocks(args)) == Then(ParseEntry(files, args[..Before(args)]), ParseRest(files, After(args)))
  {
    var n := Before(args);
    assert Blocks(args)[0] == args[..n];
    if n + 1 < |args| {
      assert Blocks(args)[1..] == Blocks(args[n + 1..]);
    } else {
      assert Blocks(args)[1..] == [];
    }
  }

  lemma OnwardEnds(files: Files, cmds: seq<Command>, rest: seq<string>)
    ensures Onward(files, [], true, rest) == Parse(files, rest) && Onward(files, cmds, false, rest) == Parsed(cmds)
  {
    ThenNothing(Parse(files, rest));
    ThenNothing(Parsed(cmds));
  }

  lemma OnwardNext(files: Files, cmds: seq<Command>, rest: seq<string>, block: Outcome)
    requires block == ParseEntry(files, rest[..Before(rest)])
    ensures Onward(files, cmds, true, rest) ==
            if block.Parsed? then Onward(files, cmds + block.cmds, After(rest) != [], After(rest)) else block
  {
    BlocksAfter(files, rest);
    ThenAssociates(Parsed(cmds), block, ParseRest(files, After(rest)));
  }

  /** Cut off the first block and parse it; the arguments after it are left as they are. */
  method ParseFirst(files: Files, argv: Argv, base: nat, ghost args: seq<string>) returns (block: Outcome, next: nat)
    requires Shows(argv, base, args) && FilesFit(files)
    modifies argv
    ensures block == ParseEntry(files, args[..Before(args)])
    ensures base < next && Shows(argv, next - 1, After(args))
  {
    var argc;
    argc, next := CutBlock(argv, base, args);
    ghost var was, after := argv[..], After(args);
    assert forall i :: 0 <= i < |after| ==> was[next + i] == Some(after[i]);
    block := ParseEntryAt(files, argv, base, argc, args[..Before(args)]);
    assert forall i :: base + argc <= i < argv.Length ==> argv[i] == was[i];
  }

  /** Write the program name before the next block, if there is one. */
  method MoveTo(argv: Argv, base: nat, exe: Option<string>, ghost args: seq<string>) returns (more: bool)
    requires Shows(argv, base, args)
    modifies argv
    ensures Shows(argv, base, args) && (more <==> args != [])
  {
    assert args != [] ==> argv[base + 1 + 0] == Some(args[0]);
    more := argv[base + 1].Some?;
    if more {
      argv[base] := exe;
    }
  }

  /** One pass of the outer loop. */
  method NextBlock(files: Files, argv: Argv, base: nat, exe: Option<string>, ghost cmds: seq<Command>, ghost rest: seq<string>)
    returns (block: Outcome, base': nat, more: bool)
    requires Shows(argv, base, rest) && FilesFit(files)
    modifies argv
    ensures block.Parsed? ==> Onward(files, cmds + block.cmds, more, After(rest)) == Onward(files, cmds, true, rest)
    ensures !block.Parsed? ==> block == Onward(files, cmds, true, rest)
    ensures Shows(argv, base', After(rest)) && (more ==> After(rest) != [])
  {
    var next;
    block, next := ParseFirst(files, argv, base, rest);
    OnwardNext(files, cmds, rest, block);
    base' := next - 1;
    more := MoveTo(argv, base', exe, After(rest));
  }

  /**
   The parser. Whatever the command line and the files, it returns what cutting the arguments
   into blocks and parsing the blocks one after the other returns.
   */
  method ParseArguments(files: Files, argv: Argv, ghost args: seq<string>) returns (r: Outcome)
    requires Shows(argv, 0, args) && FilesFit(files)
    modifies argv
    ensures r == Parse(files, args)
  {
    var base: nat, cmds: seq<Command> := 0, [];
    var exe := argv[0];
    ghost var rest := args;
    var more := true;
    OnwardEnds(files, [], rest);
    while more
      invariant Shows(argv, base, rest)
      invariant Onward(files, cmds, more, rest) == Parse(files, args)
      decreases more, |rest|
    {
      var block;
      block, base, more := NextBlock(files, argv, base, exe, cmds, rest);
      if !block.Parsed? { return block; }
      cmds := cmds + block.cmds;
      rest := After(rest);
    }
    OnwardEnds(files, cmds, rest);
    return Parsed(cmds);
  }
}
