/**
 What the `mpiexec` command line means: blocks of options, an executable and its arguments,
 separated by colons, some of them kept in configuration files.
 */
module MpiexecSpec {
  import opened Common
  import opened Decimal

  /** One command to start. An empty `wdir`, `path` or `host` is not put into the info object. */
  datatype Command = Command(cmd: string, argv: seq<string>, maxprocs: int, wdir: string, path: string, host: string)

  /** `Help` is the exit after printing the options. */
  datatype Outcome = Parsed(cmds: seq<Command>) | Failed | Help

  /** The configuration files, by name, as lists of lines. */
  type Files = map<string, seq<string>>

  // ------------------------------------------------------------------- blocks

  predicate IsSeparator(t: string) { t != [] && t[0] == ':' }

  predicate NoSeparator(args: seq<string>) {
    forall i :: 0 <= i < |args| ==> !IsSeparator(args[i])
  }

  /** How many arguments there are before the first separator. */
  function Before(args: seq<string>): (n: nat)
    ensures n <= |args| && NoSeparator(args[..n])
    ensures n < |args| ==> IsSeparator(args[n])
  {
    if args == [] || IsSeparator(args[0]) then 0
    else
      assert forall i :: 0 < i < |args| ==> args[i] == args[1..][i - 1];
      1 + Before(args[1..])
  }

  /** There is always a first block; a separator at the very end does not begin another. */
  function Blocks(args: seq<string>): (bs: seq<seq<string>>)
    ensures bs != []
  {
    var n := Before(args);
    if n + 1 < |args| then [args[..n]] + Blocks(args[n + 1..]) else [args[..n]]
  }

  // ------------------------------------------------------------------- options

  predicate IsOption(t: string) { t != [] && t[0] == '-' }

  /** A double dash is cut to a single one. */
  function Trim(t: string): string {
    if |t| >= 2 && t[0] == '-' && t[1] == '-' then t[..1] + t[2..] else t
  }

  datatype Settings = Settings(nproc: int, wdir: string, path: string, host: string)

  const NO_SETTINGS := Settings(0, "", "", "")

  /** What one option does: change the settings and use up some arguments. */
  datatype Step = Use(s: Settings, n: nat) | Bad | AskHelp

  function OneOption(s: Settings, args: seq<string>): (r: Step)
    requires args != [] && IsOption(args[0])
    ensures r.Use? ==> 1 <= r.n <= |args| && r.n <= 2
  {
    var o := Trim(args[0])[1..];
    if o == "np" || o == "n" then
      if s.nproc != 0 || |args| < 2 || Atoi(args[1]) < 1 then Bad else Use(s.(nproc := Atoi(args[1])), 2)
    else if o == "dir" || o == "wdir" then
      if |args| < 2 then Bad else Use(s.(wdir := args[1]), 2)
    else if o == "configfile" then Bad
    else if o == "host" then
      if |args| < 2 || s.host != [] then Bad else Use(s.(host := args[1]), 2)
    else if o == "help" || (o != [] && o[0] == '?') then AskHelp
    else if o == "path" then
      if |args| < 2 then Bad else Use(s.(path := args[1]), 2)
    else Use(s, 1)
  }

  datatype Scan = Scanned(s: Settings, rest: seq<string>) | ScanFailed | ScanHelp

  function Options(s: Settings, args: seq<string>): (r: Scan)
    ensures r.Scanned? ==> |r.rest| <= |args| && (r.rest != [] ==> !IsOption(r.rest[0]))
    decreases |args|
  {
    if args == [] || !IsOption(args[0]) then Scanned(s, args)
    else match OneOption(s, args)
      case Use(s', n) => Options(s', args[n..])
      case Bad => ScanFailed
      case AskHelp => ScanHelp
  }

  /** The rest of a block is the executable and its arguments. */
  function Finish(r: Scan): Outcome {
    match r
    case ScanFailed => Failed
    case ScanHelp => Help
    case Scanned(s, rest) =>
      if s.nproc == 0 || rest == [] then Failed
      else Parsed([Command(rest[0], rest[1..], s.nproc, s.wdir, s.path, s.host)])
  }

  function ParseBlock(args: seq<string>): Outcome {
    Finish(Options(NO_SETTINGS, args))
  }

  // ------------------------------------------------------------------- configuration files

  predicate IsDelimiter(c: char) { c in " \r\n" }

  /** How many characters of a line are up to the first that is, or is not, a delimiter. */
  function Run(line: string, delimiters: bool): (n: nat)
    ensures n <= |line|
    ensures forall i :: 0 <= i < n ==> IsDelimiter(line[i]) == delimiters
    ensures n < |line| ==> IsDelimiter(line[n]) != delimiters
  {
    if line == [] || IsDelimiter(line[0]) != delimiters then 0 else 1 + Run(line[1..], delimiters)
  }

  /** What `strtok` finds first, and what is left of the line. */
  function StrTok(line: string): (r: (Option<string>, string))
    ensures r.0.Some? ==> |r.1| < |line| && r.0.value != []
  {
    var body := line[Run(line, true)..];
    if body == [] then (None, [])
    else
      var n := Run(body, false);
      (Some(body[..n]), body[n..])
  }

  function Tokens(line: string): (ts: seq<string>)
    ensures forall i :: 0 <= i < |ts| ==> ts[i] != []
    decreases |line|
  {
    var (t, rest) := StrTok(line);
    if t.None? then [] else [t.value] + Tokens(rest)
  }

  /** The lines of a file that hold anything, as lists of tokens. */
  function NonBlank(lines: seq<string>): (r: seq<seq<string>>)
    ensures forall i :: 0 <= i < |r| ==> r[i] != []
  {
    if lines == [] then []
    else if Tokens(lines[0]) == [] then NonBlank(lines[1..])
    else [Tokens(lines[0])] + NonBlank(lines[1..])
  }

  /** The first argument of a block loses a dash before anything looks at it. */
  function TrimFirst(args: seq<string>): (r: seq<string>)
    ensures |r| == |args|
  {
    if args == [] then [] else args[0 := Trim(args[0])]
  }

  /** Whether a block, its first argument trimmed, is kept in a configuration file. */
  predicate AsksForFile(args: seq<string>) {
    args != [] && args[0] == "-configfile"
  }

  function Then(first: Outcome, second: Outcome): Outcome {
    if !first.Parsed? then first
    else if !second.Parsed? then second
    else Parsed(first.cmds + second.cmds)
  }

  /** The lines after the first go through the check for `-configfile`, which they may not have. */
  function ParseLines(lines: seq<seq<string>>): Outcome {
    if lines == [] then Parsed([])
    else
      var line := TrimFirst(lines[0]);
      Then(if AsksForFile(line) then Failed else ParseBlock(line), ParseLines(lines[1..]))
  }

  function ParseFile(lines: seq<string>): Outcome {
    var blocks := NonBlank(lines);
    if blocks == [] then Failed else Then(ParseBlock(blocks[0]), ParseLines(blocks[1..]))
  }

  function ParseEntry(files: Files, block: seq<string>): Outcome {
    var args := TrimFirst(block);
    if !AsksForFile(args) then ParseBlock(args)
    else if |args| < 2 || args[1] !in files then Failed
    else ParseFile(files[args[1]])
  }

  function ParseBlocks(files: Files, blocks: seq<seq<string>>): Outcome {
    if blocks == [] then Parsed([]) else Then(ParseEntry(files, blocks[0]), ParseBlocks(files, blocks[1..]))
  }

  function Parse(files: Files, args: seq<string>): Outcome {
    ParseBlocks(files, Blocks(args))
  }
}
