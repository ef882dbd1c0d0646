/**
 What the first word of a line, configuration files, and options the parser does not know do to a
 command line: exactly when it still means what was meant.
 */
module MpiexecMeant {
  import opened Common
  import opened Decimal
  import opened MpiexecSpec
  import opened MpiexecOptions
  import opened MpiexecResults

  // ------------------------------------------------------------------- the first word of a line

  /** An option the parser knows, named without its dash. */
  predicate Known(name: string) {
    HasValue(Given(name, None)) || Stops(Given(name, None))
  }

  /** A word that means the same as an option when it has lost a dash before: trimming it twice is trimming it once, or nothing known. */
  predicate SettledWord(w: string) {
    Trim(Trim(w)) == Trim(w) || !Known(Trim(Trim(w))[1..])
  }

  lemma UnknownFirst(s: Settings, args: seq<string>)
    requires args != [] && IsOption(args[0]) && !Known(Trim(args[0])[1..])
    ensures Options(s, args) == Options(s, args[1..])
  {
    FirstStep(s, args);
  }

  /** A known option by its name. */
  function Dashed(name: string): string { "-" + name }

  lemma KnownHasNoDash(name: string)
    requires Known(name)
    ensures !IsOption(name) && Trim(Dashed(name)) == Dashed(name)
  {
  }

  lemma SameOption(s: Settings, a: seq<string>, b: seq<string>)
    requires a != [] && b != [] && IsOption(a[0]) && IsOption(b[0]) && a[1..] == b[1..] && Trim(a[0]) == Trim(b[0])
    ensures Options(s, a) == Options(s, b)
  {
    assert |a| >= 2 ==> a[1] == a[1..][0] && b[1] == b[1..][0];
    assert |a| >= 2 ==> a[2..] == a[1..][1..] && b[2..] == b[1..][1..];
    FirstStep(s, a);
    FirstStep(s, b);
    assert FirstGiven(a) == FirstGiven(b);
  }

  /** With three dashes the word is dropped where it stands; trimmed before, it is what it names behind them, if that is known. */
  lemma ThreeDashes(w: string, rest: seq<string>)
    requires Trim(Trim(w)) != Trim(w)
    ensures ParseBlock([w] + rest) == ParseBlock(rest)
    ensures var name := Trim(Trim(w))[1..];
            ParseBlock(TrimFirst([w] + rest)) == ParseBlock(if Known(name) then [Dashed(name)] + rest else rest)
  {
    var name := Trim(Trim(w))[1..];
    assert ([w] + rest)[1..] == rest && ([Dashed(name)] + rest)[1..] == rest;
    if Known(Trim(w)[1..]) { KnownHasNoDash(Trim(w)[1..]); }
    UnknownFirst(NO_SETTINGS, [w] + rest);
    var once := TrimFirst([w] + rest);
    assert once == [Trim(w)] + rest && once[1..] == rest;
    if Known(name) {
      KnownHasNoDash(name);
      SameOption(NO_SETTINGS, once, [Dashed(name)] + rest);
    } else {
      UnknownFirst(NO_SETTINGS, once);
    }
  }

  lemma SettledMeansSame(w: string, rest: seq<string>)
    requires SettledWord(w)
    ensures ParseBlock(TrimFirst([w] + rest)) == ParseBlock([w] + rest)
  {
    if Trim(Trim(w)) != Trim(w) {
      ThreeDashes(w, rest);
    } else {
      var line := [w] + rest;
      assert TrimFirst(line) == [Trim(w)] + rest;
      if IsOption(w) { SameOption(NO_SETTINGS, TrimFirst(line), line); } else { assert TrimFirst(line) == line; }
    }
  }

  lemma PlainCount()
    ensures Atoi("-n") < 1 && Atoi("1") == 1
  {
    AtoiInvertsShow(1);
    assert Show(1) == "1";
    assert Number("-n"[1..], 0) == 0;
  }

  /** A known option before such a line is never harmless. */
  lemma KnownIsNoticed(name: string, rest: seq<string>, exe: string)
    requires Known(name) && !IsOption(exe) && rest == ["-n", "1"] + [exe]
    ensures ParseBlock(rest).Parsed? && !ParseBlock([Dashed(name)] + rest).Parsed?
  {
    PlainCount();
    KnownHasNoDash(name);
    OptionPair(NO_SETTINGS, "-n", "1", [exe]);
    var line := [Dashed(name)] + rest;
    assert line[2..] == ["1", exe] && line[1] == "-n";
    FirstStep(NO_SETTINGS, line);
    var o := FirstGiven(line);
    assert line[0][1..] == name && o.name == name;
    if HasValue(o) && !IsCount(o) {
      var s := SetBy(NO_SETTINGS, o);
      assert Options(s, line[2..]) == Scanned(s, line[2..]);
    }
  }

  /** Exactly which first words mean the same, whatever follows, where they are trimmed before and where they are not. */
  lemma FirstWordIff(w: string)
    ensures (forall rest :: ParseBlock(TrimFirst([w] + rest)) == ParseBlock([w] + rest)) <==> SettledWord(w)
  {
    if SettledWord(w) {
      forall rest
        ensures ParseBlock(TrimFirst([w] + rest)) == ParseBlock([w] + rest)
      {
        SettledMeansSame(w, rest);
      }
    } else {
      var exe := "x";
      var rest := ["-n", "1"] + [exe];
      ThreeDashes(w, rest);
      KnownIsNoticed(Trim(Trim(w))[1..], rest, exe);
    }
  }

  // ------------------------------------------------------------------- configuration files

  lemma {:induction false} LinesAreBlocks(files: Files, lines: seq<seq<string>>)
    requires forall i :: 0 <= i < |lines| ==> !AsksForFile(TrimFirst(lines[i]))
    ensures ParseLines(lines) == ParseBlocks(files, lines)
  {
    if lines != [] { LinesAreBlocks(files, lines[1..]); }
  }

  lemma OneBlock(files: Files, block: seq<string>)
    requires NoSeparator(block)
    ensures Parse(files, block) == ParseEntry(files, block)
  {
    BlocksOne(block);
    var r := ParseEntry(files, block);
    assert [block][1..] == [] && ParseBlocks(files, []) == Parsed([]);
    if r.Parsed? { assert r.cmds + [] == r.cmds; }
  }

  /** The words after the file name are not looked at. */
  lemma FileEntry(files: Files, name: string, rest: seq<string>)
    requires name in files && NoSeparator([name] + rest)
    ensures Parse(files, ["-configfile", name] + rest) == ParseFile(files[name])
  {
    var block := ["-configfile", name] + rest;
    assert block == ["-configfile"] + ([name] + rest);
    assert TrimFirst(block) == block;
    OneBlock(files, block);
  }

  lemma JoinedLines(files: Files, lines: seq<seq<string>>)
    requires lines != [] && AllNoSeparator(lines) && lines[|lines| - 1] != []
    ensures Parse(files, Join(lines)) == ParseBlocks(files, lines)
  {
    JoinedBlocksIff(lines, false);
    assert Join(lines) + Trailing(false) == Join(lines);
  }

  predicate NoneAsks(lines: seq<seq<string>>) {
    forall i :: 0 <= i < |lines| ==> !AsksForFile(TrimFirst(lines[i]))
  }

  /**
   A configuration file stands for its lines as blocks of the command line, blank ones dropping out,
   when no line asks for another file, no word begins with a colon and its first word is settled.
   */
  lemma FileIsItsLines(files: Files, name: string, rest: seq<string>)
    requires name in files && NoSeparator([name] + rest)
    requires var lines := NonBlank(files[name]); lines != [] && AllNoSeparator(lines) && NoneAsks(lines) && SettledWord(lines[0][0])
    ensures Parse(files, ["-configfile", name] + rest) == Parse(files, Join(NonBlank(files[name])))
  {
    var lines := NonBlank(files[name]);
    FileEntry(files, name, rest);
    JoinedLines(files, lines);
    LinesAreBlocks(files, lines[1..]);
    assert lines[0] == [lines[0][0]] + lines[0][1..];
    SettledMeansSame(lines[0][0], lines[0][1..]);
  }

  // A line of a file is read back as its words.

  predicate IsWord(w: string) {
    w != [] && forall k :: 0 <= k < |w| ==> !IsDelimiter(w[k])
  }

  function Spaced(words: seq<string>): string
    requires words != []
  {
    if |words| == 1 then words[0] else words[0] + " " + Spaced(words[1..])
  }

  lemma {:induction false} RunOfWord(w: string, more: string)
    requires (forall k :: 0 <= k < |w| ==> !IsDelimiter(w[k])) && (more == [] || IsDelimiter(more[0]))
    ensures Run(w + more, false) == |w|
    decreases |w|
  {
    if w == [] {
      assert w + more == more;
    } else {
      assert (w + more)[1..] == w[1..] + more;
      RunOfWord(w[1..], more);
    }
  }

  lemma FirstToken(w: string, more: string)
    requires IsWord(w) && (more == [] || IsDelimiter(more[0]))
    ensures Tokens(w + more) == [w] + Tokens(more)
  {
    var line := w + more;
    assert line[0] == w[0];
    assert line[0..] == line;
    RunOfWord(w, more);
    assert line[..|w|] == w && line[|w|..] == more;
  }

  lemma BlankBefore(line: string)
    ensures Tokens(" " + line) == Tokens(line)
  {
    var all := " " + line;
    assert all[1..] == line;
    assert all[Run(all, true)..] == line[Run(line, true)..];
  }

  lemma FirstOfLine(w: string, line: string)
    requires IsWord(w)
    ensures Tokens(w) == [w] && Tokens(w + " " + line) == [w] + Tokens(line)
  {
    assert w + [] == w && w + " " + line == w + (" " + line);
    FirstToken(w, []);
    FirstToken(w, " " + line);
    BlankBefore(line);
  }

  lemma {:induction false} WordsOfLine(words: seq<string>)
    requires words != [] && forall i :: 0 <= i < |words| ==> IsWord(words[i])
    ensures Tokens(Spaced(words)) == words
    decreases |words|
  {
    var w, more := words[0], words[1..];
    assert words == [w] + more;
    if more == [] {
      FirstOfLine(w, []);
    } else {
      FirstOfLine(w, Spaced(more));
      WordsOfLine(more);
    }
  }

  /** All files whose first word is this one, and that otherwise could stand for their lines, do so. */
  ghost predicate AlwaysItsLines(w: string) {
    forall files: Files, name ::
      name in files && NoSeparator([name]) && OtherwisePlain(NonBlank(files[name]), w)
      ==> Parse(files, ["-configfile", name]) == Parse(files, Join(NonBlank(files[name])))
  }

  predicate OtherwisePlain(lines: seq<seq<string>>, w: string) {
    lines != [] && lines[0] != [] && lines[0][0] == w && AllNoSeparator(lines) && NoneAsks(lines)
  }

  lemma OneLineFile(w: string, files: Files)
    requires IsWord(w) && files == map["f" := [Spaced([w] + (["-n", "1"] + ["x"]))]]
    ensures NonBlank(files["f"]) == [[w] + (["-n", "1"] + ["x"])]
  {
    var words := [w] + (["-n", "1"] + ["x"]);
    WordsOfLine(words);
    assert files["f"][1..] == [];
  }

  lemma UnsettledFileDiffers(w: string, files: Files)
    requires IsWord(w) && !IsSeparator(w) && !AsksForFile([Trim(w)]) && !SettledWord(w)
    requires files == map["f" := [Spaced([w] + (["-n", "1"] + ["x"]))]]
    ensures OtherwisePlain(NonBlank(files["f"]), w)
    ensures Parse(files, ["-configfile", "f"]) != Parse(files, Join(NonBlank(files["f"])))
  {
    var rest := ["-n", "1"] + ["x"];
    var line := [w] + rest;
    OneLineFile(w, files);
    assert NoSeparator(line);
    assert TrimFirst(line)[0] == Trim(w);
    FileEntry(files, "f", []);
    assert ["-configfile", "f"] + [] == ["-configfile", "f"];
    OneBlock(files, line);
    ThreeDashes(w, rest);
    KnownIsNoticed(Trim(Trim(w))[1..], rest, "x");
    assert NonBlank(files["f"])[1..] == [];
  }

  /** For any first word of a file: the file is sure to stand for its lines exactly when that word is settled. */
  lemma FileFirstWordIff(w: string)
    requires IsWord(w) && !IsSeparator(w) && !AsksForFile([Trim(w)])
    ensures AlwaysItsLines(w) <==> SettledWord(w)
  {
    if SettledWord(w) {
      forall files: Files, name | name in files && NoSeparator([name]) && OtherwisePlain(NonBlank(files[name]), w)
        ensures Parse(files, ["-configfile", name]) == Parse(files, Join(NonBlank(files[name])))
      {
        assert [name] + [] == [name] && ["-configfile", name] + [] == ["-configfile", name];
        FileIsItsLines(files, name, []);
      }
    } else {
      var files: Files := map["f" := [Spaced([w] + (["-n", "1"] + ["x"]))]];
      UnsettledFileDiffers(w, files);
    }
  }

  /** A line that asks for another file ends the reading; the same words as a block stand for that file. */
  lemma {:induction false} AskingLinesFail(lines: seq<seq<string>>)
    requires !NoneAsks(lines)
    ensures !ParseLines(lines).Parsed?
    decreases |lines|
  {
    if !AsksForFile(TrimFirst(lines[0])) {
      assert forall i :: 0 < i < |lines| ==> lines[i] == lines[1..][i - 1];
      AskingLinesFail(lines[1..]);
    }
  }

  lemma AskingFileFails(file: seq<string>)
    requires !NoneAsks(NonBlank(file))
    ensures !ParseFile(file).Parsed?
  {
    var lines := NonBlank(file);
    if AsksForFile(TrimFirst(lines[0])) {
      assert Trim(lines[0][0])[1..] == "configfile";
      FirstStep(NO_SETTINGS, lines[0]);
    } else {
      assert forall i :: 0 < i < |lines| ==> lines[i] == lines[1..][i - 1];
      AskingLinesFail(lines[1..]);
    }
  }

  lemma {:induction false} LinesGive(lines: seq<seq<string>>)
    requires ParseLines(lines).Parsed?
    ensures |ParseLines(lines).cmds| == |lines|
    ensures forall i :: 0 <= i < |lines| ==>
      !AsksForFile(TrimFirst(lines[i])) && ParseBlock(TrimFirst(lines[i])) == Parsed([ParseLines(lines).cmds[i]])
    decreases |lines|
  {
    if lines != [] {
      LinesGive(lines[1..]);
      BlockSound(TrimFirst(lines[0]));
      assert forall i :: 0 < i < |lines| ==> lines[i] == lines[1..][i - 1];
    }
  }

  /**
   A file that is parsed, with a settled first word, stands for its lines exactly when no word of it
   begins with a colon: there a colon is a character like any other, here it ends the block.
   */
  lemma ParsedFileIsItsLinesIff(files: Files, name: string, rest: seq<string>)
    requires name in files && NoSeparator([name] + rest) && ParseFile(files[name]).Parsed?
    requires SettledWord(NonBlank(files[name])[0][0])
    ensures Parse(files, ["-configfile", name] + rest) == Parse(files, Join(NonBlank(files[name]))) <==> AllNoSeparator(NonBlank(files[name]))
  {
    var lines := NonBlank(files[name]);
    FileEntry(files, name, rest);
    if !NoneAsks(lines) { AskingFileFails(files[name]); }
    if AllNoSeparator(lines) { FileIsItsLines(files, name, rest); }
    if ParseFile(files[name]) == Parse(files, Join(lines)) {
      assert lines[0] == [lines[0][0]] + lines[0][1..];
      SettledMeansSame(lines[0][0], lines[0][1..]);
      LinesGive(lines);
      GivenBackNoSeparator(files, lines, ParseLines(lines).cmds);
    }
  }

  // ------------------------------------------------------------------- options the parser does not know

  /** An option with its value as the usage text has it. */
  datatype Written = Written(name: string, value: string)

  predicate TakesValue(d: Written) { HasValue(Given(d.name, None)) }

  /** The parser takes the value, or does not know the option; then the value does not look like an option itself. */
  predicate AsInUsage(d: Written) {
    !IsOption(d.name) && (TakesValue(d) || (!Known(d.name) && !IsOption(d.value)))
  }

  predicate AllAsInUsage(ds: seq<Written>) {
    forall i :: 0 <= i < |ds| ==> AsInUsage(ds[i])
  }

  predicate NoUnknown(ds: seq<Written>) {
    forall i :: 0 <= i < |ds| ==> TakesValue(ds[i])
  }

  function Words(ds: seq<Written>): seq<string> {
    if ds == [] then [] else [Dashed(ds[0].name), ds[0].value] + Words(ds[1..])
  }

  function Givens(ds: seq<Written>): (os: seq<Given>)
    ensures |os| == |ds| && forall i :: 0 <= i < |ds| ==> os[i] == Given(ds[i].name, Some(ds[i].value))
  {
    seq(|ds|, i requires 0 <= i < |ds| => Given(ds[i].name, Some(ds[i].value)))
  }

  /** The command that is meant by options, an executable and its arguments. */
  function Meant(ds: seq<Written>, exe: string, argv: seq<string>): Command {
    var s := SetByAll(NO_SETTINGS, Givens(ds));
    Command(exe, argv, s.nproc, s.wdir, s.path, s.host)
  }

  /** The value of the first option that the parser does not know. */
  function FirstUnknownValue(ds: seq<Written>): string {
    if ds == [] then [] else if TakesValue(ds[0]) then FirstUnknownValue(ds[1..]) else ds[0].value
  }

  lemma FirstWritten(d: Written, later: seq<string>)
    requires AsInUsage(d)
    ensures var args := [Dashed(d.name), d.value] + later;
            if TakesValue(d) then AllGiven(args) == ([Given(d.name, Some(d.value))] + AllGiven(later).0, AllGiven(later).1)
            else AllGiven(args).1 == [d.value] + later
  {
    var args := [Dashed(d.name), d.value] + later;
    assert args[1..] == [d.value] + later && args[2..] == later;
    assert Dashed(d.name)[1..] == d.name && Trim(Dashed(d.name)) == Dashed(d.name);
  }

  lemma WordsCons(ds: seq<Written>, tail: seq<string>)
    requires ds != []
    ensures Words(ds) + tail == [Dashed(ds[0].name), ds[0].value] + (Words(ds[1..]) + tail)
  {
  }

  lemma {:induction false} AllKnown(ds: seq<Written>, tail: seq<string>)
    requires AllAsInUsage(ds) && NoUnknown(ds) && tail != [] && !IsOption(tail[0])
    ensures AllGiven(Words(ds) + tail) == (Givens(ds), tail)
    decreases |ds|
  {
    if ds == [] {
      assert Words(ds) + tail == tail;
    } else {
      AllKnown(ds[1..], tail);
      KnownCons(ds, tail);
    }
  }

  lemma KnownCons(ds: seq<Written>, tail: seq<string>)
    requires ds != [] && AsInUsage(ds[0]) && TakesValue(ds[0]) && AllGiven(Words(ds[1..]) + tail) == (Givens(ds[1..]), tail)
    ensures AllGiven(Words(ds) + tail) == (Givens(ds), tail)
  {
    WordsCons(ds, tail);
    FirstWritten(ds[0], Words(ds[1..]) + tail);
    GivensCons(ds);
  }

  lemma GivensCons(ds: seq<Written>)
    requires ds != []
    ensures Givens(ds) == [Given(ds[0].name, Some(ds[0].value))] + Givens(ds[1..])
  {
  }

  lemma {:induction false} SomeUnknown(ds: seq<Written>, tail: seq<string>)
    requires AllAsInUsage(ds) && !NoUnknown(ds)
    ensures var rest := AllGiven(Words(ds) + tail).1; |rest| > |tail| && rest[0] == FirstUnknownValue(ds)
    decreases |ds|
  {
    UnknownCons(ds);
    WordsCons(ds, tail);
    FirstWritten(ds[0], Words(ds[1..]) + tail);
    if TakesValue(ds[0]) { SomeUnknown(ds[1..], tail); }
  }

  lemma UnknownCons(ds: seq<Written>)
    requires ds != []
    ensures NoUnknown(ds) <==> TakesValue(ds[0]) && NoUnknown(ds[1..])
  {
    assert forall i :: 0 < i < |ds| ==> ds[i] == ds[1..][i - 1];
  }

  /**
   Options in any order, an executable and arguments are parsed as the command that is meant exactly
   when each option makes sense, no two clash, there is a count, and the parser knows them all. With an
   option it does not know, the value of the first such is taken for the executable. The usage text
   lists two of this kind, -soft and -arch.
   */
  lemma UnknownOptionIff(ds: seq<Written>, exe: string, argv: seq<string>)
    requires AllAsInUsage(ds) && !IsOption(exe)
    ensures ParseBlock(Words(ds) + ([exe] + argv)) == Parsed([Meant(ds, exe, argv)])
       <==> NoUnknown(ds) && AllFine(Givens(ds)) && FinePairs(Givens(ds)) && HasCount(Givens(ds))
    ensures !NoUnknown(ds) && ParseBlock(Words(ds) + ([exe] + argv)).Parsed? ==>
      ParseBlock(Words(ds) + ([exe] + argv)).cmds[0].cmd == FirstUnknownValue(ds)
    ensures !Known("soft") && !Known("arch")
  {
    var tail := [exe] + argv;
    var args := Words(ds) + tail;
    if NoUnknown(ds) { AllKnown(ds, tail); } else { SomeUnknown(ds, tail); }
    BlockParsesIff(args);
    assert tail[1..] == argv;
    var rest := AllGiven(args).1;
    assert !NoUnknown(ds) ==> |rest[1..]| > |argv|;
  }
}
