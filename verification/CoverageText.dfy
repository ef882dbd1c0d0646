/** Coverage files as text: what `<<` writes for a record, and how `>>` takes it apart again. */
module CoverageText {
  import opened Decimal
  import opened CoverageSpec

  /** A word has no white space in it, so `>>` reads it whole. */
  predicate IsWord(t: string) {
    t != [] && forall i :: 0 <= i < |t| ==> !IsSpace(t[i])
  }

  function Tab(t: string, rest: string): string { t + ("\t" + rest) }

  function NewLine(t: string, rest: string): string { t + ("\n" + rest) }

  /** A line of the file and what comes after it. */
  function LineText(fp: Line, rest: string): string {
    Tab(fp.name, Tab(Show(fp.argcount), Tab(Show(fp.count),
      Tab(fp.sourceFile, Tab(Show(fp.firstLine), NewLine(Show(fp.lastLine), rest))))))
  }

  function FileText(file: seq<Line>): string {
    if file == [] then "" else LineText(file[0], FileText(file[1..]))
  }

  // ------------------------------------------------------------------- reading

  function SkipSpace(s: string): (r: string)
    ensures |r| <= |s| && (r != [] ==> !IsSpace(r[0]))
  {
    if s == [] || !IsSpace(s[0]) then s else SkipSpace(s[1..])
  }

  /** How many characters there are before the first white space, or before the first that is no digit. */
  function WordLength(s: string): (n: nat)
    ensures n <= |s|
  {
    if s == [] || IsSpace(s[0]) then 0 else 1 + WordLength(s[1..])
  }

  function DigitsLength(s: string): (n: nat)
    ensures n <= |s|
  {
    if s == [] || !IsDigit(s[0]) then 0 else 1 + DigitsLength(s[1..])
  }

  /** A value that was read and the text after it; none when the extraction fails. */
  datatype Taken<T> = Fail | Took(value: T, rest: string)

  function TakeWord(s: string): (r: Taken<string>)
    ensures r.Took? ==> |r.rest| < |s|
  {
    var t := SkipSpace(s);
    var n := WordLength(t);
    if n == 0 then Fail else Took(t[..n], t[n..])
  }

  function TakeDigits(s: string): (r: Taken<int>)
    ensures r.Took? ==> |r.rest| < |s|
  {
    var n := DigitsLength(s);
    if n == 0 then Fail else Took(Number(s[..n], 0), s[n..])
  }

  function Negated(r: Taken<int>): Taken<int> {
    match r
    case Fail => Fail
    case Took(v, rest) => Took(-v, rest)
  }

  function TakeInt(s: string): (r: Taken<int>)
    ensures r.Took? ==> |r.rest| < |s|
  {
    var t := SkipSpace(s);
    if t != [] && t[0] == '-' then Negated(TakeDigits(t[1..]))
    else if t != [] && t[0] == '+' then TakeDigits(t[1..])
    else TakeDigits(t)
  }

  /** All six extractions of one pass of the reading loop. */
  function TakeLine(s: string): (r: Taken<Line>)
    ensures r.Took? ==> |r.rest| < |s|
  {
    var name := TakeWord(s);
    if name.Fail? then Fail else
    var argcount := TakeInt(name.rest);
    if argcount.Fail? then Fail else
    var count := TakeInt(argcount.rest);
    if count.Fail? then Fail else
    var source := TakeWord(count.rest);
    if source.Fail? then Fail else
    var first := TakeInt(source.rest);
    if first.Fail? then Fail else
    var last := TakeInt(first.rest);
    if last.Fail? then Fail else
    Took(Line(name.value, argcount.value, count.value, source.value, first.value, last.value), last.rest)
  }

  /** The reading loop: it ends where a line cannot be read, or has the end marker for a count. */
  function ReadText(s: string): seq<Line>
    decreases |s|
  {
    var r := TakeLine(s);
    if r.Fail? || r.value.count == -1 then [] else [r.value] + ReadText(r.rest)
  }

  // ------------------------------------------------------------------- reading undoes writing

  /** What follows a word or number: white space. */
  predicate Ends(s: string) { s != [] && IsSpace(s[0]) }

  lemma {:induction false} WordLengthOf(t: string, rest: string)
    requires (forall i :: 0 <= i < |t| ==> !IsSpace(t[i])) && Ends(rest)
    ensures WordLength(t + rest) == |t|
  {
    if t == [] {
      assert t + rest == rest;
    } else {
      assert (t + rest)[1..] == t[1..] + rest;
      WordLengthOf(t[1..], rest);
    }
  }

  lemma {:induction false} DigitsLengthOf(t: string, rest: string)
    requires (forall i :: 0 <= i < |t| ==> IsDigit(t[i])) && Ends(rest)
    ensures DigitsLength(t + rest) == |t|
  {
    if t == [] {
      assert t + rest == rest;
    } else {
      assert (t + rest)[1..] == t[1..] + rest;
      DigitsLengthOf(t[1..], rest);
    }
  }

  lemma SkipOne(c: char, s: string)
    requires IsSpace(c) && s != [] && !IsSpace(s[0])
    ensures SkipSpace([c] + s) == s && SkipSpace(s) == s
  {
    assert ([c] + s)[1..] == s;
  }

  lemma WordTaken(t: string, rest: string)
    requires IsWord(t) && Ends(rest)
    ensures TakeWord(t + rest) == TakeWord("\t" + (t + rest)) == TakeWord("\n" + (t + rest)) == Took(t, rest)
  {
    var s := t + rest;
    WordLengthOf(t, rest);
    assert s[..|t|] == t && s[|t|..] == rest;
    SkipOne('\t', s);
    SkipOne('\n', s);
  }

  lemma DigitsTaken(n: nat, rest: string)
    requires Ends(rest)
    ensures TakeDigits(Digits(n) + rest) == Took(n, rest)
  {
    var digits := Digits(n);
    var body := digits + rest;
    DigitsLengthOf(digits, rest);
    assert body[..|digits|] == digits && body[|digits|..] == rest;
    NumberOfDigits(n);
  }

  lemma BareIntTaken(v: int, rest: string)
    requires Ends(rest)
    ensures var s := Show(v) + rest; !IsSpace(s[0]) && TakeInt(s) == Took(v, rest)
  {
    var s := Show(v) + rest;
    if v < 0 {
      DigitsTaken(-v, rest);
      assert s[0] == '-' && s[1..] == Digits(-v) + rest;
    } else {
      DigitsTaken(v, rest);
      assert s[0] == Digits(v)[0];
    }
    assert SkipSpace(s) == s;
  }

  lemma IntTaken(v: int, rest: string)
    requires Ends(rest)
    ensures TakeInt("\t" + (Show(v) + rest)) == Took(v, rest)
  {
    BareIntTaken(v, rest);
    SkipOne('\t', Show(v) + rest);
  }

  /** Names and source files that survive: `>>` cannot read back an empty one or one with white space. */
  predicate Clean(fp: Line) { IsWord(fp.name) && IsWord(fp.sourceFile) }

  lemma LineTaken(fp: Line, rest: string)
    requires Clean(fp)
    ensures TakeLine(LineText(fp, rest)) == Took(fp, "\n" + rest)
    ensures TakeLine("\n" + LineText(fp, rest)) == Took(fp, "\n" + rest)
  {
    var t6 := "\n" + rest;
    var t5 := "\t" + (Show(fp.lastLine) + t6);
    var t4 := "\t" + (Show(fp.firstLine) + t5);
    var t3 := "\t" + (fp.sourceFile + t4);
    var t2 := "\t" + (Show(fp.count) + t3);
    var t1 := "\t" + (Show(fp.argcount) + t2);
    WordTaken(fp.name, t1);
    IntTaken(fp.argcount, t2);
    IntTaken(fp.count, t3);
    WordTaken(fp.sourceFile, t4);
    IntTaken(fp.firstLine, t5);
    IntTaken(fp.lastLine, t6);
  }

  lemma NothingLeft()
    ensures TakeLine("") == Fail && TakeLine("\n") == Fail
  {
    assert SkipSpace("\n") == "" by { assert "\n"[1..] == ""; }
  }

  lemma ReadOn(s: string, fp: Line, rest: string, lines: seq<Line>)
    requires TakeLine(s) == Took(fp, rest) && ReadText(rest) == lines
    ensures ReadText(s) == if fp.count == -1 then [] else [fp] + lines
  {
  }

  lemma TextReadsOn(file: seq<Line>)
    requires file != [] && Clean(file[0])
    requires ReadText("\n" + FileText(file[1..])) == Readable(file[1..])
    ensures ReadText(FileText(file)) == ReadText("\n" + FileText(file)) == Readable(file)
  {
    var fp, rest, lines := file[0], FileText(file[1..]), Readable(file[1..]);
    LineTaken(fp, rest);
    ReadOn(LineText(fp, rest), fp, "\n" + rest, lines);
    ReadOn("\n" + LineText(fp, rest), fp, "\n" + rest, lines);
  }

  /** Reading the text of some lines, at the start of the file or after the end of a line before them. */
  lemma {:induction false} TextReadsBack(file: seq<Line>)
    requires forall i :: 0 <= i < |file| ==> Clean(file[i])
    ensures ReadText(FileText(file)) == ReadText("\n" + FileText(file)) == Readable(file)
  {
    if file == [] {
      NothingLeft();
      assert "\n" + "" == "\n";
    } else {
      TextReadsBack(file[1..]);
      TextReadsOn(file);
    }
  }

  /**
   The text a list is written as, read into an empty list, gives that list again, for names and
   source files that are words, exactly when no count is the end marker.
   */
  lemma TextReloadIff(l: seq<Rec>)
    requires Sorted(l) && AllKnown(l)
    requires forall i :: 0 <= i < |l| ==> Clean(Written(l)[i])
    ensures Merged([], ReadText(FileText(Written(l)))) == l <==> forall i :: 0 <= i < |l| ==> l[i].count != -1
  {
    TextReadsBack(Written(l));
    ReloadIff(l);
  }

  /** A line is the six fields in this order, with tabs between them. */
  lemma FieldsOfLine(fp: Line)
    ensures LineText(fp, "") == fp.name + "\t" + Show(fp.argcount) + "\t" + Show(fp.count) + "\t"
                              + fp.sourceFile + "\t" + Show(fp.firstLine) + "\t" + Show(fp.lastLine) + "\n"
  {
  }
}
