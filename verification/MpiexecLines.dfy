/** What the words of a line of a configuration file are, whatever characters it is made of, and what two dashes are. */
module MpiexecLines {
  import opened MpiexecSpec

  /** Words are separated by blanks and the characters that end lines. */
  predicate Separates(c: char) { c == ' ' || c == '\r' || c == '\n' }

  predicate IsGap(s: string) { forall i :: 0 <= i < |s| ==> Separates(s[i]) }

  predicate IsPlain(s: string) { s != [] && forall i :: 0 <= i < |s| ==> !Separates(s[i]) }

  /** A line with a gap before each of its words and one at its end. */
  function Laid(gaps: seq<string>, words: seq<string>): string
    requires |gaps| == |words| + 1
    decreases |words|
  {
    if words == [] then gaps[0] else gaps[0] + (words[0] + Laid(gaps[1..], words[1..]))
  }

  /** Only the gaps at both ends may be empty. */
  predicate WellLaid(gaps: seq<string>, words: seq<string>) {
    && |gaps| == |words| + 1
    && (forall i :: 0 <= i < |words| ==> IsPlain(words[i]))
    && (forall i :: 0 <= i < |gaps| ==> IsGap(gaps[i]))
    && (forall i :: 0 < i < |words| ==> gaps[i] != [])
  }

  lemma WellLaidRest(gaps: seq<string>, words: seq<string>)
    requires WellLaid(gaps, words) && words != []
    ensures WellLaid(gaps[1..], words[1..]) && IsGap(gaps[0]) && IsPlain(words[0])
    ensures Laid(gaps[1..], words[1..]) == [] || Separates(Laid(gaps[1..], words[1..])[0])
  {
    var g, w := gaps[1..], words[1..];
    assert forall i :: 0 <= i < |w| ==> w[i] == words[i + 1];
    assert forall i :: 0 <= i < |g| ==> g[i] == gaps[i + 1];
    if w != [] { assert g[0] != [] && Laid(g, w)[0] == g[0][0]; }
  }

  lemma DelimiterIs(c: char)
    ensures IsDelimiter(c) <==> Separates(c)
  {
  }

  lemma {:induction false} RunOver(s: string, more: string, delimiters: bool)
    requires forall i :: 0 <= i < |s| ==> Separates(s[i]) == delimiters
    requires more != [] ==> Separates(more[0]) != delimiters
    ensures Run(s + more, delimiters) == |s|
    decreases |s|
  {
    if s == [] {
      assert s + more == more;
      if more != [] { DelimiterIs(more[0]); }
    } else {
      DelimiterIs(s[0]);
      assert (s + more)[1..] == s[1..] + more;
      RunOver(s[1..], more, delimiters);
    }
  }

  lemma WordFirst(gap: string, word: string, more: string)
    requires IsGap(gap) && IsPlain(word) && (more == [] || Separates(more[0]))
    ensures Tokens(gap + (word + more)) == [word] + Tokens(more)
  {
    var body := word + more;
    assert body[0] == word[0];
    RunOver(gap, body, true);
    assert (gap + body)[|gap|..] == body;
    RunOver(word, more, false);
    assert body[..|word|] == word && body[|word|..] == more;
  }

  lemma NoWord(gap: string)
    requires IsGap(gap)
    ensures Tokens(gap) == []
  {
    RunOver(gap, [], true);
    assert gap + [] == gap;
  }

  /** A line laid out in any way is split into its words. */
  lemma {:induction false} WordsOfLaid(gaps: seq<string>, words: seq<string>)
    requires WellLaid(gaps, words)
    ensures Tokens(Laid(gaps, words)) == words
    decreases |words|
  {
    if words == [] {
      NoWord(gaps[0]);
    } else {
      WellLaidRest(gaps, words);
      WordsOfLaid(gaps[1..], words[1..]);
      WordFirst(gaps[0], words[0], Laid(gaps[1..], words[1..]));
      assert words == [words[0]] + words[1..];
    }
  }

  /** How long the beginning of a line is that separates, or does not. */
  lemma Stretch(s: string, separates: bool) returns (n: nat)
    ensures n <= |s| && (forall i :: 0 <= i < n ==> Separates(s[i]) == separates) && (n < |s| ==> Separates(s[n]) != separates)
  {
    n := 0;
    while n < |s| && Separates(s[n]) == separates
      invariant n <= |s| && forall i :: 0 <= i < n ==> Separates(s[i]) == separates
    {
      n := n + 1;
    }
  }

  /** And every line is laid out in some way. */
  lemma {:induction false} EveryLineIsLaid(line: string) returns (gaps: seq<string>, words: seq<string>)
    ensures WellLaid(gaps, words) && line == Laid(gaps, words)
    ensures line != [] && !Separates(line[0]) ==> gaps[0] == []
    ensures line != [] && Separates(line[0]) ==> gaps[0] != []
    decreases |line|
  {
    var n := Stretch(line, true);
    var gap, body := line[..n], line[n..];
    assert line == gap + body;
    if body == [] {
      gaps, words := [gap], [];
    } else {
      var m := Stretch(body, false);
      var word, more := body[..m], body[m..];
      assert m > 0 by { assert body[0] == line[n]; }
      assert body == word + more;
      var g, w := EveryLineIsLaid(more);
      gaps, words := [gap] + g, [word] + w;
      assert gaps[1..] == g && words[1..] == w;
      assert |w| > 0 ==> more != [];
      assert more != [] ==> Separates(more[0]) by { assert m < |body| ==> body[m] == more[0]; }
    }
  }

  /** So the words of a line are those between its gaps, in order, and all of them. */
  lemma WordsOfAnyLine(line: string) returns (gaps: seq<string>, words: seq<string>)
    ensures WellLaid(gaps, words) && line == Laid(gaps, words) && Tokens(line) == words
  {
    gaps, words := EveryLineIsLaid(line);
    WordsOfLaid(gaps, words);
  }

  // ------------------------------------------------------------------- dashes

  /** The second of two dashes at the beginning of a word is dropped; any other word stays as it is. */
  lemma TrimIs(t: string)
    ensures forall name: string :: t == "--" + name ==> Trim(t) == "-" + name
    ensures (forall name: string :: t != "--" + name) ==> Trim(t) == t
  {
    forall name: string | t == "--" + name
      ensures Trim(t) == "-" + name
    {
      assert t[2..] == name && t[..1] == "-";
    }
    if |t| >= 2 && t[0] == '-' && t[1] == '-' {
      assert t == "--" + t[2..];
    }
  }

  /** So an option means the same with two dashes as with one. */
  lemma TwoDashesAreOne(s: Settings, name: string, rest: seq<string>)
    requires !IsOption(name)
    ensures Options(s, ["--" + name] + rest) == Options(s, ["-" + name] + rest)
  {
    var two, one := ["--" + name] + rest, ["-" + name] + rest;
    TrimIs("--" + name);
    assert Trim("-" + name) == "-" + name by { assert ("-" + name)[1..] == name; }
    assert two[1..] == rest && one[1..] == rest;
    assert OneOption(s, two) == OneOption(s, one) by {
      assert |rest| > 0 ==> two[1] == rest[0] && one[1] == rest[0];
    }
    forall n: nat | 1 <= n <= |two|
      ensures two[n..] == one[n..]
    {
      assert two[n..] == rest[n - 1..] && one[n..] == rest[n - 1..];
    }
  }
}
