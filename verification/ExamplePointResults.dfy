/** Splitting undoes joining, and reading undoes printing exactly for the points the program keeps. */
module ExamplePointResults {
  import opened Common
  import opened ExamplePointSpec

  // ------------------------------------------------------------------- splitting undoes joining

  function Spaces(n: nat): (s: string)
    ensures |s| == n && forall i :: 0 <= i < n ==> s[i] == ' '
  {
    seq(n, _ => ' ')
  }

  /** A word as it is written: after some spaces, and in quotes or not. */
  datatype Word = Word(gap: nat, quoted: bool, text: string)

  function Written(w: Word): string {
    if w.quoted then Quoted(w.text) else w.text
  }

  /** Quotes protect anything but quotes; without them a word has no spaces and does not begin with a quote. */
  predicate Writable(w: Word) {
    if w.quoted then '"' !in w.text else w.text != [] && w.text[0] != '"' && ' ' !in w.text
  }

  /** Whether a word ends where what follows it begins. */
  predicate EndsBefore(w: Word, tail: string) {
    w.quoted || tail == [] || tail[0] == ' '
  }

  lemma SkipSpacesOf(n: nat, s: string)
    requires s == [] || s[0] != ' '
    ensures SkipSpaces(Spaces(n) + s) == s
  {
    var t := Spaces(n) + s;
    RunOfIs(t, ' ', true, n);
    assert t[n..] == s;
  }

  lemma TokensAfterSkip(s: string)
    ensures AllTokens(SkipSpaces(s)) == AllTokens(s)
  {
    var r := SkipSpaces(s);
    SkipSpacesOf(0, r);
    assert Spaces(0) + r == r;
    assert FirstToken(r) == FirstToken(s);
  }

  /** A string cut at the first of a character. */
  lemma CutAt(before: string, c: char, after: string)
    requires c !in before
    ensures var s, n := before + [c] + after, |before|;
            RunOf(s, c, false) == n && s[..n] == before && s[n + 1..] == after
  {
    var s, n := before + [c] + after, |before|;
    assert forall i :: 0 <= i < n ==> s[i] == before[i];
    RunOfIs(s, c, false, n);
  }

  lemma QuotedFirst(text: string, tail: string)
    requires '"' !in text
    ensures QuotedToken((Quoted(text) + tail)[1..]) == FoundBefore(text, tail)
  {
    CutAt(text, '"', tail);
    assert (Quoted(text) + tail)[1..] == text + ['"'] + tail;
  }

  lemma PlainFirst(text: string, tail: string)
    requires text != [] && text[0] != ' ' && ' ' !in text && (tail == [] || tail[0] == ' ')
    ensures PlainToken(text + tail) == FoundBefore(text, tail)
  {
    var s, n := text + tail, |text|;
    assert forall i :: 0 <= i < n ==> s[i] == text[i];
    RunOfIs(s, ' ', false, n);
    assert s[..n] == text && s[n..] == tail;
  }

  lemma FirstOfWord(w: Word, tail: string)
    requires Writable(w) && EndsBefore(w, tail)
    ensures FirstToken(Spaces(w.gap) + Written(w) + tail) == FoundBefore(w.text, tail)
  {
    AppendAssociates(Spaces(w.gap), Written(w), tail);
    SkipSpacesOf(w.gap, Written(w) + tail);
    if w.quoted { QuotedFirst(w.text, tail); } else { PlainFirst(w.text, tail); }
  }

  lemma TokensOfWord(w: Word, tail: string)
    requires Writable(w) && EndsBefore(w, tail)
    ensures AllTokens(Spaces(w.gap) + Written(w) + tail) == [w.text] + AllTokens(tail)
  {
    FirstOfWord(w, tail);
    TokensAfterSkip(tail);
  }

  function Text(ws: seq<Word>): string {
    if ws == [] then "" else Spaces(ws[0].gap) + Written(ws[0]) + Text(ws[1..])
  }

  /** After a word without quotes comes a space. */
  predicate Separated(ws: seq<Word>) {
    && (forall i :: 0 <= i < |ws| ==> Writable(ws[i]))
    && (forall i :: 0 < i < |ws| ==> ws[i - 1].quoted || ws[i].gap > 0)
  }

  function Texts(ws: seq<Word>): (ts: seq<string>)
    ensures |ts| == |ws| && forall i :: 0 <= i < |ws| ==> ts[i] == ws[i].text
  {
    seq(|ws|, i requires 0 <= i < |ws| => ws[i].text)
  }

  lemma TextCons(w: Word, rest: seq<Word>, tail: string)
    ensures Text([w] + rest) + tail == Spaces(w.gap) + Written(w) + (Text(rest) + tail)
  {
    assert ([w] + rest)[1..] == rest;
  }

  lemma TextsCons(w: Word, rest: seq<Word>)
    ensures Texts([w] + rest) == [w.text] + Texts(rest)
  {
  }

  lemma SeparatedRest(w: Word, rest: seq<Word>, tail: string)
    requires Separated([w] + rest) && EndsBefore(if rest == [] then w else rest[|rest| - 1], tail)
    ensures Writable(w) && Separated(rest) && EndsBefore(w, Text(rest) + tail)
  {
    var ws := [w] + rest;
    assert ws[0] == w && forall i :: 0 <= i < |rest| ==> rest[i] == ws[i + 1];
    if rest != [] { assert ws[1] == rest[0]; }
  }

  lemma TokensCons(w: Word, rest: seq<Word>, tail: string, after: seq<string>)
    requires Writable(w) && EndsBefore(w, Text(rest) + tail)
    requires AllTokens(Text(rest) + tail) == Texts(rest) + after
    ensures AllTokens(Text([w] + rest) + tail) == Texts([w] + rest) + after
  {
    var more, texts := Text(rest) + tail, Texts(rest);
    assert Text([w] + rest) + tail == Spaces(w.gap) + Written(w) + more by { TextCons(w, rest, tail); }
    assert AllTokens(Spaces(w.gap) + Written(w) + more) == [w.text] + (texts + after) by { TokensOfWord(w, more); }
    assert Texts([w] + rest) == [w.text] + texts by { TextsCons(w, rest); }
    AppendAssociates([w.text], texts, after);
  }

  predicate Joinable(ws: seq<Word>, tail: string) {
    Separated(ws) && (ws != [] ==> EndsBefore(ws[|ws| - 1], tail))
  }

  lemma JoinableRest(ws: seq<Word>, tail: string)
    requires Joinable(ws, tail) && ws != []
    ensures Joinable(ws[1..], tail) && Writable(ws[0]) && EndsBefore(ws[0], Text(ws[1..]) + tail)
  {
    var w, rest := ws[0], ws[1..];
    assert ws == [w] + rest;
    if rest != [] { assert rest[|rest| - 1] == ws[|ws| - 1]; }
    SeparatedRest(w, rest, tail);
  }

  /** Splitting finds the words of a text again, and goes on with what is after them. */
  lemma {:induction false} TokensOfWords(ws: seq<Word>, tail: string)
    requires Joinable(ws, tail)
    ensures AllTokens(Text(ws) + tail) == Texts(ws) + AllTokens(tail)
  {
    if ws == [] {
      assert Text(ws) + tail == tail && Texts(ws) == [];
    } else {
      JoinableRest(ws, tail);
      TokensOfWords(ws[1..], tail);
      TokensCons(ws[0], ws[1..], tail, AllTokens(tail));
      assert ws == [ws[0]] + ws[1..];
    }
  }

  // ------------------------------------------------------------------- reading undoes printing

  /** The text of a number has nothing in it that splits words or ranges. */
  predicate Bare(t: string) {
    t != [] && forall i :: 0 <= i < |t| ==> t[i] !in " ,()\""
  }

  /** The numbers of a point read back from their own text. */
  predicate NumbersReadBack(c: Codec, p: Point) {
    && (forall x :: x in [p.xmin, p.ymin, p.xmax, p.ymax] ==> Bare(c.show(x)) && c.read(c.show(x)) == Some(x))
    && Bare(c.showInt(p.maxIter)) && c.readInt(c.showInt(p.maxIter)) == Some(p.maxIter)
  }

  lemma RangeReads(c: Codec, s: State, x: real, y: real)
    requires Bare(c.show(x)) && Bare(c.show(y)) && c.read(c.show(x)) == Some(x) && c.read(c.show(y)) == Some(y)
    ensures IsRange(Range(c.show(x), c.show(y)))
    ensures TakeRange(c, s, Range(c.show(x), c.show(y))) == Took(SetCorner(s, x, y), 1)
  {
    var a, b := c.show(x), c.show(y);
    var t, inside := Range(a, b), a + "," + b;
    assert t[1..|t| - 1] == inside;
    RunOfIs(inside, ',', false, |a|);
    assert inside[..|a|] == a && inside[|a| + 1..] == b;
  }

  function Front(c: Codec, p: Point): (ts: seq<string>)
    ensures |ts| == 4
  {
    [Range(c.show(p.xmin), c.show(p.ymin)), Range(c.show(p.xmax), c.show(p.ymax)), "max_iter", c.showInt(p.maxIter)]
  }

  const ALL_SET := NO_MARKS.(bxmin := true, bymin := true, bxmax := true, bymax := true, ranges := 2)

  lemma FrontReads(c: Codec, p: Point, ts: seq<string>)
    requires NumbersReadBack(c, p)
    ensures ReadTokens(c, State(DEFAULTS, NO_MARKS), Front(c, p) + ts) == ReadTokens(c, State(p.(name := None), ALL_SET), ts)
  {
    var s0 := State(DEFAULTS, NO_MARKS);
    var s1, t0 := SetCorner(s0, p.xmin, p.ymin), Front(c, p) + ts;
    RangeReads(c, s0, p.xmin, p.ymin);
    var s2, t1 := SetCorner(s1, p.xmax, p.ymax), t0[1..];
    RangeReads(c, s1, p.xmax, p.ymax);
    var t2 := t1[1..];
    assert t2[0] == "max_iter" && t2[1] == c.showInt(p.maxIter) && t2[2..] == ts;
    assert ReadTokens(c, s0, t0) == ReadTokens(c, s1, t1);
    assert ReadTokens(c, s1, t1) == ReadTokens(c, s2, t2);
  }

  lemma NameReads(c: Codec, s: State, name: string, ts: seq<string>)
    ensures ReadTokens(c, s, ["name", name] + ts) == ReadTokens(c, s.(p := s.p.(name := Some(name))), ts)
  {
    var all := ["name", name] + ts;
    assert all[2..] == ts && OneToken(c, s, all) == Took(s.(p := s.p.(name := Some(name))), 2);
  }

  /** A name found while reading is one of the tokens after the first. */
  lemma {:induction false} NameIsLater(c: Codec, s: State, ts: seq<string>)
    ensures var name := ReadTokens(c, s, ts).s.p.name;
            name == s.p.name || exists j :: 1 <= j < |ts| && name == Some(ts[j])
    decreases |ts|
  {
    if ts != [] {
      var e := OneToken(c, s, ts);
      if e.Took? {
        NameIsLater(c, e.s, ts[e.n..]);
        var name := ReadTokens(c, e.s, ts[e.n..]).s.p.name;
        if j :| 1 <= j < |ts[e.n..]| && name == Some(ts[e.n..][j]) {
          assert ts[e.n..][j] == ts[e.n + j];
        } else if e.s.p.name != s.p.name {
          assert |ts| >= 2 && e.s.p.name == Some(ts[1]);
        }
      }
    }
  }

  lemma {:induction false} TokensNotLonger(s: string)
    ensures forall j :: 0 <= j < |AllTokens(s)| ==> |AllTokens(s)[j]| <= |s|
    decreases |s|
  {
    var t := FirstToken(s);
    if t.Found? && t.rest.Some? { TokensNotLonger(t.rest.value); }
  }

  lemma LaterTokensShorter(s: string)
    ensures forall j :: 1 <= j < |AllTokens(s)| ==> |AllTokens(s)[j]| < |s|
  {
    var t := FirstToken(s);
    if t.Found? && t.rest.Some? { TokensNotLonger(t.rest.value); }
  }

  // ------------------------------------------------------------------- the text of a point

  /** A word without quotes, after one space or at the very beginning. */
  lemma PlainTokens(t: string, tail: string)
    requires Writable(Word(1, false, t)) && (tail == [] || tail[0] == ' ')
    ensures AllTokens(" " + t + tail) == AllTokens(t + tail) == [t] + AllTokens(tail)
  {
    TokensOfWord(Word(1, false, t), tail);
    assert Spaces(1) == " ";
    TokensOfWord(Word(0, false, t), tail);
    assert Spaces(0) + t == t;
  }

  lemma RangeWritable(a: string, b: string)
    requires Bare(a) && Bare(b)
    ensures Writable(Word(1, false, Range(a, b)))
  {
  }

  lemma FourTokens(a: string, b: string, d: string, e: string, tail: string)
    requires Writable(Word(1, false, a)) && Writable(Word(1, false, b)) && Writable(Word(1, false, d)) && Writable(Word(1, false, e))
    requires tail == [] || tail[0] == ' '
    ensures AllTokens(a + (" " + b + (" " + d + (" " + e + tail)))) == [a, b, d, e] + AllTokens(tail)
  {
    PlainTokens(e, tail);
    PlainTokens(d, " " + e + tail);
    PlainTokens(b, " " + d + (" " + e + tail));
    PlainTokens(a, " " + b + (" " + d + (" " + e + tail)));
    FourThen(a, b, d, e, AllTokens(tail));
  }

  lemma FourThen(a: string, b: string, d: string, e: string, ts: seq<string>)
    ensures [a] + ([b] + ([d] + ([e] + ts))) == [a, b, d, e] + ts
  {
  }

  lemma FrontTokens(c: Codec, p: Point)
    requires NumbersReadBack(c, p)
    ensures AllTokens(ToText(c, p)) == Front(c, p) + AllTokens(NameText(p.name))
  {
    RangeWritable(c.show(p.xmin), c.show(p.ymin));
    RangeWritable(c.show(p.xmax), c.show(p.ymax));
    FourTokens(Range(c.show(p.xmin), c.show(p.ymin)), Range(c.show(p.xmax), c.show(p.ymax)),
               "max_iter", c.showInt(p.maxIter), NameText(p.name));
  }

  /** What of a name's text comes after the quote that ends it when it is read. */
  function Spill(name: string): string {
    var n := RunOf(name, '"', false);
    if n < |name| then name[n + 1..] + "\"" else []
  }

  function UpToQuote(name: string): (r: string)
    ensures '"' !in r && (r == name <==> '"' !in name) && |r| <= |name|
  {
    RunOfAll(name, '"', false);
    name[..RunOf(name, '"', false)]
  }

  lemma Regroup<T>(q: seq<T>, a: seq<T>, b: seq<T>)
    ensures q + (a + q + b) + q == (q + a + q) + (b + q)
  {
  }

  lemma QuotedSplits(name: string)
    ensures Quoted(name) == Quoted(UpToQuote(name)) + Spill(name)
  {
    var n := RunOf(name, '"', false);
    if n < |name| {
      assert name == name[..n] + [name[n]] + name[n + 1..];
      Regroup([name[n]], name[..n], name[n + 1..]);
    } else {
      assert name[..n] == name;
      assert Quoted(name) + [] == Quoted(name);
    }
  }

  lemma QuotedTokens(name: string)
    ensures AllTokens(" " + Quoted(name)) == [UpToQuote(name)] + AllTokens(Spill(name))
  {
    var w := Word(1, true, UpToQuote(name));
    QuotedSplits(name);
    TokensOfWord(w, Spill(name));
    assert Spaces(1) == " ";
    AppendAssociates(" ", Quoted(w.text), Spill(name));
  }

  lemma WordThen(t: string, tail: string, ts: seq<string>)
    requires Writable(Word(1, false, t)) && tail != [] && tail[0] == ' ' && AllTokens(tail) == ts
    ensures AllTokens(" " + t + tail) == [t] + ts
  {
    PlainTokens(t, tail);
  }

  /** The name is read up to its first quote; what is left of it is read as more tokens. */
  lemma NameTokens(name: string)
    ensures AllTokens(NameText(Some(name))) == ["name", UpToQuote(name)] + AllTokens(Spill(name))
  {
    var text, first, ts := " " + Quoted(name), UpToQuote(name), AllTokens(Spill(name));
    assert AllTokens(text) == [first] + ts by { QuotedTokens(name); }
    WordThen("name", text, [first] + ts);
    TwoThen("name", first, ts);
  }

  lemma TwoThen(a: string, b: string, ts: seq<string>)
    ensures [a] + ([b] + ts) == [a, b] + ts
  {
  }

  predicate InSquare(lo: real, hi: real) { -2.0 <= lo <= hi <= 2.0 }

  /** The points the program keeps: corners in order inside the square, and a sensible iteration limit. */
  predicate Kept(p: Point) {
    InSquare(p.xmin, p.xmax) && InSquare(p.ymin, p.ymax) && 1 <= p.maxIter <= 10000
  }

  predicate NoQuote(name: Option<string>) {
    name.Some? ==> '"' !in name.value
  }

  lemma AdjustIff(p: Point)
    ensures Adjust(p) == p <==> Kept(p)
  {
  }

  lemma ReadsAfterFront(c: Codec, p: Point)
    requires NumbersReadBack(c, p)
    ensures ReadTokens(c, State(DEFAULTS, NO_MARKS), AllTokens(ToText(c, p)))
            == ReadTokens(c, State(p.(name := None), ALL_SET), AllTokens(NameText(p.name)))
  {
    FrontTokens(c, p);
    FrontReads(c, p, AllTokens(NameText(p.name)));
  }

  lemma NoSpill(name: string)
    requires '"' !in name
    ensures Spill(name) == [] && AllTokens([]) == []
  {
    RunOfAll(name, '"', false);
  }

  lemma GoodNameReads(c: Codec, s: State, name: string)
    requires '"' !in name
    ensures ReadTokens(c, s, AllTokens(NameText(Some(name)))) == Reading(s.(p := s.p.(name := Some(name))), true)
  {
    NoSpill(name);
    NameTokens(name);
    NameReads(c, s, name, []);
  }

  lemma GoodPointReads(c: Codec, p: Point)
    requires NumbersReadBack(c, p) && NoQuote(p.name)
    ensures FromText(c, ToText(c, p)) == Read(Adjust(p), false, true)
  {
    ReadsAfterFront(c, p);
    var s := State(p.(name := None), ALL_SET);
    if p.name.Some? { GoodNameReads(c, s, p.name.value); }
  }

  lemma BadNameReads(c: Codec, s: State, name: string)
    requires '"' in name
    ensures ReadTokens(c, s, AllTokens(NameText(Some(name)))).s.p.name != Some(name)
  {
    var ts := AllTokens(Spill(name));
    NameTokens(name);
    NameReads(c, s, UpToQuote(name), ts);
    NameIsLater(c, s.(p := s.p.(name := Some(UpToQuote(name)))), ts);
    LaterTokensShorter(Spill(name));
    assert |Spill(name)| <= |name|;
  }

  lemma BadPointReads(c: Codec, p: Point)
    requires NumbersReadBack(c, p) && !NoQuote(p.name)
    ensures FromText(c, ToText(c, p)).p.name != p.name
  {
    ReadsAfterFront(c, p);
    BadNameReads(c, State(p.(name := None), ALL_SET), p.name.value);
  }

  /** Reading what was printed restores the point, all of it given, exactly when it is one the program keeps and its name has no quote. */
  lemma RoundTripIff(c: Codec, p: Point)
    requires NumbersReadBack(c, p)
    ensures FromText(c, ToText(c, p)) == Read(p, false, true) <==> Kept(p) && NoQuote(p.name)
  {
    AdjustIff(p);
    if NoQuote(p.name) { GoodPointReads(c, p); } else { BadPointReads(c, p); }
  }

  /** Ordering and cutting two bounds leaves an interval of the square exactly when the two together met it. */
  lemma CutIsInSquareIff(lo: real, hi: real)
    ensures InSquare(Low(lo, hi), High(lo, hi)) <==> (lo <= 2.0 || hi <= 2.0) && (lo >= -2.0 || hi >= -2.0)
  {
    var l, h := Low(lo, hi), High(lo, hi);
    assert (lo <= hi ==> l == if lo < -2.0 then -2.0 else lo) && (lo > hi ==> l == if hi < -2.0 then -2.0 else hi);
  }
}
