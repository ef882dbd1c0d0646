/** What any text at all says of a point: which of its words count, when reading throws, and what is left then. */
module ExamplePointText {
  import opened Common
  import opened ExamplePointSpec
  import opened ExamplePointResults
  import opened ExamplePointOptions

  // ------------------------------------------------------------------- tokens of any text

  /** The end of a text: spaces, or a quote that is never closed. */
  ghost predicate IsEnd(tail: string, last: seq<string>) {
    || (last == [] && IsBlank(tail))
    || (|last| == 1 && '"' !in last[0] && exists n: nat :: IsOpen(tail, n, last[0]))
  }

  predicate IsBlank(s: string) { forall i :: 0 <= i < |s| ==> s[i] == ' ' }

  predicate IsOpen(tail: string, n: nat, inside: string) { tail == Spaces(n) + ("\"" + inside) }

  lemma BlankTokens(tail: string)
    requires IsBlank(tail)
    ensures AllTokens(tail) == []
  {
    RunOfIs(tail, ' ', true, |tail|);
  }

  lemma OpenFirst(inside: string)
    requires '"' !in inside
    ensures QuotedToken(inside) == Found(inside, None)
  {
    RunOfIs(inside, '"', false, |inside|);
    assert inside[..|inside|] == inside;
    RunOfIs([], ' ', true, 0);
  }

  lemma OpenTokens(tail: string, n: nat, inside: string)
    requires IsOpen(tail, n, inside) && '"' !in inside
    ensures AllTokens(tail) == [inside]
  {
    SkipSpacesOf(n, "\"" + inside);
    assert ("\"" + inside)[1..] == inside;
    OpenFirst(inside);
    assert FirstToken(tail) == Found(inside, None);
  }

  lemma EndTokens(tail: string, last: seq<string>)
    requires IsEnd(tail, last)
    ensures AllTokens(tail) == last
  {
    if last == [] {
      BlankTokens(tail);
    } else {
      var n: nat :| IsOpen(tail, n, last[0]);
      OpenTokens(tail, n, last[0]);
    }
  }

  /** A string cut after the spaces it begins with. */
  lemma CutSpaces(text: string) returns (n: nat, body: string)
    ensures text == Spaces(n) + body && (body != [] ==> body[0] != ' ')
  {
    n := RunOf(text, ' ', true);
    body := text[n..];
    RunOfAll(text, ' ', true);
    assert text[..n] == Spaces(n);
  }

  /** A string that begins with a quote, cut after the next. */
  lemma CutQuoted(body: string) returns (inside: string, more: Option<string>)
    requires body != [] && body[0] == '"'
    ensures '"' !in inside && body == if more.Some? then Quoted(inside) + more.value else "\"" + inside
  {
    var rest := body[1..];
    var m := RunOf(rest, '"', false);
    RunOfAll(rest, '"', false);
    assert body == "\"" + rest;
    inside, more := rest[..m], None;
    if m < |rest| {
      more := Some(rest[m + 1..]);
      assert rest == inside + ("\"" + rest[m + 1..]);
    }
  }

  /** A string that begins with neither, cut before its first space. */
  lemma CutPlain(body: string) returns (w: string, more: string)
    requires body != [] && body[0] != ' '
    ensures body == w + more && w != [] && w[0] == body[0] && ' ' !in w && (more != [] ==> more[0] == ' ')
  {
    var m := RunOf(body, ' ', false);
    RunOfAll(body, ' ', false);
    w, more := body[..m], body[m..];
  }

  /** Every text is words, each quoted or not, with spaces after those that are not, and such an end. */
  lemma {:induction false} EveryText(text: string) returns (ws: seq<Word>, tail: string, last: seq<string>)
    ensures Joinable(ws, tail) && IsEnd(tail, last) && text == Text(ws) + tail
    ensures text == [] || text[0] != ' ' || ws == [] || ws[0].gap > 0
    decreases |text|
  {
    var n, body := CutSpaces(text);
    ws, tail, last := [], text, [];
    var w, more := Word(n, false, []), None;
    if body == [] {
      assert IsBlank(text);
    } else if body[0] == '"' {
      var inside;
      inside, more := CutQuoted(body);
      w := Word(n, true, inside);
      if more.None? {
        last := [inside];
        assert IsOpen(text, n, inside);
      }
    } else {
      var word, rest := CutPlain(body);
      w, more := Word(n, false, word), Some(rest);
    }
    assert Text([]) + text == text;
    if more.Some? {
      assert text == Spaces(n) + (Written(w) + more.value);
      ws, tail, last := EveryText(more.value);
      FirstGap(w, more.value, ws, tail);
      OneMoreWord(w, ws, tail);
      AppendAssociates(Spaces(n), Written(w), more.value);
      ws := [w] + ws;
    }
  }

  lemma FirstGap(w: Word, more: string, ws: seq<Word>, tail: string)
    requires more == Text(ws) + tail && (w.quoted || (more != [] ==> more[0] == ' '))
    requires more == [] || more[0] != ' ' || ws == [] || ws[0].gap > 0
    requires Joinable(ws, tail)
    ensures w.quoted || (ws == [] ==> tail == [] || tail[0] == ' ')
    ensures w.quoted || (ws != [] ==> ws[0].gap > 0)
  {
    if ws == [] {
      assert more == tail;
    } else {
      assert Writable(ws[0]);
      assert |Text(ws)| >= |Written(ws[0])| > 0;
    }
  }

  lemma OneMoreWord(w: Word, ws: seq<Word>, tail: string)
    requires Writable(w) && Joinable(ws, tail) && (w.quoted || (ws == [] ==> tail == [] || tail[0] == ' '))
    requires w.quoted || (ws != [] ==> ws[0].gap > 0)
    ensures Joinable([w] + ws, tail) && Text([w] + ws) + tail == Spaces(w.gap) + Written(w) + (Text(ws) + tail)
  {
    TextCons(w, ws, tail);
    var all := [w] + ws;
    assert forall i :: 0 < i < |all| ==> all[i] == ws[i - 1];
    if ws != [] { assert all[|all| - 1] == ws[|ws| - 1]; }
  }

  /** So the tokens of any text are its words and what is behind a quote that is never closed. */
  lemma TokensOfAnyText(text: string) returns (ws: seq<Word>, tail: string, last: seq<string>)
    ensures Joinable(ws, tail) && IsEnd(tail, last) && text == Text(ws) + tail
    ensures AllTokens(text) == Texts(ws) + last
  {
    ws, tail, last := EveryText(text);
    TokensOfWords(ws, tail);
    EndTokens(tail, last);
  }

  // ------------------------------------------------------------------- tokens that belong together

  /** A token with the one after it, when it takes one and there is one. */
  datatype Said = Said(word: string, value: Option<string>)

  predicate TakesValue(t: string) { TakesNumber(t) || TakesLimit(t) || TakesTitle(t) }

  function AllSaid(ts: seq<string>): seq<Said>
    decreases |ts|
  {
    if ts == [] then []
    else if TakesValue(ts[0]) && |ts| >= 2 then [Said(ts[0], Some(ts[1]))] + AllSaid(ts[2..])
    else [Said(ts[0], None)] + AllSaid(ts[1..])
  }

  /** Two parts in parentheses, with a comma between them and no other. */
  predicate IsPair(t: string, x: string, y: string) {
    t == "(" + x + "," + y + ")" && ',' !in x && ',' !in y
  }

  /** A number that belongs to it cannot be read. */
  ghost predicate Unreadable(c: Codec, u: Said) {
    || (exists x, y :: IsPair(u.word, x, y) && (c.read(x).None? || c.read(y).None?))
    || (u.value.Some? && TakesNumber(u.word) && c.read(u.value.value).None?)
    || (u.value.Some? && TakesLimit(u.word) && c.readInt(u.value.value).None?)
  }

  /** What it says when it can be read. */
  ghost predicate Means(c: Codec, u: Said, i: Item) {
    match i
    case Corner(a, b) => exists x, y :: IsPair(u.word, x, y) && c.read(x) == Some(a) && c.read(y) == Some(b)
    case Number(option, v) => TakesNumber(option) && u.word == option && u.value.Some? && c.read(u.value.value) == Some(v)
    case Limit(word, n) => TakesLimit(word) && u.word == word && u.value.Some? && c.readInt(u.value.value) == Some(n)
    case Title(word, name) => TakesTitle(word) && u == Said(word, Some(name))
    case Other(token) => u == Said(token, None) && !(exists x, y :: IsPair(token, x, y))
  }

  lemma PairIsHalves(t: string, x: string, y: string)
    requires IsPair(t, x, y)
    ensures IsRange(t) && Halves(t) == Some((x, y))
  {
    assert t[1..|t| - 1] == x + [','] + y;
    CutAt(x, ',', y);
  }

  lemma HalvesArePair(t: string)
    requires IsRange(t) && Halves(t).Some?
    ensures IsPair(t, Halves(t).value.0, Halves(t).value.1)
  {
    var inside := t[1..|t| - 1];
    var n := RunOf(inside, ',', false);
    RunOfAll(inside, ',', false);
    assert inside == inside[..n] + "," + inside[n + 1..];
    assert t == "(" + inside + ")";
  }

  /** One of them is read, or throws and changes nothing. */
  ghost predicate Handled(c: Codec, s: State, u: Said, e: Effect, i: Item) {
    if e.Threw? then Unreadable(c, u) && e == Threw(s)
    else Means(c, u, i) && !Unreadable(c, u) && e == Took(Does(s, i), if u.value.Some? then 2 else 1)
  }

  function FirstSaid(ts: seq<string>): (u: Said)
    requires ts != []
    ensures AllSaid(ts) != [] && AllSaid(ts)[0] == u
  {
    Said(ts[0], if TakesValue(ts[0]) && |ts| >= 2 then Some(ts[1]) else None)
  }

  lemma OneSaid(c: Codec, s: State, ts: seq<string>) returns (i: Item)
    requires ts != []
    ensures Handled(c, s, FirstSaid(ts), OneToken(c, s, ts), i)
  {
    if IsRange(ts[0]) {
      RangeIsNoOption(c, s, ts);
      i := RangeSaid(c, s, ts[0]);
    } else {
      NoPair(ts[0]);
      if TakesValue(ts[0]) && |ts| >= 2 {
        i := ValueSaid(c, s, ts);
      } else {
        i := Other(ts[0]);
        NothingSaid(c, s, ts);
      }
    }
  }

  lemma RangeIsNoOption(c: Codec, s: State, ts: seq<string>)
    requires ts != [] && IsRange(ts[0])
    ensures FirstSaid(ts) == Said(ts[0], None) && OneToken(c, s, ts) == TakeRange(c, s, ts[0])
  {
  }

  lemma NoPair(t: string)
    requires !IsRange(t)
    ensures forall x, y :: !IsPair(t, x, y)
  {
    forall x, y
      ensures !IsPair(t, x, y)
    {
      if IsPair(t, x, y) { PairIsHalves(t, x, y); }
    }
  }

  lemma NothingSaid(c: Codec, s: State, ts: seq<string>)
    requires ts != [] && !IsRange(ts[0]) && (TakesValue(ts[0]) ==> |ts| == 1) && forall x, y :: !IsPair(ts[0], x, y)
    ensures Handled(c, s, Said(ts[0], None), OneToken(c, s, ts), Other(ts[0]))
  {
  }

  lemma RangeSaid(c: Codec, s: State, t: string) returns (i: Item)
    requires IsRange(t)
    ensures Handled(c, s, Said(t, None), TakeRange(c, s, t), i)
  {
    i := Other(t);
    forall x, y
      ensures IsPair(t, x, y) ==> Halves(t) == Some((x, y))
    {
      if IsPair(t, x, y) { PairIsHalves(t, x, y); }
    }
    if Halves(t).Some? {
      HalvesArePair(t);
      var a, b := c.read(Halves(t).value.0), c.read(Halves(t).value.1);
      if a.Some? && b.Some? { i := Corner(a.value, b.value); }
    }
  }

  lemma ValueSaid(c: Codec, s: State, ts: seq<string>) returns (i: Item)
    requires |ts| >= 2 && TakesValue(ts[0]) && !IsRange(ts[0]) && forall x, y :: !IsPair(ts[0], x, y)
    ensures Handled(c, s, Said(ts[0], Some(ts[1])), OneToken(c, s, ts), i)
  {
    var t, v := ts[0], ts[1];
    if TakesNumber(t) {
      i := if c.read(v).Some? then Number(t, c.read(v).value) else Other(t);
    } else if TakesLimit(t) {
      i := if c.readInt(v).Some? then Limit(t, c.readInt(v).value) else Other(t);
    } else {
      i := Title(t, v);
    }
  }

  ghost predicate AllMean(c: Codec, us: seq<Said>, items: seq<Item>) {
    |items| <= |us| && forall k :: 0 <= k < |items| ==> Means(c, us[k], items[k]) && !Unreadable(c, us[k])
  }

  /** Reading takes them one after the other, up to the first that cannot be read. */
  lemma {:induction false} ReadsSaid(c: Codec, s: State, ts: seq<string>) returns (items: seq<Item>)
    ensures var us := AllSaid(ts);
      && AllMean(c, us, items)
      && (|items| < |us| ==> Unreadable(c, us[|items|]))
      && ReadTokens(c, s, ts) == Reading(DoesAll(s, items), |items| == |us|)
    decreases |ts|
  {
    items := [];
    if ts != [] {
      var i := OneSaid(c, s, ts);
      var e, us := OneToken(c, s, ts), AllSaid(ts);
      if e.Took? {
        assert us == [us[0]] + AllSaid(ts[e.n..]) by { SaidCons(ts); }
        var more := ReadsSaid(c, e.s, ts[e.n..]);
        items := [i] + more;
        assert items[1..] == more && us[1..] == AllSaid(ts[e.n..]);
        assert forall k :: 0 < k < |items| ==> items[k] == more[k - 1] && us[k] == us[1..][k - 1];
      }
    }
  }

  lemma SaidCons(ts: seq<string>)
    requires ts != []
    ensures var us := AllSaid(ts); us != [] && us == [us[0]] + AllSaid(ts[if us[0].value.Some? then 2 else 1..])
  {
  }

  // ------------------------------------------------------------------- the point that is read

  function Lesser(x: real, y: real): (m: real)
    ensures m <= x && m <= y && (m == x || m == y)
  {
    if x < y then x else y
  }

  function Greater(x: real, y: real): (m: real)
    ensures m >= x && m >= y && (m == x || m == y)
  {
    if x < y then y else x
  }

  /** Two bounds in either order, cut to the square. */
  predicate Cut(lo: real, hi: real, x: real, y: real) {
    x == Greater(Lesser(lo, hi), -2.0) && y == Lesser(Greater(lo, hi), 2.0)
  }

  /** The point of items that could all be read. */
  predicate IsPointOf(p: Point, items: seq<Item>) {
    && p.name == LastTitle(items)
    && p.maxIter == (if LastLimit(items).Some? && 1 <= LastLimit(items).value <= 10000 then LastLimit(items).value else 100)
    && if Radius(items) != 0.0 then
         var x, y, r := Or(LastNumber(items, "-rcenter"), 0.0), Or(LastNumber(items, "-icenter"), 0.0), Radius(items);
         Cut(x - r, x + r, p.xmin, p.xmax) && Cut(y - r, y + r, p.ymin, p.ymax)
       else
         Cut(Or(XMin(items), -2.0), Or(XMax(items), 2.0), p.xmin, p.xmax) && Cut(Or(YMin(items), -2.0), Or(YMax(items), 2.0), p.ymin, p.ymax)
  }

  /** The point of the items before one that could not be read: what they say, as it is. */
  predicate IsRawPointOf(p: Point, items: seq<Item>) {
    p == Point(Or(XMin(items), -2.0), Or(YMin(items), -2.0), Or(XMax(items), 2.0), Or(YMax(items), 2.0), Or(LastLimit(items), 100), LastTitle(items))
  }

  lemma ItemsKnown(c: Codec, us: seq<Said>, items: seq<Item>)
    requires AllMean(c, us, items)
    ensures KnownNumbers(items)
  {
    assert forall k :: 0 <= k < |items| ==> Means(c, us[k], items[k]);
  }

  lemma AdjustCuts(p: Point)
    ensures var a := Adjust(p);
      && Cut(p.xmin, p.xmax, a.xmin, a.xmax) && Cut(p.ymin, p.ymax, a.ymin, a.ymax) && a.name == p.name
      && a.maxIter == if 1 <= p.maxIter <= 10000 then p.maxIter else 100
  {
  }

  lemma ItemsMake(items: seq<Item>, ok: bool)
    requires KnownNumbers(items)
    ensures var r := Conclude(Reading(DoesAll(State(DEFAULTS, NO_MARKS), items), ok));
      && r.threw == !ok
      && (ok ==> IsPointOf(r.p, items))
      && (!ok ==> IsRawPointOf(r.p, items))
      && (ok ==> (r.complete <==> Radius(items) != 0.0 || (XMin(items).Some? && YMin(items).Some? && XMax(items).Some? && YMax(items).Some?)))
  {
    var s := State(DEFAULTS, NO_MARKS);
    LowerBounds(s, items);
    UpperBounds(s, items);
    CircleAndRest(s, items);
    AdjustCuts(Corners(DoesAll(s, items)).p);
  }

  /**
   What any text means. Its tokens, those that take a value with the next, are read in order. An exception
   ends the reading exactly when a number of one of them cannot be read, and leaves what those before it say.
   Otherwise the last of each kind decides: the bounds of the circle, or of what was said, are put in order
   and cut to the square, and a limit outside 1 to 10000 becomes 100.
   */
  lemma TextMeans(c: Codec, text: string) returns (items: seq<Item>)
    ensures var us, r := AllSaid(AllTokens(text)), FromText(c, text);
      && AllMean(c, us, items)
      && (r.threw <==> |items| < |us|)
      && (r.threw ==> Unreadable(c, us[|items|]) && IsRawPointOf(r.p, items))
      && (!r.threw ==> IsPointOf(r.p, items))
      && (!r.threw ==> (r.complete <==> Radius(items) != 0.0 || (XMin(items).Some? && YMin(items).Some? && XMax(items).Some? && YMax(items).Some?)))
  {
    var us := AllSaid(AllTokens(text));
    items := ReadsSaid(c, State(DEFAULTS, NO_MARKS), AllTokens(text));
    ItemsKnown(c, us, items);
    ItemsMake(items, |items| == |us|);
  }

  /** Reading throws exactly when some number cannot be read. */
  lemma ThrowsIff(c: Codec, text: string)
    ensures FromText(c, text).threw <==> exists k :: 0 <= k < |AllSaid(AllTokens(text))| && Unreadable(c, AllSaid(AllTokens(text))[k])
  {
    var items := TextMeans(c, text);
  }
}
