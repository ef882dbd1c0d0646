/** How a point of the Mandelbrot set is written as text, and what reading such text means. */
module ExamplePointSpec {
  import opened Common

  // ------------------------------------------------------------------- words and quotes

  /** The length of the longest beginning of a string without, or of nothing but, a character. */
  function RunOf(s: string, c: char, same: bool): (n: nat)
    ensures n <= |s|
    ensures n < |s| ==> (s[n] == c) != same
  {
    if s == [] || (s[0] == c) != same then 0 else 1 + RunOf(s[1..], c, same)
  }

  lemma {:induction false} RunOfAll(s: string, c: char, same: bool)
    ensures forall i :: 0 <= i < RunOf(s, c, same) ==> (s[i] == c) == same
  {
    if s != [] && (s[0] == c) == same {
      RunOfAll(s[1..], c, same);
      assert forall i :: 0 < i < |s| ==> s[i] == s[1..][i - 1];
    }
  }

  lemma {:induction false} RunOfIs(s: string, c: char, same: bool, n: nat)
    requires n <= |s| && (forall i :: 0 <= i < n ==> (s[i] == c) == same) && (n < |s| ==> (s[n] == c) != same)
    ensures RunOf(s, c, same) == n
  {
    if n > 0 {
      assert forall i :: 0 < i < |s| ==> s[i] == s[1..][i - 1];
      RunOfIs(s[1..], c, same, n - 1);
    }
  }

  function SkipSpaces(s: string): (r: string)
    ensures |r| <= |s| && (r != [] ==> r[0] != ' ')
  {
    s[RunOf(s, ' ', true)..]
  }

  /** A token and what follows it; the rest is null when nothing does. */
  datatype Token = Nothing | Found(token: string, rest: Option<string>)

  function FoundBefore(token: string, after: string): (r: Token)
    ensures r.Found? && r.token == token && (r.rest.Some? ==> |r.rest.value| <= |after|)
  {
    var rest := SkipSpaces(after);
    Found(token, if rest == [] then None else Some(rest))
  }

  function AfterQuote(s: string, n: nat): (r: string)
    requires n <= |s|
    ensures n + |r| <= |s|
  {
    if n < |s| then s[n + 1..] else []
  }

  function QuotedToken(s: string): (r: Token)
    ensures r.Found? && |r.token| + (if r.rest.Some? then |r.rest.value| else 0) <= |s|
  {
    var n := RunOf(s, '"', false);
    FoundBefore(s[..n], AfterQuote(s, n))
  }

  function PlainToken(s: string): (r: Token)
    requires s != [] && s[0] != ' '
    ensures r.Found? && r.token != [] && |r.token| + (if r.rest.Some? then |r.rest.value| else 0) <= |s|
  {
    var n := RunOf(s, ' ', false);
    FoundBefore(s[..n], s[n..])
  }

  /** A quoted token ends at the next quote, or with the string; any other at the next space. */
  function FirstToken(s: string): (r: Token)
    ensures r.Found? ==> |r.token| + (if r.rest.Some? then |r.rest.value| else 0) <= |s|
    ensures r.Found? && r.rest.Some? ==> |r.rest.value| < |s|
  {
    var body := SkipSpaces(s);
    if body == [] then Nothing
    else if body[0] == '"' then QuotedToken(body[1..])
    else PlainToken(body)
  }

  function AllTokens(s: string): (ts: seq<string>)
    decreases |s|
  {
    match FirstToken(s)
    case Nothing => []
    case Found(t, rest) => [t] + if rest.Some? then AllTokens(rest.value) else []
  }

  // ------------------------------------------------------------------- points

  datatype Point = Point(xmin: real, ymin: real, xmax: real, ymax: real, maxIter: int, name: Option<string>)

  /** How numbers are written and read; reading fails by an exception. */
  datatype Codec = Codec(show: real -> string, read: string -> Option<real>, showInt: int -> string, readInt: string -> Option<int>)

  function Range(x: string, y: string): string { "(" + x + "," + y + ")" }

  function Quoted(s: string): string { "\"" + s + "\"" }

  /** The end of the text: `name "{5}"` when there is a name. */
  function NameText(name: Option<string>): string {
    if name.None? then [] else " " + "name" + (" " + Quoted(name.value))
  }

  /** `({0},{1}) ({2},{3}) max_iter {4}` and the name. */
  function ToText(c: Codec, p: Point): string {
    Range(c.show(p.xmin), c.show(p.ymin)) +
    (" " + Range(c.show(p.xmax), c.show(p.ymax)) +
     (" " + "max_iter" +
      (" " + c.showInt(p.maxIter) + NameText(p.name))))
  }

  /** What the reading loop keeps beside the point: the circle, what was set, and how many ranges were seen. */
  datatype Marks = Marks(xcenter: real, ycenter: real, radius: real, bxmin: bool, bymin: bool, bxmax: bool, bymax: bool, ranges: nat)

  datatype State = State(p: Point, m: Marks)

  const NO_MARKS := Marks(0.0, 0.0, 0.0, false, false, false, false, 0)
  const DEFAULTS := Point(-2.0, -2.0, 2.0, 2.0, 100, None)

  datatype Effect = Took(s: State, n: nat) | Threw(s: State)

  predicate IsRange(t: string) { |t| > 1 && t[0] == '(' && t[|t| - 1] == ')' }

  /** The two halves of a range, when what is between the parentheses has exactly one comma. */
  function Halves(t: string): Option<(string, string)>
    requires IsRange(t)
  {
    var inside := t[1..|t| - 1];
    var n := RunOf(inside, ',', false);
    if n < |inside| && ',' !in inside[n + 1..] then Some((inside[..n], inside[n + 1..])) else None
  }

  function SetCorner(s: State, x: real, y: real): State {
    if s.m.ranges == 0 then State(s.p.(xmin := x, ymin := y), s.m.(bxmin := true, bymin := true, ranges := 1))
    else if s.m.ranges == 1 then State(s.p.(xmax := x, ymax := y), s.m.(bxmax := true, bymax := true, ranges := 2))
    else s.(m := s.m.(ranges := s.m.ranges + 1))
  }

  function TakeRange(c: Codec, s: State, t: string): (e: Effect)
    requires IsRange(t)
    ensures e.Took? ==> e.n == 1
  {
    var h := Halves(t);
    if h.None? then Took(s, 1)
    else
      var x, y := c.read(h.value.0), c.read(h.value.1);
      if x.None? || y.None? then Threw(s) else Took(SetCorner(s, x.value, y.value), 1)
  }

  /** The options with a number after them. */
  function SetNumber(s: State, option: string, x: real): State {
    if option == "-rmin" then State(s.p.(xmin := x), s.m.(bxmin := true))
    else if option == "-rmax" then State(s.p.(xmax := x), s.m.(bxmax := true))
    else if option == "-imin" then State(s.p.(ymin := x), s.m.(bymin := true))
    else if option == "-imax" then State(s.p.(ymax := x), s.m.(bymax := true))
    else if option == "-rcenter" then s.(m := s.m.(xcenter := x))
    else if option == "-icenter" then s.(m := s.m.(ycenter := x))
    else if option == "-radius" then s.(m := s.m.(radius := x))
    else s
  }

  predicate TakesNumber(t: string) {
    t in ["-rmin", "-rmax", "-imin", "-imax", "-rcenter", "-icenter", "-radius"]
  }

  /** What the first of some tokens does, with the one after it when it has a value. */
  function OneToken(c: Codec, s: State, ts: seq<string>): (e: Effect)
    requires ts != []
    ensures e.Took? ==> 1 <= e.n <= |ts|
  {
    var t := ts[0];
    if IsRange(t) then TakeRange(c, s, t)
    else if TakesNumber(t) then
      if |ts| < 2 then Took(s, 1)
      else if c.read(ts[1]).None? then Threw(s)
      else Took(SetNumber(s, t, c.read(ts[1]).value), 2)
    else if t in ["max_iter", "-max_iter", "-maxiter"] then
      if |ts| < 2 then Took(s, 1)
      else if c.readInt(ts[1]).None? then Threw(s)
      else Took(s.(p := s.p.(maxIter := c.readInt(ts[1]).value)), 2)
    else if t in ["name", "-name"] then
      if |ts| < 2 then Took(s, 1) else Took(s.(p := s.p.(name := Some(ts[1]))), 2)
    else Took(s, 1)
  }

  /** `ok` is false when an exception ended the reading. */
  datatype Reading = Reading(s: State, ok: bool)

  function ReadTokens(c: Codec, s: State, ts: seq<string>): Reading
    decreases |ts|
  {
    if ts == [] then Reading(s, true)
    else match OneToken(c, s, ts)
      case Threw(s') => Reading(s', false)
      case Took(s', n) => ReadTokens(c, s', ts[n..])
  }

  /** A circle overrides the corners; then the corners are put in order and cut to the square. */
  function Corners(s: State): State {
    var m := s.m;
    if m.radius == 0.0 then s
    else State(s.p.(xmin := m.xcenter - m.radius, xmax := m.xcenter + m.radius,
                    ymin := m.ycenter - m.radius, ymax := m.ycenter + m.radius),
               m.(bxmin := true, bymin := true, bxmax := true, bymax := true))
  }

  function Low(lo: real, hi: real): real {
    var l := if lo > hi then hi else lo;
    if l < -2.0 then -2.0 else l
  }

  function High(lo: real, hi: real): real {
    var h := if lo > hi then lo else hi;
    if h > 2.0 then 2.0 else h
  }

  function Iterations(n: int): int { if n < 1 || n > 10000 then 100 else n }

  function Adjust(p: Point): Point {
    Point(Low(p.xmin, p.xmax), Low(p.ymin, p.ymax), High(p.xmin, p.xmax), High(p.ymin, p.ymax), Iterations(p.maxIter), p.name)
  }

  /** What reading a text leaves and returns; `complete` is meaningless after an exception. */
  datatype Read = Read(p: Point, threw: bool, complete: bool)

  function Conclude(r: Reading): Read {
    if !r.ok then Read(r.s.p, true, false)
    else
      var s := Corners(r.s);
      Read(Adjust(s.p), false, s.m.bxmin && s.m.bymin && s.m.bxmax && s.m.bymax)
  }

  function FromText(c: Codec, text: string): Read {
    Conclude(ReadTokens(c, State(DEFAULTS, NO_MARKS), AllTokens(text)))
  }
}
