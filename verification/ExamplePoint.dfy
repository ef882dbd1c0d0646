/** The text form of a point (Form.cs): the splitter for quoted words, and the class that reads and prints itself. */
module ExamplePoint {
  import opened Common
  import opened ExamplePointSpec

  // ------------------------------------------------------------------- StringArgParser

  method SkipBlanks(str: string, from: nat) returns (index: nat)
    requires from <= |str|
    ensures from <= index <= |str| && str[index..] == SkipSpaces(str[from..])
  {
    index := from;
    while index < |str| && str[index] == ' '
      invariant from <= index <= |str|
      invariant forall i :: 0 <= i < index - from ==> str[from..][i] == ' '
    {
      index := index + 1;
    }
    RunOfIs(str[from..], ' ', true, index - from);
    assert str[from..][index - from..] == str[index..];
  }

  /** Copy characters up to a stop character or the end. */
  method CopyUntil(str: string, from: nat, stop: char) returns (s: string, index: nat)
    requires from <= |str|
    ensures from <= index <= |str| && index - from == RunOf(str[from..], stop, false)
    ensures s == str[from..][..index - from]
  {
    index, s := from, [];
    while index < |str| && str[index] != stop
      invariant from <= index <= |str| && s == str[from..index]
      invariant forall i :: 0 <= i < index - from ==> str[from..][i] != stop
    {
      s := s + [str[index]];
      index := index + 1;
    }
    RunOfIs(str[from..], stop, false, index - from);
  }

  /** A quoted token, from after its first quote; steps over the second if there is one. */
  method CopyQuoted(str: string, from: nat) returns (s: string, index: nat)
    requires from <= |str|
    ensures index <= |str| && FoundBefore(s, str[index..]) == QuotedToken(str[from..])
  {
    s, index := CopyUntil(str, from, '"');
    if index < |str| {
      assert str[index + 1..] == str[from..][index - from + 1..];
      index := index + 1;
    } else {
      assert str[index..] == [];
    }
  }

  method CopyPlain(str: string, from: nat) returns (s: string, index: nat)
    requires from < |str| && str[from] != ' '
    ensures index <= |str| && FoundBefore(s, str[index..]) == PlainToken(str[from..])
  {
    s, index := CopyUntil(str, from, ' ');
    assert str[index..] == str[from..][index - from..];
  }

  method ParseString(str: string) returns (r: Token)
    ensures r == FirstToken(str)
  {
    var index := SkipBlanks(str, 0);
    assert str[0..] == str;
    if index == |str| {
      return Nothing;
    }
    assert str[index..][0] == str[index];
    var s;
    if str[index] == '"' {
      assert str[index + 1..] == str[index..][1..];
      s, index := CopyQuoted(str, index + 1);
    } else {
      s, index := CopyPlain(str, index);
    }
    var end := SkipBlanks(str, index);
    return Found(s, if end < |str| then Some(str[end..]) else None);
  }

  ghost function TokensLeft(left: Option<string>): seq<string> {
    if left.Some? then AllTokens(left.value) else []
  }

  lemma TakeToken(done: seq<string>, str: string, t: Token)
    requires t == FirstToken(str)
    ensures done + TokensLeft(Some(str)) == if t.Found? then (done + [t.token]) + TokensLeft(t.rest) else done + []
  {
  }

  /** All tokens of a string; null for the empty string. */
  method ParseStrings(str: string) returns (r: Option<seq<string>>)
    ensures r == if str == [] then None else Some(AllTokens(str))
  {
    if |str| < 1 {
      return None;
    }
    var s: seq<string> := [];
    var left := Some(str);
    while left.Some?
      invariant s + TokensLeft(left) == AllTokens(str)
      decreases if left.Some? then 1 + |left.value| else 0
    {
      var t := ParseString(left.value);
      TakeToken(s, left.value, t);
      if t.Found? {
        s := s + [t.token];
        left := t.rest;
      } else {
        left := None;
      }
    }
    assert s + [] == s;
    return Some(s);
  }

  // ------------------------------------------------------------------- ExamplePoint

  class ExamplePoint {
    var xmin: real
    var ymin: real
    var xmax: real
    var ymax: real
    var maxIter: int
    var name: Option<string>

    ghost function Value(): Point
      reads this
    {
      Point(xmin, ymin, xmax, ymax, maxIter, name)
    }

    constructor (p: Point)
      ensures Value() == p
    {
      xmin, ymin, xmax, ymax, maxIter, name := p.xmin, p.ymin, p.xmax, p.ymax, p.maxIter, p.name;
    }

    /** A word in parentheses: two numbers set the next corner. Splitting at commas must give two parts. */
    method ReadRange(c: Codec, t: string, m: Marks) returns (m': Marks, threw: bool)
      requires IsRange(t)
      modifies this
      ensures TakeRange(c, State(old(Value()), m), t) == if threw then Threw(State(Value(), m')) else Took(State(Value(), m'), 1)
    {
      m', threw := m, false;
      var halves := Halves(t);
      if halves.Some? {
        var x := c.read(halves.value.0);
        if x.None? { return m, true; }
        var y := c.read(halves.value.1);
        if y.None? { return m, true; }
        if m.ranges == 0 {
          xmin := x.value;
          ymin := y.value;
          m' := m.(bxmin := true, bymin := true);
        } else if m.ranges == 1 {
          xmax := x.value;
          ymax := y.value;
          m' := m.(bxmax := true, bymax := true);
        }
        m' := m'.(ranges := m.ranges + 1);
      }
    }

    /** An option whose value is a number. */
    method ReadNumber(option: string, x: real, m: Marks) returns (m': Marks)
      modifies this
      ensures State(Value(), m') == SetNumber(State(old(Value()), m), option, x)
    {
      m' := m;
      if option == "-rmin" {
        xmin := x;
        m' := m.(bxmin := true);
      } else if option == "-rmax" {
        xmax := x;
        m' := m.(bxmax := true);
      } else if option == "-imin" {
        ymin := x;
        m' := m.(bymin := true);
      } else if option == "-imax" {
        ymax := x;
        m' := m.(bymax := true);
      } else if option == "-rcenter" {
        m' := m.(xcenter := x);
      } else if option == "-icenter" {
        m' := m.(ycenter := x);
      } else if option == "-radius" {
        m' := m.(radius := x);
      }
    }

    /** One pass of the reading loop. An option at the very end is passed over. */
    method ReadOne(c: Codec, ss: seq<string>, index: nat, m: Marks) returns (m': Marks, index': nat, threw: bool)
      requires index < |ss|
      modifies this
      ensures index < index' <= |ss|
      ensures OneToken(c, State(old(Value()), m), ss[index..]) ==
              if threw then Threw(State(Value(), m')) else Took(State(Value(), m'), index' - index)
    {
      m', index', threw := m, index + 1, false;
      var str := ss[index];
      if IsRange(str) {
        m', threw := ReadRange(c, str, m);
      } else if index' < |ss| {
        var value := ss[index'];
        assert ss[index..][1] == value;
        if TakesNumber(str) {
          var x := c.read(value);
          if x.None? { return m, index', true; }
          m' := ReadNumber(str, x.value, m);
          index' := index' + 1;
        } else if str == "max_iter" || str == "-max_iter" || str == "-maxiter" {
          var n := c.readInt(value);
          if n.None? { return m, index', true; }
          maxIter := n.value;
          index' := index' + 1;
        } else if str == "name" || str == "-name" {
          name := Some(value);
          index' := index' + 1;
        }
      }
    }

    /** Put the corners in order, cut them to the square, and replace a bad iteration limit. */
    method Normalize()
      modifies this
      ensures Value() == Adjust(old(Value()))
    {
      if xmin > xmax {
        xmin, xmax := xmax, xmin;
      }
      if ymin > ymax {
        ymin, ymax := ymax, ymin;
      }
      if xmin < -2.0 { xmin := -2.0; }
      if xmax > 2.0 { xmax := 2.0; }
      if ymin < -2.0 { ymin := -2.0; }
      if ymax > 2.0 { ymax := 2.0; }
      if maxIter < 1 { maxIter := 100; }
      if maxIter > 10000 { maxIter := 100; }
    }

    /** Read a point; the result says whether all four bounds were given. */
    method FromString(c: Codec, s: string) returns (complete: bool, threw: bool)
      modifies this
      ensures FromText(c, s) == Read(Value(), threw, complete)
    {
      xmin, xmax, ymin, ymax, maxIter, name := -2.0, 2.0, -2.0, 2.0, 100, None;
      var m := NO_MARKS;
      var ss := ParseStrings(s);
      if ss.Some? {
        var index := 0;
        while index < |ss.value|
          invariant 0 <= index <= |ss.value|
          invariant ReadTokens(c, State(Value(), m), ss.value[index..]) == ReadTokens(c, State(DEFAULTS, NO_MARKS), AllTokens(s))
        {
          var bad, next;
          ghost var before := State(Value(), m);
          m, next, bad := ReadOne(c, ss.value, index, m);
          if bad { return false, true; }
          assert ss.value[index..][next - index..] == ss.value[next..];
          index := next;
        }
      }
      if m.radius != 0.0 {
        xmin := m.xcenter - m.radius;
        xmax := m.xcenter + m.radius;
        ymin := m.ycenter - m.radius;
        ymax := m.ycenter + m.radius;
        m := m.(bxmin := true, bymin := true, bxmax := true, bymax := true);
      }
      Normalize();
      return m.bxmin && m.bymin && m.bxmax && m.bymax, false;
    }
  }
}
