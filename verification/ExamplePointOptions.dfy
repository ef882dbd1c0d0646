/**
 The other ways to give a point: bounds, corners and a circle in any order, with any other tokens
 between them. The last of each kind decides.
 */
module ExamplePointOptions {
  import opened Common
  import opened ExamplePointSpec
  import opened ExamplePointResults

  /** What a token, or an option with its value, is written for. */
  datatype Item =
    | Corner(x: real, y: real)
    | Number(option: string, v: real)
    | Limit(word: string, n: int)
    | Title(word: string, name: string)
    | Other(token: string)

  predicate TakesLimit(t: string) { t in ["max_iter", "-max_iter", "-maxiter"] }
  predicate TakesTitle(t: string) { t in ["name", "-name"] }

  predicate ReadsBack(c: Codec, v: real) { c.read(c.show(v)) == Some(v) }

  /** Numbers read back from their own text, and other tokens are nothing the reader knows. */
  predicate Readable(c: Codec, i: Item) {
    match i
    case Corner(x, y) => Bare(c.show(x)) && Bare(c.show(y)) && ReadsBack(c, x) && ReadsBack(c, y)
    case Number(option, v) => TakesNumber(option) && ReadsBack(c, v)
    case Limit(word, n) => TakesLimit(word) && c.readInt(c.showInt(n)) == Some(n)
    case Title(word, name) => TakesTitle(word)
    case Other(token) => !IsRange(token) && !TakesNumber(token) && !TakesLimit(token) && !TakesTitle(token)
  }

  predicate AllReadable(c: Codec, items: seq<Item>) {
    forall k :: 0 <= k < |items| ==> Readable(c, items[k])
  }

  function ItemTokens(c: Codec, i: Item): (ts: seq<string>)
    ensures ts != []
  {
    match i
    case Corner(x, y) => [Range(c.show(x), c.show(y))]
    case Number(option, v) => [option, c.show(v)]
    case Limit(word, n) => [word, c.showInt(n)]
    case Title(word, name) => [word, name]
    case Other(token) => [token]
  }

  function ItemsTokens(c: Codec, items: seq<Item>): seq<string> {
    if items == [] then [] else ItemTokens(c, items[0]) + ItemsTokens(c, items[1..])
  }

  function Does(s: State, i: Item): State {
    match i
    case Corner(x, y) => SetCorner(s, x, y)
    case Number(option, v) => SetNumber(s, option, v)
    case Limit(_, n) => s.(p := s.p.(maxIter := n))
    case Title(_, name) => s.(p := s.p.(name := Some(name)))
    case Other(_) => s
  }

  function DoesAll(s: State, items: seq<Item>): State
    decreases |items|
  {
    if items == [] then s else DoesAll(Does(s, items[0]), items[1..])
  }

  lemma ItemReads(c: Codec, s: State, i: Item, ts: seq<string>)
    requires Readable(c, i)
    ensures ReadTokens(c, s, ItemTokens(c, i) + ts) == ReadTokens(c, Does(s, i), ts)
  {
    var all := ItemTokens(c, i) + ts;
    assert all[0] == ItemTokens(c, i)[0] && all[|ItemTokens(c, i)|..] == ts;
    if i.Corner? {
      RangeReads(c, s, i.x, i.y);
    } else if !i.Other? {
      assert all[1] == ItemTokens(c, i)[1];
      assert OneToken(c, s, all) == Took(Does(s, i), 2);
    }
  }

  lemma {:induction false} ItemsRead(c: Codec, s: State, items: seq<Item>)
    requires AllReadable(c, items)
    ensures ReadTokens(c, s, ItemsTokens(c, items)) == Reading(DoesAll(s, items), true)
    decreases |items|
  {
    if items != [] {
      ItemReads(c, s, items[0], ItemsTokens(c, items[1..]));
      ItemsRead(c, Does(s, items[0]), items[1..]);
    }
  }

  // ------------------------------------------------------------------- what the items say together

  function Or<T>(o: Option<T>, d: T): T { if o.Some? then o.value else d }

  /** What one item says of a bound: its option, or the corner of a certain number. */
  function Says(i: Item, option: string, corner: nat, second: bool, corners: nat): Option<real> {
    if i.Number? && i.option == option then Some(i.v)
    else if i.Corner? && corners == corner then Some(if second then i.y else i.x)
    else None
  }

  /** The last that is said of a bound, when some corners came before. */
  function Bound(items: seq<Item>, option: string, corner: nat, second: bool, corners: nat): Option<real>
    decreases |items|
  {
    if items == [] then None
    else
      var later := Bound(items[1..], option, corner, second, corners + if items[0].Corner? then 1 else 0);
      if later.Some? then later else Says(items[0], option, corner, second, corners)
  }

  function XMin(items: seq<Item>): Option<real> { Bound(items, "-rmin", 0, false, 0) }
  function YMin(items: seq<Item>): Option<real> { Bound(items, "-imin", 0, true, 0) }
  function XMax(items: seq<Item>): Option<real> { Bound(items, "-rmax", 1, false, 0) }
  function YMax(items: seq<Item>): Option<real> { Bound(items, "-imax", 1, true, 0) }

  function LastNumber(items: seq<Item>, option: string): Option<real> {
    if items == [] then None
    else
      var later := LastNumber(items[1..], option);
      if later.Some? then later else if items[0].Number? && items[0].option == option then Some(items[0].v) else None
  }

  function LastLimit(items: seq<Item>): Option<int> {
    if items == [] then None
    else
      var later := LastLimit(items[1..]);
      if later.Some? then later else if items[0].Limit? then Some(items[0].n) else None
  }

  function LastTitle(items: seq<Item>): Option<string> {
    if items == [] then None
    else
      var later := LastTitle(items[1..]);
      if later.Some? then later else if items[0].Title? then Some(items[0].name) else None
  }

  lemma LowerStep(s: State, i: Item)
    requires i.Number? ==> TakesNumber(i.option)
    ensures var t, x, y := Does(s, i), Says(i, "-rmin", 0, false, s.m.ranges), Says(i, "-imin", 0, true, s.m.ranges);
            && t.m.ranges == s.m.ranges + (if i.Corner? then 1 else 0)
            && t.p.xmin == Or(x, s.p.xmin) && t.m.bxmin == (s.m.bxmin || x.Some?)
            && t.p.ymin == Or(y, s.p.ymin) && t.m.bymin == (s.m.bymin || y.Some?)
  {
  }

  lemma UpperStep(s: State, i: Item)
    requires i.Number? ==> TakesNumber(i.option)
    ensures var t, x, y := Does(s, i), Says(i, "-rmax", 1, false, s.m.ranges), Says(i, "-imax", 1, true, s.m.ranges);
            && t.m.ranges == s.m.ranges + (if i.Corner? then 1 else 0)
            && t.p.xmax == Or(x, s.p.xmax) && t.m.bxmax == (s.m.bxmax || x.Some?)
            && t.p.ymax == Or(y, s.p.ymax) && t.m.bymax == (s.m.bymax || y.Some?)
  {
  }

  predicate KnownNumbers(items: seq<Item>) {
    forall k :: 0 <= k < |items| && items[k].Number? ==> TakesNumber(items[k].option)
  }

  lemma {:induction false} LowerBounds(s: State, items: seq<Item>)
    requires KnownNumbers(items)
    ensures var t, x, y := DoesAll(s, items), Bound(items, "-rmin", 0, false, s.m.ranges), Bound(items, "-imin", 0, true, s.m.ranges);
            && t.p.xmin == Or(x, s.p.xmin) && t.m.bxmin == (s.m.bxmin || x.Some?)
            && t.p.ymin == Or(y, s.p.ymin) && t.m.bymin == (s.m.bymin || y.Some?)
    decreases |items|
  {
    if items != [] {
      LowerStep(s, items[0]);
      LowerBounds(Does(s, items[0]), items[1..]);
    }
  }

  lemma {:induction false} UpperBounds(s: State, items: seq<Item>)
    requires KnownNumbers(items)
    ensures var t, x, y := DoesAll(s, items), Bound(items, "-rmax", 1, false, s.m.ranges), Bound(items, "-imax", 1, true, s.m.ranges);
            && t.p.xmax == Or(x, s.p.xmax) && t.m.bxmax == (s.m.bxmax || x.Some?)
            && t.p.ymax == Or(y, s.p.ymax) && t.m.bymax == (s.m.bymax || y.Some?)
    decreases |items|
  {
    if items != [] {
      UpperStep(s, items[0]);
      UpperBounds(Does(s, items[0]), items[1..]);
    }
  }

  lemma CircleStep(s: State, i: Item)
    requires i.Number? ==> TakesNumber(i.option)
    ensures var t := Does(s, i);
            && t.m.xcenter == (if i.Number? && i.option == "-rcenter" then i.v else s.m.xcenter)
            && t.m.ycenter == (if i.Number? && i.option == "-icenter" then i.v else s.m.ycenter)
            && t.m.radius == (if i.Number? && i.option == "-radius" then i.v else s.m.radius)
            && t.p.maxIter == (if i.Limit? then i.n else s.p.maxIter)
            && t.p.name == (if i.Title? then Some(i.name) else s.p.name)
  {
  }

  lemma {:induction false} CircleAndRest(s: State, items: seq<Item>)
    requires KnownNumbers(items)
    ensures var t := DoesAll(s, items);
            && t.m.xcenter == Or(LastNumber(items, "-rcenter"), s.m.xcenter)
            && t.m.ycenter == Or(LastNumber(items, "-icenter"), s.m.ycenter)
            && t.m.radius == Or(LastNumber(items, "-radius"), s.m.radius)
            && t.p.maxIter == Or(LastLimit(items), s.p.maxIter)
            && t.p.name == (if LastTitle(items).Some? then LastTitle(items) else s.p.name)
    decreases |items|
  {
    if items != [] {
      CircleStep(s, items[0]);
      CircleAndRest(Does(s, items[0]), items[1..]);
    }
  }

  /** The radius, and the point that the items give before its bounds are put in order and cut. */
  function Radius(items: seq<Item>): real { Or(LastNumber(items, "-radius"), 0.0) }

  function Square(items: seq<Item>): Point {
    var x, y, r := Or(LastNumber(items, "-rcenter"), 0.0), Or(LastNumber(items, "-icenter"), 0.0), Radius(items);
    Point(x - r, y - r, x + r, y + r, Or(LastLimit(items), DEFAULTS.maxIter), LastTitle(items))
  }

  function Box(items: seq<Item>): Point {
    Point(Or(XMin(items), DEFAULTS.xmin), Or(YMin(items), DEFAULTS.ymin), Or(XMax(items), DEFAULTS.xmax), Or(YMax(items), DEFAULTS.ymax),
          Or(LastLimit(items), DEFAULTS.maxIter), LastTitle(items))
  }

  function ReadItems(c: Codec, items: seq<Item>): Read {
    Conclude(ReadTokens(c, State(DEFAULTS, NO_MARKS), ItemsTokens(c, items)))
  }

  /** What any such text means: the square around the circle, or else the box of what was said last of each bound. */
  lemma ItemsMean(c: Codec, items: seq<Item>)
    requires AllReadable(c, items)
    ensures ReadItems(c, items) ==
      if Radius(items) != 0.0 then Read(Adjust(Square(items)), false, true)
      else Read(Adjust(Box(items)), false, XMin(items).Some? && YMin(items).Some? && XMax(items).Some? && YMax(items).Some?)
  {
    var s := State(DEFAULTS, NO_MARKS);
    assert KnownNumbers(items) by { assert forall k :: 0 <= k < |items| ==> Readable(c, items[k]); }
    ItemsRead(c, s, items);
    LowerBounds(s, items);
    UpperBounds(s, items);
    CircleAndRest(s, items);
  }

  // ------------------------------------------------------------------- bounds, corners, circles

  /** The bounds of a point one by one, in any order, each always the same; no corners. */
  predicate GivesBounds(items: seq<Item>, p: Point) {
    && (forall k :: 0 <= k < |items| ==> !items[k].Corner?)
    && Number("-rmin", p.xmin) in items && Number("-imin", p.ymin) in items
    && Number("-rmax", p.xmax) in items && Number("-imax", p.ymax) in items
    && (forall k :: 0 <= k < |items| && items[k].Number? ==>
          && (items[k].option == "-rmin" ==> items[k].v == p.xmin) && (items[k].option == "-imin" ==> items[k].v == p.ymin)
          && (items[k].option == "-rmax" ==> items[k].v == p.xmax) && (items[k].option == "-imax" ==> items[k].v == p.ymax))
  }

  function CornersOf(items: seq<Item>): seq<Item> {
    if items == [] then []
    else if items[0].Corner? then [items[0]] + CornersOf(items[1..]) else CornersOf(items[1..])
  }

  predicate IsBound(i: Item) {
    i.Number? && i.option in ["-rmin", "-imin", "-rmax", "-imax"]
  }

  /** Its two corners first among the ranges, with anything before, between and after; no single bounds. */
  predicate GivesCorners(items: seq<Item>, p: Point) {
    && (forall k :: 0 <= k < |items| ==> !IsBound(items[k]))
    && [Corner(p.xmin, p.ymin), Corner(p.xmax, p.ymax)] <= CornersOf(items)
  }

  lemma {:induction false} OneValue(items: seq<Item>, option: string, corner: nat, second: bool, corners: nat, v: real)
    requires forall k :: 0 <= k < |items| ==> !items[k].Corner? && (items[k].Number? && items[k].option == option ==> items[k].v == v)
    ensures Bound(items, option, corner, second, corners) == if Number(option, v) in items then Some(v) else None
    decreases |items|
  {
    if items != [] {
      assert forall k :: 0 < k < |items| ==> items[k] == items[1..][k - 1];
      OneValue(items[1..], option, corner, second, corners, v);
      assert items == [items[0]] + items[1..];
    }
  }

  lemma {:induction false} FromCorner(items: seq<Item>, option: string, corner: nat, second: bool, corners: nat)
    requires forall k :: 0 <= k < |items| ==> !(items[k].Number? && items[k].option == option)
    ensures Bound(items, option, corner, second, corners) ==
      if corners <= corner < corners + |CornersOf(items)| then
        var i := CornersOf(items)[corner - corners]; assert i.Corner? by { AreCorners(items); } Some(if second then i.y else i.x)
      else None
    decreases |items|
  {
    if items != [] {
      assert forall k :: 0 < k < |items| ==> items[k] == items[1..][k - 1];
      FromCorner(items[1..], option, corner, second, corners + if items[0].Corner? then 1 else 0);
    }
  }

  lemma {:induction false} AreCorners(items: seq<Item>)
    ensures forall k :: 0 <= k < |CornersOf(items)| ==> CornersOf(items)[k].Corner?
  {
    if items != [] { AreCorners(items[1..]); }
  }

  /** The four bounds one by one, in any order, make the same point as the two corners, whatever else is said. */
  lemma BoundsAreCorners(c: Codec, bounds: seq<Item>, corners: seq<Item>, p: Point)
    requires AllReadable(c, bounds) && AllReadable(c, corners) && GivesBounds(bounds, p) && GivesCorners(corners, p)
    requires Radius(bounds) == Radius(corners) == 0.0
    requires Or(LastLimit(bounds), 100) == Or(LastLimit(corners), 100) == p.maxIter && LastTitle(bounds) == LastTitle(corners) == p.name
    ensures ReadItems(c, bounds) == ReadItems(c, corners) == Read(Adjust(p), false, true)
  {
    BoundsGive(c, bounds, p);
    CornersGive(c, corners, p);
  }

  lemma BoundsGive(c: Codec, items: seq<Item>, p: Point)
    requires AllReadable(c, items) && GivesBounds(items, p) && Radius(items) == 0.0
    requires Or(LastLimit(items), 100) == p.maxIter && LastTitle(items) == p.name
    ensures ReadItems(c, items) == Read(Adjust(p), false, true)
  {
    ItemsMean(c, items);
    OneValue(items, "-rmin", 0, false, 0, p.xmin);
    OneValue(items, "-imin", 0, true, 0, p.ymin);
    OneValue(items, "-rmax", 1, false, 0, p.xmax);
    OneValue(items, "-imax", 1, true, 0, p.ymax);
  }

  lemma CornersGive(c: Codec, items: seq<Item>, p: Point)
    requires AllReadable(c, items) && GivesCorners(items, p) && Radius(items) == 0.0
    requires Or(LastLimit(items), 100) == p.maxIter && LastTitle(items) == p.name
    ensures ReadItems(c, items) == Read(Adjust(p), false, true)
  {
    ItemsMean(c, items);
    FromCorner(items, "-rmin", 0, false, 0);
    FromCorner(items, "-imin", 0, true, 0);
    FromCorner(items, "-rmax", 1, false, 0);
    FromCorner(items, "-imax", 1, true, 0);
    assert CornersOf(items)[0] == Corner(p.xmin, p.ymin) && CornersOf(items)[1] == Corner(p.xmax, p.ymax);
  }

  predicate IsCircle(i: Item) {
    i.Number? && i.option in ["-rcenter", "-icenter", "-radius"]
  }

  function WithoutCircle(items: seq<Item>): seq<Item> {
    if items == [] then []
    else if IsCircle(items[0]) then WithoutCircle(items[1..]) else [items[0]] + WithoutCircle(items[1..])
  }

  lemma {:induction false} CircleSaysNoBound(items: seq<Item>, option: string, corner: nat, second: bool, corners: nat)
    requires option !in ["-rcenter", "-icenter", "-radius"]
    ensures Bound(WithoutCircle(items), option, corner, second, corners) == Bound(items, option, corner, second, corners)
    decreases |items|
  {
    if items != [] {
      CircleSaysNoBound(items[1..], option, corner, second, corners + if items[0].Corner? then 1 else 0);
      if !IsCircle(items[0]) { assert WithoutCircle(items)[1..] == WithoutCircle(items[1..]); }
    }
  }

  lemma {:induction false} CircleSaysNothingElse(items: seq<Item>)
    ensures LastLimit(WithoutCircle(items)) == LastLimit(items) && LastTitle(WithoutCircle(items)) == LastTitle(items)
    ensures LastNumber(WithoutCircle(items), "-radius") == None
  {
    if items != [] {
      CircleSaysNothingElse(items[1..]);
      if !IsCircle(items[0]) { assert WithoutCircle(items)[1..] == WithoutCircle(items[1..]); }
    }
  }

  lemma {:induction false} WithoutCircleReadable(c: Codec, items: seq<Item>)
    requires AllReadable(c, items)
    ensures AllReadable(c, WithoutCircle(items))
  {
    if items != [] { WithoutCircleReadable(c, items[1..]); }
  }

  /**
   A circle stands for the square around it, whatever corners and bounds are given beside it; with no
   radius, or radius zero, it is as if its options were not there.
   */
  lemma CircleIsSquare(c: Codec, items: seq<Item>)
    requires AllReadable(c, items)
    ensures ReadItems(c, items) ==
      if Radius(items) != 0.0 then Read(Adjust(Square(items)), false, true) else ReadItems(c, WithoutCircle(items))
  {
    ItemsMean(c, items);
    if Radius(items) == 0.0 {
      WithoutCircleReadable(c, items);
      ItemsMean(c, WithoutCircle(items));
      CircleSaysNothingElse(items);
      CircleSaysNoBound(items, "-rmin", 0, false, 0);
      CircleSaysNoBound(items, "-imin", 0, true, 0);
      CircleSaysNoBound(items, "-rmax", 1, false, 0);
      CircleSaysNoBound(items, "-imax", 1, true, 0);
    }
  }
}
