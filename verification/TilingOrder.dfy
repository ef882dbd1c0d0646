/** Where the tiles lie beside each other, how large they are, and which orders the shuffle can bring them into. */
module TilingOrder {
  import opened Tiling

  // ------------------------------------------------------------------- tiles side by side

  predicate Next(a: Area, b: Area, down: bool) {
    if down then b.imin == a.imin && b.imax == a.imax && b.jmin == a.jmax + 1
    else b.jmin == a.jmin && b.jmax == a.jmax && b.imin == a.imax + 1
  }

  predicate HasSize(a: Area, columns: int, rows: int) {
    a.imax - a.imin + 1 == columns && a.jmax - a.jmin + 1 == rows
  }

  lemma StripsTouch(pixels: int, i: int)
    requires pixels >= SIDE && 0 <= i < SIDE
    ensures Low(pixels, i) == (pixels / SIDE) * i && High(pixels, i) == (pixels / SIDE) * (i + 1) - 1
    ensures i + 1 < SIDE ==> Low(pixels, i + 1) == High(pixels, i) + 1
  {
    var step := pixels / SIDE;
    assert step * SIDE <= pixels;
    assert step * (i + 1) <= step * SIDE;
    assert step * i + step == step * (i + 1);
  }

  /**
   From twenty pixels in both dimensions on, the tiles start in the corner, all have a twentieth of the
   width and of the height, and follow each other down the columns, one column after the other.
   */
  lemma TilesSideBySide(w: int, h: int, k: nat)
    requires w >= SIDE && h >= SIDE && k < PIECES
    ensures Tiles(w, h)[0].imin == 0 && Tiles(w, h)[0].jmin == 0
    ensures HasSize(Tiles(w, h)[k], w / SIDE, h / SIDE)
    ensures (k + 1) % SIDE != 0 ==> k + 1 < PIECES && Next(Tiles(w, h)[k], Tiles(w, h)[k + 1], true)
    ensures k + SIDE < PIECES ==> Next(Tiles(w, h)[k], Tiles(w, h)[k + SIDE], false)
  {
    StripsTouch(w, 0);
    StripsTouch(h, 0);
    StripsTouch(w, k / SIDE);
    StripsTouch(h, k % SIDE);
    TileSize(w, h, k);
    if (k + 1) % SIDE != 0 {
      assert (k + 1) / SIDE == k / SIDE && (k + 1) % SIDE == k % SIDE + 1;
    }
    assert (k + SIDE) / SIDE == k / SIDE + 1 && (k + SIDE) % SIDE == k % SIDE;
  }

  lemma TileSize(w: int, h: int, k: nat)
    requires w >= SIDE && h >= SIDE && k < PIECES
    ensures HasSize(Tiles(w, h)[k], w / SIDE, h / SIDE)
  {
    var a, b, i, j := w / SIDE, h / SIDE, k / SIDE, k % SIDE;
    StripsTouch(w, i);
    StripsTouch(h, j);
    assert a * (i + 1) == a * i + a && b * (j + 1) == b * j + b;
  }

  // ------------------------------------------------------------------- every order can come out

  lemma ShuffledSnoc<T>(s: seq<T>, draws: seq<(nat, nat)>, i: nat, j: nat)
    requires i < |s| && j < |s|
    ensures Shuffled(s, draws + [(i, j)]) == Exchange(Shuffled(s, draws), i, j)
  {
    var more := draws + [(i, j)];
    assert more[..|more| - 1] == draws && more[|more| - 1] == (i, j);
    SmallRemainder(i, |s|);
    SmallRemainder(j, |s|);
  }

  lemma SmallRemainder(i: nat, n: nat)
    requires i < n
    ensures i % n == i
  {
  }

  /** The first `n` entries are as in `t`. */
  predicate SameFirst<T(==)>(s: seq<T>, t: seq<T>, n: nat) {
    n <= |s| == |t| && forall i :: 0 <= i < n ==> s[i] == t[i]
  }

  lemma SplitCounts<T>(s: seq<T>, n: nat)
    requires n <= |s|
    ensures multiset(s) == multiset(s[..n]) + multiset(s[n..]) && multiset(s[n..]) == multiset(s) - multiset(s[..n])
  {
    assert s == s[..n] + s[n..];
  }

  /** An entry that is still missing lies behind those that are in place. */
  lemma StillThere<T>(s: seq<T>, t: seq<T>, n: nat) returns (j: nat)
    requires multiset(s) == multiset(t) && SameFirst(s, t, n) && n < |t|
    ensures n <= j < |s| && s[j] == t[n]
  {
    assert s[..n] == t[..n];
    SplitCounts(s, n);
    SplitCounts(t, n);
    assert multiset(s[n..]) == multiset(t[n..]);
    var u := t[n..];
    assert u[0] == t[n] && u[0] in u;
    assert u[0] in multiset(u);
    var i :| 0 <= i < |s[n..]| && s[n..][i] == t[n];
    j := n + i;
  }

  lemma OneInPlace<T>(r: seq<T>, t: seq<T>, n: nat, j: nat)
    requires SameFirst(r, t, n) && n <= j < |r| && n < |t| && r[j] == t[n]
    ensures SameFirst(Exchange(r, n, j), t, n + 1)
  {
  }

  lemma NextInPlace<T>(s: seq<T>, t: seq<T>, draws: seq<(nat, nat)>) returns (j: nat)
    requires |s| > 0 && multiset(s) == multiset(t) && |draws| < |t| == |s| && SameFirst(Shuffled(s, draws), t, |draws|)
    ensures SameFirst(Shuffled(s, draws + [(|draws|, j)]), t, |draws| + 1)
  {
    var r, n := Shuffled(s, draws), |draws|;
    ShuffleKeepsPieces(s, draws);
    j := StillThere(r, t, n);
    OneInPlace(r, t, n, j);
    ShuffledSnoc(s, draws, n, j);
  }

  /** One exchange for each entry brings a sequence into any order. */
  lemma FirstInOrder<T>(s: seq<T>, t: seq<T>, n: nat) returns (draws: seq<(nat, nat)>)
    requires |s| > 0 && multiset(s) == multiset(t) && n <= |t| == |s|
    ensures |draws| == n && SameFirst(Shuffled(s, draws), t, n)
  {
    draws := [];
    while |draws| < n
      invariant |draws| <= n && SameFirst(Shuffled(s, draws), t, |draws|)
    {
      var j := NextInPlace(s, t, draws);
      draws := draws + [(|draws|, j)];
    }
  }

  lemma {:induction false} MoreDraws<T>(s: seq<T>, draws: seq<(nat, nat)>, n: nat) returns (more: seq<(nat, nat)>)
    requires |s| > 0
    ensures |more| == |draws| + n && Shuffled(s, more) == Shuffled(s, draws)
  {
    more := draws;
    if n > 0 {
      more := MoreDraws(s, draws, n - 1);
      ShuffledSnoc(s, more, 0, 0);
      more := more + [(0, 0)];
    }
  }

  /** Whatever order the tiles are to come in, there are draws for it, for any number of exchanges not below that of the tiles. */
  lemma EveryOrderOccurs<T>(s: seq<T>, t: seq<T>, n: nat) returns (draws: seq<(nat, nat)>)
    requires |s| > 0 && multiset(s) == multiset(t) && n >= |s|
    ensures |draws| == n && Shuffled(s, draws) == t
  {
    assert |s| == |multiset(s)| == |multiset(t)| == |t|;
    var d := FirstInOrder(s, t, |t|);
    assert Shuffled(s, d) == t;
    draws := MoreDraws(s, d, n - |s|);
  }
}
