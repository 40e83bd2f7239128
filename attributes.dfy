/**
 * What the preset automata share: reading a tile's attributes the way
 * JavaScript does (a missing attribute is `undefined`, which is falsy and
 * counts as nothing), the neighbours `forNeighborhood` visits on a grid,
 * and the integer channels of `color(r, g, b)`.
 */
module Attributes {
  import opened Optional
  import opened Grids
  import N = Neighborhood

  /** `if (t.key)`: the attribute is present and non-zero. */
  predicate Truthy(t: Tile, key: string)
  {
    key in t && t[key] != 0
  }

  /** The attribute's value, 0 when it is missing. */
  function Get(t: Tile, key: string): int
  {
    if key in t then t[key] else 0
  }

  /** Every visited cell is a cell of g. */
  predicate VisitsIn(g: Grid, vs: seq<N.Visit>)
  {
    forall k :: 0 <= k < |vs| ==> InGrid(g, vs[k].i2, vs[k].j2)
  }

  /** The cells `forNeighborhood(kind, i, j, width, height, r, ...)` visits on g, in order. */
  function Around(g: Grid, kind: int, i: int, j: int, r: int): (vs: seq<N.Visit>)
    requires IsGrid(g, |g|, Height(g)) && InGrid(g, i, j)
    ensures VisitsIn(g, vs)
  {
    N.Walk(N.ShapeOf(kind), i, j, |g|, Height(g), r)
  }

  /** The walk on a w x h grid g, with its sizes given separately, is the walk on g. */
  lemma AroundSized(g: Grid, kind: int, i: int, j: int, r: int, w: int, h: int)
    requires IsGrid(g, w, h) && 0 <= i < w && 0 <= j < h
    ensures Height(g) == h && InGrid(g, i, j)
    ensures N.Walk(N.ShapeOf(kind), i, j, w, h, r) == Around(g, kind, i, j, r)
  {
    assert |g[0]| == h;
  }

  /** The three channels of an `rgb(...)` colour. */
  datatype Rgb = Rgb(r: int, g: int, b: int)

  /**
   * `color(r, g, b)`: a missing green or blue channel repeats the red one.
   * None when a channel is still not a number (the string then names no colour).
   */
  function Color(r: Option<int>, g: Option<int>, b: Option<int>): (c: Option<Rgb>)
    ensures c.Some? <==> r.Some?
    ensures c.Some? ==> c.value.r == r.value
    ensures c.Some? ==> c.value.g == (if g.Some? then g.value else r.value)
    ensures c.Some? ==> c.value.b == (if b.Some? then b.value else r.value)
  {
    var g' := if g.None? then r else g;
    var b' := if b.None? then r else b;
    if r.Some? && g'.Some? && b'.Some? then Some(Rgb(r.value, g'.value, b'.value)) else None
  }

  /** `color(v)`: a grey. */
  function Gray(v: int): Option<Rgb>
  {
    Color(Some(v), None, None)
  }

  predicate InChannelRange(c: Rgb)
  {
    0 <= c.r <= 255 && 0 <= c.g <= 255 && 0 <= c.b <= 255
  }

  function Min(a: int, b: int): int
  {
    if a < b then a else b
  }
}
