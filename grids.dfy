/**
 * The tile array of `TileMap` as a value, and the write operations the
 * TileMap performs on it: `setTile`'s merge and the in-order replay of the
 * change queue that `applyChanges` performs.
 */
module Grids {
  import opened Optional

  /** A tile: an open attribute bag, attribute name to integer value. A missing key is `undefined`. */
  type Tile = map<string, int>

  /** A queued write: merge the attributes `t` into the tile at column i, row j. */
  datatype Change = Change(i: int, j: int, t: Tile)

  /** The tile array `m`, indexed `g[i][j]` with i the column and j the row. */
  type Grid = seq<seq<Tile>>

  predicate IsGrid(g: Grid, w: int, h: int)
  {
    |g| == w && forall i :: 0 <= i < w ==> |g[i]| == h
  }

  /** The row count of a grid (every column has the same length in a well-formed grid). */
  function Height(g: Grid): nat
  {
    if |g| == 0 then 0 else |g[0]|
  }

  predicate InGrid(g: Grid, i: int, j: int)
  {
    0 <= i < |g| && 0 <= j < |g[i]|
  }

  /** Every change addresses a cell of a w x h grid. */
  predicate Fits(cs: seq<Change>, w: int, h: int)
  {
    forall k :: 0 <= k < |cs| ==> 0 <= cs[k].i < w && 0 <= cs[k].j < h
  }

  /** Changes that fit a w x h grid address cells of it. */
  lemma FitsTargets(g: Grid, cs: seq<Change>, w: int, h: int)
    requires IsGrid(g, w, h) && Fits(cs, w, h)
    ensures Targets(g, cs)
  {
    forall k | 0 <= k < |cs|
      ensures InGrid(g, cs[k].i, cs[k].j)
    {
      assert |g[cs[k].i]| == h;
    }
  }

  /** A w x h grid of empty tiles, as a new TileMap holds. */
  function Blank(w: nat, h: nat): (g: Grid)
    ensures IsGrid(g, w, h)
    ensures forall i, j :: 0 <= i < w && 0 <= j < h ==> g[i][j] == map[]
  {
    seq(w, i => seq(h, j => map[]))
  }

  /** Two grids of the same shape with the same tiles are equal. */
  lemma SameGrid(a: Grid, b: Grid, w: int, h: int)
    requires IsGrid(a, w, h) && IsGrid(b, w, h)
    requires forall i, j :: 0 <= i < w && 0 <= j < h ==> a[i][j] == b[i][j]
    ensures a == b
  {
    forall i | 0 <= i < w
      ensures a[i] == b[i]
    {
      assert forall j :: 0 <= j < h ==> a[i][j] == b[i][j];
    }
  }

  function Lookup(t: Tile, key: string): Option<int>
  {
    if key in t then Some(t[key]) else None
  }

  /** `Object.assign(m[i][j], t)`: the keys of t overwrite, every other key stays. */
  function SetAt(g: Grid, c: Change): (r: Grid)
    requires InGrid(g, c.i, c.j)
    ensures |r| == |g| && forall a :: 0 <= a < |g| ==> |r[a]| == |g[a]|
    ensures forall key :: Lookup(r[c.i][c.j], key) == (if key in c.t then Some(c.t[key]) else Lookup(g[c.i][c.j], key))
    ensures forall a, b :: InGrid(g, a, b) && (a, b) != (c.i, c.j) ==> r[a][b] == g[a][b]
  {
    g[c.i := g[c.i][c.j := g[c.i][c.j] + c.t]]
  }

  /** Every change of cs addresses a cell of g. */
  predicate Targets(g: Grid, cs: seq<Change>)
  {
    forall k :: 0 <= k < |cs| ==> InGrid(g, cs[k].i, cs[k].j)
  }

  /** The changes merged into the grid one after the other, in queue order. */
  function ApplyAll(g: Grid, cs: seq<Change>): (r: Grid)
    requires Targets(g, cs)
    ensures |r| == |g| && forall a :: 0 <= a < |g| ==> |r[a]| == |g[a]|
    decreases |cs|
  {
    if cs == [] then g else SetAt(ApplyAll(g, cs[..|cs| - 1]), cs[|cs| - 1])
  }

  /** The changes of cs that address (i, j), merged into tile t in queue order. */
  function Replay(t: Tile, cs: seq<Change>, i: int, j: int): Tile
    decreases |cs|
  {
    if cs == [] then t
    else
      var last := cs[|cs| - 1];
      var before := Replay(t, cs[..|cs| - 1], i, j);
      if last.i == i && last.j == j then before + last.t else before
  }

  /** The value of `key` in the last change of cs that addresses (i, j) and names `key`. */
  function LastWrite(cs: seq<Change>, i: int, j: int, key: string): Option<int>
    decreases |cs|
  {
    if cs == [] then None
    else
      var last := cs[|cs| - 1];
      if last.i == i && last.j == j && key in last.t then Some(last.t[key])
      else LastWrite(cs[..|cs| - 1], i, j, key)
  }

  /** Replaying the queue touches each cell only through the changes addressed to it. */
  lemma {:induction false} ApplyAllCell(g: Grid, cs: seq<Change>, i: int, j: int)
    requires Targets(g, cs) && InGrid(g, i, j)
    ensures ApplyAll(g, cs)[i][j] == Replay(g[i][j], cs, i, j)
    decreases |cs|
  {
    if cs != [] {
      ApplyAllCell(g, cs[..|cs| - 1], i, j);
    }
  }

  /** Per key the last writer wins; a key no change names keeps its value. */
  lemma {:induction false} ReplayLastWriter(t: Tile, cs: seq<Change>, i: int, j: int, key: string)
    ensures Lookup(Replay(t, cs, i, j), key) ==
      (if LastWrite(cs, i, j, key).Some? then LastWrite(cs, i, j, key) else Lookup(t, key))
    decreases |cs|
  {
    if cs != [] {
      ReplayLastWriter(t, cs[..|cs| - 1], i, j, key);
    }
  }

  /** A cell that no change addresses is left as it was. */
  lemma {:induction false} ReplayUntouched(t: Tile, cs: seq<Change>, i: int, j: int)
    requires forall k :: 0 <= k < |cs| ==> (cs[k].i, cs[k].j) != (i, j)
    ensures Replay(t, cs, i, j) == t
    decreases |cs|
  {
    if cs != [] {
      ReplayUntouched(t, cs[..|cs| - 1], i, j);
    }
  }

  /** Replaying two queues one after the other is replaying their concatenation. */
  lemma {:induction false} ReplayAppend(t: Tile, xs: seq<Change>, ys: seq<Change>, i: int, j: int)
    ensures Replay(t, xs + ys, i, j) == Replay(Replay(t, xs, i, j), ys, i, j)
    decreases |ys|
  {
    if ys != [] {
      assert (xs + ys)[..|xs + ys| - 1] == xs + ys[..|ys| - 1];
      ReplayAppend(t, xs, ys[..|ys| - 1], i, j);
    } else {
      assert xs + ys == xs;
    }
  }

  /** Merging never removes an attribute: a tile that has `key` keeps it through any replay. */
  lemma ReplayKeepsKey(t: Tile, cs: seq<Change>, i: int, j: int, key: string)
    requires key in t
    ensures key in Replay(t, cs, i, j)
  {
    ReplayLastWriter(t, cs, i, j, key);
  }

  /** The effect of replaying the whole queue, cell by cell and key by key. */
  lemma ApplyAllLastWriter(g: Grid, cs: seq<Change>, i: int, j: int, key: string)
    requires Targets(g, cs) && InGrid(g, i, j)
    ensures Lookup(ApplyAll(g, cs)[i][j], key) ==
      (if LastWrite(cs, i, j, key).Some? then LastWrite(cs, i, j, key) else Lookup(g[i][j], key))
  {
    ApplyAllCell(g, cs, i, j);
    ReplayLastWriter(g[i][j], cs, i, j, key);
  }
}
