/**
 * `TileMap(s)`: a floor(500/s) x floor(500/s) array of tiles with immediate
 * writes (`setTile`), a change queue (`changeTile`, `discardChanges`,
 * `applyChanges`) and the automaton step (`automataStep`).
 */
module TileMaps {
  import opened Grids
  import opened Stepping

  /** The canvas extent in pixels, `WIDTH` and `HEIGHT`. */
  const CanvasWidth := 500
  const CanvasHeight := 500

  class TileMap {
    /** The tile size in pixels. */
    const s: int
    /** The tiles, `m[i][j]` with i the column. */
    const m: array2<Tile>
    /** The queue of staged writes. */
    var changes: seq<Change>

    ghost predicate Valid()
      reads this
    {
      && 1 <= s <= CanvasWidth && s <= CanvasHeight
      && m.Length0 == CanvasWidth / s && m.Length1 == CanvasHeight / s
      && Fits(changes, m.Length0, m.Length1)
    }

    /** The tiles as a value. */
    function Tiles(): (g: Grid)
      reads m
      ensures IsGrid(g, m.Length0, m.Length1) && (m.Length0 > 0 ==> Grids.Height(g) == m.Length1)
      ensures forall i, j :: 0 <= i < m.Length0 && 0 <= j < m.Length1 ==> g[i][j] == m[i, j]
    {
      seq(m.Length0, i requires 0 <= i < m.Length0 reads m =>
        seq(m.Length1, j requires 0 <= j < m.Length1 reads m => m[i, j]))
    }

    /** `new TileMap(s)`: every tile an empty record, no staged change. */
    constructor (s: int)
      requires 1 <= s <= CanvasWidth && s <= CanvasHeight
      ensures Valid() && fresh(m) && this.s == s
      ensures Width() == CanvasWidth / s && Height() == CanvasHeight / s
      ensures Tiles() == Blank(CanvasWidth / s, CanvasHeight / s)
      ensures changes == []
    {
      this.s := s;
      m := new Tile[CanvasWidth / s, CanvasHeight / s]((i, j) => map[]);
      changes := [];
      new;
      SameGrid(Tiles(), Blank(CanvasWidth / s, CanvasHeight / s), CanvasWidth / s, CanvasHeight / s);
    }

    /** `width()`: the number of columns, at least one. */
    function Width(): (w: nat)
      reads this
      requires Valid()
      ensures w == CanvasWidth / s && 1 <= w <= CanvasWidth
    {
      m.Length0
    }

    /** `height()`: the number of rows, at least one. */
    function Height(): (h: nat)
      reads this
      requires Valid()
      ensures h == CanvasHeight / s && 1 <= h <= CanvasHeight
    {
      m.Length1
    }

    /** `getTile(i, j)`: a copy of the tile (a value, so changing it cannot reach the array). */
    method GetTile(i: int, j: int) returns (t: Tile)
      requires Valid() && 0 <= i < Width() && 0 <= j < Height()
      ensures t == Tiles()[i][j]
    {
      t := m[i, j];
    }

    /** `setTile(i, j, t)`: merge t into the tile at once; nothing else changes. */
    method SetTile(i: int, j: int, t: Tile)
      requires Valid() && 0 <= i < Width() && 0 <= j < Height()
      modifies m
      ensures Tiles() == SetAt(old(Tiles()), Change(i, j, t))
    {
      m[i, j] := m[i, j] + t;
      SameGrid(Tiles(), SetAt(old(Tiles()), Change(i, j, t)), m.Length0, m.Length1);
    }

    /** Several `setTile` calls in a row. */
    method SetTiles(cs: seq<Change>)
      requires Valid() && Fits(cs, Width(), Height())
      modifies m
      ensures Tiles() == ApplyAll(old(Tiles()), cs)
    {
      var k := 0;
      while k < |cs|
        invariant 0 <= k <= |cs|
        invariant Tiles() == ApplyAll(old(Tiles()), cs[..k])
      {
        assert cs[..k + 1][..k] == cs[..k];
        SetTile(cs[k].i, cs[k].j, cs[k].t);
        k := k + 1;
      }
      assert cs[..k] == cs;
    }

    /** `changeTile(i, j, t)`: queue the write; no tile changes. */
    method ChangeTile(i: int, j: int, t: Tile)
      requires Valid() && 0 <= i < Width() && 0 <= j < Height()
      modifies this`changes
      ensures Valid() && changes == old(changes) + [Change(i, j, t)]
      ensures Tiles() == old(Tiles())
    {
      changes := changes + [Change(i, j, t)];
    }

    /** Several `changeTile` calls in a row. */
    method ChangeTiles(cs: seq<Change>)
      requires Valid() && Fits(cs, Width(), Height())
      modifies this`changes
      ensures Valid() && changes == old(changes) + cs
      ensures Tiles() == old(Tiles())
    {
      var k := 0;
      while k < |cs|
        invariant 0 <= k <= |cs|
        invariant Valid() && changes == old(changes) + cs[..k]
      {
        assert cs[..k + 1] == cs[..k] + [cs[k]];
        ChangeTile(cs[k].i, cs[k].j, cs[k].t);
        k := k + 1;
      }
      assert cs[..k] == cs;
    }

    /** `discardChanges()`: empty the queue. */
    method DiscardChanges()
      requires Valid()
      modifies this`changes
      ensures Valid() && changes == []
      ensures Tiles() == old(Tiles())
    {
      changes := [];
    }

    /** `applyChanges()`: replay the queue in order, then empty it. */
    method ApplyChanges()
      requires Valid()
      modifies this, m
      ensures Valid() && changes == []
      ensures Tiles() == ApplyAll(old(Tiles()), old(changes))
    {
      SetTiles(changes);
      DiscardChanges();
    }

    /**
     * `automataStep(updater)`: call the updater for every cell, i in the outer
     * loop and j in the inner one, then apply the queued changes.
     */
    method AutomataStep(u: Updater)
      requires Valid() && WellBehaved(u)
      modifies this, m
      ensures Valid() && changes == []
      ensures Tiles() == Step(old(Tiles()), old(changes), u, Width(), Height())
    {
      ghost var g0, cs0 := Tiles(), changes;
      var i := 0;
      while i < Width()
        invariant Valid() && 0 <= i <= Width()
        invariant Sweep(Tiles(), changes) == SweepTo(g0, cs0, u, Width(), Height(), i, 0)
      {
        var j := 0;
        while j < Height()
          invariant Valid() && 0 <= j <= Height()
          invariant Sweep(Tiles(), changes) == SweepTo(g0, cs0, u, Width(), Height(), i, j)
        {
          ghost var before := Sweep(Tiles(), changes);
          var e := u(Tiles(), i, j);
          SetTiles(e.immediate);
          ChangeTiles(e.staged);
          assert Sweep(Tiles(), changes) == Call(before, u, Width(), Height(), i, j);
          j := j + 1;
        }
        i := i + 1;
      }
      ApplyChanges();
    }
  }
}
