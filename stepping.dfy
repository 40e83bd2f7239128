/**
 * `automataStep` as a function of the tile array: the updater is called for
 * every cell, column by column (i in the outer loop), on the array as it
 * stands at that call; its `setTile` writes land at once, its `changeTile`
 * writes are queued, and the queue is replayed when the sweep ends.
 */
module Stepping {
  import opened Grids

  /**
   * What one updater call does to the TileMap: its `setTile` writes and its
   * `changeTile` writes, each in the order made. (The two never interact:
   * `setTile` does not touch the queue and `changeTile` does not touch the array.)
   */
  datatype Effect = Effect(immediate: seq<Change>, staged: seq<Change>)

  /** An updater: given the tile array as it stands and a cell, what it writes. */
  type Updater = (Grid, int, int) -> Effect

  /** On every well-formed array, every write the updater makes addresses a cell of that array. */
  ghost predicate WellBehaved(u: Updater)
  {
    forall g: Grid, i: int, j: int ::
      IsGrid(g, |g|, Height(g)) && 0 <= i < |g| && 0 <= j < Height(g) ==>
        Fits(u(g, i, j).immediate, |g|, Height(g)) && Fits(u(g, i, j).staged, |g|, Height(g))
  }

  /** Every change in cs addresses cell (i, j). */
  predicate OnlyAt(cs: seq<Change>, i: int, j: int)
  {
    forall k :: 0 <= k < |cs| ==> cs[k].i == i && cs[k].j == j
  }

  /** An updater that, on every well-formed array, writes only to the cell it is called for. */
  lemma OwnWritesWellBehaved(u: Updater)
    requires forall g: Grid, i: int, j: int ::
      IsGrid(g, |g|, Height(g)) && 0 <= i < |g| && 0 <= j < Height(g) ==>
        OnlyAt(u(g, i, j).immediate, i, j) && OnlyAt(u(g, i, j).staged, i, j)
    ensures WellBehaved(u)
  {
  }

  /** The array and the change queue part-way through a sweep. */
  datatype Sweep = Sweep(grid: Grid, staged: seq<Change>)

  /** One call `updater(this, i, j)`. */
  function Call(s: Sweep, u: Updater, w: nat, h: nat, i: int, j: int): (r: Sweep)
    requires WellBehaved(u) && IsGrid(s.grid, w, h) && Fits(s.staged, w, h)
    requires 0 <= i < w && 0 <= j < h
    ensures IsGrid(r.grid, w, h) && Fits(r.staged, w, h)
  {
    var e := u(s.grid, i, j);
    Sweep(ApplyAll(s.grid, e.immediate), s.staged + e.staged)
  }

  /** The state once every cell before (i, j) in the loops' order has been visited. */
  function SweepTo(g: Grid, cs: seq<Change>, u: Updater, w: nat, h: nat, i: int, j: int): (r: Sweep)
    requires WellBehaved(u) && IsGrid(g, w, h) && Fits(cs, w, h)
    requires 0 <= i <= w && 0 <= j <= h && (i < w || j == 0)
    ensures IsGrid(r.grid, w, h) && Fits(r.staged, w, h)
    decreases i, j
  {
    if j > 0 then Call(SweepTo(g, cs, u, w, h, i, j - 1), u, w, h, i, j - 1)
    else if i > 0 then SweepTo(g, cs, u, w, h, i - 1, h)
    else Sweep(g, cs)
  }

  /** `automataStep(updater)` from array g with queue cs: sweep every cell, then `applyChanges`. */
  function Step(g: Grid, cs: seq<Change>, u: Updater, w: nat, h: nat): (r: Grid)
    requires WellBehaved(u) && IsGrid(g, w, h) && Fits(cs, w, h)
    ensures IsGrid(r, w, h)
  {
    var s := SweepTo(g, cs, u, w, h, w, 0);
    ApplyAll(s.grid, s.staged)
  }

  /**
   * A run of updaters, one per step: `us(k)` is the updater as it behaves on
   * step k, so each step can draw its own random outcomes.
   */
  ghost predicate AllWellBehaved(us: nat -> Updater)
  {
    forall k: nat :: WellBehaved(us(k))
  }

  /** Step number k of the run, from g with an empty queue. */
  function StepNumber(g: Grid, us: nat -> Updater, k: nat, w: nat, h: nat): (r: Grid)
    requires AllWellBehaved(us) && IsGrid(g, w, h)
    ensures IsGrid(r, w, h)
  {
    Step(g, [], us(k), w, h)
  }

  /** n steps in a row, numbered from `first`, each starting with an empty queue and using its own updater. */
  function Steps(g: Grid, us: nat -> Updater, first: nat, w: nat, h: nat, n: nat): (r: Grid)
    requires AllWellBehaved(us) && IsGrid(g, w, h)
    ensures IsGrid(r, w, h)
  {
    if n == 0 then g else StepNumber(Steps(g, us, first, w, h, n - 1), us, first + n - 1, w, h)
  }

  /** The grids of a run, one per step: each entry is the step numbered `first + k` applied to the one before. */
  ghost predicate IsRun(trace: seq<Grid>, us: nat -> Updater, first: nat, w: nat, h: nat)
  {
    && AllWellBehaved(us)
    && (forall k :: 0 <= k < |trace| ==> IsGrid(trace[k], w, h))
    && forall k :: 0 <= k < |trace| - 1 ==> trace[k + 1] == StepNumber(trace[k], us, first + k, w, h)
  }

  /** A run extended by the next step is still a run. */
  lemma RunExtend(trace: seq<Grid>, us: nat -> Updater, first: nat, w: nat, h: nat, next: Grid)
    requires |trace| > 0 && IsRun(trace, us, first, w, h)
    requires next == StepNumber(trace[|trace| - 1], us, first + |trace| - 1, w, h)
    ensures IsRun(trace + [next], us, first, w, h)
  {
  }

  /** The last grid of a run of n steps is `Steps` of its first. */
  lemma {:induction false} RunIsSteps(trace: seq<Grid>, us: nat -> Updater, first: nat, w: nat, h: nat)
    requires |trace| > 0 && IsRun(trace, us, first, w, h)
    ensures trace[|trace| - 1] == Steps(trace[0], us, first, w, h, |trace| - 1)
    decreases |trace|
  {
    if |trace| > 1 {
      var prefix := trace[..|trace| - 1];
      assert IsRun(prefix, us, first, w, h);
      RunIsSteps(prefix, us, first, w, h);
    }
  }

  // ---------------------------------------------------------------------
  // The order of the calls

  /** The cells visited before (i, j): i ascending outside, j ascending inside. */
  function CellOrder(w: nat, h: nat, i: int, j: int): seq<(int, int)>
    requires 0 <= i <= w && 0 <= j <= h && (i < w || j == 0)
    decreases i, j
  {
    if j > 0 then CellOrder(w, h, i, j - 1) + [(i, j - 1)]
    else if i > 0 then CellOrder(w, h, i - 1, h)
    else []
  }

  lemma {:induction false} CellOrderFacts(w: nat, h: nat, i: int, j: int)
    requires 0 <= i <= w && 0 <= j <= h && (i < w || j == 0)
    ensures forall a, b :: (a, b) in CellOrder(w, h, i, j) <==> 0 <= a && 0 <= b < h && (a < i || (a == i && b < j))
    ensures forall x, y :: 0 <= x < y < |CellOrder(w, h, i, j)| ==>
      CellOrder(w, h, i, j)[x].0 < CellOrder(w, h, i, j)[y].0 ||
      (CellOrder(w, h, i, j)[x].0 == CellOrder(w, h, i, j)[y].0 && CellOrder(w, h, i, j)[x].1 < CellOrder(w, h, i, j)[y].1)
    decreases i, j
  {
    if j > 0 {
      CellOrderFacts(w, h, i, j - 1);
    } else if i > 0 {
      CellOrderFacts(w, h, i - 1, h);
    }
  }

  /** A step calls the updater once for each cell of the grid, in column-major loop order. */
  lemma StepVisitsEveryCellOnce(w: nat, h: nat)
    ensures forall a, b :: (a, b) in CellOrder(w, h, w, 0) <==> 0 <= a < w && 0 <= b < h
    ensures forall x, y :: 0 <= x < y < |CellOrder(w, h, w, 0)| ==> CellOrder(w, h, w, 0)[x] != CellOrder(w, h, w, 0)[y]
  {
    CellOrderFacts(w, h, w, 0);
  }

  /** The updater called on each of the given cells in turn, each call on the state the previous one left. */
  function CallAll(s: Sweep, u: Updater, w: nat, h: nat, cells: seq<(int, int)>): (r: Sweep)
    requires WellBehaved(u) && IsGrid(s.grid, w, h) && Fits(s.staged, w, h) && CellsWithin(cells, w, h)
    ensures IsGrid(r.grid, w, h) && Fits(r.staged, w, h)
    decreases |cells|
  {
    if cells == [] then s
    else
      var c := cells[|cells| - 1];
      Call(CallAll(s, u, w, h, cells[..|cells| - 1]), u, w, h, c.0, c.1)
  }

  /** The nested loops up to (i, j) are the calls on the cells of `CellOrder`, one after the other. */
  lemma {:induction false} SweepCallsInOrder(g: Grid, cs: seq<Change>, u: Updater, w: nat, h: nat, i: int, j: int)
    requires WellBehaved(u) && IsGrid(g, w, h) && Fits(cs, w, h)
    requires 0 <= i <= w && 0 <= j <= h && (i < w || j == 0)
    ensures CellsWithin(CellOrder(w, h, i, j), w, h)
    ensures SweepTo(g, cs, u, w, h, i, j) == CallAll(Sweep(g, cs), u, w, h, CellOrder(w, h, i, j))
    decreases i, j
  {
    CellOrderWithin(w, h, i, j);
    if j > 0 {
      SweepCallsInOrder(g, cs, u, w, h, i, j - 1);
      var prefix := CellOrder(w, h, i, j - 1);
      assert CellOrder(w, h, i, j) == prefix + [(i, j - 1)];
      assert SweepTo(g, cs, u, w, h, i, j) == Call(SweepTo(g, cs, u, w, h, i, j - 1), u, w, h, i, j - 1);
      CallAllAppend(Sweep(g, cs), u, w, h, prefix, (i, j - 1));
    } else if i > 0 {
      SweepCallsInOrder(g, cs, u, w, h, i - 1, h);
      assert CellOrder(w, h, i, 0) == CellOrder(w, h, i - 1, h);
      assert SweepTo(g, cs, u, w, h, i, 0) == SweepTo(g, cs, u, w, h, i - 1, h);
    }
  }

  /** One more cell is one more call. */
  lemma CallAllAppend(s: Sweep, u: Updater, w: nat, h: nat, cells: seq<(int, int)>, c: (int, int))
    requires WellBehaved(u) && IsGrid(s.grid, w, h) && Fits(s.staged, w, h)
    requires CellsWithin(cells, w, h) && 0 <= c.0 < w && 0 <= c.1 < h
    ensures CellsWithin(cells + [c], w, h)
    ensures CallAll(s, u, w, h, cells + [c]) == Call(CallAll(s, u, w, h, cells), u, w, h, c.0, c.1)
  {
    assert (cells + [c])[..|cells|] == cells;
  }

  lemma {:induction false} CellOrderWithin(w: nat, h: nat, i: int, j: int)
    requires 0 <= i <= w && 0 <= j <= h && (i < w || j == 0)
    ensures CellsWithin(CellOrder(w, h, i, j), w, h)
    decreases i, j
  {
    if j > 0 {
      CellOrderWithin(w, h, i, j - 1);
    } else if i > 0 {
      CellOrderWithin(w, h, i - 1, h);
    }
  }

  /**
   * Whatever the updater writes, and however: a step is the updater called
   * once on every cell of the grid, never twice on the same cell, i ascending
   * in the outer loop and j in the inner one, followed by the replay of the queue.
   */
  lemma StepCallsEachCellOnce(g: Grid, cs: seq<Change>, u: Updater, w: nat, h: nat)
    requires WellBehaved(u) && IsGrid(g, w, h) && Fits(cs, w, h)
    ensures var order := CellOrder(w, h, w, 0);
      && CellsWithin(order, w, h) && Distinct(order)
      && (forall a, b :: 0 <= a < w && 0 <= b < h ==> (a, b) in order)
      && (forall x, y :: 0 <= x < y < |order| ==>
            order[x].0 < order[y].0 || (order[x].0 == order[y].0 && order[x].1 < order[y].1))
      && var s := CallAll(Sweep(g, cs), u, w, h, order);
         Step(g, cs, u, w, h) == ApplyAll(s.grid, s.staged)
  {
    SweepCallsInOrder(g, cs, u, w, h, w, 0);
    FullOrderWithin(w, h);
    CellOrderFacts(w, h, w, 0);
  }

  /** The changes the updater stages for the given cells, called on g, in that order. */
  function StagedOf(g: Grid, u: Updater, cells: seq<(int, int)>): seq<Change>
    decreases |cells|
  {
    if cells == [] then []
    else
      var c := cells[|cells| - 1];
      StagedOf(g, u, cells[..|cells| - 1]) + u(g, c.0, c.1).staged
  }

  // ---------------------------------------------------------------------
  // Reads inside a step do not see the writes staged in that step

  /** The updater makes no immediate write on any cell of g. */
  ghost predicate ReadOnlyOn(u: Updater, g: Grid, w: nat, h: nat)
  {
    forall i, j :: 0 <= i < w && 0 <= j < h ==> u(g, i, j).immediate == []
  }

  /** The changes the calls before (i, j) queue when each is given g. */
  function StagedTo(g: Grid, u: Updater, w: nat, h: nat, i: int, j: int): seq<Change>
    requires 0 <= i <= w && 0 <= j <= h && (i < w || j == 0)
    decreases i, j
  {
    if j > 0 then StagedTo(g, u, w, h, i, j - 1) + u(g, i, j - 1).staged
    else if i > 0 then StagedTo(g, u, w, h, i - 1, h)
    else []
  }

  /** Those are the changes of the cells before (i, j), in visiting order. */
  lemma {:induction false} StagedToInOrder(g: Grid, u: Updater, w: nat, h: nat, i: int, j: int)
    requires 0 <= i <= w && 0 <= j <= h && (i < w || j == 0)
    ensures StagedTo(g, u, w, h, i, j) == StagedOf(g, u, CellOrder(w, h, i, j))
    decreases i, j
  {
    if j > 0 {
      StagedToInOrder(g, u, w, h, i, j - 1);
      var order := CellOrder(w, h, i, j);
      assert order[..|order| - 1] == CellOrder(w, h, i, j - 1);
    } else if i > 0 {
      StagedToInOrder(g, u, w, h, i - 1, h);
    }
  }

  /** A call on the starting array that writes nothing at once leaves the array as it is and queues its changes. */
  lemma CallOnStartingArray(g: Grid, s: Sweep, u: Updater, w: nat, h: nat, i: int, j: int)
    requires WellBehaved(u) && IsGrid(g, w, h) && s.grid == g && Fits(s.staged, w, h)
    requires 0 <= i < w && 0 <= j < h && u(g, i, j).immediate == []
    ensures Call(s, u, w, h, i, j) == Sweep(g, s.staged + u(g, i, j).staged)
  {
  }

  /**
   * When the updater writes only through the queue, every call of the sweep
   * is given the array as it was when the step began, and the queue grows by
   * each call's staged writes in visiting order.
   */
  lemma {:induction false} SweepSeesStartingArray(g: Grid, cs: seq<Change>, u: Updater, w: nat, h: nat, i: int, j: int)
    requires WellBehaved(u) && IsGrid(g, w, h) && Fits(cs, w, h) && ReadOnlyOn(u, g, w, h)
    requires 0 <= i <= w && 0 <= j <= h && (i < w || j == 0)
    ensures SweepTo(g, cs, u, w, h, i, j) == Sweep(g, cs + StagedTo(g, u, w, h, i, j))
    decreases i, j
  {
    if j > 0 {
      SweepSeesStartingArray(g, cs, u, w, h, i, j - 1);
      var before, own := StagedTo(g, u, w, h, i, j - 1), u(g, i, j - 1).staged;
      var prev := SweepTo(g, cs, u, w, h, i, j - 1);
      CallOnStartingArray(g, prev, u, w, h, i, j - 1);
      assert SweepTo(g, cs, u, w, h, i, j) == Call(prev, u, w, h, i, j - 1);
      assert StagedTo(g, u, w, h, i, j) == before + own;
      assert cs + before + own == cs + (before + own);
    } else if i > 0 {
      SweepSeesStartingArray(g, cs, u, w, h, i - 1, h);
    }
  }

  /** The updater writes only through the queue, and only to the cell it is called for. */
  ghost predicate LocalOn(u: Updater, g: Grid, w: nat, h: nat)
  {
    && ReadOnlyOn(u, g, w, h)
    && forall i, j, k :: 0 <= i < w && 0 <= j < h && 0 <= k < |u(g, i, j).staged| ==>
         u(g, i, j).staged[k].i == i && u(g, i, j).staged[k].j == j
  }

  /** Each tile of the next state computed from the previous snapshot alone. */
  function NextSnapshot(g: Grid, u: Updater, w: nat, h: nat): (r: Grid)
    requires IsGrid(g, w, h)
    ensures IsGrid(r, w, h)
  {
    seq(w, i requires 0 <= i < w => seq(h, j requires 0 <= j < h => Replay(g[i][j], u(g, i, j).staged, i, j)))
  }

  /** Appending the changes one call queues for its own cell (ci, cj). */
  lemma ReplayOwn(t: Tile, prev: seq<Change>, own: seq<Change>, ci: int, cj: int, a: int, b: int)
    requires forall k :: 0 <= k < |own| ==> own[k].i == ci && own[k].j == cj
    ensures Replay(t, prev + own, a, b) ==
      if (a, b) == (ci, cj) then Replay(Replay(t, prev, a, b), own, a, b) else Replay(t, prev, a, b)
  {
    ReplayAppend(t, prev, own, a, b);
    if (a, b) != (ci, cj) {
      ReplayUntouched(Replay(t, prev, a, b), own, a, b);
    }
  }

  predicate CellsWithin(cells: seq<(int, int)>, w: int, h: int)
  {
    forall k :: 0 <= k < |cells| ==> 0 <= cells[k].0 < w && 0 <= cells[k].1 < h
  }

  predicate Distinct(cells: seq<(int, int)>)
  {
    forall x, y :: 0 <= x < y < |cells| ==> cells[x] != cells[y]
  }

  /**
   * Replaying the queue built from distinct cells' own changes: cell (a, b)
   * receives exactly the changes its own call staged.
   */
  lemma {:induction false} StagedOfLocal(g: Grid, u: Updater, w: nat, h: nat, cells: seq<(int, int)>, t: Tile, a: int, b: int)
    requires LocalOn(u, g, w, h)
    requires CellsWithin(cells, w, h) && Distinct(cells)
    ensures Replay(t, StagedOf(g, u, cells), a, b) ==
      if (a, b) in cells then Replay(t, u(g, a, b).staged, a, b) else t
    decreases |cells|
  {
    if cells != [] {
      var prefix, c := cells[..|cells| - 1], cells[|cells| - 1];
      StagedOfLocal(g, u, w, h, prefix, t, a, b);
      var own := u(g, c.0, c.1).staged;
      assert forall k :: 0 <= k < |own| ==> own[k].i == c.0 && own[k].j == c.1;
      ReplayOwn(t, StagedOf(g, u, prefix), own, c.0, c.1, a, b);
      assert (a, b) in cells <==> (a, b) in prefix || (a, b) == c;
      if (a, b) == c {
        assert (a, b) !in prefix;
      }
    }
  }

  /** The full visiting order, as the facts `StagedOfLocal` needs. */
  lemma FullOrderWithin(w: nat, h: nat)
    ensures CellsWithin(CellOrder(w, h, w, 0), w, h) && Distinct(CellOrder(w, h, w, 0))
    ensures forall a, b :: 0 <= a < w && 0 <= b < h ==> (a, b) in CellOrder(w, h, w, 0)
  {
    var order := CellOrder(w, h, w, 0);
    StepVisitsEveryCellOnce(w, h);
    forall k | 0 <= k < |order|
      ensures 0 <= order[k].0 < w && 0 <= order[k].1 < h
    {
      var (a, b) := order[k];
      assert (a, b) in order;
    }
  }

  /** An updater that writes only through the queue: a step replays, on g, what every call queued in visiting order. */
  lemma StepReplaysQueue(g: Grid, u: Updater, w: nat, h: nat)
    requires WellBehaved(u) && IsGrid(g, w, h) && ReadOnlyOn(u, g, w, h)
    ensures Targets(g, StagedOf(g, u, CellOrder(w, h, w, 0)))
    ensures Step(g, [], u, w, h) == ApplyAll(g, StagedOf(g, u, CellOrder(w, h, w, 0)))
  {
    var s := SweepTo(g, [], u, w, h, w, 0);
    var staged := StagedTo(g, u, w, h, w, 0);
    SweepSeesStartingArray(g, [], u, w, h, w, 0);
    StagedToInOrder(g, u, w, h, w, 0);
    assert s.staged == staged by {
      assert [] + staged == staged;
    }
    FitsTargets(g, staged, w, h);
  }

  /** With a local updater, cell (a, b) after a step is its own staged changes replayed on its old tile. */
  lemma StepCell(g: Grid, u: Updater, w: nat, h: nat, a: int, b: int)
    requires WellBehaved(u) && IsGrid(g, w, h) && LocalOn(u, g, w, h)
    requires 0 <= a < w && 0 <= b < h
    ensures Step(g, [], u, w, h)[a][b] == Replay(g[a][b], u(g, a, b).staged, a, b)
  {
    var order := CellOrder(w, h, w, 0);
    StepReplaysQueue(g, u, w, h);
    FullOrderWithin(w, h);
    ApplyAllCell(g, StagedOf(g, u, order), a, b);
    StagedOfLocal(g, u, w, h, order, g[a][b], a, b);
  }

  /**
   * The core guarantee of staged writes: when the updater only reads and
   * queues changes for its own cell, a step computes the whole next state
   * from the previous one, independently of the order of the cells.
   */
  lemma StepIsSnapshot(g: Grid, u: Updater, w: nat, h: nat)
    requires WellBehaved(u) && IsGrid(g, w, h) && LocalOn(u, g, w, h)
    ensures Step(g, [], u, w, h) == NextSnapshot(g, u, w, h)
  {
    var stepped, next := Step(g, [], u, w, h), NextSnapshot(g, u, w, h);
    forall a, b | 0 <= a < w && 0 <= b < h
      ensures stepped[a][b] == next[a][b]
    {
      StepCell(g, u, w, h, a, b);
    }
    SameGrid(stepped, next, w, h);
  }

  /** On g, the updater writes nothing at once and stages at most one record, for its own cell. */
  ghost predicate OwnRecordOn(u: Updater, g: Grid, w: nat, h: nat)
  {
    forall i, j :: 0 <= i < w && 0 <= j < h ==>
      && u(g, i, j).immediate == []
      && |u(g, i, j).staged| <= 1
      && (|u(g, i, j).staged| == 1 ==> u(g, i, j).staged[0].i == i && u(g, i, j).staged[0].j == j)
  }

  /** The record a cell's own call stages, merged into its previous tile; no record, no change. */
  function OwnNext(g: Grid, u: Updater, i: int, j: int): Tile
    requires InGrid(g, i, j)
  {
    if u(g, i, j).staged == [] then g[i][j] else g[i][j] + u(g, i, j).staged[0].t
  }

  /** A step of such an updater merges each cell's own record into its previous tile. */
  lemma StepAppliesOwnRecords(g: Grid, u: Updater, w: nat, h: nat)
    requires WellBehaved(u) && IsGrid(g, w, h) && OwnRecordOn(u, g, w, h)
    ensures forall a, b :: 0 <= a < w && 0 <= b < h ==> Step(g, [], u, w, h)[a][b] == OwnNext(g, u, a, b)
  {
    assert LocalOn(u, g, w, h);
    StepIsSnapshot(g, u, w, h);
    forall a, b | 0 <= a < w && 0 <= b < h
      ensures Step(g, [], u, w, h)[a][b] == OwnNext(g, u, a, b)
    {
      var st := u(g, a, b).staged;
      assert Step(g, [], u, w, h)[a][b] == Replay(g[a][b], st, a, b);
      if st != [] {
        assert st[..|st| - 1] == [];
        assert Replay(g[a][b], st, a, b) == Replay(g[a][b], [], a, b) + st[0].t;
      }
    }
  }

  // ---------------------------------------------------------------------
  // Attributes that the first step gives every tile

  /** On every w x h array, the immediate writes of the call for (i, j) leave tile (i, j) with the attribute `key`. */
  ghost predicate GivesKey(u: Updater, key: string, w: nat, h: nat)
  {
    forall g: Grid, i, j {:trigger Replay(g[i][j], u(g, i, j).immediate, i, j)} ::
      IsGrid(g, w, h) && 0 <= i < w && 0 <= j < h ==> key in Replay(g[i][j], u(g, i, j).immediate, i, j)
  }

  /** Every cell before (i, j) in the loops' order has `key`. */
  predicate KeyedBefore(gr: Grid, key: string, w: nat, h: nat, i: int, j: int)
    requires IsGrid(gr, w, h)
  {
    forall a, b :: 0 <= a < w && 0 <= b < h && (a < i || (a == i && b < j)) ==> key in gr[a][b]
  }

  /** The call for (i, j) gives its cell `key` and takes it from no cell that had it. */
  lemma CallGivesKey(s: Sweep, u: Updater, w: nat, h: nat, i: int, j: int, key: string)
    requires WellBehaved(u) && IsGrid(s.grid, w, h) && Fits(s.staged, w, h) && GivesKey(u, key, w, h)
    requires 0 <= i < w && 0 <= j < h && KeyedBefore(s.grid, key, w, h, i, j)
    ensures KeyedBefore(Call(s, u, w, h, i, j).grid, key, w, h, i, j + 1)
  {
    var e := u(s.grid, i, j);
    assert Height(s.grid) == h by { assert |s.grid[0]| == h; }
    FitsTargets(s.grid, e.immediate, w, h);
    var next := ApplyAll(s.grid, e.immediate);
    forall a, b | 0 <= a < w && 0 <= b < h && (a < i || (a == i && b < j + 1))
      ensures key in next[a][b]
    {
      ApplyAllCell(s.grid, e.immediate, a, b);
      if (a, b) != (i, j) {
        ReplayKeepsKey(s.grid[a][b], e.immediate, a, b, key);
      }
    }
  }

  /** One more call of the sweep keeps every visited cell keyed. */
  lemma SweepNextKeyed(g: Grid, cs: seq<Change>, u: Updater, w: nat, h: nat, i: int, j: int, key: string)
    requires WellBehaved(u) && IsGrid(g, w, h) && Fits(cs, w, h) && GivesKey(u, key, w, h)
    requires 0 <= i < w && 0 < j <= h
    requires KeyedBefore(SweepTo(g, cs, u, w, h, i, j - 1).grid, key, w, h, i, j - 1)
    ensures KeyedBefore(SweepTo(g, cs, u, w, h, i, j).grid, key, w, h, i, j)
  {
    var s := SweepTo(g, cs, u, w, h, i, j - 1);
    CallGivesKey(s, u, w, h, i, j - 1, key);
    assert SweepTo(g, cs, u, w, h, i, j) == Call(s, u, w, h, i, j - 1);
  }

  /** Moving on to the next column keeps every visited cell keyed. */
  lemma SweepNextColumnKeyed(g: Grid, cs: seq<Change>, u: Updater, w: nat, h: nat, i: int, key: string)
    requires WellBehaved(u) && IsGrid(g, w, h) && Fits(cs, w, h)
    requires 0 < i <= w
    requires KeyedBefore(SweepTo(g, cs, u, w, h, i - 1, h).grid, key, w, h, i - 1, h)
    ensures KeyedBefore(SweepTo(g, cs, u, w, h, i, 0).grid, key, w, h, i, 0)
  {
    assert SweepTo(g, cs, u, w, h, i, 0) == SweepTo(g, cs, u, w, h, i - 1, h);
  }

  /** Every cell the sweep has visited has `key`, and keeps it whatever later calls write. */
  lemma {:induction false} SweepGivesKey(g: Grid, cs: seq<Change>, u: Updater, w: nat, h: nat, i: int, j: int, key: string)
    requires WellBehaved(u) && IsGrid(g, w, h) && Fits(cs, w, h) && GivesKey(u, key, w, h)
    requires 0 <= i <= w && 0 <= j <= h && (i < w || j == 0)
    ensures KeyedBefore(SweepTo(g, cs, u, w, h, i, j).grid, key, w, h, i, j)
    decreases i, j
  {
    if j > 0 {
      SweepGivesKey(g, cs, u, w, h, i, j - 1, key);
      SweepNextKeyed(g, cs, u, w, h, i, j, key);
    } else if i > 0 {
      SweepGivesKey(g, cs, u, w, h, i - 1, h, key);
      SweepNextColumnKeyed(g, cs, u, w, h, i, key);
    }
  }

  /** When every call gives its own cell `key` at once, a step leaves every tile with `key`, from any array. */
  lemma StepGivesKey(g: Grid, cs: seq<Change>, u: Updater, w: nat, h: nat, key: string)
    requires WellBehaved(u) && IsGrid(g, w, h) && Fits(cs, w, h) && GivesKey(u, key, w, h)
    ensures forall a, b :: 0 <= a < w && 0 <= b < h ==> key in Step(g, cs, u, w, h)[a][b]
  {
    var s := SweepTo(g, cs, u, w, h, w, 0);
    SweepGivesKey(g, cs, u, w, h, w, 0, key);
    FitsTargets(s.grid, s.staged, w, h);
    forall a, b | 0 <= a < w && 0 <= b < h
      ensures key in Step(g, cs, u, w, h)[a][b]
    {
      assert key in s.grid[a][b];
      ApplyAllCell(s.grid, s.staged, a, b);
      ReplayKeepsKey(s.grid[a][b], s.staged, a, b, key);
    }
  }
}
