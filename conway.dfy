/**
 * The Game of Life preset (`presets.conwaylife`): a tile's `alive` attribute
 * is seeded at random the first time the cell is visited, then each step a
 * live cell with fewer than two or more than three live neighbours dies and
 * a dead cell with exactly three is born, the neighbours being the eight
 * surrounding cells with wrap-around at the edges.
 *
 * The random seeding is a parameter: `coin` is whether `Math.random() < 0.25`
 * came out true for that cell.
 */
module Conway {
  import opened Optional
  import opened Grids
  import opened Stepping
  import opened Attributes
  import N = Neighborhood
  import opened TileMaps

  /** The positions in vs whose tile has a truthy `alive`. */
  function AliveAt(g: Grid, vs: seq<N.Visit>): set<int>
    requires VisitsIn(g, vs)
  {
    set k | 0 <= k < |vs| && Truthy(g[vs[k].i2][vs[k].j2], "alive")
  }

  /** The count the neighbour callback accumulates over the visits vs. */
  function CountAlive(g: Grid, vs: seq<N.Visit>): (n: nat)
    requires VisitsIn(g, vs)
    ensures n <= |vs|
    decreases |vs|
  {
    if vs == [] then 0
    else
      var v := vs[|vs| - 1];
      CountAlive(g, vs[..|vs| - 1]) + (if Truthy(g[v.i2][v.j2], "alive") then 1 else 0)
  }

  /** The count is the number of visited tiles that are alive. */
  lemma {:induction false} CountAliveIsCardinality(g: Grid, vs: seq<N.Visit>)
    requires VisitsIn(g, vs)
    ensures CountAlive(g, vs) == |AliveAt(g, vs)|
    decreases |vs|
  {
    if vs != [] {
      var last := |vs| - 1;
      var p := vs[..last];
      CountAliveIsCardinality(g, p);
      if Truthy(g[vs[last].i2][vs[last].j2], "alive") {
        assert AliveAt(g, vs) == AliveAt(g, p) + {last};
      } else {
        assert AliveAt(g, vs) == AliveAt(g, p);
      }
    }
  }

  /** `aliveNeighbors` for cell (i, j): live tiles among the eight cells around it. */
  function AliveNeighbors(g: Grid, i: int, j: int): (n: nat)
    requires IsGrid(g, |g|, Height(g)) && InGrid(g, i, j)
    ensures n <= 8
  {
    N.OffsetsCount(1);
    CountAlive(g, Around(g, 0, i, j, 1))
  }

  /** The `alive` value the rule stages for a cell, or None when it stages nothing. */
  function LifeRule(alive: int, n: int): Option<int>
  {
    if alive != 0 then (if n < 2 || n > 3 then Some(0) else None)
    else if n == 3 then Some(1)
    else None
  }

  /** Whether the cell is alive after the rule. */
  predicate LivesOn(alive: int, n: int)
  {
    match LifeRule(alive, n)
    case None => alive != 0
    case Some(v) => v != 0
  }

  /**
   * The rule is B3/S23: a cell is alive afterwards exactly when it has three
   * live neighbours, or two and was alive; and it stages a change exactly
   * when its state flips.
   */
  lemma LifeRuleIsB3S23(alive: int, n: int)
    ensures LivesOn(alive, n) <==> n == 3 || (alive != 0 && n == 2)
    ensures LifeRule(alive, n).Some? <==> LivesOn(alive, n) != (alive != 0)
  {
  }

  /** The tile after lazy seeding: `alive` set from the coin when it was missing. */
  function Seed(t: Tile, coin: bool): Tile
  {
    if "alive" in t then t else t["alive" := if coin then 1 else 0]
  }

  /** The `setTile` write of the seeding branch: none when `alive` is already there. */
  function Seeding(g: Grid, i: int, j: int, coin: bool): seq<Change>
    requires InGrid(g, i, j)
  {
    if "alive" in g[i][j] then [] else [Change(i, j, Seed(g[i][j], coin))]
  }

  /** The `changeTile` write for a seeded tile t at (i, j) with n live neighbours, if its state flips. */
  function Flip(t: Tile, n: int, i: int, j: int): seq<Change>
    requires "alive" in t
  {
    match LifeRule(t["alive"], n)
    case None => []
    case Some(v) => [Change(i, j, t["alive" := v])]
  }

  /** What the Life updater does for cell (i, j) of g: the neighbours are counted after seeding. */
  function LifeEffect(g: Grid, i: int, j: int, coin: bool): Effect
    requires IsGrid(g, |g|, Height(g)) && InGrid(g, i, j)
  {
    var seeding := Seeding(g, i, j, coin);
    Effect(seeding, Flip(Seed(g[i][j], coin), AliveNeighbors(ApplyAll(g, seeding), i, j), i, j))
  }

  /**
   * The Life updater; `coins(i, j)` is the seeding draw for cell (i, j).
   */
  function LifeRuleOf(coins: (int, int) -> bool): Updater
  {
    (g: Grid, i: int, j: int) =>
      if IsGrid(g, |g|, Height(g)) && InGrid(g, i, j) then LifeEffect(g, i, j, coins(i, j))
      else Effect([], [])
  }

  /** Whatever the count, the change the rule stages is for the cell it was computed for. */
  lemma FlipOwnCell(t: Tile, i: int, j: int)
    requires "alive" in t
    ensures forall n :: OnlyAt(Flip(t, n, i, j), i, j)
  {
  }

  /** At a cell of a well-formed array, every write of the Life updater is for that cell. */
  lemma LifeWritesOwnCell(g: Grid, coins: (int, int) -> bool, i: int, j: int)
    requires IsGrid(g, |g|, Height(g)) && InGrid(g, i, j)
    ensures OnlyAt(LifeRuleOf(coins)(g, i, j).immediate, i, j) && OnlyAt(LifeRuleOf(coins)(g, i, j).staged, i, j)
  {
    FlipOwnCell(Seed(g[i][j], coins(i, j)), i, j);
    assert LifeRuleOf(coins)(g, i, j) == LifeEffect(g, i, j, coins(i, j));
  }

  /** The Life updater writes only to the cell it is called for. */
  lemma LifeWellBehaved(coins: (int, int) -> bool)
    ensures WellBehaved(LifeRuleOf(coins))
  {
    forall g: Grid, i: int, j: int | IsGrid(g, |g|, Height(g)) && 0 <= i < |g| && 0 <= j < Height(g)
      ensures OnlyAt(LifeRuleOf(coins)(g, i, j).immediate, i, j) && OnlyAt(LifeRuleOf(coins)(g, i, j).staged, i, j)
    {
      LifeWritesOwnCell(g, coins, i, j);
    }
    OwnWritesWellBehaved(LifeRuleOf(coins));
  }

  /** Every tile already has its `alive` attribute. */
  predicate Seeded(g: Grid)
  {
    forall i, j :: 0 <= i < |g| && 0 <= j < |g[i]| ==> "alive" in g[i][j]
  }

  /** The tile a seeded cell holds after the rule, given its live-neighbour count. */
  function LifeNext(t: Tile, n: int): Tile
    requires "alive" in t
  {
    match LifeRule(t["alive"], n)
    case None => t
    case Some(v) => t["alive" := v]
  }

  /** On a seeded tile, the updater seeds nothing and stages at most the rule's new tile. */
  lemma EffectOnSeeded(g: Grid, i: int, j: int, coin: bool)
    requires IsGrid(g, |g|, Height(g)) && InGrid(g, i, j) && "alive" in g[i][j]
    ensures var t := g[i][j];
      LifeEffect(g, i, j, coin) ==
        Effect([], if LifeRule(t["alive"], AliveNeighbors(g, i, j)).Some? then [Change(i, j, LifeNext(t, AliveNeighbors(g, i, j)))] else [])
  {
    assert ApplyAll(g, []) == g;
  }

  /** The new tile is alive by B3/S23 and differs from the old one at most in `alive`. */
  lemma LifeNextIsB3S23(t: Tile, n: int)
    requires "alive" in t
    ensures "alive" in LifeNext(t, n)
    ensures Truthy(LifeNext(t, n), "alive") <==> n == 3 || (Truthy(t, "alive") && n == 2)
    ensures LifeNext(t, n) - {"alive"} == t - {"alive"}
    ensures LifeRule(t["alive"], n).Some? ==> t + LifeNext(t, n) == LifeNext(t, n)
  {
    LifeRuleIsB3S23(t["alive"], n);
  }

  /**
   * What a step needs from the Life updater at a seeded cell (a, b) of g: it
   * writes nothing at once, stages at most one record, for its own cell, and
   * that record makes the tile alive by B3/S23 and changes nothing else.
   */
  lemma LifeCellOnSeeded(g: Grid, coins: (int, int) -> bool, a: int, b: int)
    requires IsGrid(g, |g|, Height(g)) && InGrid(g, a, b) && "alive" in g[a][b]
    ensures var u := LifeRuleOf(coins);
      && u(g, a, b).immediate == []
      && |u(g, a, b).staged| <= 1
      && (|u(g, a, b).staged| == 1 ==> u(g, a, b).staged[0].i == a && u(g, a, b).staged[0].j == b)
      && "alive" in OwnNext(g, u, a, b)
      && (Truthy(OwnNext(g, u, a, b), "alive") <==>
           AliveNeighbors(g, a, b) == 3 || (Truthy(g[a][b], "alive") && AliveNeighbors(g, a, b) == 2))
      && OwnNext(g, u, a, b) - {"alive"} == g[a][b] - {"alive"}
  {
    var n := AliveNeighbors(g, a, b);
    EffectOnSeeded(g, a, b, coins(a, b));
    assert LifeRuleOf(coins)(g, a, b) == LifeEffect(g, a, b, coins(a, b));
    LifeNextIsB3S23(g[a][b], n);
    assert OwnNext(g, LifeRuleOf(coins), a, b) == LifeNext(g[a][b], n);
  }

  /**
   * On a seeded grid a whole step is the Game of Life on the previous
   * generation: each tile's new `alive` follows B3/S23 from the live
   * neighbours it had before the step (later cells do not see earlier
   * cells' updates), whatever the coins, and no other attribute changes.
   */
  lemma LifeStepIsB3S23(g: Grid, coins: (int, int) -> bool, w: nat, h: nat)
    requires IsGrid(g, w, h) && Seeded(g)
    ensures WellBehaved(LifeRuleOf(coins))
    ensures forall a, b :: 0 <= a < w && 0 <= b < h ==>
      && "alive" in Step(g, [], LifeRuleOf(coins), w, h)[a][b]
      && (Truthy(Step(g, [], LifeRuleOf(coins), w, h)[a][b], "alive") <==>
           AliveNeighbors(g, a, b) == 3 || (Truthy(g[a][b], "alive") && AliveNeighbors(g, a, b) == 2))
      && Step(g, [], LifeRuleOf(coins), w, h)[a][b] - {"alive"} == g[a][b] - {"alive"}
  {
    var u := LifeRuleOf(coins);
    LifeWellBehaved(coins);
    assert w > 0 ==> Height(g) == h by {
      if w > 0 { assert |g[0]| == h; }
    }
    forall a, b | 0 <= a < w && 0 <= b < h
      ensures && u(g, a, b).immediate == []
        && |u(g, a, b).staged| <= 1
        && (|u(g, a, b).staged| == 1 ==> u(g, a, b).staged[0].i == a && u(g, a, b).staged[0].j == b)
        && "alive" in OwnNext(g, u, a, b)
        && (Truthy(OwnNext(g, u, a, b), "alive") <==>
             AliveNeighbors(g, a, b) == 3 || (Truthy(g[a][b], "alive") && AliveNeighbors(g, a, b) == 2))
        && OwnNext(g, u, a, b) - {"alive"} == g[a][b] - {"alive"}
    {
      LifeCellOnSeeded(g, coins, a, b);
    }
    assert OwnRecordOn(u, g, w, h);
    StepAppliesOwnRecords(g, u, w, h);
  }

  /** Lazy seeding gives the cell its `alive` at once, on any array. */
  lemma LifeGivesAlive(coins: (int, int) -> bool, w: nat, h: nat)
    ensures GivesKey(LifeRuleOf(coins), "alive", w, h)
  {
    forall g: Grid, i, j | IsGrid(g, w, h) && 0 <= i < w && 0 <= j < h
      ensures "alive" in Replay(g[i][j], LifeRuleOf(coins)(g, i, j).immediate, i, j)
    {
      assert Height(g) == h by { assert |g[0]| == h; }
      var seeding := Seeding(g, i, j, coins(i, j));
      assert LifeRuleOf(coins)(g, i, j).immediate == seeding;
      if seeding != [] {
        assert seeding[..0] == [];
      }
    }
  }

  /**
   * The first step seeds every tile, from any array, a blank one included;
   * from then on every step is the B3/S23 step of `LifeStepIsB3S23`.
   */
  lemma LifeStepSeeds(g: Grid, coins: (int, int) -> bool, w: nat, h: nat)
    requires IsGrid(g, w, h)
    ensures WellBehaved(LifeRuleOf(coins))
    ensures Seeded(Step(g, [], LifeRuleOf(coins), w, h))
  {
    LifeWellBehaved(coins);
    LifeGivesAlive(coins, w, h);
    StepGivesKey(g, [], LifeRuleOf(coins), w, h, "alive");
  }

  /** The callback of the neighbour loop, played on each visited cell in turn. */
  method CountAliveOver(tm: TileMap, visits: seq<N.Visit>) returns (aliveNeighbors: nat)
    requires tm.Valid() && VisitsIn(tm.Tiles(), visits)
    ensures aliveNeighbors == CountAlive(tm.Tiles(), visits)
  {
    ghost var g := tm.Tiles();
    aliveNeighbors := 0;
    var k := 0;
    while k < |visits|
      invariant 0 <= k <= |visits|
      invariant aliveNeighbors == CountAlive(g, visits[..k])
    {
      assert visits[..k + 1][..k] == visits[..k];
      var v := visits[k];
      assert InGrid(g, v.i2, v.j2);
      var t1 := tm.GetTile(v.i2, v.j2);
      if Truthy(t1, "alive") {
        aliveNeighbors := aliveNeighbors + 1;
      }
      k := k + 1;
    }
    assert visits[..k] == visits;
  }

  /** The neighbour loop of the Life updater: it counts, and changes nothing. */
  method CountAliveNeighbors(tm: TileMap, i: int, j: int) returns (aliveNeighbors: nat)
    requires tm.Valid() && 0 <= i < tm.Width() && 0 <= j < tm.Height()
    ensures aliveNeighbors == AliveNeighbors(tm.Tiles(), i, j)
  {
    var visits := N.ForNeighborhood(0, i, j, tm.Width(), tm.Height(), 1);
    AroundSized(tm.Tiles(), 0, i, j, 1, tm.Width(), tm.Height());
    aliveNeighbors := CountAliveOver(tm, visits);
  }

  /** The seeding branch of the Life updater: read the tile, and give it `alive` at once if it has none. */
  method SeedTile(tm: TileMap, i: int, j: int, coin: bool) returns (t: Tile)
    requires tm.Valid() && 0 <= i < tm.Width() && 0 <= j < tm.Height()
    modifies tm.m
    ensures t == Seed(old(tm.Tiles())[i][j], coin)
    ensures tm.Tiles() == ApplyAll(old(tm.Tiles()), Seeding(old(tm.Tiles()), i, j, coin))
  {
    t := tm.GetTile(i, j);
    if "alive" !in t {
      t := t["alive" := if coin then 1 else 0];
      tm.SetTile(i, j, t);
      assert [Change(i, j, t)][..0] == [];
    }
  }

  /**
   * `presets.conwaylife`'s updater on the TileMap: seed `alive` with
   * `setTile` when missing, count live neighbours over `forNeighborhood`,
   * and queue the new state with `changeTile` when it flips.
   */
  method LifeUpdate(tm: TileMap, i: int, j: int, coin: bool)
    requires tm.Valid() && 0 <= i < tm.Width() && 0 <= j < tm.Height()
    modifies tm, tm.m
    ensures tm.Valid()
    ensures tm.Tiles() == ApplyAll(old(tm.Tiles()), LifeEffect(old(tm.Tiles()), i, j, coin).immediate)
    ensures tm.changes == old(tm.changes) + LifeEffect(old(tm.Tiles()), i, j, coin).staged
  {
    ghost var g0 := tm.Tiles();
    ghost var e := LifeEffect(g0, i, j, coin);
    var t := SeedTile(tm, i, j, coin);
    var aliveNeighbors := CountAliveNeighbors(tm, i, j);
    assert e.staged == Flip(t, aliveNeighbors, i, j);
    ghost var t0 := t;
    var cng := false;
    if t["alive"] != 0 {
      if aliveNeighbors < 2 || aliveNeighbors > 3 {
        t := t["alive" := 0];
        cng := true;
      }
    } else if aliveNeighbors == 3 {
      t := t["alive" := 1];
      cng := true;
    }
    assert e.staged == if cng then [Change(i, j, t)] else [] by {
      assert LifeRule(t0["alive"], aliveNeighbors) == if cng then Some(t["alive"]) else None;
      assert cng ==> t == t0["alive" := t["alive"]];
    }
    if cng {
      tm.ChangeTile(i, j, t);
    }
  }

  /** The Life colour map: black for a live tile, white otherwise. */
  function LifeColor(t: Tile): Option<Rgb>
  {
    if Truthy(t, "alive") then Gray(0) else Gray(255)
  }

  /** Every tile gets a grey in range, and it is black exactly when the tile is alive. */
  lemma LifeColorIsBlackIffAlive(t: Tile)
    ensures LifeColor(t).Some? && InChannelRange(LifeColor(t).value)
    ensures LifeColor(t).value == Rgb(0, 0, 0) <==> Truthy(t, "alive")
    ensures !Truthy(t, "alive") ==> LifeColor(t).value == Rgb(255, 255, 255)
  {
  }
}
