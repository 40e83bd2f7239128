/**
 * The forest preset (`presets.forest`): each tile carries vegetation `veg`,
 * `fire` and petrification `petr` (0 none, 1 petrified, 2 stone). The first
 * visit sets all three to 0; then each step a cell may grow, burns when on
 * fire, may catch fire from burning neighbours, may petrify, erode, harden,
 * crumble, ignite spontaneously or petrify spontaneously.
 *
 * Every `Math.random() < p` is a parameter (a field of `Draws`); where p is
 * 0 or at least 1 the outcome is fixed and the model fixes it too.
 */
module Forest {
  import opened Optional
  import opened Grids
  import opened Stepping
  import opened Attributes
  import N = Neighborhood
  import opened TileMaps

  /** The three forest attributes of a tile. */
  datatype Cell = Cell(veg: int, fire: int, petr: int)

  /** The four counters the neighbour loop accumulates: `f`, `p`, `r` and `u`. */
  datatype Census = Census(fire: int, petrified: nat, regrowing: nat, stone: nat)

  /** The outcomes of the random draws of one updater call, in source order. */
  datatype Draws = Draws(
    grow: bool,       // 0.002: vegetation grows
    ignite: bool,     // 0.01 * f: catch fire from neighbours (certain once f >= 100)
    petrify: bool,    // 0.0003: petrify next to petrified cells
    erode: bool,      // 0.001 * r: erode next to regrowing cells (never when r == 0)
    toStone: bool,    // 0.1: erosion turns the cell to stone rather than clearing it
    harden: bool,     // 0.01 * u: harden next to stone (never when u == 0)
    crumble: bool,    // 0.003: stone crumbles
    spark: bool,      // 0.0000004: spontaneous fire
    seed: bool)       // 0.0000005: spontaneous petrification

  /** `t1.petr === 1`. */
  predicate Petrified(t1: Tile)
  {
    "petr" in t1 && t1["petr"] == 1
  }

  /** `t1.veg > 0 && t1.veg < 8`. */
  predicate Regrowing(t1: Tile)
  {
    "veg" in t1 && 0 < t1["veg"] < 8
  }

  /** `t1.petr === 2`. */
  predicate Stone(t1: Tile)
  {
    "petr" in t1 && t1["petr"] == 2
  }

  /** The counters after one more visited tile t1. */
  function Tally(c: Census, t1: Tile): Census
  {
    Census(
      c.fire + (if Truthy(t1, "fire") then t1["fire"] else 0),
      c.petrified + (if Petrified(t1) then 1 else 0),
      c.regrowing + (if Regrowing(t1) then 1 else 0),
      c.stone + (if Stone(t1) then 1 else 0))
  }

  /** The counters after the visits vs. */
  function CensusOf(g: Grid, vs: seq<N.Visit>): (c: Census)
    requires VisitsIn(g, vs)
    ensures c.petrified + c.stone <= |vs| && c.regrowing <= |vs|
    decreases |vs|
  {
    if vs == [] then Census(0, 0, 0, 0)
    else
      var v := vs[|vs| - 1];
      Tally(CensusOf(g, vs[..|vs| - 1]), g[v.i2][v.j2])
  }

  /** The positions in vs whose tile satisfies p. */
  function VisitsWhere(g: Grid, vs: seq<N.Visit>, p: Tile -> bool): set<int>
    requires VisitsIn(g, vs)
  {
    set k | 0 <= k < |vs| && p(g[vs[k].i2][vs[k].j2])
  }

  /** One more visit adds its position exactly when its tile satisfies p. */
  lemma VisitsWhereLast(g: Grid, vs: seq<N.Visit>, p: Tile -> bool)
    requires VisitsIn(g, vs) && vs != []
    ensures var last := |vs| - 1;
      VisitsWhere(g, vs, p) ==
        VisitsWhere(g, vs[..last], p) + (if p(g[vs[last].i2][vs[last].j2]) then {last} else {})
  {
    var last := |vs| - 1;
    var prefix := vs[..last];
    assert forall k :: 0 <= k < last ==> prefix[k] == vs[k];
  }

  /**
   * The counters count what the callback's conditions say: `p` is the number
   * of visited petrified tiles, `r` of regrowing ones (vegetation 1 to 7) and
   * `u` of stone ones.
   */
  lemma {:induction false} CensusIsCardinality(g: Grid, vs: seq<N.Visit>)
    requires VisitsIn(g, vs)
    ensures CensusOf(g, vs).petrified == |VisitsWhere(g, vs, Petrified)|
    ensures CensusOf(g, vs).regrowing == |VisitsWhere(g, vs, Regrowing)|
    ensures CensusOf(g, vs).stone == |VisitsWhere(g, vs, Stone)|
    decreases |vs|
  {
    if vs == [] {
      assert VisitsWhere(g, vs, Petrified) == {};
      assert VisitsWhere(g, vs, Regrowing) == {};
      assert VisitsWhere(g, vs, Stone) == {};
    } else {
      var last := |vs| - 1;
      CensusIsCardinality(g, vs[..last]);
      VisitsWhereLast(g, vs, Petrified);
      VisitsWhereLast(g, vs, Regrowing);
      VisitsWhereLast(g, vs, Stone);
      assert last !in VisitsWhere(g, vs[..last], Petrified);
      assert last !in VisitsWhere(g, vs[..last], Regrowing);
      assert last !in VisitsWhere(g, vs[..last], Stone);
    }
  }

  /** The counters over the eight cells around (i, j). */
  function Neighbors(g: Grid, i: int, j: int): (c: Census)
    requires IsGrid(g, |g|, Height(g)) && InGrid(g, i, j)
    ensures c.petrified + c.stone <= 8 && c.regrowing <= 8
  {
    N.OffsetsCount(1);
    CensusOf(g, Around(g, 0, i, j, 1))
  }

  /**
   * Burning: with no vegetation the fire halves (rounded down); otherwise
   * `a = min(fire, veg)` vegetation burns and the fire grows by half of it
   * rounded up. Returns (fire, veg).
   */
  function Burn(fire: int, veg: int): (int, int)
  {
    if veg == 0 then (fire / 2, veg)
    else
      var a := Min(fire, veg);
      (fire + (a + 1) / 2, veg - a)
  }

  /**
   * On a burning cell with vegetation, the fire eats exactly the smaller of
   * its own size and the vegetation, and grows by half the amount eaten,
   * rounded up; on a bare cell it halves, rounded down. Vegetation never goes
   * negative and the fire never goes out while there was something to burn.
   */
  lemma BurnConsumes(fire: int, veg: int)
    requires fire > 0 && veg >= 0
    ensures var (fire', veg') := Burn(fire, veg);
      && 0 <= veg' <= veg
      && (veg > 0 ==> veg - veg' == Min(fire, veg))
      && (veg == 0 ==> veg' == 0)
      && (veg > 0 ==> fire' > fire && 0 <= 2 * (fire' - fire) - (veg - veg') <= 1)
      && (veg == 0 ==> 0 <= fire - 2 * fire' <= 1)
  {
  }

  /** The cell after the burning branch. */
  function Burned(s: Cell): Cell
  {
    var (fire, veg) := Burn(s.fire, s.veg);
    s.(fire := fire, veg := veg)
  }

  /** The cell part-way through the branches, and whether any branch has fired (`cng`). */
  datatype Outcome = Outcome(cell: Cell, changed: bool)

  /** Fired: the branch's new cell, with `cng` set. */
  function Fired(s: Cell): Outcome
  {
    Outcome(s, true)
  }

  /** A quiet cell grows. */
  function Grow(o: Outcome, d: Draws): Outcome
  {
    var s := o.cell;
    if s.fire == 0 && s.petr == 0 && d.grow then Fired(s.(veg := s.veg + 1)) else o
  }

  /** A burning cell burns. */
  function BurnStep(o: Outcome): Outcome
  {
    if o.cell.fire != 0 then Fired(Burned(o.cell)) else o
  }

  /** A quiet vegetated cell catches fire from more than 10 fire around it (other than its own). */
  function Ignite(o: Outcome, c: Census, d: Draws): Outcome
  {
    var s := o.cell;
    var f := c.fire - s.fire;
    if s.petr == 0 && s.fire == 0 && s.veg != 0 && f > 10 && (f >= 100 || d.ignite) then Fired(s.(fire := f / 10))
    else o
  }

  /** A quiet cell next to one to three petrified cells petrifies. */
  function Petrify(o: Outcome, c: Census, d: Draws): Outcome
  {
    var s := o.cell;
    if s.fire == 0 && s.petr == 0 && 0 < c.petrified < 4 && d.petrify then Fired(s.(petr := 1)) else o
  }

  /** A petrified or stone cell next to regrowing cells erodes, to stone or to nothing. */
  function Erode(o: Outcome, c: Census, d: Draws): Outcome
  {
    var s := o.cell;
    if s.petr != 0 && c.regrowing > 0 && d.erode then Fired(s.(petr := if d.toStone then 2 else 0)) else o
  }

  /** A petrified cell next to stone hardens to stone. */
  function Harden(o: Outcome, c: Census, d: Draws): Outcome
  {
    var s := o.cell;
    if s.petr == 1 && c.stone > 0 && d.harden then Fired(s.(petr := 2)) else o
  }

  /** Stone crumbles. */
  function Crumble(o: Outcome, d: Draws): Outcome
  {
    var s := o.cell;
    if s.petr == 2 && d.crumble then Fired(s.(petr := 0)) else o
  }

  /** A quiet vegetated cell catches fire on its own. */
  function Spark(o: Outcome, d: Draws): Outcome
  {
    var s := o.cell;
    if s.petr == 0 && s.fire == 0 && s.veg != 0 && d.spark then Fired(s.(fire := 1)) else o
  }

  /** A quiet vegetated cell petrifies on its own. */
  function SelfPetrify(o: Outcome, d: Draws): Outcome
  {
    var s := o.cell;
    if s.petr == 0 && s.fire == 0 && s.veg != 0 && d.seed then Fired(s.(petr := 1)) else o
  }

  /** The branches after the neighbour loop, in source order, from cell s with counters c. */
  function Next(s: Cell, c: Census, d: Draws): Outcome
  {
    var o := Ignite(BurnStep(Grow(Outcome(s, false), d)), c, d);
    var o := Crumble(Harden(Erode(Petrify(o, c, d), c, d), c, d), d);
    SelfPetrify(Spark(o, d), d)
  }

  /** A forest cell as the rules keep it: nothing negative, `petr` one of 0, 1, 2, never burning and petrified at once. */
  predicate Sound(s: Cell)
  {
    s.veg >= 0 && s.fire >= 0 && 0 <= s.petr <= 2 && (s.fire != 0 ==> s.petr == 0)
  }

  /** Growth, burning and catching fire keep a cell sound; a burning cell is marked changed. */
  lemma FireBranchesSound(s: Cell, c: Census, d: Draws)
    requires Sound(s)
    ensures Sound(Ignite(BurnStep(Grow(Outcome(s, false), d)), c, d).cell)
    ensures s.fire != 0 ==> Ignite(BurnStep(Grow(Outcome(s, false), d)), c, d).changed
  {
    var o1 := Grow(Outcome(s, false), d);
    if o1.cell.fire != 0 {
      BurnConsumes(o1.cell.fire, o1.cell.veg);
    }
  }

  /** The stone branches keep a cell sound and never clear `cng`. */
  lemma StoneBranchesSound(o: Outcome, c: Census, d: Draws)
    requires Sound(o.cell)
    ensures Sound(Crumble(Harden(Erode(Petrify(o, c, d), c, d), c, d), d).cell)
    ensures o.changed ==> Crumble(Harden(Erode(Petrify(o, c, d), c, d), c, d), d).changed
  {
  }

  /** Every branch keeps a cell sound, and a burning cell always stages a change. */
  lemma NextKeepsSound(s: Cell, c: Census, d: Draws)
    requires Sound(s)
    ensures Sound(Next(s, c, d).cell)
    ensures s.fire != 0 ==> Next(s, c, d).changed
  {
    FireBranchesSound(s, c, d);
    StoneBranchesSound(Ignite(BurnStep(Grow(Outcome(s, false), d)), c, d), c, d);
  }

  /**
   * Heavy neighbouring fire (f >= 100) sets a quiet vegetated cell on fire
   * whatever the draws, at a tenth of that fire.
   */
  lemma HeavyFireIgnites(s: Cell, c: Census, d: Draws)
    requires s.fire == 0 && s.petr == 0 && s.veg > 0 && c.fire >= 100
    ensures Next(s, c, d).changed && Next(s, c, d).cell.fire == c.fire / 10
  {
  }

  /** The attributes of a tile, missing ones read as 0. */
  function CellOf(t: Tile): Cell
  {
    Cell(Get(t, "veg"), Get(t, "fire"), Get(t, "petr"))
  }

  /** The tile with the cell's attributes written into it. */
  function WithCell(t: Tile, s: Cell): Tile
  {
    t["veg" := s.veg]["fire" := s.fire]["petr" := s.petr]
  }

  /** The tile after lazy initialisation: all three attributes 0 when `veg` was missing. */
  function Init(t: Tile): Tile
  {
    if "veg" in t then t else WithCell(t, Cell(0, 0, 0))
  }

  /** The `setTile` write of the initialisation branch: none when `veg` is already there. */
  function Seeding(g: Grid, i: int, j: int): seq<Change>
    requires InGrid(g, i, j)
  {
    if "veg" in g[i][j] then [] else [Change(i, j, Init(g[i][j]))]
  }

  /** The `changeTile` write for tile t at (i, j) after the branches, if any fired. */
  function Staged(t: Tile, o: Outcome, i: int, j: int): seq<Change>
  {
    if o.changed then [Change(i, j, WithCell(t, o.cell))] else []
  }

  /** What the forest updater does for cell (i, j) of g: the neighbours are counted after initialisation. */
  function ForestEffect(g: Grid, i: int, j: int, d: Draws): Effect
    requires IsGrid(g, |g|, Height(g)) && InGrid(g, i, j)
  {
    var seeding := Seeding(g, i, j);
    var t := Init(g[i][j]);
    Effect(seeding, Staged(t, Next(CellOf(t), Neighbors(ApplyAll(g, seeding), i, j), d), i, j))
  }

  /** The forest updater; `draws(i, j)` are the draws for cell (i, j). */
  function ForestRuleOf(draws: (int, int) -> Draws): Updater
  {
    (g: Grid, i: int, j: int) =>
      if IsGrid(g, |g|, Height(g)) && InGrid(g, i, j) then ForestEffect(g, i, j, draws(i, j))
      else Effect([], [])
  }

  /** Whatever the branches decided, the change staged is for the cell it was computed for. */
  lemma StagedOwnCell(t: Tile, i: int, j: int)
    ensures forall o :: OnlyAt(Staged(t, o, i, j), i, j)
  {
  }

  /** At a cell of a well-formed array, every write of the forest updater is for that cell. */
  lemma ForestWritesOwnCell(g: Grid, draws: (int, int) -> Draws, i: int, j: int)
    requires IsGrid(g, |g|, Height(g)) && InGrid(g, i, j)
    ensures OnlyAt(ForestRuleOf(draws)(g, i, j).immediate, i, j) && OnlyAt(ForestRuleOf(draws)(g, i, j).staged, i, j)
  {
    StagedOwnCell(Init(g[i][j]), i, j);
    assert ForestRuleOf(draws)(g, i, j) == ForestEffect(g, i, j, draws(i, j));
  }

  /** The forest updater writes only to the cell it is called for. */
  lemma ForestWellBehaved(draws: (int, int) -> Draws)
    ensures WellBehaved(ForestRuleOf(draws))
  {
    forall g: Grid, i: int, j: int | IsGrid(g, |g|, Height(g)) && 0 <= i < |g| && 0 <= j < Height(g)
      ensures OnlyAt(ForestRuleOf(draws)(g, i, j).immediate, i, j) && OnlyAt(ForestRuleOf(draws)(g, i, j).staged, i, j)
    {
      ForestWritesOwnCell(g, draws, i, j);
    }
    OwnWritesWellBehaved(ForestRuleOf(draws));
  }

  /** A tile that has all three forest attributes, forming a sound cell. */
  predicate SoundTile(t: Tile)
  {
    "veg" in t && "fire" in t && "petr" in t && Sound(CellOf(t))
  }

  predicate SoundForest(g: Grid)
  {
    forall i, j :: 0 <= i < |g| && 0 <= j < |g[i]| ==> SoundTile(g[i][j])
  }

  /** On a tile that has its attributes, the updater seeds nothing and stages at most its own tile. */
  lemma EffectOnInitialised(g: Grid, i: int, j: int, d: Draws)
    requires IsGrid(g, |g|, Height(g)) && InGrid(g, i, j) && "veg" in g[i][j]
    ensures ForestEffect(g, i, j, d) == Effect([], Staged(g[i][j], Next(CellOf(g[i][j]), Neighbors(g, i, j), d), i, j))
  {
    assert ApplyAll(g, []) == g;
  }

  /** Merging a sound cell's attributes into a tile gives a sound tile. */
  lemma MergedSound(t: Tile, s: Cell)
    requires Sound(s)
    ensures SoundTile(t + WithCell(t, s))
  {
    assert t + WithCell(t, s) == WithCell(t, s);
  }

  /**
   * What a step needs from the forest updater at a sound cell (a, b) of g:
   * it writes nothing at once, stages at most one record, for its own cell,
   * and the tile with that record merged in is sound.
   */
  lemma ForestCellOnSound(g: Grid, draws: (int, int) -> Draws, a: int, b: int)
    requires IsGrid(g, |g|, Height(g)) && InGrid(g, a, b) && SoundTile(g[a][b])
    ensures var u := ForestRuleOf(draws);
      && u(g, a, b).immediate == []
      && |u(g, a, b).staged| <= 1
      && (|u(g, a, b).staged| == 1 ==> u(g, a, b).staged[0].i == a && u(g, a, b).staged[0].j == b)
      && SoundTile(OwnNext(g, u, a, b))
  {
    var u := ForestRuleOf(draws);
    var t0 := g[a][b];
    var o := Next(CellOf(t0), Neighbors(g, a, b), draws(a, b));
    EffectOnInitialised(g, a, b, draws(a, b));
    assert u(g, a, b) == Effect([], Staged(t0, o, a, b));
    NextKeepsSound(CellOf(t0), Neighbors(g, a, b), draws(a, b));
    if o.changed {
      assert OwnNext(g, u, a, b) == t0 + WithCell(t0, o.cell);
      MergedSound(t0, o.cell);
    } else {
      assert OwnNext(g, u, a, b) == t0;
    }
  }

  /**
   * A step keeps a sound forest sound, whatever the draws: vegetation and
   * fire stay non-negative, `petr` stays 0, 1 or 2, and no cell burns while
   * petrified.
   */
  lemma ForestStepKeepsSound(g: Grid, draws: (int, int) -> Draws, w: nat, h: nat)
    requires IsGrid(g, w, h) && SoundForest(g)
    ensures WellBehaved(ForestRuleOf(draws))
    ensures forall a, b :: 0 <= a < w && 0 <= b < h ==> SoundTile(Step(g, [], ForestRuleOf(draws), w, h)[a][b])
  {
    var u := ForestRuleOf(draws);
    ForestWellBehaved(draws);
    assert w > 0 ==> Height(g) == h by {
      if w > 0 { assert |g[0]| == h; }
    }
    forall a, b | 0 <= a < w && 0 <= b < h
      ensures && u(g, a, b).immediate == []
        && |u(g, a, b).staged| <= 1
        && (|u(g, a, b).staged| == 1 ==> u(g, a, b).staged[0].i == a && u(g, a, b).staged[0].j == b)
        && SoundTile(OwnNext(g, u, a, b))
    {
      ForestCellOnSound(g, draws, a, b);
    }
    assert OwnRecordOn(u, g, w, h);
    StepAppliesOwnRecords(g, u, w, h);
  }

  /** Every tile has been through the lazy initialisation: it has its `veg`. */
  predicate Initialised(g: Grid)
  {
    forall i, j :: 0 <= i < |g| && 0 <= j < |g[i]| ==> "veg" in g[i][j]
  }

  /** Lazy initialisation gives the cell its `veg` at once, on any array. */
  lemma ForestGivesVeg(draws: (int, int) -> Draws, w: nat, h: nat)
    ensures GivesKey(ForestRuleOf(draws), "veg", w, h)
  {
    forall g: Grid, i, j | IsGrid(g, w, h) && 0 <= i < w && 0 <= j < h
      ensures "veg" in Replay(g[i][j], ForestRuleOf(draws)(g, i, j).immediate, i, j)
    {
      assert Height(g) == h by { assert |g[0]| == h; }
      var seeding := Seeding(g, i, j);
      assert ForestRuleOf(draws)(g, i, j) == ForestEffect(g, i, j, draws(i, j));
      if seeding != [] {
        assert seeding[..0] == [];
      }
    }
  }

  /**
   * The first step initialises every tile, from any array: afterwards no
   * tile takes the initialisation branch again.
   */
  lemma ForestStepInitialises(g: Grid, draws: (int, int) -> Draws, w: nat, h: nat)
    requires IsGrid(g, w, h)
    ensures WellBehaved(ForestRuleOf(draws))
    ensures Initialised(Step(g, [], ForestRuleOf(draws), w, h))
  {
    ForestWellBehaved(draws);
    ForestGivesVeg(draws, w, h);
    StepGivesKey(g, [], ForestRuleOf(draws), w, h, "veg");
  }


  /** The neighbour callback of the forest updater: bump the counters for one visited tile. */
  method Count(c: Census, t1: Tile) returns (c': Census)
    ensures c' == Tally(c, t1)
  {
    var f, p, r, u := c.fire, c.petrified, c.regrowing, c.stone;
    if Truthy(t1, "fire") {
      f := f + t1["fire"];
    }
    if Petrified(t1) {
      p := p + 1;
    }
    if Regrowing(t1) {
      r := r + 1;
    }
    if Stone(t1) {
      u := u + 1;
    }
    c' := Census(f, p, r, u);
  }

  /** The callback of the neighbour loop, played on each visited cell in turn. */
  method CountOver(tm: TileMap, visits: seq<N.Visit>) returns (c: Census)
    requires tm.Valid() && VisitsIn(tm.Tiles(), visits)
    ensures c == CensusOf(tm.Tiles(), visits)
  {
    ghost var g := tm.Tiles();
    c := Census(0, 0, 0, 0);
    var k := 0;
    while k < |visits|
      invariant 0 <= k <= |visits|
      invariant c == CensusOf(g, visits[..k])
    {
      assert visits[..k + 1][..k] == visits[..k];
      var v := visits[k];
      assert InGrid(g, v.i2, v.j2);
      var t1 := tm.GetTile(v.i2, v.j2);
      c := Count(c, t1);
      k := k + 1;
    }
    assert visits[..k] == visits;
  }

  /** The neighbour loop of the forest updater: it counts, and changes nothing. */
  method CountNeighbors(tm: TileMap, i: int, j: int) returns (c: Census)
    requires tm.Valid() && 0 <= i < tm.Width() && 0 <= j < tm.Height()
    ensures c == Neighbors(tm.Tiles(), i, j)
  {
    var visits := N.ForNeighborhood(0, i, j, tm.Width(), tm.Height(), 1);
    AroundSized(tm.Tiles(), 0, i, j, 1, tm.Width(), tm.Height());
    c := CountOver(tm, visits);
  }

  /** Growth, burning and catching fire from the neighbours. */
  method FireBranches(s: Cell, c: Census, d: Draws) returns (r: Cell, cng: bool)
    ensures Outcome(r, cng) == Ignite(BurnStep(Grow(Outcome(s, false), d)), c, d)
  {
    var veg, fire, petr := s.veg, s.fire, s.petr;
    cng := false;
    if fire == 0 && petr == 0 && d.grow {
      veg := veg + 1;
      cng := true;
    }
    if fire != 0 {
      if veg == 0 {
        fire := fire / 2;
      } else {
        var a := Min(fire, veg);
        veg := veg - a;
        fire := fire + (a + 1) / 2;
      }
      cng := true;
    }
    var f := c.fire - fire;
    if petr == 0 && fire == 0 && veg != 0 && f > 10 && (f >= 100 || d.ignite) {
      fire := f / 10;
      cng := true;
    }
    r := Cell(veg, fire, petr);
  }

  /** Petrifying, eroding, hardening and crumbling. */
  method StoneBranches(s: Cell, changed: bool, c: Census, d: Draws) returns (r: Cell, cng: bool)
    ensures Outcome(r, cng) == Crumble(Harden(Erode(Petrify(Outcome(s, changed), c, d), c, d), c, d), d)
  {
    var petr := s.petr;
    cng := changed;
    if s.fire == 0 && petr == 0 && 0 < c.petrified < 4 && d.petrify {
      petr := 1;
      cng := true;
    }
    if petr != 0 && c.regrowing > 0 && d.erode {
      petr := if d.toStone then 2 else 0;
      cng := true;
    }
    if petr == 1 && c.stone > 0 && d.harden {
      petr := 2;
      cng := true;
    }
    if petr == 2 && d.crumble {
      petr := 0;
      cng := true;
    }
    r := s.(petr := petr);
  }

  /** Spontaneous fire and spontaneous petrification. */
  method SpontaneousBranches(s: Cell, changed: bool, d: Draws) returns (r: Cell, cng: bool)
    ensures Outcome(r, cng) == SelfPetrify(Spark(Outcome(s, changed), d), d)
  {
    var fire, petr := s.fire, s.petr;
    cng := changed;
    if petr == 0 && fire == 0 && s.veg != 0 && d.spark {
      fire := 1;
      cng := true;
    }
    if petr == 0 && fire == 0 && s.veg != 0 && d.seed {
      petr := 1;
      cng := true;
    }
    r := s.(fire := fire, petr := petr);
  }

  /** The branches after the neighbour loop, in source order. */
  method Transition(s: Cell, c: Census, d: Draws) returns (r: Cell, cng: bool)
    ensures Outcome(r, cng) == Next(s, c, d)
  {
    r, cng := FireBranches(s, c, d);
    r, cng := StoneBranches(r, cng, c, d);
    r, cng := SpontaneousBranches(r, cng, d);
  }

  /** The initialisation branch of the forest updater: read the tile, and zero its attributes at once if it has none. */
  method InitTile(tm: TileMap, i: int, j: int) returns (t: Tile)
    requires tm.Valid() && 0 <= i < tm.Width() && 0 <= j < tm.Height()
    modifies tm.m
    ensures t == Init(old(tm.Tiles())[i][j])
    ensures tm.Tiles() == ApplyAll(old(tm.Tiles()), Seeding(old(tm.Tiles()), i, j))
  {
    t := tm.GetTile(i, j);
    if "veg" !in t {
      t := t["veg" := 0]["fire" := 0]["petr" := 0];
      tm.SetTile(i, j, t);
      assert [Change(i, j, t)][..0] == [];
    }
  }

  /**
   * `presets.forest`'s updater on the TileMap: initialise the attributes with
   * `setTile` when missing, count over `forNeighborhood`, run the branches,
   * and queue the tile with `changeTile` when any branch fired.
   */
  method ForestUpdate(tm: TileMap, i: int, j: int, d: Draws)
    requires tm.Valid() && 0 <= i < tm.Width() && 0 <= j < tm.Height()
    modifies tm, tm.m
    ensures tm.Valid()
    ensures tm.Tiles() == ApplyAll(old(tm.Tiles()), ForestEffect(old(tm.Tiles()), i, j, d).immediate)
    ensures tm.changes == old(tm.changes) + ForestEffect(old(tm.Tiles()), i, j, d).staged
  {
    ghost var g0 := tm.Tiles();
    ghost var e := ForestEffect(g0, i, j, d);
    var t := InitTile(tm, i, j);
    var c := CountNeighbors(tm, i, j);
    var s, cng := Transition(CellOf(t), c, d);
    assert e.staged == Staged(t, Outcome(s, cng), i, j);
    if cng {
      tm.ChangeTile(i, j, WithCell(t, s));
    }
  }

  /** The forest colour map: red for fire, else blue for stone, grey for petrified, green for vegetation. */
  function ForestColor(t: Tile): Option<Rgb>
  {
    if Truthy(t, "fire") then Color(Some(40 + Min(t["fire"] * 2, 200)), Some(0), Some(0))
    else
      var v := if "veg" in t then Some(if t["veg"] != 0 then Min(20 + t["veg"] * 2, 250) else 0) else None;
      if Get(t, "petr") == 2 then Color(Some(0), Some(0), v)
      else if Truthy(t, "petr") then Color(v, None, None)
      else Color(Some(0), v, Some(0))
  }

  /**
   * A sound tile always has a colour within the channel range: burning tiles
   * are pure red of at least 42, stone pure blue, petrified tiles grey and
   * the rest pure green; bare ground is black.
   */
  lemma ForestColorInRange(t: Tile)
    requires SoundTile(t)
    ensures ForestColor(t).Some? && InChannelRange(ForestColor(t).value)
    ensures var c := ForestColor(t).value;
      && (t["fire"] > 0 ==> c.r >= 42 && c.g == 0 && c.b == 0)
      && (t["fire"] == 0 && t["petr"] == 2 ==> c.r == 0 && c.g == 0)
      && (t["fire"] == 0 && t["petr"] == 1 ==> c.r == c.g == c.b)
      && (t["fire"] == 0 && t["petr"] == 0 ==> c.r == 0 && c.b == 0)
      && (t["fire"] == 0 && t["veg"] == 0 ==> c == Rgb(0, 0, 0))
  {
  }
}
