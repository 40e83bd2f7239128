/**
 * The mold preset (`presets.mold`): a tile's `lvl` is set to 0 the first
 * time the cell is visited, and each step it goes up by one with a
 * probability that grows with the levels around it.
 *
 * The probability is floating-point arithmetic over the radius-3
 * neighbourhood; only its outcome enters the model: `upgrade` is whether
 * `Math.random() < upgradeChance` came out true for that cell.
 */
module Mold {
  import opened Optional
  import opened Grids
  import opened Stepping
  import opened Attributes

  /** What the mold updater does for cell (i, j) of g. */
  function MoldEffect(g: Grid, i: int, j: int, upgrade: bool): Effect
    requires InGrid(g, i, j)
  {
    var t := if "lvl" in g[i][j] then g[i][j] else g[i][j]["lvl" := 0];
    var seeding := if "lvl" in g[i][j] then [] else [Change(i, j, t)];
    Effect(seeding, if upgrade then [Change(i, j, t["lvl" := t["lvl"] + 1])] else [])
  }

  /** The mold updater; `upgrades(i, j)` is the draw for cell (i, j). */
  function MoldRuleOf(upgrades: (int, int) -> bool): Updater
  {
    (g: Grid, i: int, j: int) => if InGrid(g, i, j) then MoldEffect(g, i, j, upgrades(i, j)) else Effect([], [])
  }

  /** At a cell of a well-formed array, every write of the mold updater is for that cell. */
  lemma MoldWritesOwnCell(g: Grid, upgrades: (int, int) -> bool, i: int, j: int)
    requires IsGrid(g, |g|, Height(g)) && InGrid(g, i, j)
    ensures OnlyAt(MoldRuleOf(upgrades)(g, i, j).immediate, i, j) && OnlyAt(MoldRuleOf(upgrades)(g, i, j).staged, i, j)
  {
    assert MoldRuleOf(upgrades)(g, i, j) == MoldEffect(g, i, j, upgrades(i, j));
  }

  /** The mold updater writes only to the cell it is called for. */
  lemma MoldWellBehaved(upgrades: (int, int) -> bool)
    ensures WellBehaved(MoldRuleOf(upgrades))
  {
    forall g: Grid, i: int, j: int | IsGrid(g, |g|, Height(g)) && 0 <= i < |g| && 0 <= j < Height(g)
      ensures OnlyAt(MoldRuleOf(upgrades)(g, i, j).immediate, i, j) && OnlyAt(MoldRuleOf(upgrades)(g, i, j).staged, i, j)
    {
      MoldWritesOwnCell(g, upgrades, i, j);
    }
    OwnWritesWellBehaved(MoldRuleOf(upgrades));
  }

  /** Every tile already has its `lvl`. */
  predicate Leveled(g: Grid)
  {
    forall i, j :: 0 <= i < |g| && 0 <= j < |g[i]| ==> "lvl" in g[i][j]
  }

  /**
   * On a grid where every tile has a level, a step raises each level by one
   * where the draw came out true and leaves it where it did not; levels never
   * go down and nothing but `lvl` changes.
   */
  lemma MoldStepRaisesLevels(g: Grid, upgrades: (int, int) -> bool, w: nat, h: nat)
    requires IsGrid(g, w, h) && Leveled(g)
    ensures WellBehaved(MoldRuleOf(upgrades))
    ensures forall a, b :: 0 <= a < w && 0 <= b < h ==>
      && "lvl" in Step(g, [], MoldRuleOf(upgrades), w, h)[a][b]
      && Step(g, [], MoldRuleOf(upgrades), w, h)[a][b]["lvl"] - g[a][b]["lvl"] == (if upgrades(a, b) then 1 else 0)
      && Step(g, [], MoldRuleOf(upgrades), w, h)[a][b] - {"lvl"} == g[a][b] - {"lvl"}
  {
    var u := MoldRuleOf(upgrades);
    MoldWellBehaved(upgrades);
    forall a, b | 0 <= a < w && 0 <= b < h
      ensures u(g, a, b) == MoldEffect(g, a, b, upgrades(a, b))
    {
      assert |g[a]| == h;
    }
    assert OwnRecordOn(u, g, w, h);
    StepAppliesOwnRecords(g, u, w, h);
    forall a, b | 0 <= a < w && 0 <= b < h
      ensures var t := Step(g, [], u, w, h)[a][b];
        && "lvl" in t
        && t["lvl"] - g[a][b]["lvl"] == (if upgrades(a, b) then 1 else 0)
        && t - {"lvl"} == g[a][b] - {"lvl"}
    {
      var t0 := g[a][b];
      if upgrades(a, b) {
        assert t0 + t0["lvl" := t0["lvl"] + 1] == t0["lvl" := t0["lvl"] + 1];
      }
    }
  }

  /** Lazy initialisation gives the cell its `lvl` at once, on any array. */
  lemma MoldGivesLevel(upgrades: (int, int) -> bool, w: nat, h: nat)
    ensures GivesKey(MoldRuleOf(upgrades), "lvl", w, h)
  {
    forall g: Grid, i, j | IsGrid(g, w, h) && 0 <= i < w && 0 <= j < h
      ensures "lvl" in Replay(g[i][j], MoldRuleOf(upgrades)(g, i, j).immediate, i, j)
    {
      assert |g[i]| == h;
      var seeding := MoldEffect(g, i, j, upgrades(i, j)).immediate;
      assert MoldRuleOf(upgrades)(g, i, j).immediate == seeding;
      if seeding != [] {
        assert seeding[..0] == [];
      }
    }
  }

  /**
   * The first step gives every tile a level, from any array, a blank one
   * included; from then on every step is the one of `MoldStepRaisesLevels`.
   */
  lemma MoldStepLevels(g: Grid, upgrades: (int, int) -> bool, w: nat, h: nat)
    requires IsGrid(g, w, h)
    ensures WellBehaved(MoldRuleOf(upgrades))
    ensures Leveled(Step(g, [], MoldRuleOf(upgrades), w, h))
  {
    MoldWellBehaved(upgrades);
    MoldGivesLevel(upgrades, w, h);
    StepGivesKey(g, [], MoldRuleOf(upgrades), w, h, "lvl");
  }

  /** The grey of a level: `(t.lvl && 40) + t.lvl * 5`. */
  function Shade(lvl: int): int
  {
    (if lvl != 0 then 40 else 0) + lvl * 5
  }

  /** The mold colour map: a grey, and no colour (NaN) for a tile without a level. */
  function MoldColor(t: Tile): Option<Rgb>
  {
    if "lvl" in t then Gray(Shade(t["lvl"])) else None
  }

  /**
   * A tile has a colour exactly when it has a level; level 0 is black,
   * higher levels are strictly lighter greys, and levels up to 43 stay
   * within the channel range.
   */
  lemma MoldShading(t: Tile)
    ensures MoldColor(t).Some? <==> "lvl" in t
    ensures MoldColor(t).Some? ==> MoldColor(t).value.r == MoldColor(t).value.g == MoldColor(t).value.b
    ensures "lvl" in t && t["lvl"] == 0 ==> MoldColor(t) == Some(Rgb(0, 0, 0))
    ensures "lvl" in t && 0 <= t["lvl"] <= 43 ==> InChannelRange(MoldColor(t).value)
  {
  }

  /** Higher levels are lighter. */
  lemma ShadeIncreases(l1: int, l2: int)
    requires 0 <= l1 < l2
    ensures Shade(l1) < Shade(l2)
  {
  }
}
