/**
 * The engine's module-level state and controls: the tile map, the selected
 * automaton's updater, the frame timestamp and the run / stop / step / reset
 * operations that the buttons and the animation loop invoke.
 */
module Engine {
  import opened Optional
  import opened Grids
  import opened Stepping
  import opened TileMaps
  import opened Clock

  /** The initial `tileSize`. */
  const DefaultTileSize := 20

  /**
   * The catch-up loop of `run()`: one `automataStep` per period started in
   * the elapsed time, the k-th of them using `us(first + k)`.
   */
  method CatchUp(tm: TileMap, us: nat -> Updater, first: nat, elapsed: int) returns (steps: nat)
    requires tm.Valid() && tm.changes == [] && AllWellBehaved(us)
    modifies tm, tm.m
    ensures tm.Valid() && tm.changes == []
    ensures steps == CatchUpSteps(elapsed, Period)
    ensures tm.Tiles() == Steps(old(tm.Tiles()), us, first, tm.Width(), tm.Height(), steps)
  {
    ghost var w, h := tm.Width(), tm.Height();
    ghost var trace := [tm.Tiles()];
    var i := 0;
    while i * Period < elapsed
      invariant tm.Valid() && tm.changes == [] && tm.Width() == w && tm.Height() == h
      invariant |trace| == i + 1 && trace[0] == old(tm.Tiles()) && trace[i] == tm.Tiles()
      invariant IsRun(trace, us, first, w, h)
      invariant i == 0 || (i - 1) * Period < elapsed
      decreases elapsed - i * Period
    {
      StepWithNext(tm, us, first + i);
      RunExtend(trace, us, first, w, h, tm.Tiles());
      trace := trace + [tm.Tiles()];
      i := i + 1;
    }
    CatchUpUnique(elapsed, Period, i);
    RunIsSteps(trace, us, first, w, h);
    steps := i;
  }

  /** One `automataStep` of the run: step k, with `us(k)`. */
  method StepWithNext(tm: TileMap, us: nat -> Updater, k: nat)
    requires tm.Valid() && tm.changes == [] && AllWellBehaved(us)
    modifies tm, tm.m
    ensures tm.Valid() && tm.changes == [] && tm.Width() == old(tm.Width()) && tm.Height() == old(tm.Height())
    ensures tm.Tiles() == StepNumber(old(tm.Tiles()), us, k, tm.Width(), tm.Height())
  {
    var u := us(k);
    assert WellBehaved(u);
    tm.AutomataStep(u);
  }

  class Engine {
    var tileSize: int
    var tm: TileMap
    /**
     * `automata.updater`, step by step: `updaters(k)` is how it behaves on
     * the engine's k-th step, with that step's `Math.random()` outcomes.
     */
    var updaters: nat -> Updater
    /** How many steps the engine has taken, which selects the next step's outcomes. */
    var stepped: nat
    /** `lastupdatetimestamp`; None is `undefined`. */
    var last: Option<int>
    /** How many times the tile map has been drawn (`tm.draw`). */
    var draws: nat

    ghost predicate Valid()
      reads this, tm
    {
      && 1 <= tileSize <= CanvasWidth && tileSize <= CanvasHeight
      && tm.Valid() && tm.s == tileSize && tm.changes == []
      && AllWellBehaved(updaters)
    }

    /** Running, as the start/pause and step buttons judge it: the timestamp is truthy. */
    predicate Running()
      reads this
    {
      HasBaseline(last)
    }

    /** The engine as it is once it has selected its first automaton. */
    constructor (us: nat -> Updater)
      requires AllWellBehaved(us)
      ensures Valid() && fresh(tm) && fresh(tm.m)
      ensures tileSize == DefaultTileSize && updaters == us && stepped == 0 && last == None && draws == 0
      ensures tm.Tiles() == Blank(CanvasWidth / DefaultTileSize, CanvasHeight / DefaultTileSize)
    {
      tileSize := DefaultTileSize;
      tm := new TileMap(DefaultTileSize);
      updaters := us;
      stepped := 0;
      last := None;
      draws := 0;
    }

    /**
     * One frame of `run()`. `reading` is the clock reading taken when the
     * baseline restarts, `now` the one taken after it. Runs every catch-up
     * step, draws once and records `now`.
     */
    method Run(reading: int, now: int) returns (steps: nat)
      requires Valid()
      modifies this, tm, tm.m
      ensures Valid() && tm == old(tm) && tileSize == old(tileSize) && updaters == old(updaters)
      ensures old(Running()) ==> steps == CatchUpSteps(now - old(last).value, Period)
      ensures !old(Running()) ==> steps == CatchUpSteps(now - reading, Period)
      ensures tm.Tiles() == Steps(old(tm.Tiles()), updaters, old(stepped), tm.Width(), tm.Height(), steps)
      ensures stepped == old(stepped) + steps
      ensures draws == old(draws) + 1 && last == Some(now)
    {
      if !Running() {
        last := Some(reading);
      }
      var base := last.value;
      steps := CatchUp(tm, updaters, stepped, now - base);
      stepped := stepped + steps;
      draws := draws + 1;
      last := Some(now);
    }

    /** `stop()`: forget the timestamp, so the next frame starts a new baseline. */
    method Stop()
      modifies this`last
      ensures last == None && !Running()
    {
      last := None;
    }

    /** The start/pause button: stop when running, otherwise run a frame. */
    method StartPause(reading: int, now: int) returns (steps: nat)
      requires Valid()
      modifies this, tm, tm.m
      ensures Valid() && tm == old(tm) && tileSize == old(tileSize) && updaters == old(updaters)
      ensures stepped == old(stepped) + steps
      ensures old(Running()) ==> last == None && steps == 0 && tm.Tiles() == old(tm.Tiles()) && draws == old(draws)
      ensures !old(Running()) ==>
        && last == Some(now) && draws == old(draws) + 1
        && steps == CatchUpSteps(now - reading, Period)
        && tm.Tiles() == Steps(old(tm.Tiles()), updaters, old(stepped), tm.Width(), tm.Height(), steps)
    {
      if Running() {
        Stop();
        steps := 0;
      } else {
        steps := Run(reading, now);
      }
    }

    /** The step button: one step and one draw, only while stopped. */
    method StepOnce()
      requires Valid()
      modifies this`draws, this`stepped, tm, tm.m
      ensures Valid() && tm == old(tm)
      ensures old(Running()) ==> tm.Tiles() == old(tm.Tiles()) && draws == old(draws) && stepped == old(stepped)
      ensures !old(Running()) ==>
        && tm.Tiles() == Step(old(tm.Tiles()), [], updaters(old(stepped)), tm.Width(), tm.Height())
        && draws == old(draws) + 1 && stepped == old(stepped) + 1
    {
      if !Running() {
        var u := updaters(stepped);
        assert WellBehaved(u);
        tm.AutomataStep(u);
        stepped := stepped + 1;
        draws := draws + 1;
      }
    }

    /** The reset button: a new, blank tile map of the current tile size. */
    method Reset()
      requires Valid()
      modifies this`tm
      ensures Valid() && fresh(tm) && fresh(tm.m)
      ensures tm.Tiles() == Blank(CanvasWidth / tileSize, CanvasHeight / tileSize)
    {
      tm := new TileMap(tileSize);
    }

    /** `setAutomata(aut)`: select another automaton, on a blank tile map. */
    method SetAutomata(us: nat -> Updater)
      requires Valid() && AllWellBehaved(us)
      modifies this`tm, this`updaters
      ensures Valid() && fresh(tm) && fresh(tm.m) && updaters == us
      ensures tm.Tiles() == Blank(CanvasWidth / tileSize, CanvasHeight / tileSize)
    {
      tm := new TileMap(tileSize);
      updaters := us;
    }

    /** `setTileSize(s)`: change the tile size, on a blank tile map. */
    method SetTileSize(s: int)
      requires Valid() && 1 <= s <= CanvasWidth && s <= CanvasHeight
      modifies this`tm, this`tileSize
      ensures Valid() && fresh(tm) && fresh(tm.m) && tileSize == s
      ensures tm.Width() == CanvasWidth / s && tm.Height() == CanvasHeight / s
      ensures tm.Tiles() == Blank(CanvasWidth / s, CanvasHeight / s)
    {
      tileSize := s;
      tm := new TileMap(s);
    }
  }
}
