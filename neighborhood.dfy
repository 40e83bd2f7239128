/**
 * The neighbourhood walker `forNeighborhood`: for a centre cell it enumerates
 * the offsets within a radius, in one of two shapes, wraps each coordinate
 * toroidally and hands every offset other than (0,0) to a callback.
 *
 * The callback is modelled by the sequence of calls it receives, in order:
 * a caller that accumulates over its callback (a sum, a count) folds over
 * that sequence instead.
 */
module Neighborhood {

  /** The quotient of `a / b` truncated toward zero, as JavaScript's `%` uses it. */
  function Trunc(a: int, b: int): int
    requires b > 0
  {
    if a >= 0 then a / b else -((-a) / b)
  }

  /**
   * JavaScript's `%` for a positive divisor: `a - b * trunc(a / b)`, so the
   * remainder takes the sign of the dividend.
   */
  function JsRem(a: int, b: int): (r: int)
    requires b > 0
    ensures a == Trunc(a, b) * b + r
    ensures -b < r < b
    ensures a >= 0 ==> r >= 0
    ensures a <= 0 ==> r <= 0
  {
    if a >= 0 then a % b
    else
      assert -a == ((-a) / b) * b + (-a) % b;
      -((-a) % b)
  }

  /** The walker's inner `mod(a, b) = (a % b + b) % b`: a remainder that is never negative. */
  function Mod(a: int, b: int): (r: int)
    requires b > 0
    ensures 0 <= r < b
  {
    JsRem(JsRem(a, b) + b, b)
  }

  lemma {:induction false} MulAtLeast(d: int, b: int)
    requires d >= 1 && b > 0
    ensures d * b >= b
  {
    if d > 1 {
      MulAtLeast(d - 1, b);
      assert d * b == (d - 1) * b + b;
    }
  }

  /** A quotient and a remainder in [0, b) determine Dafny's `%`. */
  lemma DivModUnique(a: int, b: int, q: int, r: int)
    requires b > 0 && 0 <= r < b && a == q * b + r
    ensures a % b == r
  {
    var q', r' := a / b, a % b;
    assert a == q' * b + r';
    var d := q - q';
    assert d * b == r' - r by {
      assert q * b - q' * b == (q - q') * b;
    }
    if d >= 1 {
      MulAtLeast(d, b);
    } else if d <= -1 {
      MulAtLeast(-d, b);
    }
  }

  /** The double remainder agrees with Dafny's Euclidean `%`, for either sign of `a`. */
  lemma ModIsEuclidean(a: int, b: int)
    requires b > 0
    ensures Mod(a, b) == a % b
  {
    if a >= 0 {
      var x := a % b;
      assert a == (a / b) * b + x;
      DivModUnique(x + b, b, 1, x);
    } else {
      var m := (-a) % b;
      var q := (-a) / b;
      assert -a == q * b + m;
      if m == 0 {
        DivModUnique(b, b, 1, 0);
        DivModUnique(a, b, -q, 0);
      } else {
        DivModUnique(b - m, b, 0, b - m);
        assert a == (-q - 1) * b + (b - m);
        DivModUnique(a, b, -q - 1, b - m);
      }
    }
  }

  /** The `type` argument: 1 selects the diamond, anything else the full square. */
  datatype Shape = Square | Diamond

  function ShapeOf(kind: int): Shape
  {
    if kind == 1 then Diamond else Square
  }

  function Abs(x: int): nat
  {
    if x < 0 then -x else x
  }

  datatype Offset = Offset(di: int, dj: int)

  /** Does the shape of radius r contain the offset? */
  predicate InShape(shape: Shape, r: int, o: Offset)
  {
    match shape
    case Square => Abs(o.di) <= r && Abs(o.dj) <= r
    case Diamond => Abs(o.di) + Abs(o.dj) <= r
  }

  /** Column di of the shape runs over j1 in [-Reach, Reach]. */
  function Reach(shape: Shape, r: int, di: int): int
  {
    if shape == Diamond then r - Abs(di) else r
  }

  /** The callback made for one offset: none for the centre. */
  function Single(di: int, dj: int): seq<Offset>
  {
    if di == 0 && dj == 0 then [] else [Offset(di, dj)]
  }

  /** Offsets of column di produced by the inner loop for j1 = lo, ..., dj - 1. */
  function ColumnUpTo(di: int, lo: int, dj: int): seq<Offset>
    decreases dj - lo
  {
    if dj <= lo then [] else ColumnUpTo(di, lo, dj - 1) + Single(di, dj - 1)
  }

  function Column(shape: Shape, r: int, di: int): seq<Offset>
  {
    ColumnUpTo(di, -Reach(shape, r, di), Reach(shape, r, di) + 1)
  }

  /** Offsets produced by the outer loop for i1 = -r, ..., di - 1. */
  function ColumnsUpTo(shape: Shape, r: int, di: int): seq<Offset>
    decreases di + r
  {
    if di <= -r then [] else ColumnsUpTo(shape, r, di - 1) + Column(shape, r, di - 1)
  }

  /** Every offset the walker visits, in visiting order. */
  function Offsets(shape: Shape, r: int): seq<Offset>
  {
    ColumnsUpTo(shape, r, r + 1)
  }

  /** One callback: the offset (i1, j1) and the wrapped coordinates (i2, j2). */
  datatype Visit = Visit(i1: int, j1: int, i2: int, j2: int)

  function Wrap(o: Offset, ci: int, cj: int, w: int, h: int): (v: Visit)
    requires w > 0 && h > 0
    ensures 0 <= v.i2 < w && 0 <= v.j2 < h
  {
    Visit(o.di, o.dj, Mod(ci + o.di, w), Mod(cj + o.dj, h))
  }

  function WalkOf(os: seq<Offset>, ci: int, cj: int, w: int, h: int): (vs: seq<Visit>)
    requires w > 0 && h > 0
    ensures |vs| == |os|
  {
    seq(|os|, k requires 0 <= k < |os| => Wrap(os[k], ci, cj, w, h))
  }

  /** The calls the walker makes around (ci, cj) on a w x h torus. */
  function Walk(shape: Shape, ci: int, cj: int, w: int, h: int, r: int): (vs: seq<Visit>)
    requires w > 0 && h > 0
    ensures |vs| == |Offsets(shape, r)|
    ensures forall k :: 0 <= k < |vs| ==> 0 <= vs[k].i2 < w && 0 <= vs[k].j2 < h
  {
    WalkOf(Offsets(shape, r), ci, cj, w, h)
  }

  /**
   * The k-th call carries the k-th offset and the cell it reaches with
   * wrap-around: (ci + i1) mod w, (cj + j1) mod h, also for negative sums.
   */
  lemma WalkWraps(shape: Shape, ci: int, cj: int, w: int, h: int, r: int)
    requires w > 0 && h > 0
    ensures forall k :: 0 <= k < |Walk(shape, ci, cj, w, h, r)| ==>
      var v := Walk(shape, ci, cj, w, h, r)[k];
      && Offset(v.i1, v.j1) == Offsets(shape, r)[k]
      && v.i2 == (ci + v.i1) % w && v.j2 == (cj + v.j1) % h
  {
    var os := Offsets(shape, r);
    var vs := Walk(shape, ci, cj, w, h, r);
    forall k | 0 <= k < |vs|
      ensures Offset(vs[k].i1, vs[k].j1) == os[k]
      ensures vs[k].i2 == (ci + vs[k].i1) % w && vs[k].j2 == (cj + vs[k].j1) % h
    {
      ModIsEuclidean(ci + os[k].di, w);
      ModIsEuclidean(cj + os[k].dj, h);
    }
  }

  /** The first call around the corner cell (0, 0) of a 10 x 10 grid is for offset (-1, -1), and it lands on (9, 9). */
  lemma CornerWrapsAround()
    ensures Walk(Square, 0, 0, 10, 10, 1)[0] == Visit(-1, -1, 9, 9)
  {
    OffsetsCount(1);
    assert Offsets(Square, 1)[0] == Offset(-1, -1);
  }

  lemma WalkOfAppend(a: seq<Offset>, b: seq<Offset>, ci: int, cj: int, w: int, h: int)
    requires w > 0 && h > 0
    ensures WalkOf(a + b, ci, cj, w, h) == WalkOf(a, ci, cj, w, h) + WalkOf(b, ci, cj, w, h)
  {
    assert forall k :: 0 <= k < |a| + |b| ==>
      WalkOf(a + b, ci, cj, w, h)[k] == (WalkOf(a, ci, cj, w, h) + WalkOf(b, ci, cj, w, h))[k];
  }

  /** The inner loop of `forNeighborhood` for column offset i1: the calls it makes, in order. */
  method VisitColumn(shape: Shape, r: int, i1: int, ci: int, cj: int, w: int, h: int) returns (col: seq<Visit>)
    requires w > 0 && h > 0
    ensures col == WalkOf(Column(shape, r, i1), ci, cj, w, h)
  {
    col := [];
    var lo, hi := -Reach(shape, r, i1), Reach(shape, r, i1);
    var j1 := lo;
    while j1 <= hi
      invariant lo <= j1 && (lo <= hi ==> j1 <= hi + 1) && (hi < lo ==> j1 == lo)
      invariant col == WalkOf(ColumnUpTo(i1, lo, j1), ci, cj, w, h)
    {
      var i2 := Mod(ci + i1, w);
      var j2 := Mod(cj + j1, h);
      WalkOfAppend(ColumnUpTo(i1, lo, j1), Single(i1, j1), ci, cj, w, h);
      if i1 != 0 || j1 != 0 {
        col := col + [Visit(i1, j1, i2, j2)];
      }
      j1 := j1 + 1;
    }
  }

  /**
   * `forNeighborhood(type, ci, cj, w, h, r, callback)`: the nested loops,
   * returning the calls made to the callback.
   */
  method ForNeighborhood(kind: int, ci: int, cj: int, w: int, h: int, r: int) returns (visits: seq<Visit>)
    requires w > 0 && h > 0
    ensures visits == Walk(ShapeOf(kind), ci, cj, w, h, r)
  {
    var shape := ShapeOf(kind);
    visits := [];
    var i1 := -r;
    while i1 <= r
      invariant -r <= i1 && (r >= 0 ==> i1 <= r + 1) && (r < 0 ==> i1 == -r)
      invariant visits == WalkOf(ColumnsUpTo(shape, r, i1), ci, cj, w, h)
    {
      var col := VisitColumn(shape, r, i1, ci, cj, w, h);
      WalkOfAppend(ColumnsUpTo(shape, r, i1), Column(shape, r, i1), ci, cj, w, h);
      visits := visits + col;
      i1 := i1 + 1;
    }
  }

  // ---------------------------------------------------------------------
  // Which offsets are visited

  lemma {:induction false} ColumnUpToMembers(di: int, lo: int, dj: int, o: Offset)
    ensures o in ColumnUpTo(di, lo, dj) <==> o.di == di && lo <= o.dj < dj && o != Offset(0, 0)
    decreases dj - lo
  {
    if dj > lo {
      ColumnUpToMembers(di, lo, dj - 1, o);
    }
  }

  lemma {:induction false} ColumnsUpToMembers(shape: Shape, r: int, di: int, o: Offset)
    ensures o in ColumnsUpTo(shape, r, di) <==>
      -r <= o.di < di && -Reach(shape, r, o.di) <= o.dj <= Reach(shape, r, o.di) && o != Offset(0, 0)
    decreases di + r
  {
    if di > -r {
      ColumnsUpToMembers(shape, r, di - 1, o);
      var d := di - 1;
      ColumnUpToMembers(d, -Reach(shape, r, d), Reach(shape, r, d) + 1, o);
    }
  }

  /** The walker visits exactly the offsets of the shape, never the centre. */
  lemma OffsetsMembers(shape: Shape, r: int, o: Offset)
    ensures o in Offsets(shape, r) <==> InShape(shape, r, o) && o != Offset(0, 0)
  {
    ColumnsUpToMembers(shape, r, r + 1, o);
  }

  // ---------------------------------------------------------------------
  // Visiting order: i1 ascending outside, j1 ascending inside

  predicate Before(a: Offset, b: Offset)
  {
    a.di < b.di || (a.di == b.di && a.dj < b.dj)
  }

  predicate Ascending(os: seq<Offset>)
  {
    forall x, y :: 0 <= x < y < |os| ==> Before(os[x], os[y])
  }

  lemma AscendingAppend(a: seq<Offset>, b: seq<Offset>)
    requires Ascending(a) && Ascending(b)
    requires forall x, y :: 0 <= x < |a| && 0 <= y < |b| ==> Before(a[x], b[y])
    ensures Ascending(a + b)
  {
  }

  lemma {:induction false} ColumnUpToAscending(di: int, lo: int, dj: int)
    ensures Ascending(ColumnUpTo(di, lo, dj))
    ensures forall k :: 0 <= k < |ColumnUpTo(di, lo, dj)| ==>
      ColumnUpTo(di, lo, dj)[k].di == di && ColumnUpTo(di, lo, dj)[k].dj < dj
    decreases dj - lo
  {
    if dj > lo {
      ColumnUpToAscending(di, lo, dj - 1);
      AscendingAppend(ColumnUpTo(di, lo, dj - 1), Single(di, dj - 1));
    }
  }

  lemma {:induction false} ColumnsUpToAscending(shape: Shape, r: int, di: int)
    ensures Ascending(ColumnsUpTo(shape, r, di))
    ensures forall k :: 0 <= k < |ColumnsUpTo(shape, r, di)| ==> ColumnsUpTo(shape, r, di)[k].di < di
    decreases di + r
  {
    if di > -r {
      var d := di - 1;
      ColumnsUpToAscending(shape, r, d);
      ColumnUpToAscending(d, -Reach(shape, r, d), Reach(shape, r, d) + 1);
      AscendingAppend(ColumnsUpTo(shape, r, d), Column(shape, r, d));
    }
  }

  /**
   * The visits come in (i1, j1) order, i1 in the outer loop; in particular
   * no offset is visited twice.
   */
  lemma OffsetsAscending(shape: Shape, r: int)
    ensures Ascending(Offsets(shape, r))
    ensures forall x, y :: 0 <= x < y < |Offsets(shape, r)| ==> Offsets(shape, r)[x] != Offsets(shape, r)[y]
  {
    ColumnsUpToAscending(shape, r, r + 1);
  }

  // ---------------------------------------------------------------------
  // How many callbacks

  lemma {:induction false} ColumnUpToLength(di: int, lo: int, dj: int)
    requires lo <= dj
    ensures |ColumnUpTo(di, lo, dj)| == dj - lo - (if di == 0 && lo <= 0 < dj then 1 else 0)
    decreases dj - lo
  {
    if dj > lo {
      ColumnUpToLength(di, lo, dj - 1);
    }
  }

  lemma ColumnLength(shape: Shape, r: int, di: int)
    requires Reach(shape, r, di) >= 0
    ensures |Column(shape, r, di)| == 2 * Reach(shape, r, di) + 1 - (if di == 0 then 1 else 0)
  {
    ColumnUpToLength(di, -Reach(shape, r, di), Reach(shape, r, di) + 1);
  }

  /** Cells of the square in columns -r .. di - 1, the centre included. */
  function SquareCells(r: int, di: int): int
  {
    (di + r) * (2 * r + 1)
  }

  lemma SquareCellsStep(r: int, d: int)
    ensures SquareCells(r, d + 1) == SquareCells(r, d) + 2 * r + 1
  {
    assert (d + 1 + r) * (2 * r + 1) == (d + r) * (2 * r + 1) + (2 * r + 1);
  }

  lemma {:induction false} SquareColumnsLength(r: int, di: int)
    requires 0 <= r && -r <= di <= r + 1
    ensures |ColumnsUpTo(Square, r, di)| == SquareCells(r, di) - (if di > 0 then 1 else 0)
    decreases di + r
  {
    if di > -r {
      SquareColumnsLength(r, di - 1);
      ColumnLength(Square, r, di - 1);
      SquareCellsStep(r, di - 1);
    }
  }

  /** Cells of the diamond in columns -r .. di - 1, the centre included. */
  function DiamondCells(r: int, di: int): int
  {
    if di <= 0 then Sq(di + r) else Sq(r) + Sq(r + 1) - Sq(r - di + 1)
  }

  function Sq(n: int): int
  {
    n * n
  }

  lemma SqStep(n: int)
    ensures Sq(n + 1) == Sq(n) + 2 * n + 1
  {
    assert (n + 1) * (n + 1) == n * n + 2 * n + 1;
  }

  /** Adding column d to the diamond's columns -r .. d - 1. */
  lemma DiamondCellsStep(r: int, d: int)
    requires 0 <= r && -r <= d <= r
    ensures DiamondCells(r, d + 1) - (if d + 1 > 0 then 1 else 0)
         == DiamondCells(r, d) - (if d > 0 then 1 else 0) + 2 * Reach(Diamond, r, d) + 1 - (if d == 0 then 1 else 0)
  {
    if d < 0 {
      SqStep(d + r);
    } else {
      SqStep(r - d);
      if d == 0 {
        SqStep(r);
      }
    }
  }

  lemma {:induction false} DiamondColumnsLength(r: int, di: int)
    requires 0 <= r && -r <= di <= r + 1
    ensures |ColumnsUpTo(Diamond, r, di)| == DiamondCells(r, di) - (if di > 0 then 1 else 0)
    decreases di + r
  {
    if di > -r {
      var d := di - 1;
      DiamondColumnsLength(r, d);
      ColumnLength(Diamond, r, d);
      DiamondCellsStep(r, d);
    }
  }

  /** The square of radius r gives (2r+1)^2 - 1 callbacks, the diamond 2r(r+1). */
  lemma OffsetsCount(r: nat)
    ensures |Offsets(Square, r)| == (2 * r + 1) * (2 * r + 1) - 1
    ensures |Offsets(Diamond, r)| == 2 * r * (r + 1)
  {
    SquareColumnsLength(r, r + 1);
    assert SquareCells(r, r + 1) == (2 * r + 1) * (2 * r + 1);
    DiamondColumnsLength(r, r + 1);
    assert DiamondCells(r, r + 1) == Sq(r) + Sq(r + 1);
    SqStep(r);
  }

  /** Radius 0 (or below) makes no callback. */
  lemma {:induction false} NoRadiusNoVisits(shape: Shape, r: int)
    requires r <= 0
    ensures Offsets(shape, r) == []
  {
    if Offsets(shape, r) != [] {
      var o := Offsets(shape, r)[0];
      OffsetsMembers(shape, r, o);
      assert false;
    }
  }
}
