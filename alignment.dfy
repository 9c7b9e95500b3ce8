/**
  Tile alignment.  Constructing an alignment first shifts the caller's tiles
  to the origin (in place) and then aligns those same, now shifted, tiles:
  stage alignment keeps them as they are, grid alignment snaps every tile to
  the cell of a regular grid whose pitch is the common tile shape and lists
  the tiles row by row.
 */
module Alignment {
  import opened Outcomes
  import opened Tiles
  import opened IntSeqs
  import StitchingUtils

  /** A grid cell: (row, column) = (y // h, x // w). */
  type Cell = (int, int)

  function CellOf(t: Tile, sh: Shape): Cell {
    (t.position.y / sh.h, t.position.x / sh.w)
  }

  /** `tile_map[k]`: the tiles of ts whose cell is k, in input order. */
  function InCell(ts: seq<Tile>, sh: Shape, k: Cell): (r: seq<Tile>)
    ensures |r| <= |ts|
    ensures forall i | 0 <= i < |r| :: CellOf(r[i], sh) == k
  {
    if ts == [] then []
    else
      var last := ts[|ts| - 1];
      var init := InCell(ts[..|ts| - 1], sh, k);
      if CellOf(last, sh) == k then init + [last] else init
  }

  /** The row index of every tile. */
  function RowIndices(ts: seq<Tile>, sh: Shape): (r: seq<int>)
    ensures |r| == |ts| && forall i | 0 <= i < |ts| :: r[i] == CellOf(ts[i], sh).0
  {
    seq(|ts|, i requires 0 <= i < |ts| => CellOf(ts[i], sh).0)
  }

  /** The column index of every tile. */
  function ColIndices(ts: seq<Tile>, sh: Shape): (r: seq<int>)
    ensures |r| == |ts| && forall i | 0 <= i < |ts| :: r[i] == CellOf(ts[i], sh).1
  {
    seq(|ts|, i requires 0 <= i < |ts| => CellOf(ts[i], sh).1)
  }

  /** `sorted(grid_positions_y)`: the occupied rows, ascending, each once. */
  function GridRows(ts: seq<Tile>, sh: Shape): (ys: seq<int>)
    ensures StrictlyIncreasing(ys)
    ensures forall i | 0 <= i < |ts| :: CellOf(ts[i], sh).0 in ys
  {
    SetOfIsSet(RowIndices(ts, sh));
    var ys := Sorted(SetOf(RowIndices(ts, sh)));
    assert forall i | 0 <= i < |ts| :: RowIndices(ts, sh)[i] in RowIndices(ts, sh);
    ys
  }

  /** `sorted(grid_positions_x)`: the occupied columns, ascending, each once. */
  function GridCols(ts: seq<Tile>, sh: Shape): (xs: seq<int>)
    ensures StrictlyIncreasing(xs)
    ensures forall i | 0 <= i < |ts| :: CellOf(ts[i], sh).1 in xs
  {
    SetOfIsSet(ColIndices(ts, sh));
    var xs := Sorted(SetOf(ColIndices(ts, sh)));
    assert forall i | 0 <= i < |ts| :: ColIndices(ts, sh)[i] in ColIndices(ts, sh);
    xs
  }

  /** The tiles of row y, cell by cell over the columns xs. */
  function RowBlock(ts: seq<Tile>, sh: Shape, y: int, xs: seq<int>): (r: seq<Tile>)
    ensures forall i | 0 <= i < |r| :: CellOf(r[i], sh).0 == y && CellOf(r[i], sh).1 in xs
  {
    if xs == [] then []
    else RowBlock(ts, sh, y, xs[..|xs| - 1]) + InCell(ts, sh, (y, xs[|xs| - 1]))
  }

  /** The tiles of the rows ys, row by row. */
  function Blocks(ts: seq<Tile>, sh: Shape, ys: seq<int>, xs: seq<int>): (r: seq<Tile>)
    ensures forall i | 0 <= i < |r| :: CellOf(r[i], sh).0 in ys && CellOf(r[i], sh).1 in xs
  {
    if ys == [] then []
    else Blocks(ts, sh, ys[..|ys| - 1], xs) + RowBlock(ts, sh, ys[|ys| - 1], xs)
  }

  /** The order in which grid alignment emits the tiles. */
  function GridOrder(ts: seq<Tile>, sh: Shape): seq<Tile> {
    Blocks(ts, sh, GridRows(ts, sh), GridCols(ts, sh))
  }

  /** The tile with y and x moved to the corner of its cell; nothing else changes. */
  function Snap(t: Tile, sh: Shape): Tile {
    var k := CellOf(t, sh);
    t.(position := t.position.(y := k.0 * sh.h, x := k.1 * sh.w))
  }

  function SnapAll(ts: seq<Tile>, sh: Shape): (r: seq<Tile>)
    ensures |r| == |ts| && forall i | 0 <= i < |ts| :: r[i] == Snap(ts[i], sh)
  {
    seq(|ts|, i requires 0 <= i < |ts| => Snap(ts[i], sh))
  }

  predicate SameShape(ts: seq<Tile>, sh: Shape) {
    forall i | 0 <= i < |ts| :: ts[i].shape == sh
  }

  /**
    `GridAlignment._align`: `tiles[0]` fails on an empty list, and the
    assertion in the loop fails when any tile's shape differs from the
    first one's; otherwise the snapped tiles in grid order.
   */
  function GridAlign(ts: seq<Tile>): Result<seq<Tile>> {
    if |ts| == 0 then Err(EmptyIndex)
    else if !SameShape(ts, ts[0].shape) then Err(ShapeMismatch)
    else Ok(SnapAll(GridOrder(ts, ts[0].shape), ts[0].shape))
  }

  // ---------------------------------------------------------------------
  // Snapping
  // ---------------------------------------------------------------------

  /**
    A snapped coordinate is a multiple of the tile size, at most the
    original and more than the original minus the size; a coordinate already
    on the lattice is kept; every other field is copied.
   */
  lemma SnapProperties(t: Tile, sh: Shape)
    ensures var s := Snap(t, sh);
      && s.path == t.path && s.shape == t.shape
      && s.backgroundCorrectionMatrixPath == t.backgroundCorrectionMatrixPath
      && s.illuminationCorrectionMatrixPath == t.illuminationCorrectionMatrixPath
      && s.position.time == t.position.time && s.position.channel == t.position.channel
      && s.position.z == t.position.z
      && s.position.y % sh.h == 0 && s.position.x % sh.w == 0
      && s.position.y <= t.position.y < s.position.y + sh.h
      && s.position.x <= t.position.x < s.position.x + sh.w
      && (t.position.y % sh.h == 0 ==> s.position.y == t.position.y)
      && (t.position.x % sh.w == 0 ==> s.position.x == t.position.x)
  {
    MultipleMod(t.position.y / sh.h, sh.h);
    MultipleMod(t.position.x / sh.w, sh.w);
  }

  lemma MultipleMod(q: int, n: Extent)
    ensures (q * n) % n == 0 && (q * n) / n == q
  {
    var m := q * n;
    DivUnique(m, n, q, 0);
  }

  /** Euclidean division is determined by any quotient and remainder in range. */
  lemma DivUnique(m: int, n: Extent, q: int, rem: int)
    requires m == q * n + rem && 0 <= rem < n
    ensures m / n == q && m % n == rem
  {
    var q', r' := m / n, m % n;
    assert m == q' * n + r';
    if q' < q {
      MulLess(q', q, n);
    } else if q' > q {
      MulLess(q, q', n);
    }
  }

  lemma MulLess(a: int, b: int, n: Extent)
    requires a < b
    ensures a * n + n <= b * n
  {
    var d: nat := b - a - 1;
    assert b * n == a * n + n + d * n;
  }

  /** Snapping keeps the tile in its cell, and tiles of one cell get the same y and x. */
  lemma SnapKeepsCell(t: Tile, u: Tile, sh: Shape)
    ensures CellOf(Snap(t, sh), sh) == CellOf(t, sh)
    ensures CellOf(t, sh) == CellOf(u, sh) ==>
      Snap(t, sh).position.y == Snap(u, sh).position.y && Snap(t, sh).position.x == Snap(u, sh).position.x
  {
    MultipleMod(t.position.y / sh.h, sh.h);
    MultipleMod(t.position.x / sh.w, sh.w);
  }

  lemma {:induction false} SnapAllAppend(a: seq<Tile>, b: seq<Tile>, sh: Shape)
    ensures SnapAll(a + b, sh) == SnapAll(a, sh) + SnapAll(b, sh)
  {
  }

  // ---------------------------------------------------------------------
  // Cells of concatenations and of the grid order
  // ---------------------------------------------------------------------

  lemma {:induction false} InCellAppend(a: seq<Tile>, b: seq<Tile>, sh: Shape, k: Cell)
    ensures InCell(a + b, sh, k) == InCell(a, sh, k) + InCell(b, sh, k)
  {
    if b != [] {
      var n := |b| - 1;
      assert (a + b)[..|a + b| - 1] == a + b[..n];
      InCellAppend(a, b[..n], sh, k);
    } else {
      assert a + b == a;
    }
  }

  lemma {:induction false} InCellAll(s: seq<Tile>, sh: Shape, k: Cell)
    requires forall i | 0 <= i < |s| :: CellOf(s[i], sh) == k
    ensures InCell(s, sh, k) == s
  {
    if s != [] {
      InCellAll(s[..|s| - 1], sh, k);
      assert s == s[..|s| - 1] + [s[|s| - 1]];
    }
  }

  lemma {:induction false} InCellNone(s: seq<Tile>, sh: Shape, k: Cell)
    requires forall i | 0 <= i < |s| :: CellOf(s[i], sh) != k
    ensures InCell(s, sh, k) == []
  {
    if s != [] {
      InCellNone(s[..|s| - 1], sh, k);
    }
  }

  /** Filtering row y's block for cell k gives the whole cell when k lies in that block. */
  lemma {:induction false} RowBlockInCell(ts: seq<Tile>, sh: Shape, y: int, xs: seq<int>, k: Cell)
    requires NoDuplicates(xs)
    ensures InCell(RowBlock(ts, sh, y, xs), sh, k)
         == if k.0 == y && k.1 in xs then InCell(ts, sh, k) else []
  {
    if xs != [] {
      var n := |xs| - 1;
      var last := (y, xs[n]);
      RowBlockInCell(ts, sh, y, xs[..n], k);
      InCellAppend(RowBlock(ts, sh, y, xs[..n]), InCell(ts, sh, last), sh, k);
      if k == last {
        InCellAll(InCell(ts, sh, last), sh, k);
        assert xs[n] !in xs[..n];
      } else {
        InCellNone(InCell(ts, sh, last), sh, k);
        assert xs == xs[..n] + [xs[n]];
      }
    }
  }

  lemma {:induction false} BlocksInCell(ts: seq<Tile>, sh: Shape, ys: seq<int>, xs: seq<int>, k: Cell)
    requires NoDuplicates(ys) && NoDuplicates(xs)
    ensures InCell(Blocks(ts, sh, ys, xs), sh, k)
         == if k.0 in ys && k.1 in xs then InCell(ts, sh, k) else []
  {
    if ys != [] {
      var n := |ys| - 1;
      InInitOrLast(ys, k.0);
      var front, row := Blocks(ts, sh, ys[..n], xs), RowBlock(ts, sh, ys[n], xs);
      BlocksInCell(ts, sh, ys[..n], xs, k);
      RowBlockInCell(ts, sh, ys[n], xs, k);
      InCellAppend(front, row, sh, k);
      if k.0 == ys[n] {
        assert k.0 !in ys[..n];
        assert InCell(front, sh, k) == [];
      } else {
        assert InCell(row, sh, k) == [];
        assert k.0 in ys <==> k.0 in ys[..n];
      }
    }
  }

  /**
    Stability: the tiles of every cell appear in the grid order exactly as
    they appear in the input, in the same relative order.
   */
  lemma GridOrderStable(ts: seq<Tile>, sh: Shape, k: Cell)
    ensures InCell(GridOrder(ts, sh), sh, k) == InCell(ts, sh, k)
  {
    var ys, xs := GridRows(ts, sh), GridCols(ts, sh);
    BlocksInCell(ts, sh, ys, xs, k);
    if !(k.0 in ys && k.1 in xs) {
      InCellNone(ts, sh, k);
    }
  }

  /** A tile occurs in a list as often as in the list's part in the tile's own cell. */
  lemma {:induction false} CountInOwnCell(s: seq<Tile>, sh: Shape, t: Tile)
    ensures multiset(s)[t] == multiset(InCell(s, sh, CellOf(t, sh)))[t]
  {
    if s != [] {
      var n := |s| - 1;
      CountInOwnCell(s[..n], sh, t);
      assert s == s[..n] + [s[n]];
    }
  }

  /** The grid order is a permutation of the input. */
  lemma GridOrderPermutation(ts: seq<Tile>, sh: Shape)
    ensures multiset(GridOrder(ts, sh)) == multiset(ts)
  {
    var g := GridOrder(ts, sh);
    forall t ensures multiset(g)[t] == multiset(ts)[t] {
      CountInOwnCell(g, sh, t);
      CountInOwnCell(ts, sh, t);
      GridOrderStable(ts, sh, CellOf(t, sh));
    }
  }

  /** Cell a comes no later than cell b in row-major order. */
  predicate CellLe(a: Cell, b: Cell) {
    a.0 < b.0 || (a.0 == b.0 && a.1 <= b.1)
  }

  predicate RowMajor(s: seq<Tile>, sh: Shape) {
    forall i, j | 0 <= i < j < |s| :: CellLe(CellOf(s[i], sh), CellOf(s[j], sh))
  }

  lemma RowMajorConcat(a: seq<Tile>, b: seq<Tile>, sh: Shape)
    requires RowMajor(a, sh) && RowMajor(b, sh)
    requires forall i, j | 0 <= i < |a| && 0 <= j < |b| :: CellLe(CellOf(a[i], sh), CellOf(b[j], sh))
    ensures RowMajor(a + b, sh)
  {
    var s := a + b;
    forall i, j | 0 <= i < j < |s| ensures CellLe(CellOf(s[i], sh), CellOf(s[j], sh)) {
      if j < |a| {
      } else if i >= |a| {
        assert s[i] == b[i - |a|] && s[j] == b[j - |a|];
      } else {
        assert s[j] == b[j - |a|];
      }
    }
  }

  lemma {:induction false} RowBlockRowMajor(ts: seq<Tile>, sh: Shape, y: int, xs: seq<int>)
    requires StrictlyIncreasing(xs)
    ensures RowMajor(RowBlock(ts, sh, y, xs), sh)
  {
    if xs != [] {
      var n := |xs| - 1;
      var front, cell := RowBlock(ts, sh, y, xs[..n]), InCell(ts, sh, (y, xs[n]));
      RowBlockRowMajor(ts, sh, y, xs[..n]);
      forall i, j | 0 <= i < |front| && 0 <= j < |cell|
        ensures CellLe(CellOf(front[i], sh), CellOf(cell[j], sh))
      {
        var x := CellOf(front[i], sh).1;
        assert x in xs[..n];
        var m :| 0 <= m < n && xs[..n][m] == x;
        assert xs[m] < xs[n];
      }
      RowMajorConcat(front, cell, sh);
    }
  }

  lemma {:induction false} BlocksRowMajor(ts: seq<Tile>, sh: Shape, ys: seq<int>, xs: seq<int>)
    requires StrictlyIncreasing(ys) && StrictlyIncreasing(xs)
    ensures RowMajor(Blocks(ts, sh, ys, xs), sh)
  {
    if ys != [] {
      var n := |ys| - 1;
      var front, row := Blocks(ts, sh, ys[..n], xs), RowBlock(ts, sh, ys[n], xs);
      BlocksRowMajor(ts, sh, ys[..n], xs);
      RowBlockRowMajor(ts, sh, ys[n], xs);
      forall i, j | 0 <= i < |front| && 0 <= j < |row|
        ensures CellLe(CellOf(front[i], sh), CellOf(row[j], sh))
      {
        var y := CellOf(front[i], sh).0;
        assert y in ys[..n];
        var m :| 0 <= m < n && ys[..n][m] == y;
        assert ys[m] < ys[n];
      }
      RowMajorConcat(front, row, sh);
    }
  }

  // ---------------------------------------------------------------------
  // What grid alignment promises
  // ---------------------------------------------------------------------

  /** Grid alignment fails exactly on an empty list or on tiles of different shapes. */
  lemma GridAlignFails(ts: seq<Tile>)
    ensures GridAlign(ts).Err? <==> |ts| == 0 || exists i | 0 <= i < |ts| :: ts[i].shape != ts[0].shape
    ensures |ts| == 0 ==> GridAlign(ts) == Err(EmptyIndex)
    ensures |ts| > 0 && GridAlign(ts).Err? ==> GridAlign(ts) == Err(ShapeMismatch)
  {
  }

  /**
    Grid alignment emits every input tile exactly once, snapped: as
    multisets, the output is the input with each tile snapped.
   */
  lemma GridAlignPermutes(ts: seq<Tile>)
    requires GridAlign(ts).Ok?
    ensures |GridAlign(ts).value| == |ts|
    ensures multiset(GridAlign(ts).value) == multiset(SnapAll(ts, ts[0].shape))
  {
    var sh := ts[0].shape;
    GridOrderPermutation(ts, sh);
    assert |multiset(GridOrder(ts, sh))| == |multiset(ts)|;
    SnapAllPermutation(GridOrder(ts, sh), ts, sh);
  }

  lemma {:induction false} SnapAllPermutation(a: seq<Tile>, b: seq<Tile>, sh: Shape)
    requires multiset(a) == multiset(b)
    ensures multiset(SnapAll(a, sh)) == multiset(SnapAll(b, sh))
    decreases |a|
  {
    if a == [] {
      assert |multiset(b)| == 0;
    } else {
      var n := |a| - 1;
      var e := a[n];
      assert a == a[..n] + [e];
      assert e in multiset(b);
      var j :| 0 <= j < |b| && b[j] == e;
      assert b == b[..j] + [e] + b[j + 1..];
      var rest := b[..j] + b[j + 1..];
      assert multiset(a) == multiset(a[..n]) + multiset{e};
      assert multiset(b) == multiset(b[..j]) + multiset{e} + multiset(b[j + 1..]);
      assert multiset(rest) == multiset(b[..j]) + multiset(b[j + 1..]);
      assert multiset(a[..n]) + multiset{e} == multiset(rest) + multiset{e};
      assert multiset(a[..n]) == (multiset(a[..n]) + multiset{e}) - multiset{e};
      assert multiset(rest) == (multiset(rest) + multiset{e}) - multiset{e};
      SnapAllPermutation(a[..n], rest, sh);
      SnapAllAppend(a[..n], [e], sh);
      SnapAllAppend(b[..j], b[j + 1..], sh);
      SnapAllAppend(b[..j] + [e], b[j + 1..], sh);
      SnapAllAppend(b[..j], [e], sh);
    }
  }

  /** The tiles of each cell keep their input order in the output (and all get the cell's corner). */
  lemma GridAlignStable(ts: seq<Tile>, k: Cell)
    requires GridAlign(ts).Ok?
    ensures InCell(GridAlign(ts).value, ts[0].shape, k) == SnapAll(InCell(ts, ts[0].shape, k), ts[0].shape)
  {
    var sh := ts[0].shape;
    GridOrderStable(ts, sh, k);
    InCellSnapAll(GridOrder(ts, sh), sh, k);
  }

  lemma {:induction false} InCellSnapAll(s: seq<Tile>, sh: Shape, k: Cell)
    ensures InCell(SnapAll(s, sh), sh, k) == SnapAll(InCell(s, sh, k), sh)
  {
    if s != [] {
      var n := |s| - 1;
      InCellSnapAll(s[..n], sh, k);
      assert SnapAll(s, sh)[..n] == SnapAll(s[..n], sh);
      SnapKeepsCell(s[n], s[n], sh);
      SnapAllAppend(InCell(s[..n], sh, k), [s[n]], sh);
    }
  }

  /**
    The output is in row-major order: by ascending snapped y, and by
    ascending snapped x within a row.
   */
  lemma GridAlignRowMajor(ts: seq<Tile>)
    requires GridAlign(ts).Ok?
    ensures var out := GridAlign(ts).value;
      forall i, j | 0 <= i < j < |out| ::
        || out[i].position.y < out[j].position.y
        || (out[i].position.y == out[j].position.y && out[i].position.x <= out[j].position.x)
  {
    var sh := ts[0].shape;
    var g := GridOrder(ts, sh);
    var out := GridAlign(ts).value;
    BlocksRowMajor(ts, sh, GridRows(ts, sh), GridCols(ts, sh));
    forall i, j | 0 <= i < j < |out|
      ensures || out[i].position.y < out[j].position.y
              || (out[i].position.y == out[j].position.y && out[i].position.x <= out[j].position.x)
    {
      var a, b := CellOf(g[i], sh), CellOf(g[j], sh);
      assert CellLe(a, b);
      if a.0 < b.0 {
        MulLess(a.0, b.0, sh.h);
      } else if a.1 < b.1 {
        MulLess(a.1, b.1, sh.w);
      }
    }
  }

  /** Aligning tiles that sit at the origin leaves them at the origin. */
  lemma GridAlignAtOrigin(ts: seq<Tile>)
    requires GridAlign(ts).Ok? && StitchingUtils.AtOrigin(ts)
    ensures StitchingUtils.AtOrigin(GridAlign(ts).value)
  {
    var sh := ts[0].shape;
    var g := GridOrder(ts, sh);
    var out := GridAlign(ts).value;
    GridOrderPermutation(ts, sh);
    forall i, a | 0 <= i < |out| && 0 <= a < 5 ensures Axis(out[i].position, a) >= 0 {
      SnappedNonNegative(ts, g, sh, i, a);
    }
    forall a | 0 <= a < 5 ensures StitchingUtils.ReachesZero(out, a) {
      SnappedReachesZero(ts, g, sh, a);
    }
  }

  lemma SnappedNonNegative(ts: seq<Tile>, g: seq<Tile>, sh: Shape, i: nat, a: nat)
    requires multiset(g) == multiset(ts) && StitchingUtils.AtOrigin(ts)
    requires i < |g| && a < 5
    ensures Axis(Snap(g[i], sh).position, a) >= 0
  {
    assert g[i] in multiset(ts);
    var j :| 0 <= j < |ts| && ts[j] == g[i];
    assert Axis(ts[j].position, 3) >= 0 && Axis(ts[j].position, 4) >= 0;
    assert Axis(ts[j].position, a) >= 0;
    SnapProperties(g[i], sh);
    if a == 3 {
      SnapNonNegative(g[i].position.y, sh.h);
    } else if a == 4 {
      SnapNonNegative(g[i].position.x, sh.w);
    }
  }

  lemma SnapNonNegative(v: int, n: Extent)
    requires v >= 0
    ensures (v / n) * n >= 0
  {
    var q: nat := v / n;
    assert q * n >= 0;
  }

  lemma SnappedReachesZero(ts: seq<Tile>, g: seq<Tile>, sh: Shape, a: nat)
    requires multiset(g) == multiset(ts) && StitchingUtils.AtOrigin(ts)
    requires a < 5
    ensures StitchingUtils.ReachesZero(SnapAll(g, sh), a)
  {
    assert StitchingUtils.ReachesZero(ts, a);
    var j :| 0 <= j < |ts| && Axis(ts[j].position, a) == 0;
    assert ts[j] in multiset(g);
    var m :| 0 <= m < |g| && g[m] == ts[j];
    SnapProperties(g[m], sh);
    assert Axis(SnapAll(g, sh)[m].position, a) == 0;
  }

  // ---------------------------------------------------------------------
  // GridAlignment._align, step by step
  // ---------------------------------------------------------------------

  /** What the first pass leaves in `tile_map`: exactly the occupied cells, each with its tiles. */
  ghost predicate IsTileMap(tileMap: map<Cell, seq<Tile>>, ts: seq<Tile>, sh: Shape) {
    && (forall k :: k in tileMap <==> InCell(ts, sh, k) != [])
    && (forall k | k in tileMap :: tileMap[k] == InCell(ts, sh, k))
  }

  /**
    `GridAlignment._align` as the source runs it: one pass over the tiles
    fills the cell map and the sets of occupied rows and columns, checking
    each tile's shape; then the sorted rows and columns are walked and the
    tiles of each occupied cell appended with their snapped positions.
   */
  method GridAlignTiles(tiles: seq<Tile>) returns (r: Result<seq<Tile>>)
    ensures r == GridAlign(tiles)
  {
    if |tiles| == 0 {
      return Err(EmptyIndex);
    }
    var tileShape := tiles[0].shape;
    var sameShape, tileMap, gridY, gridX := CollectCells(tiles, tileShape);
    if !sameShape {
      return Err(ShapeMismatch);
    }
    SetOfIsSet(RowIndices(tiles, tileShape));
    SetOfIsSet(ColIndices(tiles, tileShape));
    var aligned := EmitCells(tiles, tileShape, tileMap, Sorted(gridY), Sorted(gridX));
    return Ok(aligned);
  }

  /**
    The first loop of `GridAlignment._align`: groups the tiles by cell and
    collects the occupied rows and columns, stopping at the first tile
    whose shape is not `tileShape`.
   */
  method CollectCells(tiles: seq<Tile>, tileShape: Shape)
    returns (sameShape: bool, tileMap: map<Cell, seq<Tile>>, gridY: seq<int>, gridX: seq<int>)
    ensures sameShape <==> SameShape(tiles, tileShape)
    ensures sameShape ==> IsTileMap(tileMap, tiles, tileShape)
    ensures sameShape ==> gridY == SetOf(RowIndices(tiles, tileShape)) && gridX == SetOf(ColIndices(tiles, tileShape))
  {
    gridY, gridX, tileMap := [], [], map[];
    for i := 0 to |tiles|
      invariant forall k | 0 <= k < i :: tiles[k].shape == tileShape
      invariant gridY == SetOf(RowIndices(tiles[..i], tileShape))
      invariant gridX == SetOf(ColIndices(tiles[..i], tileShape))
      invariant IsTileMap(tileMap, tiles[..i], tileShape)
    {
      var tile := tiles[i];
      if tile.shape != tileShape {
        assert tiles[i].shape != tileShape;
        return false, tileMap, gridY, gridX;
      }
      var key := CellOf(tile, tileShape);
      TileMapStep(tileMap, tiles, i, tileShape);
      if key in tileMap {
        tileMap := tileMap[key := tileMap[key] + [tile]];
      } else {
        tileMap := tileMap[key := [tile]];
      }
      IndicesStep(tiles, i, tileShape);
      gridY := AddIfAbsent(gridY, key.0);
      gridX := AddIfAbsent(gridX, key.1);
    }
    assert tiles[..|tiles|] == tiles;
    return true, tileMap, gridY, gridX;
  }

  lemma TileMapStep(m: map<Cell, seq<Tile>>, tiles: seq<Tile>, i: nat, sh: Shape)
    requires i < |tiles| && IsTileMap(m, tiles[..i], sh)
    ensures var key := CellOf(tiles[i], sh);
      && (key in m ==> IsTileMap(m[key := m[key] + [tiles[i]]], tiles[..i + 1], sh))
      && (key !in m ==> IsTileMap(m[key := [tiles[i]]], tiles[..i + 1], sh))
  {
    assert tiles[..i + 1][..i] == tiles[..i];
  }

  lemma IndicesStep(tiles: seq<Tile>, i: nat, sh: Shape)
    requires i < |tiles|
    ensures SetOf(RowIndices(tiles[..i + 1], sh)) == AddIfAbsent(SetOf(RowIndices(tiles[..i], sh)), CellOf(tiles[i], sh).0)
    ensures SetOf(ColIndices(tiles[..i + 1], sh)) == AddIfAbsent(SetOf(ColIndices(tiles[..i], sh)), CellOf(tiles[i], sh).1)
  {
    assert RowIndices(tiles[..i + 1], sh)[..i] == RowIndices(tiles[..i], sh);
    assert ColIndices(tiles[..i + 1], sh)[..i] == ColIndices(tiles[..i], sh);
  }

  /**
    The nested loops of `GridAlignment._align`: for every row, then every
    column, the tiles of an occupied cell are appended as new tiles whose y
    and x are the cell's corner.
   */
  method EmitCells(tiles: seq<Tile>, tileShape: Shape, tileMap: map<Cell, seq<Tile>>, rows: seq<int>, cols: seq<int>)
    returns (aligned: seq<Tile>)
    requires IsTileMap(tileMap, tiles, tileShape)
    ensures aligned == SnapAll(Blocks(tiles, tileShape, rows, cols), tileShape)
  {
    aligned := [];
    for a := 0 to |rows|
      invariant aligned == SnapAll(Blocks(tiles, tileShape, rows[..a], cols), tileShape)
    {
      var yPos := rows[a];
      ghost var done := Blocks(tiles, tileShape, rows[..a], cols);
      for b := 0 to |cols|
        invariant aligned == SnapAll(done + RowBlock(tiles, tileShape, yPos, cols[..b]), tileShape)
      {
        var xPos := cols[b];
        ghost var front := done + RowBlock(tiles, tileShape, yPos, cols[..b]);
        var cellTiles: seq<Tile> := [];
        if (yPos, xPos) in tileMap {
          cellTiles := tileMap[(yPos, xPos)];
          for c := 0 to |cellTiles|
            invariant aligned == SnapAll(front + cellTiles[..c], tileShape)
          {
            var t := cellTiles[c];
            var p := t.position;
            assert CellOf(t, tileShape) == (yPos, xPos);
            SnapOneMore(front, cellTiles, c, tileShape);
            aligned := aligned + [Tile(t.path, t.shape,
              TilePosition(p.time, p.channel, p.z, yPos * tileShape.h, xPos * tileShape.w),
              t.backgroundCorrectionMatrixPath, t.illuminationCorrectionMatrixPath)];
          }
          assert cellTiles[..|cellTiles|] == cellTiles;
        }
        assert cellTiles == InCell(tiles, tileShape, (yPos, xPos));
        RowBlockOneMore(tiles, tileShape, yPos, cols, b, done);
      }
      assert cols[..|cols|] == cols;
      BlocksOneMore(tiles, tileShape, rows, a, cols);
    }
    assert rows[..|rows|] == rows;
  }

  lemma SnapOneMore(front: seq<Tile>, cellTiles: seq<Tile>, c: nat, sh: Shape)
    requires c < |cellTiles|
    ensures SnapAll(front + cellTiles[..c + 1], sh) == SnapAll(front + cellTiles[..c], sh) + [Snap(cellTiles[c], sh)]
  {
    assert front + cellTiles[..c + 1] == front + cellTiles[..c] + [cellTiles[c]];
    SnapAllAppend(front + cellTiles[..c], [cellTiles[c]], sh);
  }

  lemma RowBlockOneMore(ts: seq<Tile>, sh: Shape, y: int, cols: seq<int>, b: nat, done: seq<Tile>)
    requires b < |cols|
    ensures done + RowBlock(ts, sh, y, cols[..b + 1])
         == done + RowBlock(ts, sh, y, cols[..b]) + InCell(ts, sh, (y, cols[b]))
  {
    assert cols[..b + 1][..b] == cols[..b];
  }

  lemma BlocksOneMore(ts: seq<Tile>, sh: Shape, rows: seq<int>, a: nat, cols: seq<int>)
    requires a < |rows|
    ensures Blocks(ts, sh, rows[..a + 1], cols)
         == Blocks(ts, sh, rows[..a], cols) + RowBlock(ts, sh, rows[a], cols)
  {
    assert rows[..a + 1][..a] == rows[..a];
  }

  // ---------------------------------------------------------------------
  // AbstractAlignment and its two strategies
  // ---------------------------------------------------------------------

  /** The concrete alignment class: StageAlignment or GridAlignment. */
  datatype Strategy = StageStrategy | GridStrategy

  /** `_align` of the chosen strategy; stage alignment returns its input. */
  function Align(strategy: Strategy, ts: seq<Tile>): (r: Result<seq<Tile>>)
    ensures strategy == StageStrategy ==> r == Ok(ts)
  {
    match strategy
    case StageStrategy => Ok(ts)
    case GridStrategy => GridAlign(ts)
  }

  /** Both strategies keep tiles that sit at the origin there. */
  lemma AlignAtOrigin(strategy: Strategy, ts: seq<Tile>)
    requires StitchingUtils.AtOrigin(ts) && Align(strategy, ts).Ok?
    ensures StitchingUtils.AtOrigin(Align(strategy, ts).value)
  {
    if strategy == GridStrategy {
      GridAlignAtOrigin(ts);
    }
  }

  class AbstractAlignment {
    const strategy: Strategy
    var unalignedTiles: seq<Tile>
    var alignedTiles: seq<Tile>

    /** The stored tiles are the origin-shifted input and their alignment. */
    ghost predicate Valid()
      reads this
    {
      && StitchingUtils.AtOrigin(unalignedTiles)
      && Align(strategy, unalignedTiles) == Ok(alignedTiles)
    }

    constructor Init(strategy: Strategy, unaligned: seq<Tile>, aligned: seq<Tile>)
      ensures this.strategy == strategy && unalignedTiles == unaligned && alignedTiles == aligned
    {
      this.strategy := strategy;
      unalignedTiles := unaligned;
      alignedTiles := aligned;
    }

    /**
      `AbstractAlignment.__init__`: shifts the caller's tiles to the origin
      in place, keeps the shifted copy, and aligns the same (shifted)
      tiles.  The shift fails on an empty list; grid alignment fails on
      mixed shapes after the shift has already been applied.
     */
    static method Create(strategy: Strategy, tiles: array<Tile>) returns (r: Result<AbstractAlignment>)
      modifies tiles
      ensures tiles.Length == 0 ==> r == Err(EmptyReduction) && tiles[..] == old(tiles[..])
      ensures tiles.Length > 0 ==> tiles[..] == StitchingUtils.Shifted(old(tiles[..]))
      ensures tiles.Length > 0 ==> (r.Ok? <==> Align(strategy, tiles[..]).Ok?)
      ensures tiles.Length > 0 && r.Err? ==> r == Err(ShapeMismatch)
      ensures r.Ok? ==>
        && fresh(r.value) && r.value.Valid() && r.value.strategy == strategy
        && r.value.unalignedTiles == tiles[..]
        && Ok(r.value.alignedTiles) == Align(strategy, StitchingUtils.Shifted(old(tiles[..])))
    {
      var shifted := StitchingUtils.ShiftToOrigin(tiles);
      if shifted.Err? {
        return Err(shifted.error);
      }
      StitchingUtils.ShiftedAtOrigin(old(tiles[..]));
      var aligned: seq<Tile>;
      match strategy {
        case StageStrategy =>
          aligned := tiles[..];
        case GridStrategy =>
          var g := GridAlignTiles(tiles[..]);
          if g.Err? {
            GridAlignFails(tiles[..]);
            return Err(g.error);
          }
          aligned := g.value;
      }
      var alignment := new AbstractAlignment.Init(strategy, shifted.value, aligned);
      return Ok(alignment);
    }

    /** `get_tiles`: the aligned tiles, which sit at the origin. */
    method GetTiles() returns (r: seq<Tile>)
      requires Valid()
      ensures r == alignedTiles
      ensures Align(strategy, unalignedTiles) == Ok(r)
      ensures StitchingUtils.AtOrigin(r)
    {
      AlignAtOrigin(strategy, unalignedTiles);
      return alignedTiles;
    }
  }
}
