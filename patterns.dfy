/** Seeding patterns: fixed matrices of ON/OFF intensities written into a
    rectangular window of a grid.

    A window is written by a plain two-dimensional slice assignment, so it
    does not wrap around the torus: the window must lie inside the grid
    (a window that runs past an edge is a shape error in the source), and
    every cell outside it keeps its value. */
module Patterns {
  import opened Life

  /** The glider, as its 3×3 matrix is written in the source. */
  const Glider: Grid := [[OFF, OFF, ON],
                         [ON, OFF, ON],
                         [OFF, ON, ON]]

  /** The "block": a solid 3×3 square of live cells. */
  const Block: Grid := [[ON, ON, ON],
                        [ON, ON, ON],
                        [ON, ON, ON]]

  /** The (row, column) cells of the Gosper glider gun, as listed in the
      source, relative to the top-left corner of its 9×38 matrix. */
  const GunCells: set<(int, int)> :=
    {(4, 0), (5, 0), (4, 1), (5, 1), (4, 10), (5, 10), (6, 10),
     (3, 11), (7, 11), (2, 12), (8, 12), (2, 13), (8, 13), (5, 14),
     (3, 15), (7, 15), (4, 16), (5, 16), (6, 16), (5, 17), (2, 20),
     (3, 20), (4, 20), (2, 21), (3, 21), (4, 21), (1, 22), (5, 22),
     (0, 24), (1, 24), (5, 24), (6, 24), (2, 34), (3, 34), (2, 35), (3, 35)}

  /** Height and width of the gun matrix, and the number of its columns
      that the source's filling loop visits. */
  const GunHeight := 9
  const GunWidth := 38
  const GunScannedColumns := 35

  /** An h×w matrix of OFF cells. */
  function Zeros(h: nat, w: nat): (z: Grid)
    ensures |z| == h && forall r :: 0 <= r < h ==> |z[r]| == w
    ensures AllOff(z)
  {
    seq(h, _ => seq(w, _ => OFF))
  }

  /** The gun matrix the source builds: a cell is ON exactly when it is
      listed in GunCells and its column is one the filling loop visits.
      It is a 9×38 matrix of ON/OFF cells whose live cells are all listed. */
  function GunPattern(): (p: Grid)
    ensures |p| == GunHeight && Rectangular(p) && Width(p) == GunWidth
    ensures TwoValued(p)
    ensures forall r, c :: 0 <= r < GunHeight && 0 <= c < GunWidth && p[r][c] == ON ==> (r, c) in GunCells
  {
    seq(GunHeight, r requires 0 <= r < GunHeight =>
      seq(GunWidth, c requires 0 <= c < GunWidth =>
        if c < GunScannedColumns && (r, c) in GunCells then ON else OFF))
  }

  /** Pattern `p` fits in `g` with its top-left cell at (i, j), without
      running past the last row or column. */
  predicate Fits(g: Grid, p: Grid, i: int, j: int)
  {
    Rectangular(g) && Rectangular(p) && |p| > 0
    && 0 <= i && i + |p| <= |g| && 0 <= j && j + Width(p) <= Width(g)
  }

  /** `g` with the window of p's size at (i, j) replaced by `p`. */
  function Stamp(g: Grid, p: Grid, i: int, j: int): (h: Grid)
    requires Fits(g, p, i, j)
    ensures |h| == |g| && forall r :: 0 <= r < |h| ==> |h[r]| == Width(g)
  {
    seq(|g|, r requires 0 <= r < |g| =>
      seq(Width(g), c requires 0 <= c < Width(g) =>
        if i <= r < i + |p| && j <= c < j + Width(p) then p[r - i][c - j] else g[r][c]))
  }

  /** The numpy slice assignment `grid[i:i+h, j:j+w] = p`. */
  method Paste(grid: array2<int>, i: int, j: int, p: Grid)
    requires Rectangular(p) && |p| > 0
    requires 0 <= i && i + |p| <= grid.Length0 && 0 <= j && j + Width(p) <= grid.Length1
    modifies grid
    ensures Fits(old(Cells(grid)), p, i, j)
    ensures Cells(grid) == Stamp(old(Cells(grid)), p, i, j)
  {
    ghost var g := Cells(grid);
    forall r, c | i <= r < i + |p| && j <= c < j + Width(p) {
      grid[r, c] := p[r - i][c - j];
    }
    ghost var h := Stamp(g, p, i, j);
    assert Width(g) == grid.Length1;
    forall r, c | 0 <= r < grid.Length0 && 0 <= c < grid.Length1
      ensures grid[r, c] == h[r][c]
    {
      if i <= r < i + |p| && j <= c < j + Width(p) {
        assert |p[r - i]| == Width(p);
      }
    }
    SameCells(Cells(grid), h);
  }

  /** Writes a glider with its top-left cell at (i, j). */
  method AddGlider(i: int, j: int, grid: array2<int>)
    requires 0 <= i && i + 3 <= grid.Length0 && 0 <= j && j + 3 <= grid.Length1
    modifies grid
    ensures Fits(old(Cells(grid)), Glider, i, j)
    ensures Cells(grid) == Stamp(old(Cells(grid)), Glider, i, j)
  {
    Paste(grid, i, j, Glider);
  }

  /** Writes a block with its top-left cell at (i, j). */
  method AddBlock(i: int, j: int, grid: array2<int>)
    requires 0 <= i && i + 3 <= grid.Length0 && 0 <= j && j + 3 <= grid.Length1
    modifies grid
    ensures Fits(old(Cells(grid)), Block, i, j)
    ensures Cells(grid) == Stamp(old(Cells(grid)), Block, i, j)
  {
    Paste(grid, i, j, Block);
  }

  /** The source's filling loops: a 9×38 matrix of OFF cells in which every
      cell listed in `values` whose column is below 35 is set to ON. The
      loop counters are returned as well: like the source's, each keeps its
      last value once its loop is over. */
  method FillGun(values: set<(int, int)>) returns (gg: array2<int>, row: int, col: int)
    ensures fresh(gg) && gg.Length0 == GunHeight && gg.Length1 == GunWidth
    ensures forall a, b :: 0 <= a < GunHeight && 0 <= b < GunWidth ==>
      (gg[a, b] == if b < GunScannedColumns && (a, b) in values then ON else OFF)
    ensures row == GunHeight - 1 && col == GunScannedColumns - 1
  {
    gg := new int[GunHeight, GunWidth];
    forall a, b | 0 <= a < GunHeight && 0 <= b < GunWidth {
      gg[a, b] := OFF;
    }
    row, col := 0, 0;
    var r := 0;
    while r < GunHeight
      modifies gg
      invariant 0 <= r <= GunHeight
      invariant r > 0 ==> row == r - 1 && col == GunScannedColumns - 1
      invariant forall a, b :: 0 <= a < GunHeight && 0 <= b < GunWidth ==>
        (gg[a, b] == if a < r && b < GunScannedColumns && (a, b) in values then ON else OFF)
    {
      row := r;
      col := FillRow(gg, values, r);
      r := r + 1;
    }
  }

  /** The inner filling loop over the visited columns of row r, which
      starts all OFF; it returns the last value of its counter. */
  method FillRow(gg: array2<int>, values: set<(int, int)>, r: int) returns (col: int)
    requires gg.Length0 == GunHeight && gg.Length1 == GunWidth && 0 <= r < GunHeight
    requires forall b :: 0 <= b < GunWidth ==> gg[r, b] == OFF
    modifies gg
    ensures col == GunScannedColumns - 1
    ensures forall b :: 0 <= b < GunWidth ==>
      (gg[r, b] == if b < GunScannedColumns && (r, b) in values then ON else OFF)
    ensures forall a, b :: 0 <= a < GunHeight && a != r && 0 <= b < GunWidth ==> gg[a, b] == old(gg[a, b])
  {
    col := 0;
    var c := 0;
    while c < GunScannedColumns
      invariant 0 <= c <= GunScannedColumns
      invariant c > 0 ==> col == c - 1
      invariant forall b :: 0 <= b < GunWidth ==>
        (gg[r, b] == if b < c && (r, b) in values then ON else OFF)
      invariant forall a, b :: 0 <= a < GunHeight && a != r && 0 <= b < GunWidth ==> gg[a, b] == old(gg[a, b])
    {
      col := c;
      if (r, c) in values {
        gg[r, c] := ON;
      }
      c := c + 1;
    }
  }

  /** Builds the gun matrix and writes it into the grid. The source's
      filling loops reuse the names of the parameters i and j as their
      counters, so the window is the one at the counters' final values,
      (8, 34), whatever (i, j) the caller passed. */
  method AddGosperGun(i: int, j: int, grid: array2<int>)
    requires 8 + GunHeight <= grid.Length0 && 34 + GunWidth <= grid.Length1
    modifies grid
    ensures Fits(old(Cells(grid)), GunPattern(), 8, 34)
    ensures Cells(grid) == Stamp(old(Cells(grid)), GunPattern(), 8, 34)
  {
    var gg, row, col := FillGun(GunCells);
    GunMatrixBuilt(gg);
    Paste(grid, row, col, Cells(gg));
  }

  /** The filled array holds the gun matrix. */
  lemma GunMatrixBuilt(gg: array2<int>)
    requires gg.Length0 == GunHeight && gg.Length1 == GunWidth
    requires forall a, b :: 0 <= a < GunHeight && 0 <= b < GunWidth ==>
      (gg[a, b] == if b < GunScannedColumns && (a, b) in GunCells then ON else OFF)
    ensures Cells(gg) == GunPattern()
  {
    SameCells(Cells(gg), GunPattern());
  }

  // ---------------------------------------------------------------------
  // Properties of stamping

  /** Inside the window the stamped grid holds the pattern; outside it,
      including the cells a toroidal placement would have wrapped onto,
      the grid is unchanged. */
  lemma StampWindow(g: Grid, p: Grid, i: int, j: int)
    requires Fits(g, p, i, j)
    ensures forall r, c :: 0 <= r < |p| && 0 <= c < Width(p) ==> Stamp(g, p, i, j)[i + r][j + c] == p[r][c]
    ensures forall r, c :: 0 <= r < |g| && 0 <= c < Width(g) && !(i <= r < i + |p| && j <= c < j + Width(p)) ==>
      Stamp(g, p, i, j)[r][c] == g[r][c]
  {
    var h := Stamp(g, p, i, j);
    forall r, c | 0 <= r < |p| && 0 <= c < Width(p)
      ensures h[i + r][j + c] == p[r][c]
    {
      assert |p[r]| == Width(p);
    }
  }

  /** What the window held before does not matter: grids that agree
      outside the window are equal once the same pattern is stamped. */
  lemma StampOverwrites(g: Grid, g': Grid, p: Grid, i: int, j: int)
    requires Fits(g, p, i, j) && Fits(g', p, i, j)
    requires |g| == |g'| && Width(g) == Width(g')
    requires forall r, c :: 0 <= r < |g| && 0 <= c < Width(g) && !(i <= r < i + |p| && j <= c < j + Width(p)) ==>
      g[r][c] == g'[r][c]
    ensures Stamp(g, p, i, j) == Stamp(g', p, i, j)
  {
    SameCells(Stamp(g, p, i, j), Stamp(g', p, i, j));
  }

  /** Stamping the same pattern twice at the same place is the same as
      stamping it once. */
  lemma StampIdempotent(g: Grid, p: Grid, i: int, j: int)
    requires Fits(g, p, i, j)
    ensures Fits(Stamp(g, p, i, j), p, i, j)
    ensures Stamp(Stamp(g, p, i, j), p, i, j) == Stamp(g, p, i, j)
  {
    var h := Stamp(g, p, i, j);
    assert Width(h) == Width(g);
    StampOverwrites(h, g, p, i, j);
  }

  /** Stamping an ON/OFF pattern keeps every cell of an ON/OFF grid ON or OFF. */
  lemma StampKeepsTwoValued(g: Grid, p: Grid, i: int, j: int)
    requires Fits(g, p, i, j) && TwoValued(g) && TwoValued(p)
    ensures TwoValued(Stamp(g, p, i, j))
  {
    var h := Stamp(g, p, i, j);
    forall r, c | 0 <= r < |h| && 0 <= c < |h[r]|
      ensures h[r][c] == ON || h[r][c] == OFF
    {
      if i <= r < i + |p| && j <= c < j + Width(p) {
        assert |p[r - i]| == Width(p);
      }
    }
  }

  /** The glider and the block are 3×3 matrices of ON and OFF cells. */
  lemma PatternsTwoValued()
    ensures TwoValued(Glider) && TwoValued(Block)
    ensures Rectangular(Glider) && |Glider| == 3 && Width(Glider) == 3
    ensures Rectangular(Block) && |Block| == 3 && Width(Block) == 3
  {
  }

  /** The gun matrix holds exactly the listed cells that lie in the visited
      columns; the two listed cells (2, 35) and (3, 35) are dropped, so its
      last three columns are empty. */
  lemma GunPatternCells()
    ensures forall r, c :: 0 <= r < GunHeight && 0 <= c < GunWidth ==>
      (GunPattern()[r][c] == ON <==> (r, c) in GunCells && (r, c) != (2, 35) && (r, c) != (3, 35))
    ensures forall r, c :: 0 <= r < GunHeight && GunScannedColumns <= c < GunWidth ==> GunPattern()[r][c] == OFF
    ensures (2, 35) in GunCells && (3, 35) in GunCells
  {
    forall r, c | 0 <= r < GunHeight && 0 <= c < GunWidth && (r, c) in GunCells
      ensures c < GunScannedColumns || (r, c) == (2, 35) || (r, c) == (3, 35)
    {
    }
  }

  /** The block is not a still life: stamped on an empty grid, its centre
      cell has eight live neighbours and dies in the next generation. */
  lemma BlockIsNotStill(n: int)
    requires n >= 4
    ensures Fits(Zeros(n, n), Block, 1, 1)
    ensures var g := Stamp(Zeros(n, n), Block, 1, 1);
      IsSquare(g, n) && g[2][2] == ON && LiveNeighbours(g, n, 2, 2) == 8 && Step(g, n)[2][2] == OFF
  {
    var g := Stamp(Zeros(n, n), Block, 1, 1);
    assert IsSquare(g, n);
    NeighbourTable(n, 2, 2);
    forall k | 0 <= k < 8
      ensures var p := Neighbour(n, 2, 2, k); g[p.0][p.1] == ON
    {
      assert k == 0 || k == 1 || k == 2 || k == 3 || k == 4 || k == 5 || k == 6 || k == 7;
    }
    assert CountFrom(g, n, 2, 2, 8) == 0;
    assert CountFrom(g, n, 2, 2, 7) == 1;
    assert CountFrom(g, n, 2, 2, 6) == 2;
    assert CountFrom(g, n, 2, 2, 5) == 3;
    assert CountFrom(g, n, 2, 2, 4) == 4;
    assert CountFrom(g, n, 2, 2, 3) == 5;
    assert CountFrom(g, n, 2, 2, 2) == 6;
    assert CountFrom(g, n, 2, 2, 1) == 7;
    assert CountFrom(g, n, 2, 2, 0) == 8;
    assert TwoValued(g) by {
      PatternsTwoValued();
      StampKeepsTwoValued(Zeros(n, n), Block, 1, 1);
    }
    SurvivalRule(g, n, 2, 2);
  }
}
