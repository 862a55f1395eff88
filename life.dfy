/** Conway's Game of Life on an N×N toroidal grid of intensities.

    A grid is a two-dimensional array whose cells hold ON (255, a live cell,
    white when drawn) or OFF (0, a dead cell). One generation is computed by
    `Update`, which reads only the old grid, writes every new value into a
    second buffer and copies that buffer back over the caller's grid.
    The pure functions below (`LiveNeighbours`, `NextCell`, `Step`) are the
    specification `Update` is proved against. */
module Life {

  /** Intensity of a live cell. */
  const ON := 255
  /** Intensity of a dead cell. */
  const OFF := 0

  /** A snapshot of a grid: a sequence of rows. */
  type Grid = seq<seq<int>>

  /** Number of columns of a grid (that of its first row). */
  function Width(g: Grid): nat
  {
    if |g| == 0 then 0 else |g[0]|
  }

  /** Every row has the same length. */
  predicate Rectangular(g: Grid)
  {
    forall r :: 0 <= r < |g| ==> |g[r]| == Width(g)
  }

  /** `g` is an n×n matrix. */
  predicate IsSquare(g: Grid, n: int)
  {
    |g| == n && forall r :: 0 <= r < |g| ==> |g[r]| == n
  }

  /** Every cell is ON or OFF. */
  predicate TwoValued(g: Grid)
  {
    forall r, c :: 0 <= r < |g| && 0 <= c < |g[r]| ==> g[r][c] == ON || g[r][c] == OFF
  }

  /** Every cell is OFF. */
  predicate AllOff(g: Grid)
  {
    forall r, c :: 0 <= r < |g| && 0 <= c < |g[r]| ==> g[r][c] == OFF
  }

  /** The current contents of an array grid, row by row. */
  function Cells(a: array2<int>): (g: Grid)
    reads a
    ensures |g| == a.Length0
    ensures forall r :: 0 <= r < |g| ==> |g[r]| == a.Length1
    ensures forall r, c :: 0 <= r < a.Length0 && 0 <= c < a.Length1 ==> g[r][c] == a[r, c]
  {
    seq(a.Length0, r reads a requires 0 <= r < a.Length0 =>
      seq(a.Length1, c reads a requires 0 <= c < a.Length1 => a[r, c]))
  }

  /** Two grids with the same shape that agree on every cell are equal. */
  lemma SameCells(g: Grid, h: Grid)
    requires |g| == |h| && forall r :: 0 <= r < |g| ==> |g[r]| == |h[r]|
    requires forall r, c :: 0 <= r < |g| && 0 <= c < |g[r]| ==> g[r][c] == h[r][c]
    ensures g == h
  {
    forall r | 0 <= r < |g|
      ensures g[r] == h[r]
    {
      assert |g[r]| == |h[r]|;
    }
  }

  // ---------------------------------------------------------------------
  // Toroidal neighbourhood

  /** The eight (row, column) offsets, in the order the source adds the
      neighbours up: left, right, up, down, then the four diagonals. */
  const Offsets: seq<(int, int)> :=
    [(0, -1), (0, 1), (-1, 0), (1, 0), (-1, -1), (-1, 1), (1, -1), (1, 1)]

  /** An index at most one step off the grid, brought back onto it: the
      torus identifies row (or column) -1 with n - 1 and n with 0. */
  function Wrap(x: int, n: int): (w: int)
    requires n > 0 && -1 <= x <= n
    ensures 0 <= w < n
  {
    if x < 0 then x + n else if x == n then 0 else x
  }

  /** Wrap agrees with the source's `x % N` wherever it is defined. */
  lemma WrapIsMod(x: int, n: int)
    requires n > 0 && -1 <= x <= n
    ensures Wrap(x, n) == x % n
  {
  }

  /** The k-th neighbour of (i, j), both coordinates wrapped around the torus. */
  function Neighbour(n: int, i: int, j: int, k: int): (p: (int, int))
    requires 0 <= i < n && 0 <= j < n && 0 <= k < 8
    ensures 0 <= p.0 < n && 0 <= p.1 < n
  {
    (Wrap(i + Offsets[k].0, n), Wrap(j + Offsets[k].1, n))
  }

  /** Sum of the intensities of neighbours k..7 of (i, j). On a grid of
      ON/OFF cells it is ON times the number of those neighbours that are ON. */
  function SumFrom(g: Grid, n: int, i: int, j: int, k: int): (s: int)
    requires IsSquare(g, n) && 0 <= i < n && 0 <= j < n && 0 <= k <= 8
    ensures TwoValued(g) ==> s == ON * CountFrom(g, n, i, j, k)
    decreases 8 - k
  {
    if k == 8 then 0
    else
      var p := Neighbour(n, i, j, k);
      g[p.0][p.1] + SumFrom(g, n, i, j, k + 1)
  }

  /** Number of neighbours among k..7 of (i, j) that are ON. */
  function CountFrom(g: Grid, n: int, i: int, j: int, k: int): (c: int)
    requires IsSquare(g, n) && 0 <= i < n && 0 <= j < n && 0 <= k <= 8
    ensures 0 <= c <= 8 - k
    decreases 8 - k
  {
    if k == 8 then 0
    else
      var p := Neighbour(n, i, j, k);
      (if g[p.0][p.1] == ON then 1 else 0) + CountFrom(g, n, i, j, k + 1)
  }

  /** Number of the eight toroidal neighbours of (i, j) that are ON. */
  function LiveNeighbours(g: Grid, n: int, i: int, j: int): (c: int)
    requires IsSquare(g, n) && 0 <= i < n && 0 <= j < n
    ensures 0 <= c <= 8
  {
    CountFrom(g, n, i, j, 0)
  }

  /** The source's `int(x / 255)`: division by ON, truncated toward zero. */
  function TruncDivOn(x: int): (q: int)
    ensures x >= 0 ==> 0 <= ON * q <= x < ON * q + ON
    ensures x < 0 ==> ON * q - ON < x <= ON * q <= 0
  {
    if x >= 0 then x / ON else -((-x) / ON)
  }

  /** The neighbour total the rule tests: the sum of the eight neighbour
      intensities divided by ON, truncated toward zero. On a grid of ON/OFF
      cells it is exactly the number of live neighbours, hence in 0..8. */
  function Total(g: Grid, n: int, i: int, j: int): (t: int)
    requires IsSquare(g, n) && 0 <= i < n && 0 <= j < n
    ensures TwoValued(g) ==> t == LiveNeighbours(g, n, i, j) && 0 <= t <= 8
  {
    TruncDivOn(SumFrom(g, n, i, j, 0))
  }

  // ---------------------------------------------------------------------
  // The rule

  /** Value of cell (i, j) in the next generation. A live cell dies when
      the total is below 2 or above 3; any other cell is born when the
      total is exactly 3; otherwise the cell keeps its value. So a cell
      either keeps its value or changes state: a live cell can only become
      OFF, and any other cell can only become ON. */
  function NextCell(g: Grid, n: int, i: int, j: int): (v: int)
    requires IsSquare(g, n) && 0 <= i < n && 0 <= j < n
    ensures v == g[i][j] || (g[i][j] == ON && v == OFF) || (g[i][j] != ON && v == ON)
  {
    var total := Total(g, n, i, j);
    if g[i][j] == ON then
      if total < 2 || total > 3 then OFF else g[i][j]
    else
      if total == 3 then ON else g[i][j]
  }

  /** The next generation of the whole grid. */
  function Step(g: Grid, n: int): (h: Grid)
    requires IsSquare(g, n)
    ensures IsSquare(h, n)
  {
    seq(n, i requires 0 <= i < n =>
      seq(n, j requires 0 <= j < n => NextCell(g, n, i, j)))
  }

  // ---------------------------------------------------------------------
  // The generation step, as the source computes it

  /** The neighbour sum written out term by term, as the source adds it. */
  lemma NeighbourSumTerms(g: Grid, n: int, i: int, j: int)
    requires IsSquare(g, n) && 0 <= i < n && 0 <= j < n
    ensures SumFrom(g, n, i, j, 0) ==
      g[i][(j - 1) % n] + g[i][(j + 1) % n]
      + g[(i - 1) % n][j] + g[(i + 1) % n][j]
      + g[(i - 1) % n][(j - 1) % n] + g[(i - 1) % n][(j + 1) % n]
      + g[(i + 1) % n][(j - 1) % n] + g[(i + 1) % n][(j + 1) % n]
  {
    WrapIsMod(i - 1, n);
    WrapIsMod(i + 1, n);
    WrapIsMod(j - 1, n);
    WrapIsMod(j + 1, n);
    WrapIsMod(i, n);
    WrapIsMod(j, n);
    var up, down, left, right := (i - 1) % n, (i + 1) % n, (j - 1) % n, (j + 1) % n;
    assert Neighbour(n, i, j, 0) == (i, left);
    assert Neighbour(n, i, j, 1) == (i, right);
    assert Neighbour(n, i, j, 2) == (up, j);
    assert Neighbour(n, i, j, 3) == (down, j);
    assert Neighbour(n, i, j, 4) == (up, left);
    assert Neighbour(n, i, j, 5) == (up, right);
    assert Neighbour(n, i, j, 6) == (down, left);
    assert Neighbour(n, i, j, 7) == (down, right);
  }

  /** Sum of the eight neighbour intensities of (i, j), read from the array
      in the source's order. */
  method NeighbourSum(grid: array2<int>, n: int, i: int, j: int) returns (s: int)
    requires grid.Length0 == n && grid.Length1 == n
    requires 0 <= i < n && 0 <= j < n
    ensures s == SumFrom(Cells(grid), n, i, j, 0)
  {
    var up, down, left, right := (i - 1) % n, (i + 1) % n, (j - 1) % n, (j + 1) % n;
    s := grid[i, left] + grid[i, right] + grid[up, j] + grid[down, j]
       + grid[up, left] + grid[up, right] + grid[down, left] + grid[down, right];
    NeighbourSumTerms(Cells(grid), n, i, j);
  }

  /** The body of the scan for cell (i, j): the neighbour total is read
      from `grid`, and `newGrid`, which holds the old value of the cell, is
      overwritten only when the cell dies or is born. */
  method ApplyRule(grid: array2<int>, newGrid: array2<int>, n: int, i: int, j: int, ghost v: int)
    requires grid.Length0 == n && grid.Length1 == n && grid != newGrid
    requires newGrid.Length0 == n && newGrid.Length1 == n
    requires 0 <= i < n && 0 <= j < n && newGrid[i, j] == grid[i, j]
    requires v == NextCell(Cells(grid), n, i, j)
    modifies newGrid
    ensures newGrid[i, j] == v
    ensures forall r, c :: 0 <= r < n && 0 <= c < n && (r, c) != (i, j) ==> newGrid[r, c] == old(newGrid[r, c])
  {
    var sum := NeighbourSum(grid, n, i, j);
    var total := TruncDivOn(sum);
    if grid[i, j] == ON {
      if total < 2 || total > 3 {
        newGrid[i, j] := OFF;
      }
    } else {
      if total == 3 {
        newGrid[i, j] := ON;
      }
    }
  }

  /** The inner loop of the scan: row i of `newGrid`, which holds row i of
      the old grid, is brought to `row`, row i of the next generation, one
      column at a time. */
  method ScanRow(grid: array2<int>, newGrid: array2<int>, n: int, i: int, ghost row: seq<int>)
    requires grid.Length0 == n && grid.Length1 == n && grid != newGrid
    requires newGrid.Length0 == n && newGrid.Length1 == n && 0 <= i < n
    requires |row| == n && forall c :: 0 <= c < n ==> row[c] == NextCell(Cells(grid), n, i, c)
    requires forall c :: 0 <= c < n ==> newGrid[i, c] == grid[i, c]
    modifies newGrid
    ensures forall c :: 0 <= c < n ==> newGrid[i, c] == row[c]
    ensures forall r, c :: 0 <= r < n && 0 <= c < n && r != i ==> newGrid[r, c] == old(newGrid[r, c])
  {
    var j := 0;
    while j < n
      invariant 0 <= j <= n
      invariant forall c :: 0 <= c < j ==> newGrid[i, c] == row[c]
      invariant forall c :: j <= c < n ==> newGrid[i, c] == grid[i, c]
      invariant forall r, c :: 0 <= r < n && 0 <= c < n && r != i ==> newGrid[r, c] == old(newGrid[r, c])
    {
      ApplyRule(grid, newGrid, n, i, j, row[j]);
      assert forall c :: 0 <= c < j + 1 ==> newGrid[i, c] == row[c];
      j := j + 1;
    }
  }

  /** Advances `grid` by one generation. A copy of the grid is the write
      buffer; every new value is computed from the unchanged grid; the
      buffer is copied back over the grid once the scan is over. */
  method Update(grid: array2<int>, n: int)
    requires grid.Length0 == n && grid.Length1 == n
    modifies grid
    ensures Cells(grid) == Step(old(Cells(grid)), n)
  {
    ghost var next := Step(Cells(grid), n);
    var newGrid := new int[n, n];
    forall r, c | 0 <= r < n && 0 <= c < n {
      newGrid[r, c] := grid[r, c];
    }
    var i := 0;
    while i < n
      modifies newGrid
      invariant 0 <= i <= n
      invariant forall r, c :: 0 <= r < i && 0 <= c < n ==> newGrid[r, c] == next[r][c]
      invariant forall r, c :: i <= r < n && 0 <= c < n ==> newGrid[r, c] == grid[r, c]
    {
      ScanRow(grid, newGrid, n, i, next[i]);
      i := i + 1;
    }
    forall r, c | 0 <= r < n && 0 <= c < n {
      grid[r, c] := newGrid[r, c];
    }
    SameCells(Cells(grid), next);
  }

  // ---------------------------------------------------------------------
  // Properties of the neighbourhood and of the rule

  /** A live cell dies exactly when it has fewer than two or more than
      three live neighbours; otherwise it stays live. */
  lemma SurvivalRule(g: Grid, n: int, i: int, j: int)
    requires IsSquare(g, n) && TwoValued(g) && 0 <= i < n && 0 <= j < n
    requires g[i][j] == ON
    ensures var live := LiveNeighbours(g, n, i, j);
      Step(g, n)[i][j] == (if live < 2 || live > 3 then OFF else ON)
  {
  }

  /** A cell that is not live becomes live exactly when it has three live
      neighbours; otherwise it keeps its old value. */
  lemma BirthRule(g: Grid, n: int, i: int, j: int)
    requires IsSquare(g, n) && TwoValued(g) && 0 <= i < n && 0 <= j < n
    requires g[i][j] != ON
    ensures Step(g, n)[i][j] == (if LiveNeighbours(g, n, i, j) == 3 then ON else g[i][j])
  {
  }

  /** A generation keeps every cell ON or OFF. */
  lemma StepKeepsTwoValued(g: Grid, n: int)
    requires IsSquare(g, n) && TwoValued(g)
    ensures TwoValued(Step(g, n))
  {
  }

  /** With no live cell anywhere, no neighbour is live. */
  lemma {:induction false} NoLiveNeighbours(g: Grid, n: int, i: int, j: int, k: int)
    requires IsSquare(g, n) && AllOff(g) && 0 <= i < n && 0 <= j < n && 0 <= k <= 8
    ensures SumFrom(g, n, i, j, k) == 0
    decreases 8 - k
  {
    if k < 8 {
      NoLiveNeighbours(g, n, i, j, k + 1);
    }
  }

  /** An all-OFF grid is left all-OFF: there is no spontaneous birth. */
  lemma AllOffStaysOff(g: Grid, n: int)
    requires IsSquare(g, n) && AllOff(g)
    ensures Step(g, n) == g
  {
    forall i, j | 0 <= i < n && 0 <= j < n
      ensures Step(g, n)[i][j] == g[i][j]
    {
      NoLiveNeighbours(g, n, i, j, 0);
    }
    SameCells(Step(g, n), g);
  }

  /** y is x, or one step before or after it, modulo n. */
  predicate Adjacent(n: int, x: int, y: int)
    requires n > 0
  {
    y == (x - 1) % n || y == x || y == (x + 1) % n
  }

  /** The eight neighbours of (i, j) with every wrap worked out. */
  lemma NeighbourTable(n: int, i: int, j: int)
    requires n > 0 && 0 <= i < n && 0 <= j < n
    ensures var up, down := if i == 0 then n - 1 else i - 1, if i == n - 1 then 0 else i + 1;
      var left, right := if j == 0 then n - 1 else j - 1, if j == n - 1 then 0 else j + 1;
      && up == (i - 1) % n && down == (i + 1) % n && left == (j - 1) % n && right == (j + 1) % n
      && Neighbour(n, i, j, 0) == (i, left) && Neighbour(n, i, j, 1) == (i, right)
      && Neighbour(n, i, j, 2) == (up, j) && Neighbour(n, i, j, 3) == (down, j)
      && Neighbour(n, i, j, 4) == (up, left) && Neighbour(n, i, j, 5) == (up, right)
      && Neighbour(n, i, j, 6) == (down, left) && Neighbour(n, i, j, 7) == (down, right)
  {
    WrapIsMod(i - 1, n);
    WrapIsMod(i + 1, n);
    WrapIsMod(i, n);
    WrapIsMod(j - 1, n);
    WrapIsMod(j + 1, n);
    WrapIsMod(j, n);
  }

  /** On a grid of side at least 3 the eight neighbours of (i, j) are eight
      different cells; they are exactly the cells other than (i, j) itself
      whose row and column are each at most one step away, modulo n. */
  lemma NeighboursDistinct(n: int, i: int, j: int)
    requires n >= 3 && 0 <= i < n && 0 <= j < n
    ensures forall k1, k2 :: 0 <= k1 < k2 < 8 ==> Neighbour(n, i, j, k1) != Neighbour(n, i, j, k2)
    ensures forall k :: 0 <= k < 8 ==>
      var p := Neighbour(n, i, j, k); p != (i, j) && Adjacent(n, i, p.0) && Adjacent(n, j, p.1)
    ensures forall r, c :: 0 <= r < n && 0 <= c < n && (r, c) != (i, j) && Adjacent(n, i, r) && Adjacent(n, j, c) ==>
      exists k :: 0 <= k < 8 && Neighbour(n, i, j, k) == (r, c)
  {
    NeighbourTable(n, i, j);
    forall k | 0 <= k < 8
      ensures var p := Neighbour(n, i, j, k); p != (i, j) && Adjacent(n, i, p.0) && Adjacent(n, j, p.1)
    {
      assert k == 0 || k == 1 || k == 2 || k == 3 || k == 4 || k == 5 || k == 6 || k == 7;
    }
    forall k1, k2 | 0 <= k1 < k2 < 8
      ensures Neighbour(n, i, j, k1) != Neighbour(n, i, j, k2)
    {
      assert k1 == 0 || k1 == 1 || k1 == 2 || k1 == 3 || k1 == 4 || k1 == 5 || k1 == 6;
    }
    forall r, c | 0 <= r < n && 0 <= c < n && (r, c) != (i, j) && Adjacent(n, i, r) && Adjacent(n, j, c)
      ensures exists k :: 0 <= k < 8 && Neighbour(n, i, j, k) == (r, c)
    {
      var k :=
        if r == i then (if c == (j - 1) % n then 0 else 1)
        else if c == j then (if r == (i - 1) % n then 2 else 3)
        else if r == (i - 1) % n then (if c == (j - 1) % n then 4 else 5)
        else (if c == (j - 1) % n then 6 else 7);
      assert Neighbour(n, i, j, k) == (r, c);
    }
  }

  /** The neighbourhood wraps around: the opposite corner (n-1, n-1) is a
      neighbour of (0, 0), so a live cell there makes (0, 0) count at
      least one live neighbour. */
  lemma CornerSeesOppositeCorner(g: Grid, n: int)
    requires IsSquare(g, n) && n >= 1
    requires g[n - 1][n - 1] == ON
    ensures Neighbour(n, 0, 0, 4) == (n - 1, n - 1)
    ensures LiveNeighbours(g, n, 0, 0) >= 1
  {
    assert CountFrom(g, n, 0, 0, 4) >= 1;
    assert CountFrom(g, n, 0, 0, 0) >= CountFrom(g, n, 0, 0, 1) >= CountFrom(g, n, 0, 0, 2)
      >= CountFrom(g, n, 0, 0, 3) >= CountFrom(g, n, 0, 0, 4);
  }
}
