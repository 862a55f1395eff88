# Game of Life engine, modelled in Dafny

This project models the simulation core of the `Game_Of_Life/game_of_life.py`
script: Conway's Game of Life on an N×N grid whose rows and columns wrap
around (a torus). Cells are image intensities: `ON = 255` is a live cell and
`OFF = 0` a dead one.

- `life.dfy` (module `Life`) holds the generation step `update`. `Update`
  copies the grid into a second buffer. It scans every cell in row-major
  order and adds up the eight neighbour intensities with indices taken modulo
  N. It divides that sum by 255, truncating toward zero, and applies the
  birth/survival rule, writing only into the buffer. Then it copies the
  buffer back over the caller's grid. The inner loop over columns is
  `ScanRow`, and its body is `ApplyRule`. `Update` is proved against the pure
  specification `Step`, built from `NextCell`, which is built from the
  neighbour total. On top of that, contracts and lemmas state:
  - the survival rule and the birth rule, both directions, in terms of the
    live-neighbour count `LiveNeighbours`;
  - that on ON/OFF grids the divided sum is exactly that count, which lies
    in 0..8;
  - that the eight wrapped neighbours are eight distinct cells (for N ≥ 3)
    and are exactly the cells one step away;
  - that (N-1, N-1) is a neighbour of (0, 0);
  - that a step keeps every cell ON or OFF, and that an all-OFF grid stays
    all-OFF.
- `patterns.dfy` (module `Patterns`) holds the seeding functions `add_glider`,
  `add_block` and `add_gosper_gun`. Each writes a fixed matrix into a window
  of the grid by slice assignment (`Paste`, specified by `Stamp`):
  - A window does not wrap. It must lie inside the grid, since a window that
    runs past an edge is a shape error in the source. Cells outside the
    window are left unchanged.
  - The block is a solid 3×3 square. `BlockIsNotStill` proves that it is not
    a still life: its centre cell has eight live neighbours and dies.
  - `add_gosper_gun` reuses its parameter names `i` and `j` as loop counters.
    Once the loops end, they hold 8 and 34, so the gun is always written at
    rows 8..16 and columns 34..71, whatever the caller passed.
  - The filling loop only visits columns 0..34. The listed cells (2, 35) and
    (3, 35) therefore stay OFF, and columns 35..37 of the gun are empty
    (`GunPatternCells`).
- `setup.dfy` (module `Setup`) holds the start-up choice of N: the requested
  side if it is above 8, otherwise 100. Any side of 9 to 71 is accepted even
  though the gun's fixed window needs at least 72 columns
  (`GunNeedsWideGrid`).

The code places patterns without wrapping them around the torus. It raises
no error of its own for a bad grid size or a bad cell value, and `update`
takes no snapshot of the grid beyond its working copy. Its block is not a
still life. The model follows the code in each of these.

## Model

| member | source | states |
|---|---|---|
| Life.Wrap | Game_Of_Life/game_of_life.py:99-102 | an index one step off either edge is brought back onto the torus, always into 0..N-1 |
| Life.WrapIsMod | Game_Of_Life/game_of_life.py:99-102 | that wrap agrees with the source's `% N` on every index from -1 to N |
| Life.Neighbour | Game_Of_Life/game_of_life.py:99-102 | the k-th of the eight neighbours (in the source's order of summation) is a cell of the grid |
| Life.CountFrom | Game_Of_Life/game_of_life.py:99-102 | the number of live neighbours among the last 8-k is between 0 and 8-k |
| Life.SumFrom | Game_Of_Life/game_of_life.py:99-102 | on an ON/OFF grid the sum of the intensities of neighbours k..7 is 255 times the number of them that are ON |
| Life.LiveNeighbours | Game_Of_Life/game_of_life.py:99-102 | the live-neighbour count of a cell lies in 0..8 |
| Life.TruncDivOn | Game_Of_Life/game_of_life.py:102 | `int(x / 255)` is the quotient by 255 truncated toward zero: 255·q is within 255 of x on x's side of zero |
| Life.Total | Game_Of_Life/game_of_life.py:99-102 | on an ON/OFF grid `int(total / 255)` is exactly the live-neighbour count, and so lies in 0..8 |
| Life.NextCell | Game_Of_Life/game_of_life.py:103-109 | a cell either keeps its value or changes state: a live cell can only become OFF, any other cell can only become ON |
| Life.Step | Game_Of_Life/game_of_life.py:94-113 | the next generation is again an N×N grid |
| Life.NeighbourSumTerms | Game_Of_Life/game_of_life.py:99-102 | the specification's neighbour sum is the source's eight-term sum with every index taken modulo N |
| Life.NeighbourSum | Game_Of_Life/game_of_life.py:99-102 | the eight array reads add up to the specification's neighbour sum of the grid |
| Life.ApplyRule | Game_Of_Life/game_of_life.py:99-109 | the buffer cell, holding the old value, becomes exactly the next-generation value; no other buffer cell changes |
| Life.ScanRow | Game_Of_Life/game_of_life.py:96-109 | the inner loop over the columns of row i turns that row of the buffer, holding the old row, into the next-generation row, and touches no other row |
| Life.Update | Game_Of_Life/game_of_life.py:91-113 | after the step, the grid equals `Step` of the grid before it: every new value is computed from the old generation only, and the buffer is copied back whole |
| Life.SurvivalRule | Game_Of_Life/game_of_life.py:104-106 | a live cell becomes OFF exactly when it has fewer than 2 or more than 3 live neighbours, and otherwise stays ON |
| Life.BirthRule | Game_Of_Life/game_of_life.py:104-109 | a cell that is not ON becomes ON exactly when it has 3 live neighbours, and otherwise keeps its old value (the buffer starts as a copy) |
| Life.StepKeepsTwoValued | Game_Of_Life/game_of_life.py:94-113 | if every cell is ON or OFF before a step, every cell is ON or OFF after it |
| Life.NoLiveNeighbours | Game_Of_Life/game_of_life.py:99-102 | in an all-OFF grid every neighbour sum is 0 |
| Life.AllOffStaysOff | Game_Of_Life/game_of_life.py:94-113 | a step leaves an all-OFF grid unchanged: there is no spontaneous birth |
| Life.NeighbourTable | Game_Of_Life/game_of_life.py:99-102 | the eight neighbours of (i, j), with each wrap worked out (row -1 is N-1, row N is 0) |
| Life.NeighboursDistinct | Game_Of_Life/game_of_life.py:99-102 | for N ≥ 3 the eight neighbours are distinct and none is the cell itself; a cell is a neighbour exactly when its row and its column are each at most one step away modulo N and it is not the cell itself |
| Life.CornerSeesOppositeCorner | Game_Of_Life/game_of_life.py:99-102 | (N-1, N-1) is a neighbour of (0, 0), so a live opposite corner gives (0, 0) at least one live neighbour |
| Patterns.Zeros | Game_Of_Life/game_of_life.py:33-36 | `np.zeros` reshaped to h×w: an h×w matrix of OFF cells |
| Patterns.GunPattern | Game_Of_Life/game_of_life.py:77-87 | the gun matrix is 9×38, every cell is ON or OFF, and every ON cell is one of the listed cells |
| Patterns.Stamp | Game_Of_Life/game_of_life.py:66 | stamping keeps the grid's shape |
| Patterns.Paste | Game_Of_Life/game_of_life.py:89 | slice assignment of a pattern inside the grid leaves the grid equal to `Stamp` of the old grid |
| Patterns.AddGlider | Game_Of_Life/game_of_life.py:60-66 | writes the 3×3 glider at rows i..i+2, columns j..j+2 (which must fit, with no wrap-around) and changes nothing else |
| Patterns.AddBlock | Game_Of_Life/game_of_life.py:68-73 | writes the solid 3×3 block at rows i..i+2, columns j..j+2 (which must fit) and changes nothing else |
| Patterns.FillGun | Game_Of_Life/game_of_life.py:77-87 | builds a fresh 9×38 matrix that is ON exactly at the listed cells with column below 35; the loop counters end at 8 and 34 |
| Patterns.FillRow | Game_Of_Life/game_of_life.py:85-87 | the inner loop sets row r, which starts all OFF, to ON exactly at the listed cells with column below 35; its counter ends at 34, and no other row changes |
| Patterns.AddGosperGun | Game_Of_Life/game_of_life.py:75-89 | writes the gun matrix at rows 8..16, columns 34..71, whatever i and j are (needs at least 17 rows and 72 columns), and changes nothing else |
| Patterns.GunMatrixBuilt | Game_Of_Life/game_of_life.py:84-87 | the matrix the filling loops leave is the gun pattern |
| Patterns.StampWindow | Game_Of_Life/game_of_life.py:66 | inside the window the stamped grid holds the pattern; every cell outside it, including those a toroidal placement would reach, is unchanged |
| Patterns.StampOverwrites | Game_Of_Life/game_of_life.py:73 | what the window held before does not matter: grids that agree outside the window are equal after the same stamp |
| Patterns.StampIdempotent | Game_Of_Life/game_of_life.py:66 | stamping the same pattern twice at the same place equals stamping it once |
| Patterns.StampKeepsTwoValued | Game_Of_Life/game_of_life.py:60-73 | stamping an ON/OFF pattern onto an ON/OFF grid leaves every cell ON or OFF |
| Patterns.PatternsTwoValued | Game_Of_Life/game_of_life.py:63-73 | glider and block are 3×3 and every cell of each is ON or OFF |
| Patterns.GunPatternCells | Game_Of_Life/game_of_life.py:78-87 | a gun cell is ON exactly when it is listed and is neither (2, 35) nor (3, 35); columns 35..37 are all OFF although (2, 35) and (3, 35) are listed |
| Patterns.BlockIsNotStill | Game_Of_Life/game_of_life.py:70-73 | a block stamped at (1, 1) on an empty N×N grid (N ≥ 4) has a centre cell with 8 live neighbours, which is OFF after one step |
| Setup.GridSize | Game_Of_Life/game_of_life.py:25-27 | the side is the requested one when it is above 8, and 100 otherwise; either way it is above 8 |
| Setup.SmallPatternsFit | Game_Of_Life/game_of_life.py:25-37 | for every accepted side N, the glider and the block fit at (1, 1) on the empty N×N grid the start-up builds |
| Setup.GunNeedsWideGrid | Game_Of_Life/game_of_life.py:25-40 | sides 9 to 71 are accepted, yet on the empty grid of such a side the gun does not fit at (8, 34) |

## Left out

- Command-line parsing, the matplotlib display and animation (`imshow`, `FuncAnimation`, `img.set_data`), and the `.mov` export (lines 16-23, 28-30, 44-53, 112) are I/O. `Setup.GridSize` takes the size argument already parsed: `None` stands for an absent or empty argument, and text that is not a number is not modelled.
- `random_grid` (lines 55-58) draws cells at random from `[ON, OFF]`. Randomness is not modelled; its cells are ON or OFF, which is what `TwoValued` describes.
- The float division on line 102 is modelled as exact division truncated toward zero. Floating-point rounding, which could matter only for huge cell values, is not modelled.
- Cells are modelled as integers. The source's grids hold floats (from `np.zeros`) or integers (from `random_grid`); both hold only 0 and 255.
- Life.Update: requires the grid to be N×N, because the source's only caller passes the grid's own side. A call with a different N is not modelled.
- Patterns.Paste: requires the window to lie inside the grid. numpy's behaviour on a window that does not fit (an error, or for a negative corner an index counted from the end) is not modelled.
- Patterns.FillGun: the source tests membership in a list of pairs; the model tests membership in the set of the same pairs, which gives the same answer.
- Other scripts in the repository (the spirograph, the circle drawer, the sine-wave writer, the logging demo) are not part of this model.
