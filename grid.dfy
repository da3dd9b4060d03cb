/** Grids of the Sudoku search and the predicates the search is judged by: an N-by-N
    matrix of small integers, 0 meaning an empty cell, with its row, column and box
    conflicts, its goal and dead states, and how filling one empty cell changes them. */
module Grids {

  /** A grid, row by row: `g[r][c]` is 0 when the cell is empty, otherwise a placed digit. */
  type Grid = seq<seq<int>>

  /** At least one row, and every row as long as the grid is tall. */
  predicate Square(g: Grid) {
    |g| >= 1 && forall r :: 0 <= r < |g| ==> |g[r]| == |g|
  }

  /** Every cell lies in 0..hi. */
  predicate CellsIn(g: Grid, hi: int) {
    forall r, c :: 0 <= r < |g| && 0 <= c < |g[r]| ==> 0 <= g[r][c] <= hi
  }

  /** What the conflict checks need to run without an index error: a square grid whose
      side is a multiple of 3 (so every box stays inside the grid) and whose cells can
      index a ten-slot seen-list. */
  predicate Boxable(g: Grid) {
    Square(g) && |g| % 3 == 0 && CellsIn(g, 9)
  }

  /** No cell is empty. */
  predicate Filled(g: Grid) {
    forall r, c :: 0 <= r < |g| && 0 <= c < |g[r]| ==> g[r][c] != 0
  }

  /** Two distinct cells of g hold the same nonzero digit. */
  predicate Clash(g: Grid, r1: int, c1: int, r2: int, c2: int) {
    0 <= r1 < |g| && 0 <= c1 < |g[r1]| && 0 <= r2 < |g| && 0 <= c2 < |g[r2]| &&
    (r1 != r2 || c1 != c2) && g[r1][c1] != 0 && g[r1][c1] == g[r2][c2]
  }

  predicate RowRepeats(g: Grid, r: int) {
    exists c1, c2 :: 0 <= c1 < |g| && 0 <= c2 < |g| && Clash(g, r, c1, r, c2)
  }

  predicate ColRepeats(g: Grid, c: int) {
    exists r1, r2 :: 0 <= r1 < |g| && 0 <= r2 < |g| && Clash(g, r1, c, r2, c)
  }

  /** Some row or some column holds the same nonzero digit twice. */
  predicate LineConflict(g: Grid) {
    (exists r :: 0 <= r < |g| && RowRepeats(g, r)) ||
    (exists c :: 0 <= c < |g| && ColRepeats(g, c))
  }

  /** Row b starts a box: b is one of 0, n/3, 2(n/3) and lies below n - 1, which is
      exactly what `range(0, n - 1, n // 3)` yields when n is a multiple of 3. For n = 3
      this leaves out row 2. */
  predicate BoxRowStart(n: int, b: int) {
    (b == 0 || b == n / 3 || b == 2 * (n / 3)) && b < n - 1
  }

  /** Column cs starts a box: a multiple of 3 below n. */
  predicate BoxColStart(n: int, cs: int) {
    0 <= cs < n && cs % 3 == 0
  }

  /** Cell (r, c) lies in the box of n/3 rows and 3 columns whose corner is (b, cs). */
  predicate InBox(n: int, b: int, cs: int, r: int, c: int) {
    b <= r < b + n / 3 && cs <= c < cs + 3
  }

  ghost predicate BoxRepeats(g: Grid, b: int, cs: int) {
    exists r1, c1, r2, c2 ::
      InBox(|g|, b, cs, r1, c1) && InBox(|g|, b, cs, r2, c2) && Clash(g, r1, c1, r2, c2)
  }

  /** Some box holds the same nonzero digit twice. */
  ghost predicate BoxConflict(g: Grid) {
    exists b, cs :: BoxRowStart(|g|, b) && BoxColStart(|g|, cs) && BoxRepeats(g, b, cs)
  }

  /** A solved grid: filled, and no row, column or box repeats a digit. */
  ghost predicate IsGoal(g: Grid) {
    Filled(g) && !LineConflict(g) && !BoxConflict(g)
  }

  /** A dead grid: its placed digits already conflict, whether or not it is filled. */
  ghost predicate IsDead(g: Grid) {
    BoxConflict(g) || LineConflict(g)
  }

  /** The grid g with cell (r, c) set to a. */
  function SetCell(g: Grid, r: int, c: int, a: int): (h: Grid)
    requires 0 <= r < |g| && 0 <= c < |g[r]|
    ensures |h| == |g| && forall i :: 0 <= i < |g| ==> |h[i]| == |g[i]|
    ensures h[r][c] == a
    ensures forall i, j :: 0 <= i < |g| && 0 <= j < |g[i]| && (i != r || j != c) ==> h[i][j] == g[i][j]
  {
    g[r := g[r][c := a]]
  }

  /** h has g's shape and keeps every digit g has placed. */
  predicate Extends(g: Grid, h: Grid) {
    |h| == |g| && (forall r :: 0 <= r < |g| ==> |h[r]| == |g[r]|) &&
    forall r, c :: 0 <= r < |g| && 0 <= c < |g[r]| && g[r][c] != 0 ==> h[r][c] == g[r][c]
  }

  /** (r, c) is the first empty cell of g in row-major order. */
  predicate FirstZeroAt(g: Grid, r: int, c: int) {
    0 <= r < |g| && 0 <= c < |g[r]| && g[r][c] == 0 &&
    forall i, j :: 0 <= i < |g| && 0 <= j < |g[i]| && (i < r || (i == r && j < c)) ==> g[i][j] != 0
  }

  function RowZeros(row: seq<int>): nat {
    if row == [] then 0 else (if row[0] == 0 then 1 else 0) + RowZeros(row[1..])
  }

  /** The number of empty cells of g. */
  function Zeros(g: Grid): nat {
    if g == [] then 0 else RowZeros(g[0]) + Zeros(g[1..])
  }

  lemma {:induction false} RowZerosZeroIffFull(row: seq<int>)
    ensures RowZeros(row) == 0 <==> forall c :: 0 <= c < |row| ==> row[c] != 0
  {
    if row != [] {
      RowZerosZeroIffFull(row[1..]);
      assert forall c :: 1 <= c < |row| ==> row[c] == row[1..][c - 1];
    }
  }

  /** A grid has no empty cell exactly when it counts no zeros. */
  lemma {:induction false} ZerosZeroIffFilled(g: Grid)
    ensures Zeros(g) == 0 <==> Filled(g)
  {
    if g != [] {
      ZerosZeroIffFilled(g[1..]);
      RowZerosZeroIffFull(g[0]);
      assert forall r :: 1 <= r < |g| ==> g[r] == g[1..][r - 1];
    }
  }

  lemma {:induction false} RowZerosAfterSet(row: seq<int>, c: int, a: int)
    requires 0 <= c < |row| && row[c] == 0 && a != 0
    ensures RowZeros(row[c := a]) + 1 == RowZeros(row)
  {
    if c > 0 {
      RowZerosAfterSet(row[1..], c - 1, a);
      assert row[c := a][1..] == row[1..][c - 1 := a];
    } else {
      assert row[c := a][1..] == row[1..];
    }
  }

  /** Placing a digit into an empty cell leaves one empty cell fewer. */
  lemma {:induction false} ZerosAfterSetCell(g: Grid, r: int, c: int, a: int)
    requires 0 <= r < |g| && 0 <= c < |g[r]| && g[r][c] == 0 && a != 0
    ensures Zeros(SetCell(g, r, c, a)) + 1 == Zeros(g)
  {
    var h := SetCell(g, r, c, a);
    if r > 0 {
      ZerosAfterSetCell(g[1..], r - 1, c, a);
      assert h[1..] == SetCell(g[1..], r - 1, c, a);
    } else {
      RowZerosAfterSet(g[0], c, a);
      assert h[1..] == g[1..];
    }
  }

  /** A solved grid is never pruned, and a filled grid that is not pruned is solved. */
  lemma GoalIffFilledAndAlive(g: Grid)
    ensures IsGoal(g) <==> Filled(g) && !IsDead(g)
  {
  }

  /** Filling empty cells never removes a conflict: whatever extends a dead grid is dead. */
  lemma DeadPersists(g: Grid, h: Grid)
    requires Extends(g, h) && IsDead(g)
    ensures IsDead(h)
  {
    if BoxConflict(g) {
      var b, cs :| BoxRowStart(|g|, b) && BoxColStart(|g|, cs) && BoxRepeats(g, b, cs);
      var r1, c1, r2, c2 :|
        InBox(|g|, b, cs, r1, c1) && InBox(|g|, b, cs, r2, c2) && Clash(g, r1, c1, r2, c2);
      assert Clash(h, r1, c1, r2, c2);
      assert BoxRepeats(h, b, cs);
    } else if exists r :: 0 <= r < |g| && RowRepeats(g, r) {
      var r :| 0 <= r < |g| && RowRepeats(g, r);
      var c1, c2 :| 0 <= c1 < |g| && 0 <= c2 < |g| && Clash(g, r, c1, r, c2);
      assert Clash(h, r, c1, r, c2);
      assert RowRepeats(h, r);
    } else {
      var c :| 0 <= c < |g| && ColRepeats(g, c);
      var r1, r2 :| 0 <= r1 < |g| && 0 <= r2 < |g| && Clash(g, r1, c, r2, c);
      assert Clash(h, r1, c, r2, c);
      assert ColRepeats(h, c);
    }
  }

  /** Pruning is sound: no completion of a dead grid is a solution. */
  lemma DeadNeverCompletes(g: Grid, h: Grid)
    requires Extends(g, h) && IsDead(g)
    ensures !IsGoal(h)
  {
    DeadPersists(g, h);
  }

  /** On a 3-by-3 grid the boxes are single rows (rows 0 and 1; row 2 is never
      box-checked), so a box conflict is always a row conflict as well: pruning and the
      goal test come down to the rows and columns, and skipping row 2 changes nothing. */
  lemma ThreeByThreeBoxesAreRows(g: Grid)
    requires Square(g) && |g| == 3
    ensures IsDead(g) <==> LineConflict(g)
    ensures IsGoal(g) <==> Filled(g) && !LineConflict(g)
  {
    if BoxConflict(g) {
      var b, cs :| BoxRowStart(3, b) && BoxColStart(3, cs) && BoxRepeats(g, b, cs);
      var r1, c1, r2, c2 :|
        InBox(3, b, cs, r1, c1) && InBox(3, b, cs, r2, c2) && Clash(g, r1, c1, r2, c2);
      assert r1 == b && r2 == b && b < 2;
      assert RowRepeats(g, b);
    }
  }

  /** A grid has at most one first empty cell. */
  lemma FirstZeroUnique(g: Grid, r1: int, c1: int, r2: int, c2: int)
    requires FirstZeroAt(g, r1, c1) && FirstZeroAt(g, r2, c2)
    ensures r1 == r2 && c1 == c2
  {
  }
}
