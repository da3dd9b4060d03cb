/** The search problem over Sudoku grids: the conflict checks, written as the loops over
    a ten-slot seen-list that `sudoku.py` runs, each proved equal to its predicate in
    Grids; the goal and prune tests built from them; and successor generation. */
module Problem {
  import opened Wrappers
  import opened Grids

  /** Whether no cell of the grid is empty; stops at the first row holding a 0. */
  method IsFilled(g: Grid) returns (filled: bool)
    ensures filled <==> Filled(g)
  {
    var r := 0;
    while r < |g|
      invariant 0 <= r <= |g|
      invariant forall i, j :: 0 <= i < r && 0 <= j < |g[i]| ==> g[i][j] != 0
    {
      if 0 in g[r] {
        return false;
      }
      r := r + 1;
    }
    return true;
  }

  /** Whether some row or column repeats a nonzero digit: every row and then every
      column is scanned with a fresh seen-list, returning on the first repeat. Zeros are
      never marked as seen, so they never count as a repeat. */
  method CheckRcs(g: Grid) returns (conflict: bool)
    requires Square(g) && CellsIn(g, 9)
    ensures conflict <==> LineConflict(g)
  {
    var n := |g|;
    var r := 0;
    while r < n
      invariant 0 <= r <= n
      invariant forall i :: 0 <= i < r ==> !RowRepeats(g, i)
    {
      var seen := new bool[10](_ => false);
      var c := 0;
      while c < n
        invariant 0 <= c <= n
        invariant forall d :: 0 <= d < 10 ==>
          (seen[d] <==> (d != 0 && exists j :: 0 <= j < c && g[r][j] == d))
        invariant forall j1, j2 :: 0 <= j1 < c && 0 <= j2 < c ==> !Clash(g, r, j1, r, j2)
      {
        var v := g[r][c];
        if seen[v] {
          var j :| 0 <= j < c && g[r][j] == v;
          assert Clash(g, r, j, r, c) && RowRepeats(g, r);
          return true;
        }
        if v != 0 {
          seen[v] := true;
        }
        c := c + 1;
      }
      r := r + 1;
    }
    var c := 0;
    while c < n
      invariant 0 <= c <= n
      invariant forall j :: 0 <= j < c ==> !ColRepeats(g, j)
    {
      var seen := new bool[10](_ => false);
      r := 0;
      while r < n
        invariant 0 <= r <= n
        invariant forall d :: 0 <= d < 10 ==>
          (seen[d] <==> (d != 0 && exists i :: 0 <= i < r && g[i][c] == d))
        invariant forall i1, i2 :: 0 <= i1 < r && 0 <= i2 < r ==> !Clash(g, i1, c, i2, c)
      {
        var v := g[r][c];
        if seen[v] {
          var i :| 0 <= i < r && g[i][c] == v;
          assert Clash(g, i, c, r, c) && ColRepeats(g, c);
          return true;
        }
        if v != 0 {
          seen[v] := true;
        }
        r := r + 1;
      }
      c := c + 1;
    }
    return false;
  }

  /** (i, j) is a cell of the box at (b, cs) that a row-major scan reaches before (r, c). */
  predicate VisitedBefore(b: int, cs: int, r: int, c: int, i: int, j: int) {
    b <= i && cs <= j < cs + 3 && (i < r || (i == r && j < c))
  }

  /** The seen-list of a box scan that has reached (r, c) marks exactly the nonzero
      digits of the cells visited so far. */
  ghost predicate SeenExactly(g: Grid, b: int, cs: int, r: int, c: int, seen: seq<bool>)
    requires |seen| == 10 && Square(g) && 0 <= b <= r <= |g| && 0 <= cs <= c <= cs + 3 <= |g|
    requires r < |g| || c == cs
  {
    forall d :: 0 <= d < 10 ==> (seen[d] <==> (d != 0 &&
      exists i, j :: VisitedBefore(b, cs, r, c, i, j) && g[i][j] == d))
  }

  /** No two cells a box scan has visited before (r, c) repeat a digit. */
  ghost predicate NoClashBefore(g: Grid, b: int, cs: int, r: int, c: int) {
    forall i1, j1, i2, j2 ::
      (VisitedBefore(b, cs, r, c, i1, j1) && VisitedBefore(b, cs, r, c, i2, j2)) ==>
      !Clash(g, i1, j1, i2, j2)
  }

  /** The three cells of row r that a box scan visits, marking their digits in seen;
      stops at the first digit already marked. */
  method ScanBoxRow(g: Grid, b: int, cs: int, r: int, seen: array<bool>) returns (repeat: bool)
    requires Boxable(g) && BoxRowStart(|g|, b) && BoxColStart(|g|, cs)
    requires b <= r < b + |g| / 3 && seen.Length == 10
    requires SeenExactly(g, b, cs, r, cs, seen[..]) && NoClashBefore(g, b, cs, r, cs)
    modifies seen
    ensures repeat ==> BoxRepeats(g, b, cs)
    ensures !repeat ==> SeenExactly(g, b, cs, r + 1, cs, seen[..])
    ensures !repeat ==> NoClashBefore(g, b, cs, r + 1, cs)
  {
    var c := cs;
    while c < cs + 3
      invariant cs <= c <= cs + 3
      invariant SeenExactly(g, b, cs, r, c, seen[..]) && NoClashBefore(g, b, cs, r, c)
    {
      var v := g[r][c];
      if seen[v] {
        var i, j :| VisitedBefore(b, cs, r, c, i, j) && g[i][j] == v;
        RepeatInBox(g, b, cs, i, j, r, c);
        return true;
      }
      if v != 0 {
        seen[v] := true;
      }
      c := c + 1;
    }
    assert forall i, j :: VisitedBefore(b, cs, r, c, i, j) <==> VisitedBefore(b, cs, r + 1, cs, i, j);
    return false;
  }

  /** The scan of one box of `check_boxes`: rows b to b + n/3 - 1, columns cs to cs + 2,
      in row-major order, with a fresh seen-list; stops at the first repeat. */
  method BoxHasRepeat(g: Grid, b: int, cs: int) returns (repeat: bool)
    requires Boxable(g) && BoxRowStart(|g|, b) && BoxColStart(|g|, cs)
    ensures repeat <==> BoxRepeats(g, b, cs)
  {
    var k := |g| / 3;
    var seen := new bool[10](_ => false);
    var r := b;
    while r < b + k
      invariant b <= r <= b + k
      invariant SeenExactly(g, b, cs, r, cs, seen[..]) && NoClashBefore(g, b, cs, r, cs)
    {
      repeat := ScanBoxRow(g, b, cs, r, seen);
      if repeat {
        return;
      }
      r := r + 1;
    }
    NoRepeatInScannedBox(g, b, cs);
    return false;
  }

  lemma RepeatInBox(g: Grid, b: int, cs: int, i: int, j: int, r: int, c: int)
    requires Boxable(g) && BoxRowStart(|g|, b) && BoxColStart(|g|, cs)
    requires b <= r < b + |g| / 3 && cs <= c < cs + 3
    requires VisitedBefore(b, cs, r, c, i, j) && g[r][c] != 0 && g[i][j] == g[r][c]
    ensures BoxRepeats(g, b, cs)
  {
    assert Clash(g, i, j, r, c);
    assert InBox(|g|, b, cs, i, j) && InBox(|g|, b, cs, r, c);
  }

  lemma NoRepeatInScannedBox(g: Grid, b: int, cs: int)
    requires Boxable(g) && BoxRowStart(|g|, b) && BoxColStart(|g|, cs)
    requires NoClashBefore(g, b, cs, b + |g| / 3, cs)
    ensures !BoxRepeats(g, b, cs)
  {
    var r := b + |g| / 3;
    forall i1, j1, i2, j2 | InBox(|g|, b, cs, i1, j1) && InBox(|g|, b, cs, i2, j2)
      ensures !Clash(g, i1, j1, i2, j2)
    {
      assert VisitedBefore(b, cs, r, cs, i1, j1) && VisitedBefore(b, cs, r, cs, i2, j2);
    }
  }

  /** Whether some box repeats a nonzero digit: column bands start at every multiple of
      3 below n and, within a band, boxes start at the rows of `range(0, n - 1, n // 3)`;
      returns on the first box with a repeat. */
  method CheckBoxes(g: Grid) returns (conflict: bool)
    requires Boxable(g)
    ensures conflict <==> BoxConflict(g)
  {
    var n := |g|;
    var k := n / 3;
    var cs := 0;
    while cs < n
      invariant 0 <= cs <= n && cs % 3 == 0
      invariant forall b, cs' :: BoxRowStart(n, b) && BoxColStart(n, cs') && cs' < cs ==>
        !BoxRepeats(g, b, cs')
    {
      var b := 0;
      while b < n - 1
        invariant b == 0 || b == k || b == 2 * k || b == 3 * k
        invariant forall b' :: BoxRowStart(n, b') && b' < b ==> !BoxRepeats(g, b', cs)
        decreases n - b
      {
        var repeat := BoxHasRepeat(g, b, cs);
        if repeat {
          return true;
        }
        b := b + k;
      }
      cs := cs + 3;
    }
    return false;
  }

  /** goal_test: filled, with no row, column or box conflict; the checks run in that
      order and stop at the first that fails. */
  method GoalTest(g: Grid) returns (goal: bool)
    requires Boxable(g)
    ensures goal <==> IsGoal(g)
  {
    var filled := IsFilled(g);
    if !filled {
      return false;
    }
    var lines := CheckRcs(g);
    if lines {
      return false;
    }
    var boxes := CheckBoxes(g);
    if boxes {
      return false;
    }
    return true;
  }

  /** prune: the grid can no longer be part of a solution because it has a box, row or
      column conflict (boxes are checked first). */
  method Prune(g: Grid) returns (dead: bool)
    requires Boxable(g)
    ensures dead <==> IsDead(g)
  {
    dead := CheckBoxes(g);
    if !dead {
      dead := CheckRcs(g);
    }
  }

  /** The actions available in a state: the digits 1 to N, N being the number of rows. */
  function Actions(state: Grid): (acts: seq<int>)
    ensures |acts| == |state|
    ensures forall d :: d in acts <==> 1 <= d <= |state|
    ensures forall i, j :: 0 <= i < j < |acts| ==> acts[i] < acts[j]
  {
    var acts := seq(|state|, i => i + 1);
    assert forall d :: 1 <= d <= |state| ==> d in acts by {
      forall d | 1 <= d <= |state| ensures d in acts {
        assert acts[d - 1] == d;
      }
    }
    acts
  }

  /** next is what `result` produces from g and digit a: no grid when g has no empty cell,
      otherwise g with its first empty cell in row-major order set to a. */
  ghost predicate IsResult(g: Grid, a: int, next: Option<Grid>) {
    (next.None? <==> Filled(g)) &&
    (next.Some? ==> exists r, c :: FirstZeroAt(g, r, c) && next.value == SetCell(g, r, c, a))
  }

  /** result: copies the grid (grids are values, so the copy is the whole grid) and sets
      the first empty cell, scanning row by row, to a; falls off the scan with no grid
      when there is no empty cell. */
  method Result(g: Grid, a: int) returns (next: Option<Grid>)
    requires Square(g)
    ensures IsResult(g, a, next)
  {
    var newState := g;
    var r := 0;
    while r < |newState|
      invariant 0 <= r <= |g| && newState == g
      invariant forall i, j :: 0 <= i < r && 0 <= j < |g[i]| ==> g[i][j] != 0
    {
      var c := 0;
      while c < |newState[0]|
        invariant 0 <= c <= |g|
        invariant forall j :: 0 <= j < c ==> g[r][j] != 0
      {
        if newState[r][c] == 0 {
          assert FirstZeroAt(g, r, c);
          newState := newState[r := newState[r][c := a]];
          return Some(newState);
        }
        c := c + 1;
      }
      r := r + 1;
    }
    return None;
  }

  /** result is a function of the grid and the digit: two results of the same step agree. */
  lemma ResultDeterministic(g: Grid, a: int, s1: Option<Grid>, s2: Option<Grid>)
    requires IsResult(g, a, s1) && IsResult(g, a, s2)
    ensures s1 == s2
  {
    if s1.Some? {
      var r1, c1 :| FirstZeroAt(g, r1, c1) && s1.value == SetCell(g, r1, c1, a);
      var r2, c2 :| FirstZeroAt(g, r2, c2) && s2.value == SetCell(g, r2, c2, a);
      FirstZeroUnique(g, r1, c1, r2, c2);
    }
  }

  /** A successor keeps the shape and every placed digit of its parent, has one empty
      cell fewer, and is dead whenever its parent is. */
  lemma ResultExtends(g: Grid, a: int, h: Grid)
    requires Square(g) && CellsIn(g, 9) && 1 <= a <= 9 && IsResult(g, a, Some(h))
    ensures Square(h) && CellsIn(h, 9) && |h| == |g|
    ensures Extends(g, h) && h != g
    ensures Zeros(h) + 1 == Zeros(g)
    ensures IsDead(g) ==> IsDead(h)
  {
    var r, c :| FirstZeroAt(g, r, c) && h == SetCell(g, r, c, a);
    ZerosAfterSetCell(g, r, c, a);
    assert h[r][c] != g[r][c];
    if IsDead(g) {
      DeadPersists(g, h);
    }
  }
}
