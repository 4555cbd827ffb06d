/**
 * Square boards as sequences of rows, and the ray walk both Gomoku rule engines use to
 * decide a win: from a cell, count the same-coloured stones outward along one of four
 * axes. The brute-force reference (`LineThrough`) says directly that `len` consecutive
 * cells containing the given cell all hold the same colour; `AxisCountIffLine` proves
 * the two agree, overlines included.
 */
module Grid {
  import opened Common

  predicate IsSquare<T>(b: seq<seq<T>>, n: int) {
    |b| == n && forall i :: 0 <= i < |b| ==> |b[i]| == n
  }

  predicate InBounds(n: int, r: int, c: int) {
    0 <= r < n && 0 <= c < n
  }

  /** A step to one of the eight neighbours. */
  predicate IsStep(dr: int, dc: int) {
    -1 <= dr <= 1 && -1 <= dc <= 1 && (dr != 0 || dc != 0)
  }

  /** The four axes, in the order gomoku_game.py scans them. */
  const Axes: seq<(int, int)> := [(0, 1), (1, 0), (1, 1), (1, -1)]

  /** Coordinate reached from `x` after `k` steps of `d` (`k` may be negative). */
  function Along(x: int, d: int, k: int): int {
    if d == 1 then x + k else if d == -1 then x - k else x
  }

  /** Cell `(r, c)` is on the board and holds `p`. */
  predicate Holds<T(==)>(b: seq<seq<T>>, n: int, r: int, c: int, p: T)
    requires IsSquare(b, n)
  {
    InBounds(n, r, c) && b[r][c] == p
  }

  /** Steps left along `(dr, dc)` before `(r, c)` leaves the board. */
  function Room(n: int, r: int, c: int, dr: int, dc: int): int {
    if dr == 1 then n - r else if dr == -1 then r + 1 else if dc == 1 then n - c else c + 1
  }

  /** Number of consecutive cells holding `p`, starting at `(r, c)` and walking `(dr, dc)`. */
  function Ray<T(==)>(b: seq<seq<T>>, n: int, r: int, c: int, dr: int, dc: int, p: T): nat
    requires IsSquare(b, n) && IsStep(dr, dc)
    decreases Room(n, r, c, dr, dc)
  {
    if Holds(b, n, r, c, p) then 1 + Ray(b, n, r + dr, c + dc, dr, dc, p) else 0
  }

  /** Every offset in `lo .. lo + len - 1` along `(dr, dc)` from `(r, c)` holds `p`. */
  predicate Segment<T(==)>(b: seq<seq<T>>, n: int, r: int, c: int, dr: int, dc: int, p: T, lo: int, len: int)
    requires IsSquare(b, n)
  {
    forall t :: lo <= t < lo + len ==> Holds(b, n, Along(r, dr, t), Along(c, dc, t), p)
  }

  /** The ray covers exactly the run: its cells hold `p`, and the next one does not. */
  lemma {:induction false} RayCells<T>(b: seq<seq<T>>, n: int, r: int, c: int, dr: int, dc: int, p: T)
    requires IsSquare(b, n) && IsStep(dr, dc)
    ensures Segment(b, n, r, c, dr, dc, p, 0, Ray(b, n, r, c, dr, dc, p))
    ensures var k := Ray(b, n, r, c, dr, dc, p);
      !Holds(b, n, Along(r, dr, k), Along(c, dc, k), p)
  {
    forall t | 0 <= t < Ray(b, n, r, c, dr, dc, p) ensures Holds(b, n, Along(r, dr, t), Along(c, dc, t), p) {
      RayCell(b, n, r, c, dr, dc, p, t);
    }
    RayEnd(b, n, r, c, dr, dc, p);
  }

  /** The cell just past the ray does not hold `p`. */
  lemma {:induction false} RayEnd<T>(b: seq<seq<T>>, n: int, r: int, c: int, dr: int, dc: int, p: T)
    requires IsSquare(b, n) && IsStep(dr, dc)
    ensures var k := Ray(b, n, r, c, dr, dc, p);
      !Holds(b, n, Along(r, dr, k), Along(c, dc, k), p)
    decreases Room(n, r, c, dr, dc)
  {
    if Holds(b, n, r, c, p) {
      RayEnd(b, n, r + dr, c + dc, dr, dc, p);
      var k := Ray(b, n, r, c, dr, dc, p);
      AlongShift(r, dr, k);
      AlongShift(c, dc, k);
    }
  }

  /** Each of the first `Ray` cells from `(r, c)` holds `p`. */
  lemma {:induction false} RayCell<T>(b: seq<seq<T>>, n: int, r: int, c: int, dr: int, dc: int, p: T, t: int)
    requires IsSquare(b, n) && IsStep(dr, dc) && 0 <= t < Ray(b, n, r, c, dr, dc, p)
    ensures Holds(b, n, Along(r, dr, t), Along(c, dc, t), p)
    decreases t
  {
    if t > 0 {
      RayCell(b, n, r + dr, c + dc, dr, dc, p, t - 1);
      AlongShift(r, dr, t);
      AlongShift(c, dc, t);
    }
  }

  /** A run of `m` cells holding `p` from `(r, c)` makes the ray at least `m` long. */
  lemma RayAtLeast<T>(b: seq<seq<T>>, n: int, r: int, c: int, dr: int, dc: int, p: T, m: nat)
    requires IsSquare(b, n) && IsStep(dr, dc)
    requires Segment(b, n, r, c, dr, dc, p, 0, m)
    ensures Ray(b, n, r, c, dr, dc, p) >= m
  {
    RayCells(b, n, r, c, dr, dc, p);
  }

  /** Stones counted through `(r, c)` on the axis `(dr, dc)`: the cell itself plus both rays. */
  function AxisCount<T(==)>(b: seq<seq<T>>, n: int, r: int, c: int, dr: int, dc: int): nat
    requires IsSquare(b, n) && IsStep(dr, dc) && InBounds(n, r, c)
  {
    1 + Ray(b, n, r + dr, c + dc, dr, dc, b[r][c]) + Ray(b, n, r - dr, c - dc, -dr, -dc, b[r][c])
  }

  /** Brute-force reference: `len` consecutive cells on the axis, one of them `(r, c)`, all hold `p`. */
  predicate LineThrough<T(==)>(b: seq<seq<T>>, n: int, r: int, c: int, dr: int, dc: int, p: T, len: int)
    requires IsSquare(b, n)
  {
    exists lo :: -len < lo <= 0 && Segment(b, n, r, c, dr, dc, p, lo, len)
  }

  /** Offsets seen from the neighbour one step forward or one step back. */
  lemma AlongShift(x: int, d: int, t: int)
    requires -1 <= d <= 1
    ensures Along(x, d, t) == Along(x + d, d, t - 1)
    ensures Along(x, d, t) == Along(x - d, -d, -t - 1)
  {
  }

  /** Two rays long enough give a uniform window of `len` cells through `(r, c)`. */
  lemma RaysGiveLine<T>(b: seq<seq<T>>, n: int, r: int, c: int, dr: int, dc: int, len: int)
    requires IsSquare(b, n) && IsStep(dr, dc) && InBounds(n, r, c) && len >= 1
    requires AxisCount(b, n, r, c, dr, dc) >= len
    ensures LineThrough(b, n, r, c, dr, dc, b[r][c], len)
  {
    var p := b[r][c];
    var r1, c1, r2, c2 := r + dr, c + dc, r - dr, c - dc;
    var g := Ray(b, n, r2, c2, -dr, -dc, p);
    var lo := -(if g <= len - 1 then g else len - 1);
    forall t | lo <= t < lo + len ensures Holds(b, n, Along(r, dr, t), Along(c, dc, t), p) {
      WindowCell(b, n, r, c, dr, dc, t);
    }
    assert Segment(b, n, r, c, dr, dc, p, lo, len);
  }

  /** A cell `t` steps from `(r, c)`, within the runs of same-coloured cells ahead and behind, holds the colour of `(r, c)`. */
  lemma WindowCell<T>(b: seq<seq<T>>, n: int, r: int, c: int, dr: int, dc: int, t: int)
    requires IsSquare(b, n) && IsStep(dr, dc) && InBounds(n, r, c)
    requires -t <= Ray(b, n, r - dr, c - dc, -dr, -dc, b[r][c]) && t <= Ray(b, n, r + dr, c + dc, dr, dc, b[r][c])
    ensures Holds(b, n, Along(r, dr, t), Along(c, dc, t), b[r][c])
  {
    if t > 0 {
      CellAhead(b, n, r, c, dr, dc, t);
    } else if t < 0 {
      CellBehind(b, n, r, c, dr, dc, t);
    } else {
      assert Along(r, dr, 0) == r && Along(c, dc, 0) == c;
    }
  }

  lemma CellAhead<T>(b: seq<seq<T>>, n: int, r: int, c: int, dr: int, dc: int, t: int)
    requires IsSquare(b, n) && IsStep(dr, dc) && InBounds(n, r, c)
    requires 0 < t <= Ray(b, n, r + dr, c + dc, dr, dc, b[r][c])
    ensures Holds(b, n, Along(r, dr, t), Along(c, dc, t), b[r][c])
  {
    RayCell(b, n, r + dr, c + dc, dr, dc, b[r][c], t - 1);
    assert Along(r, dr, t) == Along(r + dr, dr, t - 1);
    assert Along(c, dc, t) == Along(c + dc, dc, t - 1);
  }

  lemma CellBehind<T>(b: seq<seq<T>>, n: int, r: int, c: int, dr: int, dc: int, t: int)
    requires IsSquare(b, n) && IsStep(dr, dc) && InBounds(n, r, c)
    requires 0 < -t <= Ray(b, n, r - dr, c - dc, -dr, -dc, b[r][c])
    ensures Holds(b, n, Along(r, dr, t), Along(c, dc, t), b[r][c])
  {
    var u, mr, mc := -t - 1, -dr, -dc;
    RayCell(b, n, r - dr, c - dc, mr, mc, b[r][c], u);
    assert Along(r, dr, t) == Along(r - dr, mr, u);
    assert Along(c, dc, t) == Along(c - dc, mc, u);
  }

  /** The part of a window ahead of `(r, c)` is a run starting at the next cell. */
  lemma SegmentAhead<T>(b: seq<seq<T>>, n: int, r: int, c: int, dr: int, dc: int, p: T, lo: int, len: int)
    requires IsSquare(b, n) && IsStep(dr, dc) && lo <= 0
    requires Segment(b, n, r, c, dr, dc, p, lo, len)
    ensures Segment(b, n, r + dr, c + dc, dr, dc, p, 0, lo + len - 1)
  {
    var r1, c1 := r + dr, c + dc;
    forall t | 0 <= t < lo + len - 1 ensures Holds(b, n, Along(r1, dr, t), Along(c1, dc, t), p) {
      AlongShift(r, dr, t + 1);
      AlongShift(c, dc, t + 1);
      assert Holds(b, n, Along(r, dr, t + 1), Along(c, dc, t + 1), p);
    }
  }

  /** The part of a window behind `(r, c)` is a run starting at the previous cell, walking back. */
  lemma SegmentBehind<T>(b: seq<seq<T>>, n: int, r: int, c: int, dr: int, dc: int, p: T, lo: int, len: int)
    requires IsSquare(b, n) && IsStep(dr, dc) && -len < lo <= 0
    requires Segment(b, n, r, c, dr, dc, p, lo, len)
    ensures Segment(b, n, r - dr, c - dc, -dr, -dc, p, 0, -lo)
  {
    var r2, c2, mr, mc := r - dr, c - dc, -dr, -dc;
    forall t | 0 <= t < -lo ensures Holds(b, n, Along(r2, mr, t), Along(c2, mc, t), p) {
      AlongShift(r, dr, -t - 1);
      AlongShift(c, dc, -t - 1);
      assert Holds(b, n, Along(r, dr, -t - 1), Along(c, dc, -t - 1), p);
    }
  }

  /** A uniform window of `len` cells through `(r, c)` makes the two rays long enough. */
  lemma LineGivesRays<T>(b: seq<seq<T>>, n: int, r: int, c: int, dr: int, dc: int, len: int, lo: int)
    requires IsSquare(b, n) && IsStep(dr, dc) && InBounds(n, r, c) && len >= 1
    requires -len < lo <= 0 && Segment(b, n, r, c, dr, dc, b[r][c], lo, len)
    ensures AxisCount(b, n, r, c, dr, dc) >= len
  {
    var p := b[r][c];
    SegmentAhead(b, n, r, c, dr, dc, p, lo, len);
    RayAtLeast(b, n, r + dr, c + dc, dr, dc, p, lo + len - 1);
    SegmentBehind(b, n, r, c, dr, dc, p, lo, len);
    RayAtLeast(b, n, r - dr, c - dc, -dr, -dc, p, -lo);
  }

  /** The ray count reaches `len` exactly when some window of `len` cells through the cell is uniform. */
  lemma AxisCountIffLine<T>(b: seq<seq<T>>, n: int, r: int, c: int, dr: int, dc: int, len: int)
    requires IsSquare(b, n) && IsStep(dr, dc) && InBounds(n, r, c) && len >= 1
    ensures AxisCount(b, n, r, c, dr, dc) >= len <==> LineThrough(b, n, r, c, dr, dc, b[r][c], len)
  {
    if AxisCount(b, n, r, c, dr, dc) >= len {
      RaysGiveLine(b, n, r, c, dr, dc, len);
    }
    if lo :| -len < lo <= 0 && Segment(b, n, r, c, dr, dc, b[r][c], lo, len) {
      LineGivesRays(b, n, r, c, dr, dc, len, lo);
    }
  }

  /** Two square boards of the same size with the same cells are equal. */
  lemma SameCells<T>(a: seq<seq<T>>, b: seq<seq<T>>, n: nat)
    requires IsSquare(a, n) && IsSquare(b, n)
    requires forall i, j :: 0 <= i < n && 0 <= j < n ==> a[i][j] == b[i][j]
    ensures a == b
  {
    forall i | 0 <= i < n
      ensures a[i] == b[i]
    {
      assert forall j :: 0 <= j < n ==> a[i][j] == b[i][j];
    }
  }

  /** Some axis through `(r, c)` counts at least `len` stones of the cell's colour. */
  predicate WinsThrough<T(==)>(b: seq<seq<T>>, n: int, r: int, c: int, len: int)
    requires IsSquare(b, n) && InBounds(n, r, c)
  {
    exists i :: 0 <= i < |Axes| && AxisCount(b, n, r, c, Axes[i].0, Axes[i].1) >= len
  }

  /** Reference: a full scan finds `len` in a row of the cell's colour through `(r, c)`. */
  predicate RowOfThrough<T(==)>(b: seq<seq<T>>, n: int, r: int, c: int, len: int)
    requires IsSquare(b, n) && InBounds(n, r, c)
  {
    exists i :: 0 <= i < |Axes| && LineThrough(b, n, r, c, Axes[i].0, Axes[i].1, b[r][c], len)
  }

  /** The ray-counting win test agrees with the brute-force scan on every board. */
  lemma WinsThroughIffRow<T>(b: seq<seq<T>>, n: int, r: int, c: int, len: int)
    requires IsSquare(b, n) && InBounds(n, r, c) && len >= 1
    ensures WinsThrough(b, n, r, c, len) <==> RowOfThrough(b, n, r, c, len)
  {
    forall i | 0 <= i < |Axes|
      ensures AxisCount(b, n, r, c, Axes[i].0, Axes[i].1) >= len
          <==> LineThrough(b, n, r, c, Axes[i].0, Axes[i].1, b[r][c], len)
    {
      AxisCountIffLine(b, n, r, c, Axes[i].0, Axes[i].1, len);
    }
  }

  /** The cells `(i, j)` of rows `0 .. row - 1` that hold `e`, in row-major order. */
  function MatchingRows<T(==)>(b: seq<seq<T>>, n: nat, e: T, row: nat): seq<Pos>
    requires IsSquare(b, n) && row <= n
  {
    if row == 0 then [] else MatchingRows(b, n, e, row - 1) + MatchingInRow(b, n, e, row - 1, n)
  }

  /** The cells `(row, j)` with `j < col` that hold `e`, left to right. */
  function MatchingInRow<T(==)>(b: seq<seq<T>>, n: nat, e: T, row: nat, col: nat): seq<Pos>
    requires IsSquare(b, n) && row < n && col <= n
  {
    if col == 0 then []
    else MatchingInRow(b, n, e, row, col - 1) + (if b[row][col - 1] == e then [(row, col - 1)] else [])
  }

  /** Row-major order on positions. */
  predicate RowMajorBefore(a: Pos, b: Pos) {
    a.0 < b.0 || (a.0 == b.0 && a.1 < b.1)
  }

  /** A list of positions strictly increasing in row-major order (hence without duplicates). */
  predicate RowMajorSorted(s: seq<Pos>) {
    forall i, j :: 0 <= i < j < |s| ==> RowMajorBefore(s[i], s[j])
  }

  lemma {:induction false} MatchingInRowSpec<T>(b: seq<seq<T>>, n: nat, e: T, row: nat, col: nat)
    requires IsSquare(b, n) && row < n && col <= n
    ensures forall x :: x in MatchingInRow(b, n, e, row, col) <==>
      x.0 == row && 0 <= x.1 < col && b[x.0][x.1] == e
    ensures RowMajorSorted(MatchingInRow(b, n, e, row, col))
  {
    if col > 0 {
      MatchingInRowSpec(b, n, e, row, col - 1);
      MatchingInRowNextCol(b, n, e, row, col - 1);
    }
  }

  /** Scanning one more cell of the row keeps the scan exact and sorted. */
  lemma MatchingInRowNextCol<T>(b: seq<seq<T>>, n: nat, e: T, row: nat, col: nat)
    requires IsSquare(b, n) && row < n && col < n
    requires forall x :: x in MatchingInRow(b, n, e, row, col) <==>
      x.0 == row && 0 <= x.1 < col && b[x.0][x.1] == e
    requires RowMajorSorted(MatchingInRow(b, n, e, row, col))
    ensures forall x :: x in MatchingInRow(b, n, e, row, col + 1) <==>
      x.0 == row && 0 <= x.1 < col + 1 && b[x.0][x.1] == e
    ensures RowMajorSorted(MatchingInRow(b, n, e, row, col + 1))
  {
    var s1 := MatchingInRow(b, n, e, row, col);
    var s2: seq<Pos> := if b[row][col] == e then [(row, col)] else [];
    assert MatchingInRow(b, n, e, row, col + 1) == s1 + s2;
    SortedConcat(s1, s2);
  }

  /** Two row-major sorted lists, each entry of the first before each of the second, concatenate to a sorted list. */
  lemma SortedConcat(s1: seq<Pos>, s2: seq<Pos>)
    requires RowMajorSorted(s1) && RowMajorSorted(s2)
    requires forall x, y :: x in s1 && y in s2 ==> RowMajorBefore(x, y)
    ensures RowMajorSorted(s1 + s2)
  {
    forall i, j | 0 <= i < j < |s1 + s2| ensures RowMajorBefore((s1 + s2)[i], (s1 + s2)[j]) {
      if j >= |s1| && i < |s1| {
        assert (s1 + s2)[i] == s1[i] && s1[i] in s1;
        assert (s1 + s2)[j] == s2[j - |s1|] && s2[j - |s1|] in s2;
      }
    }
  }

  /** A sorted list of cells above row `r` followed by a sorted list of cells of row `r` is sorted. */
  lemma SortedAboveRow(s1: seq<Pos>, s2: seq<Pos>, r: int)
    requires RowMajorSorted(s1) && RowMajorSorted(s2)
    requires forall x :: x in s1 ==> x.0 < r
    requires forall y :: y in s2 ==> y.0 == r
    ensures RowMajorSorted(s1 + s2)
  {
    SortedConcat(s1, s2);
  }

  /** The scan lists exactly the cells holding `e`, each once, in row-major order. */
  lemma MatchingRowsSpec<T>(b: seq<seq<T>>, n: nat, e: T, row: nat)
    requires IsSquare(b, n) && row <= n
    ensures forall x :: x in MatchingRows(b, n, e, row) <==>
      0 <= x.0 < row && 0 <= x.1 < n && b[x.0][x.1] == e
    ensures RowMajorSorted(MatchingRows(b, n, e, row))
  {
    MatchingRowsMembers(b, n, e, row);
    MatchingRowsSorted(b, n, e, row);
  }

  lemma {:induction false} MatchingRowsMembers<T>(b: seq<seq<T>>, n: nat, e: T, row: nat)
    requires IsSquare(b, n) && row <= n
    ensures forall x :: x in MatchingRows(b, n, e, row) <==>
      0 <= x.0 < row && 0 <= x.1 < n && b[x.0][x.1] == e
  {
    if row > 0 {
      MatchingRowsMembers(b, n, e, row - 1);
      MatchingInRowSpec(b, n, e, row - 1, n);
      var s1, s2 := MatchingRows(b, n, e, row - 1), MatchingInRow(b, n, e, row - 1, n);
      assert MatchingRows(b, n, e, row) == s1 + s2;
      forall x: Pos ensures x in s1 + s2 <==> 0 <= x.0 < row && 0 <= x.1 < n && b[x.0][x.1] == e {
        assert x in s1 + s2 <==> x in s1 || x in s2;
      }
    }
  }

  lemma {:induction false} MatchingRowsSorted<T>(b: seq<seq<T>>, n: nat, e: T, row: nat)
    requires IsSquare(b, n) && row <= n
    ensures RowMajorSorted(MatchingRows(b, n, e, row))
  {
    if row > 0 {
      MatchingRowsSorted(b, n, e, row - 1);
      MatchingRowsNextRow(b, n, e, row - 1);
    }
  }

  /** Appending the scan of row `row` keeps the scan of the rows above it sorted. */
  lemma MatchingRowsNextRow<T>(b: seq<seq<T>>, n: nat, e: T, row: nat)
    requires IsSquare(b, n) && row < n
    requires RowMajorSorted(MatchingRows(b, n, e, row))
    ensures RowMajorSorted(MatchingRows(b, n, e, row + 1))
  {
    var s1, s2 := MatchingRows(b, n, e, row), MatchingInRow(b, n, e, row, n);
    MatchingRowsMembers(b, n, e, row);
    MatchingInRowSpec(b, n, e, row, n);
    SortedAboveRow(s1, s2, row);
  }
}
