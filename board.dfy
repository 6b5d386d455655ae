/** The 8x8 grid of the Reversi engine and the operations on it that involve no
    rule of the game: coordinates, writing one cell, the starting layout and
    the stone counts.  Cells hold the integers the engine uses: 0 for an empty
    cell, 1 for a black stone, 2 for a white stone. */
module Board {

  const Size: int := 8
  const Empty: int := 0
  const Black: int := 1
  const White: int := 2

  /** The board as the engine holds it: a list of rows, read as g[y][x]. */
  type Grid = seq<seq<int>>

  /** A coordinate pair (x, y), column first, as the engine's flip lists hold them. */
  type Cell = (int, int)

  predicate OnBoard(x: int, y: int) {
    0 <= x < Size && 0 <= y < Size
  }

  /** Eight rows of eight cells. */
  predicate WellFormed(g: Grid) {
    |g| == Size && forall y :: 0 <= y < Size ==> |g[y]| == Size
  }

  predicate IsPlayer(p: int) {
    p == Black || p == White
  }

  /** Every cell holds 0, 1 or 2. */
  predicate CellsValid(g: Grid) {
    WellFormed(g) && forall y, x :: 0 <= y < Size && 0 <= x < Size ==> Empty <= g[y][x] <= White
  }

  /** The other player, written `3 - turn` in the engine. */
  function Opponent(p: int): (q: int)
    requires IsPlayer(p)
    ensures IsPlayer(q) && q != p
  {
    3 - p
  }

  /** The grid with cell c overwritten by v; every other cell is kept. */
  function Put(g: Grid, c: Cell, v: int): (r: Grid)
    requires WellFormed(g) && OnBoard(c.0, c.1)
    ensures WellFormed(r)
    ensures r[c.1][c.0] == v
    ensures forall y, x {:trigger r[y][x]} :: OnBoard(x, y) && (x, y) != c ==> r[y][x] == g[y][x]
    ensures CellsValid(g) && Empty <= v <= White ==> CellsValid(r)
  {
    g[c.1 := g[c.1][c.0 := v]]
  }

  /** A fresh grid of empty cells. */
  function EmptyGrid(): (g: Grid)
    ensures WellFormed(g)
    ensures forall y, x {:trigger g[y][x]} :: OnBoard(x, y) ==> g[y][x] == Empty
  {
    seq(Size, _ => seq(Size, _ => Empty))
  }

  /** What cell (x, y) holds when a game starts. */
  function StartStone(x: int, y: int): int {
    if (x == 3 && y == 3) || (x == 4 && y == 4) then White
    else if (x == 4 && y == 3) || (x == 3 && y == 4) then Black
    else Empty
  }

  /** The starting layout: an empty grid with the four centre stones placed. */
  function Initial(): (g: Grid)
    ensures CellsValid(g)
    ensures forall y, x {:trigger g[y][x]} :: OnBoard(x, y) ==> g[y][x] == StartStone(x, y)
  {
    var g := EmptyGrid();
    var g := Put(Put(g, (3, 3), White), (4, 4), White);
    Put(Put(g, (4, 3), Black), (3, 4), Black)
  }

  /** The number of cells of one row holding v. */
  function RowCount(row: seq<int>, v: int): (n: nat)
    ensures n <= |row|
  {
    if row == [] then 0 else (if row[0] == v then 1 else 0) + RowCount(row[1..], v)
  }

  /** The number of cells of the grid holding v, summed row by row. */
  function Count(g: Grid, v: int): nat {
    if g == [] then 0 else RowCount(g[0], v) + Count(g[1..], v)
  }

  function Indicator(b: bool): int {
    if b then 1 else 0
  }

  lemma {:induction false} RowCountPut(row: seq<int>, i: int, w: int, v: int)
    requires 0 <= i < |row|
    ensures RowCount(row[i := w], v) == RowCount(row, v) - Indicator(row[i] == v) + Indicator(w == v)
  {
    if i == 0 {
      assert row[i := w][1..] == row[1..];
    } else {
      assert row[i := w][1..] == row[1..][i - 1 := w];
      RowCountPut(row[1..], i - 1, w, v);
    }
  }

  lemma {:induction false} CountRowPut(g: Grid, y: int, r: seq<int>, v: int)
    requires 0 <= y < |g|
    ensures Count(g[y := r], v) == Count(g, v) - RowCount(g[y], v) + RowCount(r, v)
  {
    if y == 0 {
      assert g[y := r][1..] == g[1..];
    } else {
      assert g[y := r][1..] == g[1..][y - 1 := r];
      CountRowPut(g[1..], y - 1, r, v);
    }
  }

  /** Writing one cell moves that cell from the count of its old value to the
      count of its new one. */
  lemma CountPut(g: Grid, c: Cell, w: int, v: int)
    requires WellFormed(g) && OnBoard(c.0, c.1)
    ensures Count(Put(g, c, w), v) == Count(g, v) - Indicator(g[c.1][c.0] == v) + Indicator(w == v)
  {
    RowCountPut(g[c.1], c.0, w, v);
    CountRowPut(g, c.1, g[c.1][c.0 := w], v);
  }

  lemma {:induction false} RowTotal(row: seq<int>)
    requires forall x :: 0 <= x < |row| ==> Empty <= row[x] <= White
    ensures RowCount(row, Empty) + RowCount(row, Black) + RowCount(row, White) == |row|
  {
    if row != [] {
      RowTotal(row[1..]);
    }
  }

  lemma {:induction false} RowsTotal(g: Grid)
    requires forall y :: 0 <= y < |g| ==> |g[y]| == Size
    requires forall y, x :: 0 <= y < |g| && 0 <= x < Size ==> Empty <= g[y][x] <= White
    ensures Count(g, Empty) + Count(g, Black) + Count(g, White) == Size * |g|
  {
    if g != [] {
      RowTotal(g[0]);
      RowsTotal(g[1..]);
    }
  }

  /** Every one of the 64 cells is counted exactly once among empty, black and white. */
  lemma CountTotal(g: Grid)
    requires CellsValid(g)
    ensures Count(g, Empty) + Count(g, Black) + Count(g, White) == Size * Size
  {
    RowsTotal(g);
  }

  lemma {:induction false} RowCountZero(row: seq<int>, v: int, x: int)
    requires RowCount(row, v) == 0 && 0 <= x < |row|
    ensures row[x] != v
  {
    if x > 0 {
      RowCountZero(row[1..], v, x - 1);
    }
  }

  lemma {:induction false} CountZeroRows(g: Grid, v: int, x: int, y: int)
    requires Count(g, v) == 0 && 0 <= y < |g| && 0 <= x < |g[y]|
    ensures g[y][x] != v
  {
    if y == 0 {
      RowCountZero(g[0], v, x);
    } else {
      CountZeroRows(g[1..], v, x, y - 1);
    }
  }

  /** A value whose count is zero appears in no cell. */
  lemma CountZero(g: Grid, v: int)
    requires WellFormed(g) && Count(g, v) == 0
    ensures forall y, x :: OnBoard(x, y) ==> g[y][x] != v
  {
    forall y, x | OnBoard(x, y) ensures g[y][x] != v {
      CountZeroRows(g, v, x, y);
    }
  }

  lemma {:induction false} RowCountAbsent(row: seq<int>, v: int)
    requires forall x :: 0 <= x < |row| ==> row[x] != v
    ensures RowCount(row, v) == 0
  {
    if row != [] {
      RowCountAbsent(row[1..], v);
    }
  }

  lemma {:induction false} RowsAbsent(g: Grid, v: int)
    requires forall y, x :: 0 <= y < |g| && 0 <= x < |g[y]| ==> g[y][x] != v
    ensures Count(g, v) == 0
  {
    if g != [] {
      RowCountAbsent(g[0], v);
      RowsAbsent(g[1..], v);
    }
  }

  /** A value that appears in no cell has count zero. */
  lemma CountAbsent(g: Grid, v: int)
    requires WellFormed(g)
    requires forall y, x :: OnBoard(x, y) ==> g[y][x] != v
    ensures Count(g, v) == 0
  {
    RowsAbsent(g, v);
  }

  /** Two well-formed grids that agree on every cell are equal. */
  lemma GridExt(a: Grid, b: Grid)
    requires WellFormed(a) && WellFormed(b)
    requires forall y, x :: OnBoard(x, y) ==> a[y][x] == b[y][x]
    ensures a == b
  {
    forall y | 0 <= y < Size ensures a[y] == b[y] {
      assert forall x :: 0 <= x < Size ==> a[y][x] == b[y][x];
    }
  }
}
