/** Concrete positions: the opening moves available to black and what the
    first move does to the board. */
module Scenarios {
  import opened Board
  import opened Rules
  import opened Game

  lemma OpeningEastRay()
    ensures Ray(Initial(), 2, 3, (1, 0), Black) == Scan([(3, 3)], (4, 3))
    ensures Captures(Initial(), 2, 3, (1, 0), Black)
  {
    var g := Initial();
    assert g[3][3] == White && g[3][4] == Black;
    assert At(2, 3, (1, 0), 1) == (3, 3) && At(2, 3, (1, 0), 2) == (4, 3);
    assert Walk(g, 2, 3, (1, 0), Black, 2) == Scan([], (4, 3));
  }

  lemma OpeningOtherRays(i: int)
    requires 0 <= i < 8 && i != 6
    ensures RayFlips(Initial(), 2, 3, Directions[i], Black) == []
  {
    var g := Initial();
    DirectionsWellFormed();
    var d := Directions[i];
    var n := (2 + d.0, 3 + d.1);
    assert g[n.1][n.0] != White;
  }

  /** From the starting layout, black may play (2, 3): the ray to the east
      passes over the white stone on (3, 3) and closes on black's (4, 3). */
  lemma OpeningMoveLegal()
    ensures Legal(Initial(), 2, 3, Black)
  {
    OpeningEastRay();
    assert Directions[6] == (1, 0);
    assert Initial()[3][2] == Empty;
  }

  /** When only the eastward ray (the seventh in scan order) captures, the
      flip list is that ray's run. */
  lemma OnlyEastFlips(g: Grid, x: int, y: int, p: int)
    requires WellFormed(g) && IsPlayer(p)
    requires forall i :: 0 <= i < 8 && i != 6 ==> RayFlips(g, x, y, Directions[i], p) == []
    ensures Flips(g, x, y, p) == RayFlips(g, x, y, (1, 0), p)
  {
    assert Directions[6] == (1, 0);
    assert FlipsUpTo(g, x, y, p, 1) == [];
    assert FlipsUpTo(g, x, y, p, 2) == [];
    assert FlipsUpTo(g, x, y, p, 3) == [];
    assert FlipsUpTo(g, x, y, p, 4) == [];
    assert FlipsUpTo(g, x, y, p, 5) == [];
    assert FlipsUpTo(g, x, y, p, 6) == [];
    assert FlipsUpTo(g, x, y, p, 7) == RayFlips(g, x, y, (1, 0), p);
    assert RayFlips(g, x, y, Directions[7], p) == [];
    assert FlipsUpTo(g, x, y, p, 8) == FlipsUpTo(g, x, y, p, 7) + [];
  }

  /** ... and (3, 3) is the only stone that move flips. */
  lemma OpeningMoveFlips()
    ensures Flips(Initial(), 2, 3, Black) == [(3, 3)]
  {
    OpeningEastRay();
    forall i | 0 <= i < 8 && i != 6 ensures RayFlips(Initial(), 2, 3, Directions[i], Black) == [] {
      OpeningOtherRays(i);
    }
    OnlyEastFlips(Initial(), 2, 3, Black);
  }

  /** From the starting layout, black may not play the corner (0, 0): no
      neighbour holds a white stone. */
  lemma CornerIllegal()
    ensures !Legal(Initial(), 0, 0, Black)
  {
    var g := Initial();
    DirectionsWellFormed();
    forall i | 0 <= i < 8 ensures !Captures(g, 0, 0, Directions[i], Black) {
      var d := Directions[i];
      var n := (d.0, d.1);
      assert !(OnBoard(n.0, n.1) && g[n.1][n.0] == White);
    }
  }

  /** An occupied cell is never a legal move, for either player. */
  lemma OccupiedIllegal()
    ensures !Legal(Initial(), 3, 3, Black) && !Legal(Initial(), 3, 3, White)
  {
  }

  /** The starting layout written out row by row. */
  const StartRows: Grid := [
    [0, 0, 0, 0, 0, 0, 0, 0],
    [0, 0, 0, 0, 0, 0, 0, 0],
    [0, 0, 0, 0, 0, 0, 0, 0],
    [0, 0, 0, 2, 1, 0, 0, 0],
    [0, 0, 0, 1, 2, 0, 0, 0],
    [0, 0, 0, 0, 0, 0, 0, 0],
    [0, 0, 0, 0, 0, 0, 0, 0],
    [0, 0, 0, 0, 0, 0, 0, 0]]

  lemma InitialIsStartRows()
    ensures Initial() == StartRows
  {
    GridExt(Initial(), StartRows);
  }

  lemma StartRowsBlack()
    ensures Count(StartRows, Black) == 2
  {
  }

  lemma StartRowsWhite()
    ensures Count(StartRows, White) == 2
  {
  }

  /** Each player starts with two stones and 60 cells are empty. */
  lemma InitialCounts()
    ensures Count(Initial(), Black) == 2 && Count(Initial(), White) == 2 && Count(Initial(), Empty) == 60
  {
    CountTotal(Initial());
    InitialIsStartRows();
    StartRowsBlack();
    StartRowsWhite();
  }

  lemma OpeningFlipSet()
    ensures FlipSet(Initial(), 2, 3, Black) == {(3, 3)}
  {
    OpeningMoveFlips();
  }

  /** A move whose flip set is the single cell c0 turns just c0. */
  lemma SingleFlip(g: Grid, x: int, y: int, p: int, c0: Cell)
    requires WellFormed(g) && OnBoard(x, y) && IsPlayer(p) && g[y][x] == Empty
    requires OnBoard(c0.0, c0.1) && FlipSet(g, x, y, p) == {c0}
    ensures Flipped(g, x, y, p) == Put(g, c0, p)
  {
    FlippedEffect(g, x, y, p);
    GridExt(Flipped(g, x, y, p), Put(g, c0, p));
  }

  /** Black's first move on (2, 3) turns (3, 3) and fills (2, 3). */
  lemma OpeningMove()
    ensures Move(Initial(), 2, 3, Black) == Put(Put(Initial(), (3, 3), Black), (2, 3), Black)
  {
    OpeningFlipSet();
    InitialIsStartRows();
    assert StartRows[3][2] == Empty;
    SingleFlip(StartRows, 2, 3, Black, (3, 3));
  }

  /** After black's first move on (2, 3), the target and (3, 3) are black and
      every other cell keeps its starting value. */
  lemma OpeningMoveCells()
    ensures var g := Move(Initial(), 2, 3, Black);
      && g[3][2] == Black && g[3][3] == Black
      && (forall y, x :: OnBoard(x, y) && (x, y) != (2, 3) && (x, y) != (3, 3) ==> g[y][x] == StartStone(x, y))
  {
    OpeningMove();
  }

  /** ... and black holds 4 stones, white 1, and 59 cells are empty. */
  lemma OpeningMoveCounts()
    ensures var g := Move(Initial(), 2, 3, Black);
      Count(g, Black) == 4 && Count(g, White) == 1 && Count(g, Empty) == 59
  {
    OpeningMoveLegal();
    OpeningMoveFlips();
    InitialCounts();
    MoveCounts(Initial(), 2, 3, Black);
  }
}
