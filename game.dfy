/** The game session: the board and whose turn it is, held in one object and
    changed in place by clicks and by reset, together with the pass and
    game-over state machine that runs after every accepted move and the final
    scoring.  The notices the engine shows (a pass, the final score) are
    returned as an Outcome; the "play again" choice is the caller calling
    Reset. */
module Game {
  import opened Board
  import opened Rules

  datatype Verdict = BlackWins | WhiteWins | Draw

  /** What a click reports: ignored, play goes on, the next player had to
      pass, or neither player can move and the game is over.  The engine
      shows its pass notice before the final result as well, so GameOver
      implies that notice; Pass stands for a pass after which play goes on. */
  datatype Outcome = Rejected | Continue | Pass | GameOver(black: nat, white: nat, verdict: Verdict)

  /** The winner by strict comparison of the stone counts. */
  function Winner(black: nat, white: nat): (v: Verdict)
    ensures v == BlackWins <==> black > white
    ensures v == WhiteWins <==> white > black
    ensures v == Draw <==> black == white
  {
    if black > white then BlackWins
    else if white > black then WhiteWins
    else Draw
  }

  /** The game-over summary: both stone counts and the verdict on them. */
  function Summary(g: Grid): (o: Outcome)
    requires CellsValid(g)
    ensures o.GameOver? && o.verdict == Winner(o.black, o.white)
    ensures o.black == Count(g, Black) && o.white == Count(g, White)
    ensures o.black + o.white + Count(g, Empty) == Size * Size
  {
    CountTotal(g);
    GameOver(Count(g, Black), Count(g, White), Winner(Count(g, Black), Count(g, White)))
  }

  /** p has a legal move somewhere on the board. */
  predicate AnyLegal(g: Grid, p: int)
    requires WellFormed(g) && IsPlayer(p)
  {
    exists x, y :: 0 <= x < Size && 0 <= y < Size && Legal(g, x, y, p)
  }

  /** The turn hand-over, as a function of the board and the player to move
      next: that player keeps the turn if they can move; otherwise the turn
      goes back to the other player, which is a pass if they can move and the
      end of the game if not. */
  function Advance(g: Grid, t: int): (r: (int, Outcome))
    requires CellsValid(g) && IsPlayer(t)
  {
    if AnyLegal(g, t) then (t, Continue)
    else if AnyLegal(g, Opponent(t)) then (Opponent(t), Pass)
    else (Opponent(t), Summary(g))
  }

  /** A click on (x, y) as a function of the state: the new board, the new
      turn and the outcome. */
  function Click(g: Grid, t: int, x: int, y: int): (r: (Grid, int, Outcome))
    requires CellsValid(g) && IsPlayer(t) && OnBoard(x, y)
  {
    if !Legal(g, x, y, t) then (g, t, Rejected)
    else
      var g' := Move(g, x, y, t);
      MoveValid(g, x, y, t);
      var (t', o) := Advance(g', Opponent(t));
      (g', t', o)
  }

  /** After a move by `mover`, the opponent moves next if they can; if not,
      the mover moves again (a pass) if they can; otherwise the game is over,
      scored on the board, with the mover left holding the turn. */
  lemma AdvanceRules(g: Grid, mover: int)
    requires CellsValid(g) && IsPlayer(mover)
    ensures var (t, o) := Advance(g, Opponent(mover));
      && IsPlayer(t)
      && (o == Continue <==> AnyLegal(g, Opponent(mover)))
      && (o == Continue ==> t == Opponent(mover))
      && (o == Pass <==> !AnyLegal(g, Opponent(mover)) && AnyLegal(g, mover))
      && (o == Pass ==> t == mover)
      && (o.GameOver? <==> !AnyLegal(g, Opponent(mover)) && !AnyLegal(g, mover))
      && (o.GameOver? ==> t == mover && o == Summary(g))
  {
  }

  /** A click is accepted exactly when the move is legal.  A rejected click
      changes neither board nor turn.  An accepted one puts the mover's stone on
      the target, gives the mover 1 + k stones and takes k from the opponent
      for the k >= 1 stones it flips, fills exactly one empty cell, and hands
      the turn over by the pass rule; every cell still holds 0, 1 or 2 and the
      turn stays 1 or 2. */
  lemma ClickEffect(g: Grid, t: int, x: int, y: int)
    requires CellsValid(g) && IsPlayer(t) && OnBoard(x, y)
    ensures var (g', t', o) := Click(g, t, x, y);
      && CellsValid(g') && IsPlayer(t')
      && (o == Rejected <==> !Legal(g, x, y, t))
      && (o == Rejected ==> g' == g && t' == t)
      && (o != Rejected ==>
            var k := |Flips(g, x, y, t)|;
            && k >= 1
            && g'[y][x] == t
            && Count(g', t) == Count(g, t) + 1 + k
            && Count(g', Opponent(t)) == Count(g, Opponent(t)) - k
            && Count(g', Empty) == Count(g, Empty) - 1
            && (t', o) == Advance(g', Opponent(t)))
  {
    if Legal(g, x, y, t) {
      MoveCounts(g, x, y, t);
      AdvanceRules(Move(g, x, y, t), t);
    }
  }

  /** A full board ends the game: no cell is empty, so neither player can move,
      and the summary is the final count. */
  lemma FullBoardEndsGame(g: Grid, t: int)
    requires CellsValid(g) && IsPlayer(t) && Count(g, Empty) == 0
    ensures !AnyLegal(g, Black) && !AnyLegal(g, White)
    ensures Advance(g, t) == (Opponent(t), Summary(g))
  {
    CountZero(g, Empty);
  }

  /** The session object: the board, read board[y][x], and the player to move. */
  class Reversi {
    var board: Grid
    var turn: int

    /** Cells hold 0, 1 or 2 and the turn is 1 or 2. */
    ghost predicate Valid()
      reads this
    {
      CellsValid(board) && IsPlayer(turn)
    }

    /** A new game: the starting layout with black to move. */
    constructor ()
      ensures Valid()
      ensures board == Initial() && turn == Black
    {
      var g := EmptyGrid();
      turn := Black;
      g := Put(g, (3, 3), White);
      g := Put(g, (4, 4), White);
      g := Put(g, (4, 3), Black);
      g := Put(g, (3, 4), Black);
      board := g;
    }

    /** Start over from any state, including a finished game. */
    method Reset()
      modifies this
      ensures Valid()
      ensures board == Initial() && turn == Black
    {
      board := EmptyGrid();
      turn := Black;
      board := Put(board, (3, 3), White);
      board := Put(board, (4, 4), White);
      board := Put(board, (4, 3), Black);
      board := Put(board, (3, 4), Black);
    }

    /** The walk of one direction: from the cell next to (x, y), collect the
        opponent stones passed over and return where the walk stopped. */
    method WalkRay(x: int, y: int, dx: int, dy: int) returns (stonesToFlip: seq<Cell>, nx: int, ny: int)
      requires Valid() && IsDirection((dx, dy))
      ensures Ray(board, x, y, (dx, dy), turn) == Scan(stonesToFlip, (nx, ny))
    {
      nx, ny := x + dx, y + dy;
      stonesToFlip := [];
      ghost var d, k := (dx, dy), 1;
      // The methods keep the engine's own `3 - turn` where Board.Opponent names it.
      while OnBoard(nx, ny) && board[ny][nx] == 3 - turn
        invariant k >= 1 && (nx, ny) == At(x, y, d, k)
        invariant Ray(board, x, y, d, turn) ==
          Scan(stonesToFlip + Walk(board, x, y, d, turn, k).run, Walk(board, x, y, d, turn, k).stop)
        decreases Reach(board, nx, dx) + Reach(board, ny, dy)
      {
        ghost var rest := Walk(board, x, y, d, turn, k + 1);
        assert Walk(board, x, y, d, turn, k) == Scan([(nx, ny)] + rest.run, rest.stop);
        assert (stonesToFlip + [(nx, ny)]) + rest.run == stonesToFlip + ([(nx, ny)] + rest.run);
        AtStep(x, y, d, k);
        stonesToFlip := stonesToFlip + [(nx, ny)];
        nx, ny, k := nx + dx, ny + dy, k + 1;
      }
    }

    /** Turn every listed stone to the colour of the player to move, in order. */
    method FlipStones(stonesToFlip: seq<Cell>)
      requires Valid() && forall c :: c in stonesToFlip ==> OnBoard(c.0, c.1)
      modifies this
      ensures Valid() && turn == old(turn)
      ensures board == SetCells(old(board), stonesToFlip, turn)
    {
      for k := 0 to |stonesToFlip|
        invariant Valid() && turn == old(turn)
        invariant board == SetCells(old(board), stonesToFlip[..k], turn)
      {
        var (fx, fy) := stonesToFlip[k];
        assert stonesToFlip[..k + 1][..k] == stonesToFlip[..k];
        board := Put(board, (fx, fy), turn);
      }
      assert stonesToFlip[..|stonesToFlip|] == stonesToFlip;
    }

    /** One pass of the direction loop of the move check: walk direction i
        and, when that ray captures and flip is set, flip its stones.  The
        board the pass finds is the one the earlier passes left. */
    method ScanDirection(ghost g: Grid, x: int, y: int, i: nat, flip: bool) returns (captured: bool)
      requires Valid() && WellFormed(g) && i < |Directions|
      requires board == if flip then FlipRays(g, x, y, turn, i) else g
      modifies this
      ensures Valid() && turn == old(turn)
      ensures board == if flip then FlipRays(g, x, y, turn, i + 1) else g
      ensures captured == Captures(g, x, y, Directions[i], turn)
    {
      var (dx, dy) := Directions[i];
      ghost var d := Directions[i];
      assert (dx, dy) == d;
      if flip {
        ScanStep(g, x, y, turn, i);
      }
      var stonesToFlip, nx, ny := WalkRay(x, y, dx, dy);
      captured := stonesToFlip != [] && OnBoard(nx, ny) && board[ny][nx] == turn;
      if captured && flip {
        FlipStones(stonesToFlip);
      }
    }

    /** Whether the player to move may play (x, y); with flip set, the stones
        of each capturing ray are flipped as soon as that ray is found. */
    method IsValidMove(x: int, y: int, flip: bool) returns (valid: bool)
      requires Valid() && OnBoard(x, y)
      modifies this
      ensures Valid() && turn == old(turn)
      ensures valid == Legal(old(board), x, y, turn)
      ensures board == if flip then Flipped(old(board), x, y, turn) else old(board)
    {
      if board[y][x] != Empty {
        return false;
      }
      ghost var g := board;
      valid := false;
      var i := 0;
      while i < |Directions|
        invariant 0 <= i <= |Directions| && Valid() && turn == old(turn)
        invariant board == if flip then FlipRays(g, x, y, turn, i) else g
        invariant valid <==> FlipsUpTo(g, x, y, turn, i) != []
      {
        var captured := ScanDirection(g, x, y, i, flip);
        assert FlipsUpTo(g, x, y, turn, i + 1) == FlipsUpTo(g, x, y, turn, i) + RayFlips(g, x, y, Directions[i], turn);
        if captured {
          valid := true;
        }
        i := i + 1;
      }
      DirectionsWellFormed();
      LegalIffFlips(g, x, y, turn);
      if flip {
        FlipRaysIsUnion(g, x, y, turn);
      }
    }

    /** Scan the board row by row for a legal move of the player to move,
        stopping at the first one; the board is only probed, never changed. */
    method HasLegalMove() returns (found: bool)
      requires Valid()
      modifies this
      ensures board == old(board) && turn == old(turn)
      ensures found == AnyLegal(board, turn)
    {
      found := false;
      for y := 0 to Size
        invariant board == old(board) && turn == old(turn)
        invariant !found
        invariant forall yy, xx :: 0 <= yy < y && 0 <= xx < Size ==> !Legal(board, xx, yy, turn)
      {
        for x := 0 to Size
          invariant board == old(board) && turn == old(turn)
          invariant !found
          invariant forall xx :: 0 <= xx < x ==> !Legal(board, xx, y, turn)
        {
          if board[y][x] == Empty {
            var v := IsValidMove(x, y, false);
            if v {
              found := true;
              break;
            }
          }
        }
        if found {
          break;
        }
      }
    }

    /** The hand-over after a move, with the turn already given to the
        opponent: keep it if they can move, else give it back (a pass), and
        if that player cannot move either, the game is over. */
    method TurnChangeIfNeeded() returns (outcome: Outcome)
      requires Valid()
      modifies this
      ensures Valid() && board == old(board)
      ensures (turn, outcome) == Advance(board, old(turn))
    {
      var hasMove := HasLegalMove();
      if hasMove {
        outcome := Continue;
      } else {
        turn := 3 - turn;
        var hasMoveAfterPass := HasLegalMove();
        if !hasMoveAfterPass {
          outcome := Summary(board);
        } else {
          outcome := Pass;
        }
      }
    }

    /** A click on cell (x, y): if the move is legal, flip, place the stone,
        give the turn to the opponent and run the hand-over; otherwise nothing
        happens. */
    method HandleClick(x: int, y: int) returns (outcome: Outcome)
      requires Valid() && OnBoard(x, y)
      modifies this
      ensures Valid()
      ensures (board, turn, outcome) == Click(old(board), old(turn), x, y)
    {
      ghost var g, t := board, turn;
      var accepted := IsValidMove(x, y, true);
      if accepted {
        MoveValid(g, x, y, t);
        board := Put(board, (x, y), turn);
        turn := 3 - turn;
        outcome := TurnChangeIfNeeded();
      } else {
        FlippedIllegal(g, x, y, t);
        outcome := Rejected;
      }
    }
  }
}
