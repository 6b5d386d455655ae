/** The move rule of Reversi as the engine applies it: walking the eight rays
    from a target cell, deciding whether a ray brackets a run of opponent
    stones, the resulting flip list, and the board after flipping. */
module Rules {
  import opened Board

  /** The eight compass directions (dx, dy), in the order the engine scans them. */
  const Directions: seq<Direction> :=
    [(-1, -1), (-1, 0), (-1, 1), (0, -1), (0, 1), (1, -1), (1, 0), (1, 1)]

  predicate IsDirection(d: (int, int)) {
    -1 <= d.0 <= 1 && -1 <= d.1 <= 1 && d != (0, 0)
  }

  /** A unit step (dx, dy) to one of the eight neighbours. */
  type Direction = d: (int, int) | IsDirection(d) witness (1, 0)

  lemma DirectionsWellFormed()
    ensures |Directions| == 8
    ensures forall i :: 0 <= i < 8 ==> IsDirection(Directions[i])
    ensures forall i, j :: 0 <= i < j < 8 ==> Directions[i] != Directions[j]
  {
  }

  function Sign(n: int): int {
    if n > 0 then 1 else if n < 0 then -1 else 0
  }

  function Abs(n: int): int {
    if n < 0 then -n else n
  }

  /** The direction in which c lies as seen from (x, y): the signs of its offsets. */
  function Heading(x: int, y: int, c: Cell): (int, int) {
    (Sign(c.0 - x), Sign(c.1 - y))
  }

  /** c lies on the ray leaving (x, y) in direction d, and is not (x, y) itself. */
  predicate OnRay(x: int, y: int, d: (int, int), c: Cell) {
    IsDirection(d) && Heading(x, y, c) == d && (d.0 == 0 || d.1 == 0 || Abs(c.0 - x) == Abs(c.1 - y))
  }

  /** How far k unit steps of ds (-1, 0 or 1) move along one axis. */
  function Shift(ds: int, k: int): int {
    if ds > 0 then k else if ds < 0 then -k else 0
  }

  /** The cell k steps from (x, y) in direction d. */
  function At(x: int, y: int, d: (int, int), k: nat): Cell {
    (x + Shift(d.0, k), y + Shift(d.1, k))
  }

  /** Step k + 1 is one move by d from step k. */
  lemma AtStep(x: int, y: int, d: (int, int), k: nat)
    requires IsDirection(d)
    ensures At(x, y, d, k + 1) == (At(x, y, d, k).0 + d.0, At(x, y, d, k).1 + d.1)
  {
  }

  /** How many more steps of dn along one axis stay inside the grid.  The
      bound is written |g| (which is Size on a well-formed grid) so that the
      walk's termination measure mentions the grid g. */
  function Reach(g: Grid, n: int, dn: int): int {
    if dn > 0 then |g| - n else if dn < 0 then n + 1 else 0
  }

  /** How many more steps from the cell k steps out stay inside the grid,
      counted along both axes: what bounds a walk. */
  function StepsLeft(g: Grid, x: int, y: int, d: (int, int), k: nat): int {
    var c := At(x, y, d, k);
    Reach(g, c.0, d.0) + Reach(g, c.1, d.1)
  }

  /** What the engine's inner while loop leaves behind: the opponent stones it
      passed over, in order of distance, and the cell where it stopped. */
  datatype Scan = Scan(run: seq<Cell>, stop: Cell)

  /** Cell c is on the board and holds p's opponent. */
  predicate OpponentAt(g: Grid, c: Cell, p: int)
    requires WellFormed(g) && IsPlayer(p)
  {
    OnBoard(c.0, c.1) && g[c.1][c.0] == Opponent(p)
  }

  /** The inner while loop of the move check: from the cell k steps out from
      (x, y) in direction d, keep stepping while the cell is on the board and
      holds p's opponent. */
  function Walk(g: Grid, x: int, y: int, d: (int, int), p: int, k: nat): Scan
    requires WellFormed(g) && IsDirection(d) && IsPlayer(p)
    decreases StepsLeft(g, x, y, d, k)
  {
    var c := At(x, y, d, k);
    if OpponentAt(g, c, p) then
      var rest := Walk(g, x, y, d, p, k + 1);
      Scan([c] + rest.run, rest.stop)
    else
      Scan([], c)
  }

  /** The walk along direction d from the cell next to (x, y). */
  function Ray(g: Grid, x: int, y: int, d: (int, int), p: int): Scan
    requires WellFormed(g) && IsDirection(d) && IsPlayer(p)
  {
    Walk(g, x, y, d, p, 1)
  }

  /** The ray passed over at least one stone and stopped on the board at one of p's. */
  predicate Captures(g: Grid, x: int, y: int, d: (int, int), p: int)
    requires WellFormed(g) && IsDirection(d) && IsPlayer(p)
  {
    var s := Ray(g, x, y, d, p);
    s.run != [] && OnBoard(s.stop.0, s.stop.1) && g[s.stop.1][s.stop.0] == p
  }

  /** The stones a ray contributes to the move: its run when it captures, else none. */
  function RayFlips(g: Grid, x: int, y: int, d: (int, int), p: int): (fs: seq<Cell>)
    requires WellFormed(g) && IsDirection(d) && IsPlayer(p)
    ensures forall c :: c in fs ==> OpponentAt(g, c, p)
  {
    WalkStones(g, x, y, d, p, 1);
    if Captures(g, x, y, d, p) then Ray(g, x, y, d, p).run else []
  }

  /** A move by p at (x, y) is legal: the cell is empty and some ray captures. */
  predicate Legal(g: Grid, x: int, y: int, p: int)
    requires WellFormed(g) && OnBoard(x, y) && IsPlayer(p)
  {
    g[y][x] == Empty && exists i :: 0 <= i < |Directions| && Captures(g, x, y, Directions[i], p)
  }

  /** The flip lists of the first n directions, concatenated in scan order. */
  function FlipsUpTo(g: Grid, x: int, y: int, p: int, n: nat): (fs: seq<Cell>)
    requires WellFormed(g) && IsPlayer(p) && n <= |Directions|
    ensures forall c :: c in fs ==> OpponentAt(g, c, p)
  {
    if n == 0 then []
    else FlipsUpTo(g, x, y, p, n - 1) + RayFlips(g, x, y, Directions[n - 1], p)
  }

  /** Every stone a move by p at (x, y) flips, direction by direction. */
  function Flips(g: Grid, x: int, y: int, p: int): seq<Cell>
    requires WellFormed(g) && IsPlayer(p)
  {
    FlipsUpTo(g, x, y, p, |Directions|)
  }

  /** The union of the eight rays' flip sets. */
  function FlipSet(g: Grid, x: int, y: int, p: int): set<Cell>
    requires WellFormed(g) && IsPlayer(p)
  {
    set c | c in Flips(g, x, y, p)
  }

  /** The grid with every cell of s set to p at once. */
  function Overwrite(g: Grid, s: set<Cell>, p: int): (r: Grid)
    requires WellFormed(g)
    ensures WellFormed(r)
    ensures forall y, x {:trigger r[y][x]} :: OnBoard(x, y) ==> r[y][x] == if (x, y) in s then p else g[y][x]
  {
    seq(Size, y requires 0 <= y < Size => seq(Size, x requires 0 <= x < Size => if (x, y) in s then p else g[y][x]))
  }

  /** The engine's flip loop: set each listed cell to p, one after another. */
  function SetCells(g: Grid, cells: seq<Cell>, p: int): (r: Grid)
    requires WellFormed(g) && forall c :: c in cells ==> OnBoard(c.0, c.1)
    ensures WellFormed(r)
    ensures forall y, x {:trigger r[y][x]} :: OnBoard(x, y) ==> r[y][x] == if (x, y) in cells then p else g[y][x]
  {
    if cells == [] then g
    else
      var last := cells[|cells| - 1];
      var init := cells[..|cells| - 1];
      assert forall c :: c in cells <==> c in init || c == last;
      Put(SetCells(g, init, p), last, p)
  }

  /** The move check with flipping on, as the engine runs it: direction after
      direction, each ray is walked on the board as the earlier rays left it
      and its stones are flipped straight away. */
  function FlipRays(g: Grid, x: int, y: int, p: int, n: nat): (r: Grid)
    requires WellFormed(g) && IsPlayer(p) && n <= |Directions|
    ensures WellFormed(r)
  {
    if n == 0 then g
    else
      var h := FlipRays(g, x, y, p, n - 1);
      SetCells(h, RayFlips(h, x, y, Directions[n - 1], p), p)
  }

  /** The board after the move check with flipping on: unchanged when (x, y)
      is occupied, otherwise every stone of the union of the flip sets turned
      to p at once. */
  function Flipped(g: Grid, x: int, y: int, p: int): Grid
    requires WellFormed(g) && OnBoard(x, y) && IsPlayer(p)
  {
    if g[y][x] != Empty then g else Overwrite(g, FlipSet(g, x, y, p), p)
  }

  /** An accepted move: flip, then place p's stone on (x, y). */
  function Move(g: Grid, x: int, y: int, p: int): Grid
    requires WellFormed(g) && OnBoard(x, y) && IsPlayer(p)
  {
    Put(Flipped(g, x, y, p), (x, y), p)
  }

  predicate Distinct(s: seq<Cell>) {
    forall i, j :: 0 <= i < j < |s| ==> s[i] != s[j]
  }

  // ---------------------------------------------------------------------
  // Rays: where a walk goes
  // ---------------------------------------------------------------------

  /** A walk passes only over opponent stones on the board and stops at a cell
      that is not one. */
  lemma {:induction false} WalkStones(g: Grid, x: int, y: int, d: (int, int), p: int, k: nat)
    requires WellFormed(g) && IsDirection(d) && IsPlayer(p)
    ensures forall c :: c in Walk(g, x, y, d, p, k).run ==> OpponentAt(g, c, p)
    ensures !OpponentAt(g, Walk(g, x, y, d, p, k).stop, p)
    decreases StepsLeft(g, x, y, d, k)
  {
    if OpponentAt(g, At(x, y, d, k), p) {
      WalkStones(g, x, y, d, p, k + 1);
    }
  }

  /** A walk from step k visits the cells k, k + 1, ... in order ... */
  lemma {:induction false} WalkCells(g: Grid, x: int, y: int, d: (int, int), p: int, k: nat)
    requires WellFormed(g) && IsDirection(d) && IsPlayer(p)
    ensures forall i :: 0 <= i < |Walk(g, x, y, d, p, k).run| ==> Walk(g, x, y, d, p, k).run[i] == At(x, y, d, k + i)
    decreases StepsLeft(g, x, y, d, k)
  {
    var c := At(x, y, d, k);
    if OpponentAt(g, c, p) {
      var rest := Walk(g, x, y, d, p, k + 1);
      var s := Scan([c] + rest.run, rest.stop);
      assert Walk(g, x, y, d, p, k) == s;
      WalkCells(g, x, y, d, p, k + 1);
      forall i | 0 < i < |s.run| ensures s.run[i] == At(x, y, d, k + i) {
        assert s.run[i] == rest.run[i - 1];
      }
    }
  }

  /** ... and stops at the first cell after them. */
  lemma {:induction false} WalkStop(g: Grid, x: int, y: int, d: (int, int), p: int, k: nat)
    requires WellFormed(g) && IsDirection(d) && IsPlayer(p)
    ensures Walk(g, x, y, d, p, k).stop == At(x, y, d, k + |Walk(g, x, y, d, p, k).run|)
    decreases StepsLeft(g, x, y, d, k)
  {
    if OpponentAt(g, At(x, y, d, k), p) {
      WalkStop(g, x, y, d, p, k + 1);
    }
  }

  /** Every cell beyond (x, y) in direction d lies on that ray. */
  lemma AtOnRay(x: int, y: int, d: (int, int), k: nat)
    requires IsDirection(d) && k >= 1
    ensures OnRay(x, y, d, At(x, y, d, k))
  {
  }

  /** Different step counts reach different cells. */
  lemma AtInjective(x: int, y: int, d: (int, int), i: nat, j: nat)
    requires IsDirection(d) && i != j
    ensures At(x, y, d, i) != At(x, y, d, j)
  {
  }

  /** Every cell of a ray's walk, and the cell where it stops, is on that ray. */
  lemma RayOnRay(g: Grid, x: int, y: int, d: (int, int), p: int)
    requires WellFormed(g) && IsDirection(d) && IsPlayer(p)
    ensures forall c :: c in Ray(g, x, y, d, p).run ==> OnRay(x, y, d, c)
    ensures OnRay(x, y, d, Ray(g, x, y, d, p).stop)
  {
    var s := Ray(g, x, y, d, p);
    WalkCells(g, x, y, d, p, 1);
    WalkStop(g, x, y, d, p, 1);
    forall c | c in s.run ensures OnRay(x, y, d, c) {
      var i :| 0 <= i < |s.run| && s.run[i] == c;
      AtOnRay(x, y, d, 1 + i);
    }
    AtOnRay(x, y, d, 1 + |s.run|);
  }

  /** A walk looks only at whether the cells it reaches hold opponent stones:
      two grids that agree on that from step k on give the same walk. */
  lemma {:induction false} WalkAgree(g: Grid, h: Grid, x: int, y: int, d: (int, int), p: int, k: nat)
    requires WellFormed(g) && WellFormed(h) && IsDirection(d) && IsPlayer(p)
    requires forall i: nat :: k <= i ==> (OpponentAt(g, At(x, y, d, i), p) <==> OpponentAt(h, At(x, y, d, i), p))
    ensures Walk(g, x, y, d, p, k) == Walk(h, x, y, d, p, k)
    decreases StepsLeft(g, x, y, d, k)
  {
    if OpponentAt(g, At(x, y, d, k), p) {
      WalkAgree(g, h, x, y, d, p, k + 1);
    }
  }

  /** The stones of one ray are pairwise different cells. */
  lemma RayDistinct(g: Grid, x: int, y: int, d: (int, int), p: int)
    requires WellFormed(g) && IsDirection(d) && IsPlayer(p)
    ensures Distinct(Ray(g, x, y, d, p).run)
  {
    var s := Ray(g, x, y, d, p);
    WalkCells(g, x, y, d, p, 1);
    forall i, j | 0 <= i < j < |s.run| ensures s.run[i] != s.run[j] {
      AtInjective(x, y, d, 1 + i, 1 + j);
    }
  }

  // ---------------------------------------------------------------------
  // Rays: an independent statement of what a capture is
  // ---------------------------------------------------------------------

  /** Cells 1..m from (x, y) in direction d hold p's opponent, and cell m + 1 is
      on the board and holds p. */
  predicate Brackets(g: Grid, x: int, y: int, d: (int, int), p: int, m: int)
    requires WellFormed(g) && IsPlayer(p)
  {
    && 1 <= m
    && (forall k: nat :: 1 <= k <= m ==> OpponentAt(g, At(x, y, d, k), p))
    && var e := At(x, y, d, m + 1);
    OnBoard(e.0, e.1) && g[e.1][e.0] == p
  }

  /** A walk from step k over opponent stones up to step m, with step m + 1
      not an opponent stone on the board, passes over exactly m + 1 - k stones. */
  lemma {:induction false} WalkLength(g: Grid, x: int, y: int, d: (int, int), p: int, k: nat, m: nat)
    requires WellFormed(g) && IsDirection(d) && IsPlayer(p) && k <= m + 1
    requires forall i: nat :: k <= i <= m ==> OpponentAt(g, At(x, y, d, i), p)
    requires !OpponentAt(g, At(x, y, d, m + 1), p)
    ensures |Walk(g, x, y, d, p, k).run| == m + 1 - k
    decreases m + 1 - k
  {
    if k <= m {
      assert OpponentAt(g, At(x, y, d, k), p);
      WalkLength(g, x, y, d, p, k + 1, m);
    }
  }

  lemma CapturesBrackets(g: Grid, x: int, y: int, d: (int, int), p: int)
    requires WellFormed(g) && IsDirection(d) && IsPlayer(p)
    requires Captures(g, x, y, d, p)
    ensures Brackets(g, x, y, d, p, |Ray(g, x, y, d, p).run|)
  {
    var s := Ray(g, x, y, d, p);
    WalkCells(g, x, y, d, p, 1);
    WalkStop(g, x, y, d, p, 1);
    WalkStones(g, x, y, d, p, 1);
    var m := |s.run|;
    forall k: nat | 1 <= k <= m ensures OpponentAt(g, At(x, y, d, k), p) {
      assert s.run[k - 1] == At(x, y, d, 1 + (k - 1));
      assert s.run[k - 1] in s.run;
    }
    assert s.stop == At(x, y, d, 1 + m);
  }

  lemma BracketsCaptures(g: Grid, x: int, y: int, d: (int, int), p: int, m: int)
    requires WellFormed(g) && IsDirection(d) && IsPlayer(p)
    requires Brackets(g, x, y, d, p, m)
    ensures Captures(g, x, y, d, p) && |Ray(g, x, y, d, p).run| == m
  {
    var e := At(x, y, d, m + 1);
    assert OnBoard(e.0, e.1) && g[e.1][e.0] == p != Opponent(p);
    WalkLength(g, x, y, d, p, 1, m);
    WalkStop(g, x, y, d, p, 1);
  }

  /** A ray captures exactly when it brackets a non-empty run of opponent
      stones with one of p's stones on the board just beyond it. */
  lemma CapturesIff(g: Grid, x: int, y: int, d: (int, int), p: int)
    requires WellFormed(g) && IsDirection(d) && IsPlayer(p)
    ensures Captures(g, x, y, d, p) <==> exists m :: Brackets(g, x, y, d, p, m)
  {
    if Captures(g, x, y, d, p) {
      CapturesBrackets(g, x, y, d, p);
    }
    if m :| Brackets(g, x, y, d, p, m) {
      BracketsCaptures(g, x, y, d, p, m);
    }
  }

  /** The move rule stated on the board alone: (x, y) is empty and in some
      direction a non-empty run of opponent stones starting next to (x, y) is
      closed by one of p's stones. */
  lemma LegalIff(g: Grid, x: int, y: int, p: int)
    requires WellFormed(g) && OnBoard(x, y) && IsPlayer(p)
    ensures Legal(g, x, y, p) <==>
      g[y][x] == Empty && exists i, m :: 0 <= i < |Directions| && Brackets(g, x, y, Directions[i], p, m)
  {
    DirectionsWellFormed();
    forall i | 0 <= i < |Directions| {
      CapturesIff(g, x, y, Directions[i], p);
    }
  }

  // ---------------------------------------------------------------------
  // Flip lists
  // ---------------------------------------------------------------------

  /** Every stone in the first n flip lists lies on the ray of its own heading,
      and that heading is one of the first n directions. */
  lemma {:induction false} FlipsUpToHeadings(g: Grid, x: int, y: int, p: int, n: nat)
    requires WellFormed(g) && IsPlayer(p) && n <= |Directions|
    ensures forall c :: c in FlipsUpTo(g, x, y, p, n) ==>
      Heading(x, y, c) in Directions[..n] && OnRay(x, y, Heading(x, y, c), c)
  {
    if n > 0 {
      DirectionsWellFormed();
      FlipsUpToHeadings(g, x, y, p, n - 1);
      RayOnRay(g, x, y, Directions[n - 1], p);
      assert Directions[..n] == Directions[..n - 1] + [Directions[n - 1]];
    }
  }

  lemma DistinctConcat(a: seq<Cell>, b: seq<Cell>)
    requires Distinct(a) && Distinct(b)
    requires forall c :: c in a ==> c !in b
    ensures Distinct(a + b)
  {
    var s := a + b;
    forall i, j | 0 <= i < j < |s| ensures s[i] != s[j] {
      if j < |a| {
      } else if i < |a| {
        assert s[i] in a && s[j] == b[j - |a|];
      } else {
        assert s[i] == b[i - |a|] && s[j] == b[j - |a|];
      }
    }
  }

  /** The flip list of direction n shares no stone with those of the
      directions before it. */
  lemma RaysDisjoint(g: Grid, x: int, y: int, p: int, n: nat)
    requires WellFormed(g) && IsPlayer(p) && n < |Directions|
    ensures forall c :: c in FlipsUpTo(g, x, y, p, n) ==> c !in RayFlips(g, x, y, Directions[n], p)
  {
    DirectionsWellFormed();
    FlipsUpToHeadings(g, x, y, p, n);
    RayOnRay(g, x, y, Directions[n], p);
    assert Directions[n] !in Directions[..n];
  }

  /** No stone is listed twice: the rays are pairwise disjoint and each ray
      visits a cell at most once. */
  lemma {:induction false} FlipsUpToDistinct(g: Grid, x: int, y: int, p: int, n: nat)
    requires WellFormed(g) && IsPlayer(p) && n <= |Directions|
    ensures Distinct(FlipsUpTo(g, x, y, p, n))
  {
    if n > 0 {
      DirectionsWellFormed();
      var d := Directions[n - 1];
      FlipsUpToDistinct(g, x, y, p, n - 1);
      RayDistinct(g, x, y, d, p);
      RaysDisjoint(g, x, y, p, n - 1);
      DistinctConcat(FlipsUpTo(g, x, y, p, n - 1), RayFlips(g, x, y, d, p));
    }
  }

  /** The target cell is never in its own flip list. */
  lemma FlipsAvoidTarget(g: Grid, x: int, y: int, p: int)
    requires WellFormed(g) && IsPlayer(p)
    ensures (x, y) !in Flips(g, x, y, p)
  {
    FlipsUpToHeadings(g, x, y, p, |Directions|);
  }

  /** A move is legal exactly when its cell is empty and its flip list is not. */
  lemma {:induction false} LegalIffFlips(g: Grid, x: int, y: int, p: int)
    requires WellFormed(g) && OnBoard(x, y) && IsPlayer(p)
    ensures Legal(g, x, y, p) <==> g[y][x] == Empty && Flips(g, x, y, p) != []
  {
    DirectionsWellFormed();
    FlipsNonEmpty(g, x, y, p, |Directions|);
  }

  lemma {:induction false} FlipsNonEmpty(g: Grid, x: int, y: int, p: int, n: nat)
    requires WellFormed(g) && IsPlayer(p) && n <= |Directions|
    ensures FlipsUpTo(g, x, y, p, n) != [] <==> exists i :: 0 <= i < n && Captures(g, x, y, Directions[i], p)
  {
    if n > 0 {
      DirectionsWellFormed();
      FlipsNonEmpty(g, x, y, p, n - 1);
      if Captures(g, x, y, Directions[n - 1], p) {
        assert RayFlips(g, x, y, Directions[n - 1], p) != [];
      }
    }
  }

  // ---------------------------------------------------------------------
  // Flipping ray by ray equals flipping the union at once
  // ---------------------------------------------------------------------

  lemma {:induction false} SetCellsConcat(g: Grid, a: seq<Cell>, b: seq<Cell>, p: int)
    requires WellFormed(g)
    requires forall c :: c in a ==> OnBoard(c.0, c.1)
    requires forall c :: c in b ==> OnBoard(c.0, c.1)
    ensures SetCells(SetCells(g, a, p), b, p) == SetCells(g, a + b, p)
  {
    GridExt(SetCells(SetCells(g, a, p), b, p), SetCells(g, a + b, p));
  }

  /** Two grids that agree on the cells of one ray give that ray the same
      walk, the same verdict and the same flip list. */
  lemma RayAgree(g: Grid, h: Grid, x: int, y: int, d: (int, int), p: int)
    requires WellFormed(g) && WellFormed(h) && IsDirection(d) && IsPlayer(p)
    requires forall c: Cell :: OnBoard(c.0, c.1) && OnRay(x, y, d, c) ==> g[c.1][c.0] == h[c.1][c.0]
    ensures Ray(h, x, y, d, p) == Ray(g, x, y, d, p)
    ensures Captures(h, x, y, d, p) <==> Captures(g, x, y, d, p)
    ensures RayFlips(h, x, y, d, p) == RayFlips(g, x, y, d, p)
  {
    forall i: nat | 1 <= i ensures OpponentAt(g, At(x, y, d, i), p) <==> OpponentAt(h, At(x, y, d, i), p) {
      AtOnRay(x, y, d, i);
    }
    WalkAgree(g, h, x, y, d, p, 1);
    RayOnRay(g, x, y, d, p);
  }

  /** Flipping the stones of earlier rays leaves every later ray's walk, and
      whether it captures, as they were on the original board. */
  lemma RayUnaffected(g: Grid, x: int, y: int, p: int, n: nat)
    requires WellFormed(g) && IsPlayer(p) && n < |Directions|
    ensures var h := SetCells(g, FlipsUpTo(g, x, y, p, n), p);
      var d := Directions[n];
      && Ray(h, x, y, d, p) == Ray(g, x, y, d, p)
      && (Captures(h, x, y, d, p) <==> Captures(g, x, y, d, p))
      && RayFlips(h, x, y, d, p) == RayFlips(g, x, y, d, p)
  {
    DirectionsWellFormed();
    var fs := FlipsUpTo(g, x, y, p, n);
    var h := SetCells(g, fs, p);
    var d := Directions[n];
    FlipsUpToHeadings(g, x, y, p, n);
    assert d !in Directions[..n];
    forall c: Cell | OnBoard(c.0, c.1) && OnRay(x, y, d, c) ensures g[c.1][c.0] == h[c.1][c.0] {
      assert c !in fs;
    }
    RayAgree(g, h, x, y, d, p);
  }

  /** After n directions, sequential flipping has flipped exactly the first n
      flip lists of the original board. */
  lemma {:induction false} FlipRaysSequential(g: Grid, x: int, y: int, p: int, n: nat)
    requires WellFormed(g) && IsPlayer(p) && n <= |Directions|
    ensures FlipRays(g, x, y, p, n) == SetCells(g, FlipsUpTo(g, x, y, p, n), p)
  {
    if n > 0 {
      DirectionsWellFormed();
      FlipRaysSequential(g, x, y, p, n - 1);
      RayUnaffected(g, x, y, p, n - 1);
      SetCellsConcat(g, FlipsUpTo(g, x, y, p, n - 1), RayFlips(g, x, y, Directions[n - 1], p), p);
    }
  }

  /** Before direction n is scanned, the board as the earlier rays left it
      gives that ray the same walk and the same verdict as the original. */
  lemma LaterRayUnaffected(g: Grid, x: int, y: int, p: int, n: nat)
    requires WellFormed(g) && IsPlayer(p) && n < |Directions|
    ensures var h := FlipRays(g, x, y, p, n);
      var d := Directions[n];
      && Ray(h, x, y, d, p) == Ray(g, x, y, d, p)
      && (Captures(h, x, y, d, p) <==> Captures(g, x, y, d, p))
      && RayFlips(h, x, y, d, p) == RayFlips(g, x, y, d, p)
  {
    FlipRaysSequential(g, x, y, p, n);
    RayUnaffected(g, x, y, p, n);
  }

  /** One step of the scan with flipping on: direction i sees the board the
      earlier rays left as it would the original, and flipping its stones
      there gives the board after i + 1 directions. */
  lemma ScanStep(g: Grid, x: int, y: int, p: int, i: nat)
    requires WellFormed(g) && IsPlayer(p) && i < |Directions|
    ensures var b, d := FlipRays(g, x, y, p, i), Directions[i];
      && (Captures(b, x, y, d, p) <==> Captures(g, x, y, d, p))
      && FlipRays(g, x, y, p, i + 1) == SetCells(b, RayFlips(b, x, y, d, p), p)
  {
    LaterRayUnaffected(g, x, y, p, i);
  }

  /** Flipping ray by ray during the scan, as the engine does, gives the same
      board as computing the union of the eight flip sets first and then
      setting all of them to p. */
  lemma FlipRaysIsUnion(g: Grid, x: int, y: int, p: int)
    requires WellFormed(g) && IsPlayer(p)
    ensures FlipRays(g, x, y, p, |Directions|) == Overwrite(g, FlipSet(g, x, y, p), p)
  {
    FlipRaysSequential(g, x, y, p, |Directions|);
    SetCellsIsOverwrite(g, Flips(g, x, y, p), p);
  }

  /** Setting listed cells one after another equals setting the set of them
      at once. */
  lemma SetCellsIsOverwrite(g: Grid, cells: seq<Cell>, p: int)
    requires WellFormed(g) && forall c :: c in cells ==> OnBoard(c.0, c.1)
    ensures SetCells(g, cells, p) == Overwrite(g, (set c | c in cells), p)
  {
    GridExt(SetCells(g, cells, p), Overwrite(g, (set c | c in cells), p));
  }

  // ---------------------------------------------------------------------
  // What flipping and moving do to the board
  // ---------------------------------------------------------------------

  /** Flipping changes only the stones of the flip set, each an opponent stone
      that becomes p's; the target and every other cell keep their value. */
  lemma FlippedEffect(g: Grid, x: int, y: int, p: int)
    requires WellFormed(g) && OnBoard(x, y) && IsPlayer(p)
    ensures WellFormed(Flipped(g, x, y, p))
    ensures forall c :: c in FlipSet(g, x, y, p) ==> OnBoard(c.0, c.1) && c != (x, y) && g[c.1][c.0] == Opponent(p)
    ensures forall cy, cx {:trigger Flipped(g, x, y, p)[cy][cx]} :: OnBoard(cx, cy) ==>
      Flipped(g, x, y, p)[cy][cx] == (if g[y][x] == Empty && (cx, cy) in FlipSet(g, x, y, p) then p else g[cy][cx])
  {
    FlipsAvoidTarget(g, x, y, p);
  }

  /** A move check that finds no capture leaves the board as it was. */
  lemma FlippedIllegal(g: Grid, x: int, y: int, p: int)
    requires WellFormed(g) && OnBoard(x, y) && IsPlayer(p) && !Legal(g, x, y, p)
    ensures Flipped(g, x, y, p) == g
  {
    LegalIffFlips(g, x, y, p);
    if g[y][x] == Empty {
      assert FlipSet(g, x, y, p) == {};
      GridExt(Flipped(g, x, y, p), g);
    }
  }

  /** After a move every cell still holds 0, 1 or 2. */
  lemma MoveValid(g: Grid, x: int, y: int, p: int)
    requires CellsValid(g) && OnBoard(x, y) && IsPlayer(p)
    ensures CellsValid(Move(g, x, y, p))
  {
    FlippedEffect(g, x, y, p);
    assert CellsValid(Flipped(g, x, y, p));
  }

  lemma {:induction false} SetCellsCounts(g: Grid, cells: seq<Cell>, p: int, q: int, v: int)
    requires WellFormed(g) && p != q
    requires forall c :: c in cells ==> OnBoard(c.0, c.1) && g[c.1][c.0] == q
    requires Distinct(cells)
    ensures Count(SetCells(g, cells, p), v) ==
      Count(g, v) + (if v == p then |cells| else if v == q then -|cells| else 0)
  {
    if cells != [] {
      var last := cells[|cells| - 1];
      var init := cells[..|cells| - 1];
      assert forall c :: c in init ==> c in cells;
      assert last !in init by {
        forall i | 0 <= i < |init| ensures init[i] != last {
          assert init[i] == cells[i];
        }
      }
      SetCellsCounts(g, init, p, q, v);
      CountPut(SetCells(g, init, p), last, p, v);
    }
  }

  /** On an empty target the flipped board is the flip loop run over the flip list. */
  lemma FlippedIsSetCells(g: Grid, x: int, y: int, p: int)
    requires WellFormed(g) && OnBoard(x, y) && IsPlayer(p) && g[y][x] == Empty
    ensures Flipped(g, x, y, p) == SetCells(g, Flips(g, x, y, p), p)
  {
    GridExt(Flipped(g, x, y, p), SetCells(g, Flips(g, x, y, p), p));
  }

  /** Flipping moves k stones from the opponent's count to p's. */
  lemma FlippedCounts(g: Grid, x: int, y: int, p: int, v: int)
    requires WellFormed(g) && OnBoard(x, y) && IsPlayer(p) && g[y][x] == Empty
    ensures Count(Flipped(g, x, y, p), v) == Count(g, v) +
      (if v == p then |Flips(g, x, y, p)| else if v == Opponent(p) then -|Flips(g, x, y, p)| else 0)
  {
    FlippedIsSetCells(g, x, y, p);
    FlipsUpToDistinct(g, x, y, p, |Directions|);
    SetCellsCounts(g, Flips(g, x, y, p), p, Opponent(p), v);
  }

  /** An accepted move by p adds 1 + k stones to p, takes k from the opponent,
      and fills one empty cell, where k >= 1 is the number of flipped stones;
      every cell still holds 0, 1 or 2. */
  lemma MoveCounts(g: Grid, x: int, y: int, p: int)
    requires CellsValid(g) && OnBoard(x, y) && IsPlayer(p) && Legal(g, x, y, p)
    ensures var g', k := Move(g, x, y, p), |Flips(g, x, y, p)|;
      && k >= 1
      && CellsValid(g')
      && g'[y][x] == p
      && Count(g', p) == Count(g, p) + 1 + k
      && Count(g', Opponent(p)) == Count(g, Opponent(p)) - k
      && Count(g', Empty) == Count(g, Empty) - 1
  {
    LegalIffFlips(g, x, y, p);
    MoveValid(g, x, y, p);
    MoveCount(g, x, y, p, p);
    MoveCount(g, x, y, p, Opponent(p));
    MoveCount(g, x, y, p, Empty);
  }

  /** The count of one value v after a move by p on the empty cell (x, y). */
  lemma MoveCount(g: Grid, x: int, y: int, p: int, v: int)
    requires WellFormed(g) && OnBoard(x, y) && IsPlayer(p) && g[y][x] == Empty
    ensures Count(Move(g, x, y, p), v) == Count(g, v) - Indicator(v == Empty) + Indicator(v == p) +
      (if v == p then |Flips(g, x, y, p)| else if v == Opponent(p) then -|Flips(g, x, y, p)| else 0)
  {
    FlipsAvoidTarget(g, x, y, p);
    FlippedIsSetCells(g, x, y, p);
    assert Flipped(g, x, y, p)[y][x] == Empty;
    FlippedCounts(g, x, y, p, v);
    CountPut(Flipped(g, x, y, p), (x, y), p, v);
  }
}
