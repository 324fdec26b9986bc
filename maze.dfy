/**
 * The recursive-backtracking maze generator of candy-run: a grid of walls
 * (0) and passages (1), carved from cell (1, 1) over the odd-coordinate
 * lattice and then opened up by one row-major widening pass.
 */
module Maze {
  import opened Geometry
  import opened Randomness

  /** `g[row][col]`; 0 is a wall, 1 a passage. */
  type Grid = seq<seq<int>>
  /** A cell as (col, row), that is (x, y). */
  type Cell = (int, int)

  const WALL: int := 0
  const PASSAGE: int := 1
  /** Carving starts here; the player starts on its centre. */
  const Start: Cell := (1, 1)
  /** The four carving steps, in the order the source lists them before shuffling. */
  const Steps: seq<Cell> := [(0, -2), (0, 2), (-2, 0), (2, 0)]
  /** Probability that the widening pass looks at a wall. */
  const WIDEN_CHANCE: real := 0.30

  // ---------------------------------------------------------------------
  // Grid vocabulary
  // ---------------------------------------------------------------------

  /** Constructor normalisation: the least odd integer not below `n`. */
  function Normalise(n: int): (r: int)
    ensures r % 2 == 1
    ensures n <= r <= n + 1
  {
    if n % 2 == 0 then n + 1 else n
  }

  predicate InGrid(g: Grid, c: Cell) {
    0 <= c.1 < |g| && 0 <= c.0 < |g[c.1]|
  }

  predicate Passage(g: Grid, c: Cell) {
    InGrid(g, c) && g[c.1][c.0] == PASSAGE
  }

  predicate Interior(c: Cell, cols: int, rows: int) {
    0 < c.0 < cols - 1 && 0 < c.1 < rows - 1
  }

  /** A cell of the carving lattice: both coordinates odd. */
  predicate Lattice(c: Cell) {
    c.0 % 2 == 1 && c.1 % 2 == 1
  }

  function Add(c: Cell, d: Cell): Cell {
    (c.0 + d.0, c.1 + d.1)
  }

  ghost predicate Adjacent(a: Cell, b: Cell) {
    (a.0 == b.0 && (a.1 == b.1 + 1 || b.1 == a.1 + 1)) ||
    (a.1 == b.1 && (a.0 == b.0 + 1 || b.0 == a.0 + 1))
  }

  /** `rows` rows of `cols` cells each. */
  ghost predicate Shaped(g: Grid, cols: int, rows: int) {
    |g| == rows && forall y :: 0 <= y < rows ==> |g[y]| == cols
  }

  /** Every cell is a wall or a passage. */
  ghost predicate Binary(g: Grid) {
    forall y, x :: 0 <= y < |g| && 0 <= x < |g[y]| ==> g[y][x] == WALL || g[y][x] == PASSAGE
  }

  /** Row 0, row rows-1, column 0 and column cols-1 are all walls. */
  ghost predicate BorderClosed(g: Grid, cols: int, rows: int)
    requires Shaped(g, cols, rows)
  {
    forall y, x :: 0 <= y < rows && 0 <= x < cols && !Interior((x, y), cols, rows) ==> g[y][x] == WALL
  }

  /** `g1` differs from `g0` only where a wall became a passage. */
  ghost predicate Grown(g0: Grid, g1: Grid) {
    && |g1| == |g0|
    && (forall y :: 0 <= y < |g0| ==> |g1[y]| == |g0[y]|)
    && (forall y, x :: 0 <= y < |g0| && 0 <= x < |g0[y]| ==>
          g1[y][x] == g0[y][x] || (g0[y][x] == WALL && g1[y][x] == PASSAGE))
  }

  /** The set of wall cells; carving shrinks it. */
  ghost function WallCells(g: Grid): set<Cell> {
    set y, x | 0 <= y < |g| && 0 <= x < |g[y]| && g[y][x] == WALL :: (x, y)
  }

  function Open(g: Grid, c: Cell): (r: Grid)
    requires InGrid(g, c)
  {
    g[c.1 := g[c.1][c.0 := PASSAGE]]
  }

  function AllWalls(cols: nat, rows: nat): Grid {
    seq(rows, _ => seq(cols, _ => WALL))
  }

  /** `_countAdjacentPassages`: out-of-range neighbours count as walls. */
  function CountAdjacentPassages(g: Grid, x: int, y: int): (n: nat)
    requires 0 <= y < |g|
    ensures n <= 4
    ensures n == |NeighbourPassages(g, x, y)|
  {
    NeighbourCount(g, x, y);
    (if Passage(g, (x, y - 1)) then 1 else 0) +
    (if Passage(g, (x, y + 1)) then 1 else 0) +
    (if Passage(g, (x - 1, y)) then 1 else 0) +
    (if Passage(g, (x + 1, y)) then 1 else 0)
  }

  /** The orthogonal neighbours of (x, y) that are passages. */
  ghost function NeighbourPassages(g: Grid, x: int, y: int): set<Cell> {
    set c | c in {(x, y - 1), (x, y + 1), (x - 1, y), (x + 1, y)} && Passage(g, c)
  }

  function Single(b: bool, c: Cell): set<Cell> {
    if b then {c} else {}
  }

  lemma NeighbourCount(g: Grid, x: int, y: int)
    ensures |NeighbourPassages(g, x, y)| ==
      (if Passage(g, (x, y - 1)) then 1 else 0) +
      (if Passage(g, (x, y + 1)) then 1 else 0) +
      (if Passage(g, (x - 1, y)) then 1 else 0) +
      (if Passage(g, (x + 1, y)) then 1 else 0)
  {
    var n1, n2, n3, n4 := (x, y - 1), (x, y + 1), (x - 1, y), (x + 1, y);
    var p1, p2, p3, p4 := Passage(g, n1), Passage(g, n2), Passage(g, n3), Passage(g, n4);
    var s := NeighbourPassages(g, x, y);
    assert s == FourOf(n1, p1, n2, p2, n3, p3, n4, p4) by {
      forall q ensures q in s <==> (q == n1 && p1) || (q == n2 && p2) || (q == n3 && p3) || (q == n4 && p4) {
      }
      FourOfMembers(s, n1, p1, n2, p2, n3, p3, n4, p4);
    }
    FourCard(n1, p1, n2, p2, n3, p3, n4, p4);
  }

  lemma FourOfMembers(s: set<Cell>, n1: Cell, p1: bool, n2: Cell, p2: bool, n3: Cell, p3: bool, n4: Cell, p4: bool)
    requires forall q :: q in s <==> (q == n1 && p1) || (q == n2 && p2) || (q == n3 && p3) || (q == n4 && p4)
    ensures s == FourOf(n1, p1, n2, p2, n3, p3, n4, p4)
  {
  }

  function FourOf(n1: Cell, p1: bool, n2: Cell, p2: bool, n3: Cell, p3: bool, n4: Cell, p4: bool): set<Cell> {
    Single(p1, n1) + Single(p2, n2) + Single(p3, n3) + Single(p4, n4)
  }

  lemma FourCard(n1: Cell, p1: bool, n2: Cell, p2: bool, n3: Cell, p3: bool, n4: Cell, p4: bool)
    requires n1 != n2 && n1 != n3 && n1 != n4 && n2 != n3 && n2 != n4 && n3 != n4
    ensures |FourOf(n1, p1, n2, p2, n3, p3, n4, p4)| ==
      (if p1 then 1 else 0) + (if p2 then 1 else 0) + (if p3 then 1 else 0) + (if p4 then 1 else 0)
  {
    var a, b, c, d := Single(p1, n1), Single(p2, n2), Single(p3, n3), Single(p4, n4);
    assert a !! b;
    assert |a + b| == |a| + |b|;
    assert (a + b) !! c;
    assert |a + b + c| == |a + b| + |c|;
    assert (a + b + c) !! d;
  }

  // ---------------------------------------------------------------------
  // Reachability from (1, 1)
  // ---------------------------------------------------------------------

  /** A walk of orthogonal steps through passages. */
  ghost predicate IsPath(g: Grid, p: seq<Cell>) {
    && |p| > 0
    && (forall i :: 0 <= i < |p| ==> Passage(g, p[i]))
    && (forall i :: 0 < i < |p| ==> Adjacent(p[i - 1], p[i]))
  }

  ghost predicate Reachable(g: Grid, c: Cell) {
    exists p :: IsPath(g, p) && p[0] == Start && p[|p| - 1] == c
  }

  /** Every passage is reachable from (1, 1). */
  ghost predicate Connected(g: Grid) {
    // Triggered on Reachable: a Passage trigger would fire again on every
    // cell of every path it produces.
    forall c {:trigger Reachable(g, c)} :: Passage(g, c) ==> Reachable(g, c)
  }

  /** A walk stays a walk when walls are opened. */
  lemma GrownKeepsPath(g0: Grid, g1: Grid, p: seq<Cell>)
    requires Grown(g0, g1) && IsPath(g0, p)
    ensures IsPath(g1, p)
  {
    forall i | 0 <= i < |p| ensures Passage(g1, p[i]) {
      GrownKeepsPassage(g0, g1, p[i]);
    }
  }

  lemma GrownKeepsReachable(g0: Grid, g1: Grid, c: Cell)
    requires Grown(g0, g1) && Reachable(g0, c)
    ensures Reachable(g1, c)
  {
    var p :| IsPath(g0, p) && p[0] == Start && p[|p| - 1] == c;
    GrownKeepsPath(g0, g1, p);
  }

  /**
   * Opening a cell that is the start, or is next to a reachable passage,
   * keeps every passage reachable.
   */
  lemma OpenKeepsConnected(g: Grid, c: Cell, from: Cell)
    requires Connected(g) && InGrid(g, c) && Grown(g, Open(g, c))
    requires c == Start || (Passage(g, from) && Adjacent(from, c))
    ensures Connected(Open(g, c))
  {
    var g' := Open(g, c);
    forall q | Passage(g', q) ensures Reachable(g', q) {
      if q == c && c == Start {
        assert IsPath(g', [c]);
      } else if q == c {
        assert Reachable(g, from);
        var p :| IsPath(g, p) && p[0] == Start && p[|p| - 1] == from;
        GrownKeepsPath(g, g', p);
        var p' := p + [c];
        assert forall i :: 0 <= i < |p| ==> p'[i] == p[i];
        assert IsPath(g', p');
      } else {
        assert Passage(g, q);
        assert Reachable(g, q);
        GrownKeepsReachable(g, g', q);
      }
    }
  }

  // ---------------------------------------------------------------------
  // Facts about opening cells
  // ---------------------------------------------------------------------

  lemma OpenFacts(g: Grid, c: Cell, cols: int, rows: int)
    requires Shaped(g, cols, rows) && Binary(g) && BorderClosed(g, cols, rows)
    requires Interior(c, cols, rows)
    ensures Shaped(Open(g, c), cols, rows) && Binary(Open(g, c))
    ensures BorderClosed(Open(g, c), cols, rows)
    ensures Grown(g, Open(g, c))
    ensures Passage(Open(g, c), c)
    ensures forall q :: q != c ==> (Passage(Open(g, c), q) <==> Passage(g, q))
    ensures forall q :: InGrid(g, q) && q != c ==> Open(g, c)[q.1][q.0] == g[q.1][q.0]
    ensures Passage(g, c) ==> Open(g, c) == g
  {
    if Passage(g, c) {
      assert g[c.1][c.0 := PASSAGE] == g[c.1];
    }
  }

  lemma GrownTrans(g0: Grid, g1: Grid, g2: Grid)
    requires Grown(g0, g1) && Grown(g1, g2)
    ensures Grown(g0, g2)
  {
  }

  lemma GrownKeepsPassage(g0: Grid, g1: Grid, c: Cell)
    requires Grown(g0, g1) && Passage(g0, c)
    ensures Passage(g1, c)
  {
  }

  /** Carving a wall cell strictly shrinks the set of walls. */
  lemma GrownShrinksWalls(g0: Grid, g1: Grid, c: Cell)
    requires Grown(g0, g1) && InGrid(g0, c) && g0[c.1][c.0] == WALL && Passage(g1, c)
    ensures WallCells(g1) < WallCells(g0)
  {
    forall q | q in WallCells(g1) ensures q in WallCells(g0) {
      assert g1[q.1][q.0] == WALL;
    }
    assert c in WallCells(g0) && c !in WallCells(g1);
  }

  lemma CountGrows(g0: Grid, g1: Grid, x: int, y: int)
    requires Grown(g0, g1) && 0 <= y < |g0|
    ensures CountAdjacentPassages(g1, x, y) >= CountAdjacentPassages(g0, x, y)
  {
    GrownKeepsNeighbours(g0, g1, x, y);
  }

  lemma GrownKeepsNeighbours(g0: Grid, g1: Grid, x: int, y: int)
    requires Grown(g0, g1)
    ensures Passage(g0, (x, y - 1)) ==> Passage(g1, (x, y - 1))
    ensures Passage(g0, (x, y + 1)) ==> Passage(g1, (x, y + 1))
    ensures Passage(g0, (x - 1, y)) ==> Passage(g1, (x - 1, y))
    ensures Passage(g0, (x + 1, y)) ==> Passage(g1, (x + 1, y))
  {
  }

  /** An open neighbour of (x, y) exists as soon as the count is positive. */
  lemma SomeOpenNeighbour(g: Grid, x: int, y: int) returns (p: Cell)
    requires 0 <= y < |g| && CountAdjacentPassages(g, x, y) > 0
    ensures Passage(g, p) && Adjacent(p, (x, y))
  {
    if Passage(g, (x, y - 1)) { p := (x, y - 1); }
    else if Passage(g, (x, y + 1)) { p := (x, y + 1); }
    else if Passage(g, (x - 1, y)) { p := (x - 1, y); }
    else { p := (x + 1, y); }
  }

  // ---------------------------------------------------------------------
  // Lattice coverage: carving reaches every odd/odd interior cell
  // ---------------------------------------------------------------------

  /** The lattice neighbour `Add(c, d)`, if it is interior, is open. */
  ghost predicate Opened(g: Grid, c: Cell, d: Cell, cols: int, rows: int) {
    Interior(Add(c, d), cols, rows) ==> Passage(g, Add(c, d))
  }

  /** All four lattice neighbours of `c` inside the border are open. */
  ghost predicate Finished(g: Grid, c: Cell, cols: int, rows: int) {
    && Opened(g, c, (0, -2), cols, rows)
    && Opened(g, c, (0, 2), cols, rows)
    && Opened(g, c, (-2, 0), cols, rows)
    && Opened(g, c, (2, 0), cols, rows)
  }

  lemma GrownKeepsFinished(g0: Grid, g1: Grid, c: Cell, cols: int, rows: int)
    requires Grown(g0, g1) && Finished(g0, c, cols, rows)
    ensures Finished(g1, c, cols, rows)
  {
    GrownKeepsNeighbours2(g0, g1, c);
  }

  lemma GrownKeepsNeighbours2(g0: Grid, g1: Grid, c: Cell)
    requires Grown(g0, g1)
    ensures Passage(g0, Add(c, (0, -2))) ==> Passage(g1, Add(c, (0, -2)))
    ensures Passage(g0, Add(c, (0, 2))) ==> Passage(g1, Add(c, (0, 2)))
    ensures Passage(g0, Add(c, (-2, 0))) ==> Passage(g1, Add(c, (-2, 0)))
    ensures Passage(g0, Add(c, (2, 0))) ==> Passage(g1, Add(c, (2, 0)))
  {
  }

  /**
   * If the start is open and every open lattice cell has its lattice
   * neighbours open, then every interior lattice cell is open.
   */
  lemma {:induction false} LatticeCovered(g: Grid, cols: int, rows: int, c: Cell)
    requires Passage(g, Start)
    requires forall q {:trigger Finished(g, q, cols, rows)} :: Lattice(q) && Passage(g, q) ==> Finished(g, q, cols, rows)
    requires Lattice(c) && Interior(c, cols, rows)
    ensures Passage(g, c)
    decreases c.0 + c.1
  {
    if c == Start {
    } else {
      var d := if c.0 > 1 then (2, 0) else (0, 2);
      var q := (c.0 - d.0, c.1 - d.1);
      OddStep(c.0, d.0);
      OddStep(c.1, d.1);
      assert Lattice(q) && Interior(q, cols, rows);
      LatticeCovered(g, cols, rows, q);
      assert Finished(g, q, cols, rows);
      assert Add(q, d) == c;
    }
  }

  lemma OddStep(v: int, s: int)
    requires v % 2 == 1 && (s == 0 || s == 2)
    ensures (v - s) % 2 == 1
  {
  }

  /** A well-formed grid under construction: shaped, binary, walled in, connected. */
  ghost predicate Carvable(g: Grid, cols: int, rows: int) {
    Shaped(g, cols, rows) && Binary(g) && BorderClosed(g, cols, rows) && Connected(g)
  }

  /**
   * Opening the interior cell `c`, entered from the passage `from` (or `c`
   * is the start, or already open), keeps the grid carvable, grows it, and
   * changes no other cell.
   */
  lemma OpenCell(g: Grid, c: Cell, from: Cell, cols: int, rows: int)
    requires Carvable(g, cols, rows) && Interior(c, cols, rows)
    requires Passage(g, c) || c == Start || (Passage(g, from) && Adjacent(from, c))
    ensures Carvable(Open(g, c), cols, rows)
    ensures Grown(g, Open(g, c)) && Passage(Open(g, c), c)
    ensures forall q :: q != c ==> (Passage(Open(g, c), q) <==> Passage(g, q))
    ensures forall q :: InGrid(g, q) && q != c ==> Open(g, c)[q.1][q.0] == g[q.1][q.0]
  {
    OpenFacts(g, c, cols, rows);
    if !Passage(g, c) {
      OpenKeepsConnected(g, c, from);
    }
  }

  /**
   * One carving step `d` from an interior lattice cell: when the target is
   * interior it is a lattice cell, and the wall between is an interior
   * non-lattice cell next to both.
   */
  lemma CarveStepShape(c: Cell, d: Cell, cols: int, rows: int)
    requires d in Steps
    requires Lattice(c) && Interior(c, cols, rows) && Interior(Add(c, d), cols, rows)
    ensures Lattice(Add(c, d))
    ensures Interior((c.0 + d.0 / 2, c.1 + d.1 / 2), cols, rows)
    ensures !Lattice((c.0 + d.0 / 2, c.1 + d.1 / 2))
    ensures Adjacent(c, (c.0 + d.0 / 2, c.1 + d.1 / 2))
    ensures Adjacent((c.0 + d.0 / 2, c.1 + d.1 / 2), Add(c, d))
    ensures (c.0 + d.0 / 2, c.1 + d.1 / 2) != Add(c, d)
    ensures (c.0 + d.0 / 2, c.1 + d.1 / 2) != c
  {
    assert d == (0, -2) || d == (0, 2) || d == (-2, 0) || d == (2, 0);
  }

  /**
   * Bookkeeping after carving from `here` in direction `ds[i]`: the
   * directions tried so far stay opened, and lattice cells opened since `g0`
   * are finished.
   */
  lemma CarveLoopStep(g0: Grid, before: Grid, g: Grid, here: Cell, ds: seq<Cell>, i: nat, cols: int, rows: int)
    requires i < |ds|
    requires Grown(before, g)
    requires forall j :: 0 <= j < i ==> Opened(before, here, ds[j], cols, rows)
    requires forall q {:trigger Finished(before, q, cols, rows)} ::
               Lattice(q) && Passage(before, q) && !Passage(g0, q) && q != here ==> Finished(before, q, cols, rows)
    requires forall q {:trigger Finished(g, q, cols, rows)} ::
               Lattice(q) && Passage(g, q) && !Passage(before, q) ==> Finished(g, q, cols, rows)
    requires Opened(g, here, ds[i], cols, rows)
    ensures forall j :: 0 <= j <= i ==> Opened(g, here, ds[j], cols, rows)
    ensures forall q {:trigger Finished(g, q, cols, rows)} ::
              Lattice(q) && Passage(g, q) && !Passage(g0, q) && q != here ==> Finished(g, q, cols, rows)
  {
    forall j | 0 <= j < i ensures Opened(g, here, ds[j], cols, rows) {
      assert Opened(before, here, ds[j], cols, rows);
      if Interior(Add(here, ds[j]), cols, rows) {
        GrownKeepsPassage(before, g, Add(here, ds[j]));
      }
    }
    forall q | Lattice(q) && Passage(g, q) && !Passage(g0, q) && q != here
      ensures Finished(g, q, cols, rows)
    {
      if Passage(before, q) {
        GrownKeepsFinished(before, g, q, cols, rows);
      }
    }
  }

  /** Opening walls never adds walls. */
  lemma GrownKeepsWalls(g0: Grid, g1: Grid)
    requires Grown(g0, g1)
    ensures WallCells(g1) <= WallCells(g0)
  {
    forall q | q in WallCells(g1) ensures q in WallCells(g0) {
      assert g1[q.1][q.0] == WALL;
    }
  }

  /** When every direction of a permutation of `Steps` is opened from `here`, `here` is finished. */
  lemma AllStepsOpened(g: Grid, here: Cell, ds: seq<Cell>, cols: int, rows: int)
    requires |ds| == 4 && multiset(ds) == multiset(Steps)
    requires forall j :: 0 <= j < 4 ==> Opened(g, here, ds[j], cols, rows)
    ensures Finished(g, here, cols, rows)
  {
    forall d | d in Steps ensures Opened(g, here, d, cols, rows) {
      assert d in multiset(ds);
      var j :| 0 <= j < 4 && ds[j] == d;
    }
    assert (0, -2) in Steps && (0, 2) in Steps && (-2, 0) in Steps && (2, 0) in Steps;
  }

  /** `q` comes before `c` in the row-major order of `_widenPassages`. */
  predicate ScannedBefore(q: Cell, c: Cell) {
    q.1 < c.1 || (q.1 == c.1 && q.0 < c.0)
  }

  /**
   * The passage neighbours of `c` as the row-major widening scan sees them
   * when it reaches `c`: the neighbours above and to the left were scanned
   * earlier and hold their values in `g`, the grid after the scan; those
   * below and to the right come later and still hold their values in `g0`,
   * the grid before the scan.
   */
  function CountDuringScan(g0: Grid, g: Grid, c: Cell): nat {
    (if Passage(g, (c.0, c.1 - 1)) then 1 else 0) +
    (if Passage(g0, (c.0, c.1 + 1)) then 1 else 0) +
    (if Passage(g, (c.0 - 1, c.1)) then 1 else 0) +
    (if Passage(g0, (c.0 + 1, c.1)) then 1 else 0)
  }

  /**
   * A grid that agrees with `g` on the cells before `c` and with `g0` on
   * the others is the grid the scan holds when it reaches `c`; its count
   * of passage neighbours of `c` is `CountDuringScan`.
   */
  lemma CountDuringScanIsCount(g0: Grid, mid: Grid, g: Grid, c: Cell)
    requires 0 <= c.1 < |mid|
    requires forall q :: ScannedBefore(q, c) ==> (Passage(mid, q) <==> Passage(g, q))
    requires forall q :: !ScannedBefore(q, c) ==> (Passage(mid, q) <==> Passage(g0, q))
    ensures CountAdjacentPassages(mid, c.0, c.1) == CountDuringScan(g0, g, c)
  {
    assert ScannedBefore((c.0, c.1 - 1), c) && ScannedBefore((c.0 - 1, c.1), c);
    assert !ScannedBefore((c.0, c.1 + 1), c) && !ScannedBefore((c.0 + 1, c.1), c);
  }

  /** Passages only appear, so the count the scan saw is at most the final count. */
  lemma CountDuringScanAtMostFinal(g0: Grid, g: Grid, c: Cell)
    requires Grown(g0, g) && 0 <= c.1 < |g|
    ensures CountDuringScan(g0, g, c) <= CountAdjacentPassages(g, c.0, c.1)
  {
    GrownKeepsNeighbours(g0, g, c.0, c.1);
  }

  /** Every cell before `p` that the scan opened had two passage neighbours when it was reached. */
  ghost predicate WidenedBefore(g0: Grid, g: Grid, p: Cell) {
    forall c :: ScannedBefore(c, p) && Passage(g, c) && !Passage(g0, c) ==> CountDuringScan(g0, g, c) >= 2
  }

  /** No cell from `p` on has been opened yet. */
  ghost predicate UntouchedFrom(g0: Grid, g: Grid, p: Cell) {
    forall c :: !ScannedBefore(c, p) ==> (Passage(g, c) <==> Passage(g0, c))
  }

  /**
   * One cell of the widening scan: `g` is `before`, or `before` with the
   * wall `p` opened because it had two passage neighbours in `before`.
   * The scan's invariant then holds one cell further on.
   */
  lemma {:induction false} WidenStep(g0: Grid, before: Grid, g: Grid, p: Cell)
    requires WidenedBefore(g0, before, p) && UntouchedFrom(g0, before, p)
    requires 0 <= p.1 < |before|
    requires g == before ||
             (InGrid(before, p) && !Passage(before, p) && CountAdjacentPassages(before, p.0, p.1) >= 2 &&
              Passage(g, p) && forall q :: q != p ==> (Passage(g, q) <==> Passage(before, q)))
    ensures WidenedBefore(g0, g, (p.0 + 1, p.1)) && UntouchedFrom(g0, g, (p.0 + 1, p.1))
  {
    var next := (p.0 + 1, p.1);
    if g == before {
      forall c | ScannedBefore(c, next) && Passage(g, c) && !Passage(g0, c)
        ensures CountDuringScan(g0, g, c) >= 2
      {
        assert ScannedBefore(c, p);
      }
    } else {
      forall c | ScannedBefore(c, next) && Passage(g, c) && !Passage(g0, c)
        ensures CountDuringScan(g0, g, c) >= 2
      {
        if c == p {
          CountDuringScanIsCount(g0, before, g, p);
        } else {
          assert ScannedBefore(c, p);
          assert (c.0, c.1 - 1) != p && (c.0 - 1, c.1) != p;
          assert CountDuringScan(g0, g, c) == CountDuringScan(g0, before, c);
        }
      }
      forall c | !ScannedBefore(c, next) ensures Passage(g, c) <==> Passage(g0, c) {
        assert c != p && !ScannedBefore(c, p);
      }
    }
  }

  /**
   * Moving the scan position forward over cells that are still untouched
   * (the border cells between the end of one row and the start of the
   * next) keeps the scan's invariant.
   */
  lemma {:induction false} SkipUntouched(g0: Grid, g: Grid, p: Cell, q: Cell)
    requires WidenedBefore(g0, g, p) && UntouchedFrom(g0, g, p)
    requires !ScannedBefore(q, p)
    requires forall c :: ScannedBefore(c, q) && !ScannedBefore(c, p) ==> !Passage(g, c)
    ensures WidenedBefore(g0, g, q) && UntouchedFrom(g0, g, q)
  {
    forall c | !ScannedBefore(c, q) ensures Passage(g, c) <==> Passage(g0, c) {
      assert !ScannedBefore(c, p);
    }
  }

  // ---------------------------------------------------------------------
  // Row-major enumeration of cells (getPassageTiles and the scene's scans)
  // ---------------------------------------------------------------------

  /** The cells of rows r0..r1-1 and columns c0..c1-1 that `keep` selects, row by row. */
  function Scan(r0: int, r1: int, c0: int, c1: int, keep: Cell -> bool): seq<Cell>
    decreases r1 - r0
  {
    if r1 <= r0 then [] else Scan(r0, r1 - 1, c0, c1, keep) + ScanRow(r1 - 1, c0, c1, keep)
  }

  /** The cells of one row, columns c0..c1-1, that `keep` selects, left to right. */
  function ScanRow(row: int, c0: int, c1: int, keep: Cell -> bool): seq<Cell>
    decreases c1 - c0
  {
    if c1 <= c0 then []
    else ScanRow(row, c0, c1 - 1, keep) + (if keep((c1 - 1, row)) then [(c1 - 1, row)] else [])
  }

  predicate RowMajorBefore(a: Cell, b: Cell) {
    a.1 < b.1 || (a.1 == b.1 && a.0 < b.0)
  }

  ghost predicate RowMajorSorted(s: seq<Cell>) {
    forall i, j :: 0 <= i < j < |s| ==> RowMajorBefore(s[i], s[j])
  }

  lemma {:induction false} ScanRowSpec(row: int, c0: int, c1: int, keep: Cell -> bool)
    ensures forall c :: c in ScanRow(row, c0, c1, keep) <==> c.1 == row && c0 <= c.0 < c1 && keep(c)
    ensures RowMajorSorted(ScanRow(row, c0, c1, keep))
    decreases c1 - c0
  {
    if c1 > c0 {
      ScanRowSpec(row, c0, c1 - 1, keep);
    }
  }

  /**
   * The scan holds exactly the selected cells of the rectangle, each once,
   * in strictly increasing row-major order.
   */
  lemma {:induction false} ScanSpec(r0: int, r1: int, c0: int, c1: int, keep: Cell -> bool)
    ensures forall c :: c in Scan(r0, r1, c0, c1, keep) <==> r0 <= c.1 < r1 && c0 <= c.0 < c1 && keep(c)
    ensures RowMajorSorted(Scan(r0, r1, c0, c1, keep))
    decreases r1 - r0
  {
    if r1 > r0 {
      ScanSpec(r0, r1 - 1, c0, c1, keep);
      ScanRowSpec(r1 - 1, c0, c1, keep);
      var a, b := Scan(r0, r1 - 1, c0, c1, keep), ScanRow(r1 - 1, c0, c1, keep);
      forall i, j | 0 <= i < j < |a + b| ensures RowMajorBefore((a + b)[i], (a + b)[j]) {
        if j < |a| {
        } else if i >= |a| {
          assert (a + b)[i] == b[i - |a|] && (a + b)[j] == b[j - |a|];
        } else {
          assert (a + b)[i] == a[i] && a[i] in a;
          assert (a + b)[j] == b[j - |a|] && b[j - |a|] in b;
        }
      }
    }
  }

  /** `keep` for the passage tiles. */
  function PassageFilter(g: Grid): Cell -> bool {
    c => Passage(g, c)
  }

  /** The passage cells of a `cols` by `rows` grid, row by row. */
  function PassageCells(g: Grid, cols: int, rows: int): seq<Cell> {
    Scan(0, rows, 0, cols, PassageFilter(g))
  }

  /** The world-space centre of a tile. */
  function Centre(c: Cell, tileSize: real): Point {
    Point(c.0 as real * tileSize + tileSize / 2.0, c.1 as real * tileSize + tileSize / 2.0)
  }

  function Centres(cs: seq<Cell>, tileSize: real): (ps: seq<Point>)
    ensures |ps| == |cs|
  {
    seq(|cs|, i requires 0 <= i < |cs| => Centre(cs[i], tileSize))
  }

  lemma CentresSnoc(cs: seq<Cell>, c: Cell, tileSize: real)
    ensures Centres(cs + [c], tileSize) == Centres(cs, tileSize) + [Centre(c, tileSize)]
  {
  }

  /**
   * The passage list holds every passage cell of the grid exactly once, in
   * row-major order, and nothing else.
   */
  lemma PassageCellsSpec(g: Grid, cols: int, rows: int)
    requires Shaped(g, cols, rows)
    ensures forall c :: c in PassageCells(g, cols, rows) <==> Passage(g, c)
    ensures RowMajorSorted(PassageCells(g, cols, rows))
  {
    ScanSpec(0, rows, 0, cols, PassageFilter(g));
  }

  /** `getStartPosition`: the centre of cell (1, 1). */
  function GetStartPosition(tileSize: real): (p: Point)
    ensures p == Centre(Start, tileSize)
  {
    Point(1.0 * tileSize + tileSize / 2.0, 1.0 * tileSize + tileSize / 2.0)
  }

  /** The start position is one of the passage tiles once (1, 1) is open. */
  lemma StartIsPassageTile(g: Grid, cols: int, rows: int, tileSize: real)
    requires Shaped(g, cols, rows) && Passage(g, Start)
    ensures GetStartPosition(tileSize) in Centres(PassageCells(g, cols, rows), tileSize)
  {
    PassageCellsSpec(g, cols, rows);
    var cs := PassageCells(g, cols, rows);
    assert Start in cs;
    var i :| 0 <= i < |cs| && cs[i] == Start;
    assert Centres(cs, tileSize)[i] == Centre(Start, tileSize);
  }

  // ---------------------------------------------------------------------
  // The generator object
  // ---------------------------------------------------------------------

  class MazeGenerator {
    const cols: int
    const rows: int
    var grid: Grid

    ghost predicate Valid()
      reads this
    {
      Carvable(grid, cols, rows)
    }

    constructor (cols: int, rows: int)
      ensures this.cols == Normalise(cols) && this.rows == Normalise(rows)
      ensures grid == []
    {
      this.cols := Normalise(cols);
      this.rows := Normalise(rows);
      grid := [];
    }

    /**
     * `generate`: a fully walled grid, carved from (1, 1) and widened. The
     * result has the normalised shape, a closed border, every interior
     * lattice cell open, and every passage reachable from (1, 1).
     */
    method Generate(rng: RandomSource) returns (g: Grid)
      requires cols >= 3 && rows >= 3 && rng.Valid()
      modifies this, rng
      ensures g == grid && Valid()
      ensures Shaped(g, cols, rows) && Binary(g) && BorderClosed(g, cols, rows)
      ensures Passage(g, Start)
      ensures forall c :: Lattice(c) && Interior(c, cols, rows) ==> Passage(g, c)
      ensures Connected(g)
    {
      grid := AllWalls(cols, rows);
      ghost var g0 := grid;
      Carve(1, 1, Start, rng);
      forall c | Lattice(c) && Interior(c, cols, rows) ensures Passage(grid, c) {
        LatticeCovered(grid, cols, rows, c);
      }
      ghost var carved := grid;
      WidenPassages(rng);
      forall c | Lattice(c) && Interior(c, cols, rows) ensures Passage(grid, c) {
        GrownKeepsPassage(carved, grid, c);
      }
      GrownKeepsPassage(carved, grid, Start);
      g := grid;
    }

    /**
     * `_carve(cx, cy)`: open the cell, shuffle the four steps, and try each
     * in turn. A call only ever enters a cell that is still a wall; on
     * return the cell is open and every lattice cell it opened, directly or
     * through recursion, has all its interior lattice neighbours open.
     */
    method Carve(cx: int, cy: int, ghost from: Cell, rng: RandomSource)
      requires Valid() && rng.Valid()
      requires Interior((cx, cy), cols, rows) && Lattice((cx, cy))
      requires grid[cy][cx] == WALL
      requires (cx, cy) == Start || (Passage(grid, from) && Adjacent(from, (cx, cy)))
      modifies this, rng
      ensures Valid()
      ensures Grown(old(grid), grid)
      ensures Passage(grid, (cx, cy))
      ensures forall q {:trigger Finished(grid, q, cols, rows)} ::
                Lattice(q) && Passage(grid, q) && !Passage(old(grid), q) ==> Finished(grid, q, cols, rows)
      decreases WallCells(grid), 0
    {
      ghost var g0 := grid;
      var here := (cx, cy);
      OpenCell(grid, here, from, cols, rows);
      grid := Open(grid, here);

      var ds := ShuffledSteps(rng);
      var i := 0;
      while i < 4
        invariant 0 <= i <= 4
        invariant Valid() && rng.Valid()
        invariant Grown(g0, grid) && Passage(grid, here)
        invariant forall j :: 0 <= j < i ==> Opened(grid, here, ds[j], cols, rows)
        invariant forall q {:trigger Finished(grid, q, cols, rows)} ::
                    Lattice(q) && Passage(grid, q) && !Passage(g0, q) && q != here ==> Finished(grid, q, cols, rows)
      {
        GrownShrinksWalls(g0, grid, here);
        assert ds[i] in multiset(Steps);
        ghost var before := grid;
        CarveToward(here, ds[i], rng);
        GrownTrans(g0, before, grid);
        GrownKeepsPassage(before, grid, here);
        CarveLoopStep(g0, before, grid, here, ds, i, cols, rows);
        i := i + 1;
      }
      AllStepsOpened(grid, here, ds, cols, rows);
    }

    /** `_shuffle` applied to a fresh array of the four carving directions. */
    method ShuffledSteps(rng: RandomSource) returns (ds: seq<Cell>)
      requires rng.Valid()
      modifies rng
      ensures |ds| == 4 && multiset(ds) == multiset(Steps)
    {
      var dirs := new Cell[4] [(0, -2), (0, 2), (-2, 0), (2, 0)];
      assert dirs[..] == Steps;
      Shuffle(dirs, rng);
      ds := dirs[..];
    }

    /**
     * One pass of the loop in `_carve`: if the cell two steps away in
     * direction `d` is interior and still a wall, open the wall between and
     * carve from there. Afterwards that cell, if interior, is open.
     */
    method CarveToward(here: Cell, d: Cell, rng: RandomSource)
      requires Valid() && rng.Valid()
      requires Interior(here, cols, rows) && Lattice(here) && Passage(grid, here)
      requires d in Steps
      modifies this, rng
      ensures Valid()
      ensures Grown(old(grid), grid)
      ensures Opened(grid, here, d, cols, rows)
      ensures forall q {:trigger Finished(grid, q, cols, rows)} ::
                Lattice(q) && Passage(grid, q) && !Passage(old(grid), q) ==> Finished(grid, q, cols, rows)
      decreases WallCells(grid), 2
    {
      var (dx, dy) := d;
      var nx := here.0 + dx;
      var ny := here.1 + dy;
      if nx > 0 && nx < cols - 1 && ny > 0 && ny < rows - 1 && grid[ny][nx] == WALL {
        CarveThrough(here, d, rng);
      }
    }

    /**
     * The guarded branch of `_carve`'s loop: open the wall between `here`
     * and the wall cell two steps away in direction `d`, and carve from there.
     */
    method CarveThrough(here: Cell, d: Cell, rng: RandomSource)
      requires Valid() && rng.Valid()
      requires Interior(here, cols, rows) && Lattice(here) && Passage(grid, here)
      requires d in Steps && Interior(Add(here, d), cols, rows)
      requires grid[here.1 + d.1][here.0 + d.0] == WALL
      modifies this, rng
      ensures Valid()
      ensures Grown(old(grid), grid)
      ensures Passage(grid, Add(here, d))
      ensures forall q {:trigger Finished(grid, q, cols, rows)} ::
                Lattice(q) && Passage(grid, q) && !Passage(old(grid), q) ==> Finished(grid, q, cols, rows)
      decreases WallCells(grid), 1
    {
      var (dx, dy) := d;
      var nx := here.0 + dx;
      var ny := here.1 + dy;
      CarveStepShape(here, d, cols, rows);
      var w := (here.0 + dx / 2, here.1 + dy / 2);
      ghost var before := grid;
      OpenCell(grid, w, here, cols, rows);
      grid := Open(grid, w);
      GrownKeepsWalls(before, grid);
      assert Valid() && Passage(grid, w);
      assert grid[ny][nx] == WALL by {
        assert InGrid(before, (nx, ny)) && (nx, ny) != w;
      }
      Carve(nx, ny, w, rng);
      GrownTrans(before, Open(before, w), grid);
    }

    /** `_shuffle`: Fisher-Yates with `Math.floor(Math.random() * (i + 1))`, in place. */
    method Shuffle(a: array<Cell>, rng: RandomSource)
      requires rng.Valid()
      modifies a, rng
      ensures multiset(a[..]) == multiset(old(a[..]))
    {
      var i := a.Length - 1;
      while i > 0
        invariant -1 <= i < a.Length
        invariant multiset(a[..]) == multiset(old(a[..]))
      {
        var r := rng.Next();
        var j := Below(r, i + 1);
        a[i], a[j] := a[j], a[i];
        i := i - 1;
      }
    }

    /**
     * `_widenPassages`: in row-major order over the interior, a wall that the
     * random draw selects (probability 0.30) is opened when at that moment at
     * least two of its neighbours are passages. Nothing is ever closed.
     */
    method WidenPassages(rng: RandomSource)
      requires Valid() && rng.Valid() && cols >= 3 && rows >= 3
      modifies this, rng
      ensures Valid()
      ensures Grown(old(grid), grid)
      ensures forall c :: Passage(grid, c) && !Passage(old(grid), c) ==>
                Interior(c, cols, rows) && CountDuringScan(old(grid), grid, c) >= 2
    {
      ghost var g0 := grid;
      var y := 1;
      while y < rows - 1
        invariant 1 <= y <= rows - 1
        invariant Valid() && Grown(g0, grid)
        invariant WidenedBefore(g0, grid, (1, y)) && UntouchedFrom(g0, grid, (1, y))
      {
        var x := 1;
        while x < cols - 1
          invariant 1 <= x <= cols - 1
          invariant Valid() && Grown(g0, grid)
          invariant WidenedBefore(g0, grid, (x, y)) && UntouchedFrom(g0, grid, (x, y))
        {
          ghost var before := grid;
          WidenCell(x, y, g0, rng);
          WidenStep(g0, before, grid, (x, y));
          x := x + 1;
        }
        SkipBorder(g0, grid, y);
        y := y + 1;
      }
      WidenDone(g0, grid);
    }

    /** The border cells after row `y` and before row `y + 1` are walls, so the scan skips them. */
    lemma SkipBorder(g0: Grid, g: Grid, y: int)
      requires Carvable(g, cols, rows) && 1 <= y < rows - 1
      requires WidenedBefore(g0, g, (cols - 1, y)) && UntouchedFrom(g0, g, (cols - 1, y))
      ensures WidenedBefore(g0, g, (1, y + 1)) && UntouchedFrom(g0, g, (1, y + 1))
    {
      forall c | ScannedBefore(c, (1, y + 1)) && !ScannedBefore(c, (cols - 1, y)) ensures !Passage(g, c) {
        assert !Interior(c, cols, rows);
      }
      SkipUntouched(g0, g, (cols - 1, y), (1, y + 1));
    }

    /** At the end of the scan every opened cell is interior and lies before the last row. */
    lemma WidenDone(g0: Grid, g: Grid)
      requires Carvable(g, cols, rows) && rows >= 3
      requires WidenedBefore(g0, g, (1, rows - 1)) && UntouchedFrom(g0, g, (1, rows - 1))
      ensures forall c :: Passage(g, c) && !Passage(g0, c) ==>
                Interior(c, cols, rows) && CountDuringScan(g0, g, c) >= 2
    {
      forall c | Passage(g, c) && !Passage(g0, c)
        ensures Interior(c, cols, rows) && CountDuringScan(g0, g, c) >= 2
      {
        assert Interior(c, cols, rows);
        assert ScannedBefore(c, (1, rows - 1));
      }
    }

    /**
     * One cell of `_widenPassages`: a wall is opened when the draw is below
     * 0.30 and at least two of its neighbours are passages at that moment;
     * otherwise the grid is left as it was.
     */
    method WidenCell(x: int, y: int, ghost g0: Grid, rng: RandomSource)
      requires Valid() && rng.Valid() && Interior((x, y), cols, rows)
      requires Grown(g0, grid)
      modifies this, rng
      ensures Valid() && Grown(g0, grid) && Grown(old(grid), grid)
      ensures grid == old(grid) ||
              (old(grid)[y][x] == WALL && CountAdjacentPassages(old(grid), x, y) >= 2 &&
               Passage(grid, (x, y)) && forall q :: q != (x, y) ==> (Passage(grid, q) <==> Passage(old(grid), q)))
      ensures grid == old(grid) || grid == Open(old(grid), (x, y))
      ensures (old(grid)[y][x] == WALL && rng.rolls(old(rng.draws)) < WIDEN_CHANCE &&
               CountAdjacentPassages(old(grid), x, y) >= 2) ==> grid == Open(old(grid), (x, y))
      ensures grid != old(grid) ==> rng.rolls(old(rng.draws)) < WIDEN_CHANCE
      ensures rng.draws == old(rng.draws) + (if old(grid)[y][x] == WALL then 1 else 0)
    {
      if grid[y][x] == WALL {
        var r := rng.Next();
        if r < WIDEN_CHANCE {
          var adj := CountAdjacentPassages(grid, x, y);
          if adj >= 2 {
            ghost var before := grid;
            ghost var p := SomeOpenNeighbour(grid, x, y);
            OpenCell(grid, (x, y), p, cols, rows);
            grid := Open(grid, (x, y));
            GrownTrans(g0, before, grid);
          }
        }
      }
    }

    /** `getPassageTiles`: the centre of every passage, row by row. */
    method GetPassageTiles(tileSize: real) returns (tiles: seq<Point>)
      requires Shaped(grid, cols, rows) && cols >= 0
      ensures tiles == Centres(PassageCells(grid, cols, rows), tileSize)
    {
      tiles := [];
      var row := 0;
      while row < rows
        invariant 0 <= row <= rows
        invariant tiles == Centres(Scan(0, row, 0, cols, PassageFilter(grid)), tileSize)
      {
        var col := 0;
        while col < cols
          invariant 0 <= col <= cols
          invariant tiles == Centres(Scan(0, row, 0, cols, PassageFilter(grid)) +
                                     ScanRow(row, 0, col, PassageFilter(grid)), tileSize)
        {
          ghost var keep := PassageFilter(grid);
          ghost var done := Scan(0, row, 0, cols, keep) + ScanRow(row, 0, col, keep);
          assert ScanRow(row, 0, col + 1, keep) ==
                 ScanRow(row, 0, col, keep) + (if keep((col, row)) then [(col, row)] else []);
          assert keep((col, row)) <==> grid[row][col] == PASSAGE;
          if grid[row][col] == PASSAGE {
            CentresSnoc(done, (col, row), tileSize);
            assert done + [(col, row)] == Scan(0, row, 0, cols, keep) + ScanRow(row, 0, col + 1, keep);
            tiles := tiles + [Centre((col, row), tileSize)];
          } else {
            assert ScanRow(row, 0, col + 1, keep) == ScanRow(row, 0, col, keep);
          }
          col := col + 1;
        }
        row := row + 1;
      }
    }
  }
}
