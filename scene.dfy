/**
 * The gameplay scene of candy-run: it owns the maze grid, the player and the
 * worm, lays out wall bodies and candies when it is created, counts the
 * candies collected with a rising pickup note, and on each frame moves the
 * player and the worm and bounces a caught player to a far-away passage.
 */
module Scene {
  import opened Geometry
  import opened Randomness
  import opened Maze
  import opened Pursuit
  import opened Avatar

  /** The scene's tile size in pixels and maze size in tiles (both odd). */
  const TILE: real := 64.0
  const MAZE_COLS: int := 21
  const MAZE_ROWS: int := 21
  /** Pickup notes in Hz, the C major scale from middle C. */
  const CANDY_PITCHES: seq<int> := [261, 294, 329, 349, 392, 440, 494, 523]
  /** The candy pastels of the wall tiles, cycled in row-major order. */
  const WALL_COLORS: seq<int> := [0xff88aa, 0xffaa66, 0xffdd88, 0x88ddff, 0xcc88ff]
  const ITEM_KEYS: seq<string> := ["item1", "item2", "item3", "item4", "item5"]
  /** Body segments of the scene's worm. */
  const WORM_BODY: nat := 4

  datatype Candy = Candy(position: Point, key: string)

  /** A static physics zone of a wall tile, and the colour of the tile drawn under it. */
  datatype WallBody = WallBody(centre: Point, size: real, color: int)

  // ---------------------------------------------------------------------
  // Pickup pitch
  // ---------------------------------------------------------------------

  /** The pitch index after one more candy: one up, but never past the last entry. */
  function NextPitchIndex(i: int): (j: int)
    requires 0 <= i < |CANDY_PITCHES|
    ensures 1 <= j < |CANDY_PITCHES|
    ensures j == i + 1 || (j == i && i == |CANDY_PITCHES| - 1)
  {
    if i + 1 < |CANDY_PITCHES| - 1 then i + 1 else |CANDY_PITCHES| - 1
  }

  /** The pitch index after `k` candies collected since the last reset. */
  function IndexAfter(k: nat): (i: int)
    ensures 0 <= i < |CANDY_PITCHES|
  {
    if k == 0 then 0 else NextPitchIndex(IndexAfter(k - 1))
  }

  /**
   * The k-th candy of a run (counting from 1) plays note min(k, 7) - 1:
   * the notes climb one step per candy and then repeat 494 Hz. The last
   * note of the scale, 523 Hz, is never played, because the index stops at
   * 7 and the note played is the one below it.
   */
  lemma {:induction false} PitchRun(k: nat)
    requires k >= 1
    ensures IndexAfter(k) == if k < 7 then k else 7
    ensures CANDY_PITCHES[IndexAfter(k) - 1] < 523
  {
    if k > 1 {
      PitchRun(k - 1);
    }
  }

  /** The notes of a run never go down. */
  lemma PitchesRise(j: nat, k: nat)
    requires 1 <= j <= k
    ensures CANDY_PITCHES[IndexAfter(j) - 1] <= CANDY_PITCHES[IndexAfter(k) - 1]
  {
    PitchRun(j);
    PitchRun(k);
  }

  // ---------------------------------------------------------------------
  // Candies
  // ---------------------------------------------------------------------

  /** `Math.floor(n / 4)`: a quarter of the passage tiles get a candy. */
  function CandyCount(n: nat): (c: nat)
    ensures 4 * c <= n < 4 * c + 4
  {
    n / 4
  }

  /** Candies on the first `count` shuffled tiles, with the item keys cycled over them. */
  function PlacedPrefix(shuffled: seq<Point>, count: nat): (cs: seq<Candy>)
    requires count <= |shuffled|
    ensures |cs| == count
  {
    seq(count, i requires 0 <= i < count => Candy(shuffled[i], ITEM_KEYS[i % |ITEM_KEYS|]))
  }

  /** The candies `_placeCandies` creates from a shuffled copy of the passage tiles. */
  function Placement(shuffled: seq<Point>): seq<Candy> {
    PlacedPrefix(shuffled, CandyCount(|shuffled|))
  }

  /**
   * Candy i sits on the i-th shuffled tile and uses key `item(i mod 5 + 1)`;
   * a quarter of the tiles (rounded down) get one; and since the shuffled
   * list is a permutation of the tiles, the candies occupy distinct copies
   * of tiles, never more than the list holds.
   */
  lemma PlacementSpec(tiles: seq<Point>, shuffled: seq<Point>)
    requires multiset(shuffled) == multiset(tiles)
    ensures var cs := Placement(shuffled);
            |cs| == CandyCount(|tiles|) &&
            (forall i :: 0 <= i < |cs| ==> cs[i].key == ITEM_KEYS[i % 5] && cs[i].position == shuffled[i]) &&
            (forall i :: 0 <= i < |cs| ==> cs[i].position in tiles) &&
            multiset(seq(|cs|, i requires 0 <= i < |cs| => cs[i].position)) <= multiset(tiles)
  {
    assert |shuffled| == |tiles| by {
      assert |multiset(shuffled)| == |multiset(tiles)|;
    }
    var count := CandyCount(|tiles|);
    var cs := Placement(shuffled);
    var ps := seq(|cs|, i requires 0 <= i < |cs| => cs[i].position);
    assert ps == shuffled[..count];
    assert shuffled == shuffled[..count] + shuffled[count..];
    assert multiset(shuffled) == multiset(shuffled[..count]) + multiset(shuffled[count..]);
    forall i | 0 <= i < |cs| ensures cs[i].position in tiles {
      assert shuffled[i] in multiset(shuffled);
    }
  }

  /**
   * `_placeCandies` given the shuffled copy of the tiles: a candy on each
   * of the first quarter of them, with the item keys cycled.
   */
  method PlaceCandies(passageTiles: seq<Point>, shuffled: seq<Point>) returns (candies: seq<Candy>)
    requires multiset(shuffled) == multiset(passageTiles)
    ensures candies == Placement(shuffled)
  {
    assert |shuffled| == |passageTiles| by {
      assert |multiset(shuffled)| == |multiset(passageTiles)|;
    }
    var count := |passageTiles| / 4;
    candies := [];
    var i := 0;
    while i < count
      invariant 0 <= i <= count
      invariant candies == PlacedPrefix(shuffled, i)
    {
      var tile := shuffled[i];
      var key := ITEM_KEYS[i % |ITEM_KEYS|];
      candies := candies + [Candy(tile, key)];
      i := i + 1;
    }
  }

  // ---------------------------------------------------------------------
  // Wall bodies
  // ---------------------------------------------------------------------

  /** `keep` for the wall cells. */
  function WallFilter(g: Grid): Cell -> bool {
    c => InGrid(g, c) && g[c.1][c.0] == WALL
  }

  /** The colour of wall tile (col, row): the palette cycled in row-major order. */
  function WallColor(row: int, col: int, cols: int): (color: int)
    ensures color in WALL_COLORS
  {
    WALL_COLORS[(row * cols + col) % |WALL_COLORS|]
  }

  /**
   * Side by side wall tiles never share a colour; nor do stacked ones, as
   * long as the row length is not a multiple of the palette size (21 is not).
   */
  lemma NeighbourColours(row: int, col: int, cols: int)
    ensures WallColor(row, col, cols) != WallColor(row, col + 1, cols)
    ensures cols % 5 != 0 ==> WallColor(row, col, cols) != WallColor(row + 1, col, cols)
  {
    var n := row * cols + col;
    assert (row + 1) * cols + col == n + cols;
    ShiftChangesResidue(n, 1);
    if cols % 5 != 0 {
      ShiftChangesResidue(n, cols);
    }
  }

  lemma ShiftChangesResidue(n: int, m: int)
    requires m % 5 != 0
    ensures (n + m) % 5 != n % 5
  {
    var q, r := n / 5, n % 5;
    var p, s := m / 5, m % 5;
    assert n + m == 5 * (q + p) + (r + s);
  }

  /** The static zone of wall cell `c`: centred on the tile, one tile square. */
  function Body(c: Cell, cols: int, tile: real): WallBody {
    WallBody(Centre(c, tile), tile, WallColor(c.1, c.0, cols))
  }

  function Bodies(cs: seq<Cell>, cols: int, tile: real): (bs: seq<WallBody>)
    ensures |bs| == |cs|
  {
    seq(|cs|, i requires 0 <= i < |cs| => Body(cs[i], cols, tile))
  }

  lemma BodiesSnoc(cs: seq<Cell>, c: Cell, cols: int, tile: real)
    ensures Bodies(cs + [c], cols, tile) == Bodies(cs, cols, tile) + [Body(c, cols, tile)]
  {
  }

  /** The wall cells of the grid, row by row. */
  function WallScan(g: Grid, cols: int, rows: int): seq<Cell> {
    Scan(0, rows, 0, cols, WallFilter(g))
  }

  /**
   * The wall scan lists every wall cell of the grid once, in row-major
   * order, and nothing else; so `_buildMaze` makes exactly one body per
   * wall cell.
   */
  lemma WallScanSpec(g: Grid, cols: int, rows: int)
    requires Shaped(g, cols, rows)
    ensures forall c :: c in WallScan(g, cols, rows) <==> c in WallCells(g)
    ensures forall i, j :: 0 <= i < j < |WallScan(g, cols, rows)| ==> WallScan(g, cols, rows)[i] != WallScan(g, cols, rows)[j]
  {
    var s := WallScan(g, cols, rows);
    ScanSpec(0, rows, 0, cols, WallFilter(g));
    forall c ensures c in s <==> c in WallCells(g) {
      if c in s {
        assert WallFilter(g)(c);
        assert c == (c.0, c.1);
      }
    }
  }

  /** The wall bodies of a grid, built by the nested loops of `_buildMaze`. */
  method WallBodiesOf(g: Grid, cols: int, rows: int, tile: real) returns (bodies: seq<WallBody>)
    requires Shaped(g, cols, rows) && cols >= 0
    ensures bodies == Bodies(WallScan(g, cols, rows), cols, tile)
  {
    bodies := [];
    var row := 0;
    while row < rows
      invariant 0 <= row <= rows
      invariant bodies == Bodies(Scan(0, row, 0, cols, WallFilter(g)), cols, tile)
    {
      var col := 0;
      while col < cols
        invariant 0 <= col <= cols
        invariant bodies == Bodies(Scan(0, row, 0, cols, WallFilter(g)) + ScanRow(row, 0, col, WallFilter(g)), cols, tile)
      {
        ghost var keep := WallFilter(g);
        ghost var done := Scan(0, row, 0, cols, keep) + ScanRow(row, 0, col, keep);
        assert ScanRow(row, 0, col + 1, keep) ==
               ScanRow(row, 0, col, keep) + (if keep((col, row)) then [(col, row)] else []);
        var wall, body := WallTile(g, cols, tile, col, row);
        if wall {
          BodiesSnoc(done, (col, row), cols, tile);
          assert done + [(col, row)] == Scan(0, row, 0, cols, keep) + ScanRow(row, 0, col + 1, keep);
          bodies := bodies + [body];
        }
        col := col + 1;
      }
      assert Scan(0, row + 1, 0, cols, WallFilter(g)) ==
             Scan(0, row, 0, cols, WallFilter(g)) + ScanRow(row, 0, cols, WallFilter(g));
      row := row + 1;
    }
  }

  /** One cell of `_buildMaze`: whether it is a wall, and the zone it would get. */
  method WallTile(g: Grid, cols: int, tile: real, col: int, row: int) returns (wall: bool, body: WallBody)
    requires 0 <= row < |g| && 0 <= col < |g[row]|
    ensures wall == WallFilter(g)((col, row))
    ensures body == Body((col, row), cols, tile)
  {
    wall := g[row][col] == WALL;
    var x := col as real * tile;
    var y := row as real * tile;
    var color := WALL_COLORS[(row * cols + col) % |WALL_COLORS|];
    body := WallBody(Point(x + tile / 2.0, y + tile / 2.0), tile, color);
  }

  // ---------------------------------------------------------------------
  // Safe landing tiles
  // ---------------------------------------------------------------------

  /** A bounced player lands more than five tiles from the worm's head. */
  function SafeDistance(tile: real): real {
    tile * 5.0
  }

  /** `keep` for a safe landing tile: a passage whose centre is more than `SafeDistance` from `head`. */
  function SafeFilter(g: Grid, head: Point, tile: real): Cell -> bool {
    c => Passage(g, c) && SqDist(head, Centre(c, tile)) > SafeDistance(tile) * SafeDistance(tile)
  }

  /** The candidate landing cells of `_bouncePlayerToSafety`, row by row, skipping the border. */
  function SafeCells(g: Grid, head: Point, cols: int, rows: int, tile: real): seq<Cell> {
    Scan(1, rows - 1, 1, cols - 1, SafeFilter(g, head, tile))
  }

  /**
   * The candidates are exactly the interior passage cells whose centre is
   * more than five tiles from the worm's head, each once, in row-major order.
   */
  lemma SafeCellsSpec(g: Grid, head: Point, cols: int, rows: int, tile: real)
    ensures forall c :: c in SafeCells(g, head, cols, rows, tile) <==>
              Interior(c, cols, rows) && Passage(g, c) &&
              SqDist(head, Centre(c, tile)) > SafeDistance(tile) * SafeDistance(tile)
    ensures RowMajorSorted(SafeCells(g, head, cols, rows, tile))
  {
    ScanSpec(1, rows - 1, 1, cols - 1, SafeFilter(g, head, tile));
  }

  /**
   * Comparing squares is the source's square-root test: the true distance
   * from the head to a candidate's centre exceeds five tiles.
   */
  lemma SafeMeansFar(g: Grid, head: Point, cols: int, rows: int, tile: real, c: Cell, d: real)
    requires tile >= 0.0
    requires c in SafeCells(g, head, cols, rows, tile)
    requires d >= 0.0 && d * d == SqDist(head, Centre(c, tile))
    ensures d > SafeDistance(tile)
  {
    ScanSpec(1, rows - 1, 1, cols - 1, SafeFilter(g, head, tile));
    SquaredComparison(d, SqDist(head, Centre(c, tile)), SafeDistance(tile));
  }

  /** One cell of `_bouncePlayerToSafety`'s scan: whether it is a safe landing tile, and its centre. */
  method SafeTile(g: Grid, head: Point, tile: real, col: int, row: int) returns (safe: bool, centre: Point)
    requires 0 <= row < |g| && 0 <= col < |g[row]|
    ensures safe == SafeFilter(g, head, tile)((col, row))
    ensures centre == Centre((col, row), tile)
  {
    var wx := col as real * tile + tile / 2.0;
    var wy := row as real * tile + tile / 2.0;
    centre := Point(wx, wy);
    safe := false;
    if g[row][col] == PASSAGE {
      var dx := wx - head.x;
      var dy := wy - head.y;
      safe := dx * dx + dy * dy > SafeDistance(tile) * SafeDistance(tile);
    }
  }

  /** The candidate list of `_bouncePlayerToSafety`: safe tile centres, row by row. */
  method SafeTilesOf(g: Grid, head: Point, cols: int, rows: int, tile: real) returns (passages: seq<Point>)
    requires Shaped(g, cols, rows) && cols >= 2 && rows >= 2
    ensures passages == Centres(SafeCells(g, head, cols, rows, tile), tile)
  {
    passages := [];
    var row := 1;
    while row < rows - 1
      invariant 1 <= row <= rows - 1
      invariant passages == Centres(Scan(1, row, 1, cols - 1, SafeFilter(g, head, tile)), tile)
    {
      var col := 1;
      while col < cols - 1
        invariant 1 <= col <= cols - 1
        invariant passages == Centres(Scan(1, row, 1, cols - 1, SafeFilter(g, head, tile)) +
                                      ScanRow(row, 1, col, SafeFilter(g, head, tile)), tile)
      {
        ghost var keep := SafeFilter(g, head, tile);
        ghost var done := Scan(1, row, 1, cols - 1, keep) + ScanRow(row, 1, col, keep);
        assert ScanRow(row, 1, col + 1, keep) ==
               ScanRow(row, 1, col, keep) + (if keep((col, row)) then [(col, row)] else []);
        var safe, centre := SafeTile(g, head, tile, col, row);
        if safe {
          CentresSnoc(done, (col, row), tile);
          assert done + [(col, row)] == Scan(1, row, 1, cols - 1, keep) + ScanRow(row, 1, col + 1, keep);
          passages := passages + [centre];
        }
        col := col + 1;
      }
      assert Scan(1, row + 1, 1, cols - 1, SafeFilter(g, head, tile)) ==
             Scan(1, row, 1, cols - 1, SafeFilter(g, head, tile)) + ScanRow(row, 1, cols - 1, SafeFilter(g, head, tile));
      row := row + 1;
    }
  }

  // ---------------------------------------------------------------------
  // Choosing the worm's start
  // ---------------------------------------------------------------------

  /**
   * `_getFarTile`: the first tile at the greatest distance from `nearPos`
   * (the first tile when every distance is zero). Distances are compared
   * by their squares, which orders them the same way.
   */
  method GetFarTile(nearPos: Point, tiles: seq<Point>) returns (best: Point)
    requires |tiles| > 0
    ensures exists k :: 0 <= k < |tiles| && best == tiles[k] &&
              (forall j :: 0 <= j < |tiles| ==> SqDist(nearPos, tiles[j]) <= SqDist(nearPos, tiles[k])) &&
              (forall j :: 0 <= j < k ==> SqDist(nearPos, tiles[j]) < SqDist(nearPos, tiles[k]))
  {
    best := tiles[0];
    var bestSq := 0.0;
    ghost var k := 0;
    var i := 0;
    while i < |tiles|
      invariant 0 <= i <= |tiles| && 0 <= k < |tiles| && (k < i || k == 0)
      invariant best == tiles[k] && bestSq >= 0.0 && (i == 0 ==> bestSq == 0.0)
      invariant i > 0 ==> bestSq == SqDist(nearPos, tiles[k])
      invariant forall j :: 0 <= j < i ==> SqDist(nearPos, tiles[j]) <= bestSq
      invariant forall j :: 0 <= j < k ==> SqDist(nearPos, tiles[j]) < bestSq
    {
      var t := tiles[i];
      var d := SqDist(nearPos, t);
      if d > bestSq {
        bestSq := d;
        best := t;
        k := i;
      } else if i == 0 {
        assert d == 0.0 && bestSq == d;
      }
      i := i + 1;
    }
    assert best == tiles[k];
  }

  /**
   * The layout half of `create`: a generated maze of `cols` x `rows`
   * cells, its wall bodies, the candies on a shuffled copy of its passage
   * tiles, and the worm's start, the passage tile farthest from the start
   * tile. `shuffle` stands for the library shuffle, a permutation of its
   * argument.
   */
  method Layout(rng: RandomSource, cols: int, rows: int, tile: real, shuffle: seq<Point> -> seq<Point>)
    returns (grid: Grid, bodies: seq<WallBody>, candies: seq<Candy>, wormStart: Point)
    requires rng.Valid() && cols >= 3 && rows >= 3 && cols % 2 == 1 && rows % 2 == 1
    requires forall s :: multiset(shuffle(s)) == multiset(s)
    modifies rng
    ensures Carvable(grid, cols, rows) && Passage(grid, Start)
    ensures forall c :: Lattice(c) && Interior(c, cols, rows) ==> Passage(grid, c)
    ensures bodies == Bodies(WallScan(grid, cols, rows), cols, tile)
    ensures candies == Placement(shuffle(Centres(PassageCells(grid, cols, rows), tile)))
    ensures wormStart in Centres(PassageCells(grid, cols, rows), tile)
    ensures forall t :: t in Centres(PassageCells(grid, cols, rows), tile) ==>
              SqDist(GetStartPosition(tile), t) <= SqDist(GetStartPosition(tile), wormStart)
  {
    var gen := new MazeGenerator(cols, rows);
    grid := gen.Generate(rng);
    var tiles := gen.GetPassageTiles(tile);
    bodies := WallBodiesOf(grid, cols, rows, tile);
    candies := PlaceCandies(tiles, shuffle(tiles));
    StartIsPassageTile(grid, cols, rows, tile);
    wormStart := GetFarTile(GetStartPosition(tile), tiles);
  }

  // ---------------------------------------------------------------------
  // The scene
  // ---------------------------------------------------------------------

  class GameScene {
    const tile: real
    const mazeCols: int
    const mazeRows: int
    var score: int
    var candyPitchIndex: int
    var mazeGrid: Grid
    var wallBodies: seq<WallBody>
    var candies: seq<Candy>
    const player: Player
    const worm: Worm

    ghost predicate Valid()
      reads this, worm
    {
      tile > 0.0 && mazeCols >= 3 && mazeRows >= 3 && Shaped(mazeGrid, mazeCols, mazeRows) &&
      0 <= candyPitchIndex < |CANDY_PITCHES| &&
      worm.Valid() && worm.tileSize == tile && worm.bodyCount == WORM_BODY
    }

    /** The passage tiles that are safe landing spots while the worm's head is at `head`. */
    ghost function SafeTiles(head: Point): seq<Point>
      reads this
    {
      Centres(SafeCells(mazeGrid, head, mazeCols, mazeRows, tile), tile)
    }

    /**
     * The scene's constructor followed by `create`: generate the maze, lay
     * out the wall bodies and the candies, put the player on the start tile
     * and the worm on the passage tile farthest from it. The source fixes
     * `tileSize` at `TILE` and the maze at `MAZE_COLS` x `MAZE_ROWS`; the
     * model takes any positive tile size and any odd maze size from 3 up.
     * `shuffle` stands for the library shuffle, a permutation of its argument.
     */
    constructor (tileSize: real, cols: int, rows: int, rng: RandomSource, shuffle: seq<Point> -> seq<Point>)
      requires tileSize > 0.0 && cols >= 3 && rows >= 3 && cols % 2 == 1 && rows % 2 == 1
      requires rng.Valid()
      requires forall s :: multiset(shuffle(s)) == multiset(s)
      modifies rng
      ensures Valid() && tile == tileSize && mazeCols == cols && mazeRows == rows
      ensures score == 0 && candyPitchIndex == 0 && Passage(mazeGrid, Start)
      ensures Carvable(mazeGrid, mazeCols, mazeRows)
      ensures forall c :: Lattice(c) && Interior(c, mazeCols, mazeRows) ==> Passage(mazeGrid, c)
      ensures wallBodies == Bodies(WallScan(mazeGrid, mazeCols, mazeRows), mazeCols, tile)
      ensures candies == Placement(shuffle(Centres(PassageCells(mazeGrid, mazeCols, mazeRows), tile)))
      ensures player.position == GetStartPosition(tile)
      ensures worm.head in Centres(PassageCells(mazeGrid, mazeCols, mazeRows), tile) && !worm.invincible
      ensures forall t :: t in Centres(PassageCells(mazeGrid, mazeCols, mazeRows), tile) ==>
                SqDist(player.position, t) <= SqDist(player.position, worm.head)
    {
      var t := tileSize;
      tile, mazeCols, mazeRows := t, cols, rows;
      var grid, bodies, placed, wormStart := Layout(rng, cols, rows, t, shuffle);
      var start := GetStartPosition(t);
      player := new Player(start.x, start.y, t);
      worm := new Worm(wormStart.x, wormStart.y, t, WORM_BODY);
      score := 0;
      candyPitchIndex := 0;
      mazeGrid := grid;
      wallBodies := bodies;
      candies := placed;
    }

    /**
     * `_collectCandy`'s counters: one more point, the pitch index one step
     * up but capped at the last entry, and the note below the new index is
     * the one played.
     */
    method CollectCandy() returns (pitch: int)
      requires Valid()
      modifies this
      ensures Valid()
      ensures score == old(score) + 1
      ensures candyPitchIndex == NextPitchIndex(old(candyPitchIndex))
      ensures 1 <= candyPitchIndex < |CANDY_PITCHES| && pitch == CANDY_PITCHES[candyPitchIndex - 1]
      ensures mazeGrid == old(mazeGrid) && wallBodies == old(wallBodies) && candies == old(candies)
    {
      score := score + 1;
      candyPitchIndex := if candyPitchIndex + 1 < |CANDY_PITCHES| - 1 then candyPitchIndex + 1
                         else |CANDY_PITCHES| - 1;
      pitch := CANDY_PITCHES[candyPitchIndex - 1];
    }

    /** The 2000 ms pitch-reset timer, when it fires. */
    method PitchReset()
      requires Valid()
      modifies this
      ensures Valid()
      ensures candyPitchIndex == 0 && score == old(score)
      ensures mazeGrid == old(mazeGrid) && wallBodies == old(wallBodies) && candies == old(candies)
    {
      candyPitchIndex := 0;
    }

    /**
     * `_bouncePlayerToSafety`: with no safe tile the player stays put;
     * otherwise a random one of them (`GetRandom`, the index
     * `floor(r * n)`) becomes the player's position.
     */
    method BouncePlayerToSafety(rng: RandomSource)
      requires Valid() && rng.Valid()
      modifies player, rng
      ensures rng.Valid()
      ensures var safe := SafeTiles(worm.head);
              (safe == [] ==> player.position == old(player.position) && player.velocity == old(player.velocity)) &&
              (safe != [] ==> player.position == safe[Below(rng.rolls(old(rng.draws)), |safe|)] &&
                              player.velocity == (0.0, 0.0))
      ensures player.facingRight == old(player.facingRight) && player.isMoving == old(player.isMoving)
      ensures player.emitting == old(player.emitting)
    {
      var passages := SafeTilesOf(mazeGrid, worm.head, mazeCols, mazeRows, tile);
      if |passages| == 0 {
        return;
      }
      var r := rng.Next();
      var safe := passages[Below(r, |passages|)];
      player.TeleportToSafety(safe);
    }

    /**
     * `update`: the player reads the keys, the worm steps toward the
     * player, and if the worm then catches the player it turns invincible
     * and the player is bounced to safety. `root` is `Math.sqrt`.
     */
    method Update(cursors: Keys, wasd: Keys, rng: RandomSource, root: real -> real) returns (caught: bool)
      requires Valid() && rng.Valid()
      requires forall x {:trigger root(x)} :: x >= 0.0 ==> root(x) >= 0.0 && root(x) * root(x) == x
      modifies player, worm, rng
      ensures Valid() && rng.Valid()
      ensures var p := old(player.position);
              worm.head == HeadStep(old(worm.head), p, root(SqDist(old(worm.head), p)), Pursuit.SPEED) &&
              (caught <==> !old(worm.invincible) && SqDist(worm.head, p) < worm.catchRadius * worm.catchRadius) &&
              (!caught ==> player.position == p)
      ensures worm.invincible == (old(worm.invincible) || caught)
      ensures player.facingRight == (if RightHeld(cursors, wasd) then true
                                     else if LeftHeld(cursors, wasd) then false else old(player.facingRight))
      ensures caught && SafeTiles(worm.head) != [] ==> player.position in SafeTiles(worm.head)
      ensures SafeTiles(worm.head) == [] ==> player.position == old(player.position)
      ensures worm.past == [worm.head] + old(worm.past)
      ensures worm.history == [worm.head] + old(worm.history)[..worm.historySize - 1]
      ensures forall i :: 0 <= i < worm.bodyCount ==> worm.bodyParts[i] == worm.Ago((i + 1) * Pursuit.SEGMENT_GAP)
      ensures worm.tail == worm.Ago(worm.historySize - 1)
      ensures !caught || SafeTiles(worm.head) == [] ==> player.velocity == Velocity(cursors, wasd)
      ensures caught && SafeTiles(worm.head) != [] ==> player.velocity == (0.0, 0.0)
      ensures player.isMoving <==> LeftHeld(cursors, wasd) || RightHeld(cursors, wasd) ||
                                   UpHeld(cursors, wasd) || DownHeld(cursors, wasd)
      ensures player.emitting == player.isMoving
    {
      player.Update(cursors, wasd);
      var target := player.position;
      var dist := root(SqDist(worm.head, target));
      worm.Update(target, dist);
      var catchDist := root(SqDist(worm.head, target));
      caught := worm.IsCatching(target, catchDist);
      if caught {
        worm.OnCatch();
        BouncePlayerToSafety(rng);
      }
    }
  }
}
