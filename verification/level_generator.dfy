/** The procedural level generator of level_generator.py: rooms carved into a
    tile grid from a 4 x 3 partition, L-shaped corridors between consecutive
    rooms, checkpoints, the portal, and enemy positions found by rejection
    sampling. Draws of Python's `random` come from an `Rng`. */
module LevelGeneration {
  import opened Settings
  import opened Wrappers
  import opened Random

  /** A tile coordinate (x, y); the grid is indexed `tiles[x, y]`. */
  type TilePos = (int, int)
  /** A cell of the room partition, as (row, col). */
  type Cell = (int, int)

  const GridCols: int := 4
  const GridRows: int := 3
  const EnemyPlacementAttempts: int := 50

  function Min(a: int, b: int): int { if a <= b then a else b }
  function Max(a: int, b: int): int { if a <= b then b else a }

  /** n * n, built up by odd numbers; SquareIsProduct relates the two. The
      recursive form keeps the distance tests linear until a proof asks for
      the product. */
  function Sq(n: int): nat
    decreases if n < 0 then 1 - n else n
  {
    if n < 0 then Sq(-n) else if n == 0 then 0 else Sq(n - 1) + 2 * n - 1
  }

  lemma {:induction false} SquareIsProduct(n: int)
    ensures Sq(n) == n * n
    decreases if n < 0 then 1 - n else n
  {
    if n < 0 {
      SquareIsProduct(-n);
    } else if n > 0 {
      SquareIsProduct(n - 1);
    }
  }

  /** Squared distance between two tile coordinates. */
  function TileDistSq(p: TilePos, q: TilePos): int
  {
    Sq(p.0 - q.0) + Sq(p.1 - q.1)
  }

  lemma TileDistSqSymmetric(p: TilePos, q: TilePos)
    ensures TileDistSq(p, q) == TileDistSq(q, p)
  {
    assert Sq(p.0 - q.0) == Sq(q.0 - p.0);
    assert Sq(p.1 - q.1) == Sq(q.1 - p.1);
  }

  /** Python's `int()` of an exact quotient: division truncating toward zero. */
  function TruncDiv(a: int, b: int): int
    requires b > 0
  {
    if a >= 0 then a / b else -((-a) / b)
  }

  datatype Room = Room(x: int, y: int, width: int, height: int, connected: bool)
  {
    /** `(x + width // 2, y + height // 2)`. */
    function Center(): TilePos { (x + width / 2, y + height / 2) }

    /** `Room.intersects`: the two rectangles, this one grown by
        `minDistance` on every side, overlap. */
    predicate Intersects(other: Room, minDistance: int)
    {
      x - minDistance < other.x + other.width &&
      x + width + minDistance > other.x &&
      y - minDistance < other.y + other.height &&
      y + height + minDistance > other.y
    }

    /** The tiles `_carve_room` turns into floor. */
    predicate Contains(p: TilePos)
    {
      x <= p.0 < x + width && y <= p.1 < y + height
    }

    /** The strict-interior test of `_is_valid_enemy_position`. */
    predicate StrictlyInside(p: TilePos)
    {
      x < p.0 < x + width && y < p.1 < y + height
    }

    /** The range `get_random_position` draws from (one tile of padding). */
    predicate InPadding(p: TilePos)
    {
      x + 1 <= p.0 <= x + width - 2 && y + 1 <= p.1 <= y + height - 2
    }
  }

  lemma IntersectsSymmetric(a: Room, b: Room, d: int)
    ensures a.Intersects(b, d) <==> b.Intersects(a, d)
  {
  }

  /** `Room.get_random_position`. Python's randint raises on an empty range,
      which is the case for rooms narrower or lower than three tiles. */
  method RandomPosition(room: Room, rng: Rng) returns (p: TilePos)
    requires room.width >= 3 && room.height >= 3
    modifies rng
    ensures room.InPadding(p)
    ensures room.StrictlyInside(p) && room.Contains(p)
  {
    var padding := 1;
    var px := rng.RandInt(room.x + padding, room.x + room.width - padding - 1);
    var py := rng.RandInt(room.y + padding, room.y + room.height - padding - 1);
    p := (px, py);
  }

  /** Every padded position a room can return passes the strict-interior test. */
  lemma PaddedIsStrictlyInside(room: Room, p: TilePos)
    requires room.InPadding(p)
    ensures room.StrictlyInside(p)
  {
  }

  // ---------------------------------------------------------------------------
  // The cell partition

  /** All cells in the order `_place_rooms` lists them: row by row. */
  function GridPositions(): (cells: seq<Cell>)
    ensures |cells| == GridRows * GridCols
  {
    seq(GridRows * GridCols, i => (i / GridCols, i % GridCols))
  }

  /** The order of the sort key `(row, col)`. */
  predicate CellBefore(a: Cell, b: Cell)
  {
    a.0 < b.0 || (a.0 == b.0 && a.1 < b.1)
  }

  predicate InGrid(c: Cell)
  {
    0 <= c.0 < GridRows && 0 <= c.1 < GridCols
  }

  lemma GridPositionsAreTheCells(c: Cell)
    ensures c in GridPositions() <==> InGrid(c)
  {
    if InGrid(c) {
      var i := c.0 * GridCols + c.1;
      assert GridPositions()[i] == c;
    }
  }

  lemma GridPositionsDistinct()
    ensures Distinct(GridPositions())
  {
  }

  /** Sorts distinct cells by `(row, col)`. For distinct cells of the grid,
      keeping the row-major list of all cells that were picked is that sort. */
  method SortRowMajor(cells: seq<Cell>) returns (sorted: seq<Cell>)
    requires forall i :: 0 <= i < |cells| ==> InGrid(cells[i])
    requires Distinct(cells)
    ensures forall i, j :: 0 <= i < j < |sorted| ==> CellBefore(sorted[i], sorted[j])
    ensures forall c :: c in sorted <==> c in cells
    ensures |sorted| == |cells|
    ensures forall i :: 0 <= i < |sorted| ==> InGrid(sorted[i])
  {
    var all := GridPositions();
    sorted := [];
    for k := 0 to |all|
      invariant forall i, j :: 0 <= i < j < |sorted| ==> CellBefore(sorted[i], sorted[j])
      invariant forall i :: 0 <= i < |sorted| ==> sorted[i].0 * GridCols + sorted[i].1 < k && InGrid(sorted[i])
      invariant forall c :: c in sorted <==> c in cells && c.0 * GridCols + c.1 < k
    {
      var c := all[k];
      if c in cells {
        sorted := sorted + [c];
      }
    }
    forall c | c in cells ensures c in sorted {
      assert InGrid(c);
    }
    SameElementsSameLength(sorted, cells);
  }

  lemma DistinctIfSorted(s: seq<Cell>)
    requires forall i, j :: 0 <= i < j < |s| ==> CellBefore(s[i], s[j])
    ensures Distinct(s)
  {
  }

  /** A duplicate-free sequence whose elements all occur in `b` is no longer
      than `b`. */
  lemma {:induction false} SubsetLength<T>(a: seq<T>, b: seq<T>)
    requires Distinct(a)
    requires forall e :: e in a ==> e in b
    ensures |a| <= |b|
    decreases |a|
  {
    if a != [] {
      var c := a[0];
      assert c in b;
      var j :| 0 <= j < |b| && b[j] == c;
      var b' := b[..j] + b[j + 1..];
      forall e | e in a[1..] ensures e in b' {
        var k :| 1 <= k < |a| && a[k] == e;
        assert e != c;
        assert a[k] in a;
        assert e in b;
        var m :| 0 <= m < |b| && b[m] == e;
        if m < j { assert b'[m] == e; } else { assert b'[m - 1] == e; }
      }
      SubsetLength(a[1..], b');
    }
  }

  /** Two duplicate-free sequences with the same elements have the same length. */
  lemma SameLengthOfDistinct<T>(a: seq<T>, b: seq<T>)
    requires Distinct(a) && Distinct(b)
    requires forall c :: c in a <==> c in b
    ensures |a| == |b|
  {
    SubsetLength(a, b);
    SubsetLength(b, a);
  }

  lemma SameElementsSameLength(sorted: seq<Cell>, cells: seq<Cell>)
    requires forall i, j :: 0 <= i < j < |sorted| ==> CellBefore(sorted[i], sorted[j])
    requires Distinct(cells)
    requires forall c :: c in sorted <==> c in cells
    ensures |sorted| == |cells|
  {
    DistinctIfSorted(sorted);
    SameLengthOfDistinct(sorted, cells);
  }

  // ---------------------------------------------------------------------------
  // Shapes the generator writes into the grid

  /** The tiles `_create_corridor(start, end)` makes floor, before clipping
      to the grid: a band CorridorWidth tiles high along row start.1 from
      start.0 to end.0, then a band as wide along column end.0. */
  predicate InCorridor(start: TilePos, end: TilePos, p: TilePos)
  {
    var lo := CorridorWidth / 2;
    (Min(start.0, end.0) <= p.0 <= Max(start.0, end.0) &&
     start.1 - lo <= p.1 < start.1 - lo + CorridorWidth) ||
    (Min(start.1, end.1) <= p.1 <= Max(start.1, end.1) &&
     end.0 - lo <= p.0 < end.0 - lo + CorridorWidth)
  }

  /** The corner of the L-shaped path between two room centres. */
  function Bend(a: TilePos, b: TilePos, horizontalFirst: bool): TilePos
  {
    if horizontalFirst then (b.0, a.1) else (a.0, b.1)
  }

  /** The tiles the two corridors of one step of `_connect_rooms` make floor. */
  predicate InLPath(a: TilePos, b: TilePos, horizontalFirst: bool, p: TilePos)
  {
    var c := Bend(a, b, horizontalFirst);
    InCorridor(a, c, p) || InCorridor(c, b, p)
  }

  /** The centre line of that path: the straight segments a-c and c-b. */
  predicate OnCentreLine(a: TilePos, b: TilePos, horizontalFirst: bool, p: TilePos)
  {
    var c := Bend(a, b, horizontalFirst);
    (p.1 == a.1 && p.1 == c.1 && Min(a.0, c.0) <= p.0 <= Max(a.0, c.0)) ||
    (p.0 == a.0 && p.0 == c.0 && Min(a.1, c.1) <= p.1 <= Max(a.1, c.1)) ||
    (p.1 == c.1 && p.1 == b.1 && Min(c.0, b.0) <= p.0 <= Max(c.0, b.0)) ||
    (p.0 == c.0 && p.0 == b.0 && Min(c.1, b.1) <= p.1 <= Max(c.1, b.1))
  }

  /** The corridors are wide enough to hold their centre line, so the path
      from one centre to the next is made of floor tiles. */
  lemma CentreLineInPath(a: TilePos, b: TilePos, horizontalFirst: bool, p: TilePos)
    requires OnCentreLine(a, b, horizontalFirst, p)
    ensures InLPath(a, b, horizontalFirst, p)
  {
  }

  /** The centres of a list of rooms. */
  function Centres(rooms: seq<Room>): (c: seq<TilePos>)
    ensures |c| == |rooms|
    ensures forall i :: 0 <= i < |rooms| ==> c[i] == rooms[i].Center()
  {
    seq(|rooms|, i requires 0 <= i < |rooms| => rooms[i].Center())
  }

  /** Tiles on the paths dug between consecutive centres, for the first
      |bends| steps. */
  predicate OnPaths(centres: seq<TilePos>, bends: seq<bool>, p: TilePos)
    requires |bends| == 0 || |bends| < |centres|
  {
    if bends == [] then false
    else
      var k := |bends| - 1;
      OnPaths(centres, bends[..k], p) || InLPath(centres[k], centres[k + 1], bends[k], p)
  }

  lemma OnPathsAppend(centres: seq<TilePos>, bends: seq<bool>, horizontalFirst: bool, p: TilePos)
    requires |bends| + 1 < |centres|
    ensures OnPaths(centres, bends + [horizontalFirst], p) <==>
      OnPaths(centres, bends, p) || InLPath(centres[|bends|], centres[|bends| + 1], horizontalFirst, p)
  {
    assert (bends + [horizontalFirst])[..|bends|] == bends;
  }

  /** Tiles on the centre lines of those paths. */
  predicate OnCentreLines(centres: seq<TilePos>, bends: seq<bool>, p: TilePos)
    requires |bends| == 0 || |bends| < |centres|
  {
    exists k :: 0 <= k < |bends| && OnCentreLine(centres[k], centres[k + 1], bends[k], p)
  }

  lemma {:induction false} CentreLinesOnPaths(centres: seq<TilePos>, bends: seq<bool>, p: TilePos)
    requires |bends| == 0 || |bends| < |centres|
    requires OnCentreLines(centres, bends, p)
    ensures OnPaths(centres, bends, p)
    decreases |bends|
  {
    var k := |bends| - 1;
    if OnCentreLine(centres[k], centres[k + 1], bends[k], p) {
      CentreLineInPath(centres[k], centres[k + 1], bends[k], p);
    } else {
      var j :| 0 <= j < |bends| && OnCentreLine(centres[j], centres[j + 1], bends[j], p);
      assert bends[..k][j] == bends[j];
      CentreLinesOnPaths(centres, bends[..k], p);
    }
  }

  /** Two rooms cover the same rectangle. */
  predicate SameBox(r: Room, s: Room)
  {
    r.x == s.x && r.y == s.y && r.width == s.width && r.height == s.height
  }

  /** The rooms after the first `i` steps of `_connect_rooms`: rooms
      0..i are marked connected once a step has run. */
  function MarkConnected(rooms: seq<Room>, i: int): (r: seq<Room>)
    ensures |r| == |rooms|
  {
    seq(|rooms|, k requires 0 <= k < |rooms| =>
      rooms[k].(connected := rooms[k].connected || k < i || (k == i && i > 0)))
  }

  lemma MarkConnectedStep(rooms: seq<Room>, i: int)
    requires 0 <= i && i + 1 < |rooms|
    ensures MarkConnected(rooms, i)[i := MarkConnected(rooms, i)[i].(connected := true)]
              [i + 1 := MarkConnected(rooms, i)[i + 1].(connected := true)] == MarkConnected(rooms, i + 1)
  {
  }

  lemma MarkConnectedCentres(rooms: seq<Room>, i: int)
    ensures forall k :: 0 <= k < |rooms| ==>
      SameBox(MarkConnected(rooms, i)[k], rooms[k]) && MarkConnected(rooms, i)[k].Center() == rooms[k].Center()
  {
  }

  /** Marking rooms connected leaves the layout as it was. */
  lemma LayoutOfMarked(rooms: seq<Room>, cells: seq<Cell>, width: int, height: int, i: int)
    requires Layout(rooms, cells, width, height)
    ensures Layout(MarkConnected(rooms, i), cells, width, height)
  {
  }

  /** `len(rooms) // 3`, capped by the number of inner rooms; zero when there
      are no inner rooms. */
  function CheckpointCount(n: int): int
  {
    if n - 2 > 0 && n / 3 > 0 then Min(n / 3, n - 2) else 0
  }

  /** Separation depends on the rectangles only. */
  lemma SeparatedSameBoxes(a: seq<Room>, b: seq<Room>, d: int)
    requires |a| == |b| && forall i :: 0 <= i < |a| ==> SameBox(a[i], b[i])
    requires forall i, j :: 0 <= i < j < |a| ==> !a[i].Intersects(a[j], d)
    ensures forall i, j :: 0 <= i < j < |b| ==> !b[i].Intersects(b[j], d)
  {
    forall i, j | 0 <= i < j < |b| ensures !b[i].Intersects(b[j], d) {
      assert SameBox(a[i], b[i]) && SameBox(a[j], b[j]);
    }
  }

  /** Tiles of the rooms in `rooms`. */
  predicate InSomeRoom(rooms: seq<Room>, p: TilePos)
  {
    exists k :: 0 <= k < |rooms| && rooms[k].Contains(p)
  }

  /** A room carved with at least one tile each way contains its centre. */
  lemma CentreInRoom(r: Room)
    requires r.width >= 1 && r.height >= 1
    ensures r.Contains(r.Center())
  {
  }

  // ---------------------------------------------------------------------------
  // The layout of rooms in the partition

  /** What `_place_rooms` guarantees of a room drawn for cell c: its size is
      drawn from the clamped range, and it keeps two tiles from every edge
      of the cell. */
  predicate RoomInCell(r: Room, c: Cell, cellWidth: int, cellHeight: int)
  {
    var cellX := 1 + c.1 * cellWidth;
    var cellY := 1 + c.0 * cellHeight;
    Min(RoomMinSize, cellWidth - 4) <= r.width <= Min(RoomMaxSize, cellWidth - 4) &&
    Min(RoomMinSize, cellHeight - 4) <= r.height <= Min(RoomMaxSize, cellHeight - 4) &&
    cellX + 2 <= r.x && r.x + r.width <= cellX + cellWidth - 2 &&
    cellY + 2 <= r.y && r.y + r.height <= cellY + cellHeight - 2
  }

  lemma {:induction false} MulMonotone(a: int, b: int, k: int)
    requires a < b && k > 0
    ensures a * k + k <= b * k
  {
    assert (b - a) * k >= k by {
      assert b - a >= 1;
    }
    assert (b - a) * k == b * k - a * k;
  }

  /** Rooms drawn for different cells are at least MinRoomDistance apart, so
      `Room.intersects(other, MIN_ROOM_DISTANCE)` is false for every pair. */
  lemma RoomsInDistinctCellsSeparated(r1: Room, c1: Cell, r2: Room, c2: Cell, cw: int, ch: int)
    requires cw > 0 && ch > 0
    requires RoomInCell(r1, c1, cw, ch) && RoomInCell(r2, c2, cw, ch)
    requires c1 != c2
    ensures !r1.Intersects(r2, MinRoomDistance)
  {
    if c1.1 < c2.1 {
      MulMonotone(c1.1, c2.1, cw);
    } else if c2.1 < c1.1 {
      MulMonotone(c2.1, c1.1, cw);
    } else if c1.0 < c2.0 {
      MulMonotone(c1.0, c2.0, ch);
    } else {
      MulMonotone(c2.0, c1.0, ch);
    }
  }

  /** Lines 93-110 of `_place_rooms`: the size and the offset of the room
      of one cell are drawn, with a two-tile margin inside the cell. */
  method DrawRoom(cell: Cell, cellWidth: int, cellHeight: int, rng: Rng) returns (room: Room)
    requires cellWidth >= 7 && cellHeight >= 7
    modifies rng
    ensures RoomInCell(room, cell, cellWidth, cellHeight)
    ensures !room.connected
  {
    var (row, col) := cell;
    var roomWidth := rng.RandInt(Min(RoomMinSize, cellWidth - 4), Min(RoomMaxSize, cellWidth - 4));
    var roomHeight := rng.RandInt(Min(RoomMinSize, cellHeight - 4), Min(RoomMaxSize, cellHeight - 4));
    var cellX := 1 + col * cellWidth;
    var cellY := 1 + row * cellHeight;
    var offsetX := rng.RandInt(2, cellWidth - roomWidth - 2);
    var offsetY := rng.RandInt(2, cellHeight - roomHeight - 2);
    room := Room(cellX + offsetX, cellY + offsetY, roomWidth, roomHeight, false);
  }

  /** A room drawn for a cell of the partition lies inside the grid. */
  lemma RoomInCellFits(r: Room, c: Cell, width: int, height: int)
    requires GridFits(width, height) && InGrid(c)
    requires RoomInCell(r, c, (width - 2) / GridCols, (height - 2) / GridRows)
    ensures 0 <= r.x && r.x + r.width <= width && 0 <= r.y && r.y + r.height <= height
    ensures r.width >= 3 && r.height >= 3
  {
    var cw, ch := (width - 2) / GridCols, (height - 2) / GridRows;
    MulMonotone(c.1, GridCols, cw);
    MulMonotone(c.0, GridRows, ch);
  }

  lemma InSomeRoomAppend(rooms: seq<Room>, r: Room, p: TilePos)
    ensures InSomeRoom(rooms + [r], p) <==> InSomeRoom(rooms, p) || r.Contains(p)
  {
    if InSomeRoom(rooms, p) {
      var k :| 0 <= k < |rooms| && rooms[k].Contains(p);
      assert (rooms + [r])[k] == rooms[k];
    }
    if r.Contains(p) {
      assert (rooms + [r])[|rooms|] == r;
    }
  }

  /** Rooms drawn for the cells of a row-major list are pairwise apart. */
  lemma LayoutSeparated(rooms: seq<Room>, cells: seq<Cell>, cw: int, ch: int)
    requires cw > 0 && ch > 0 && |rooms| == |cells|
    requires forall i :: 0 <= i < |rooms| ==> RoomInCell(rooms[i], cells[i], cw, ch)
    requires forall i, j :: 0 <= i < j < |cells| ==> CellBefore(cells[i], cells[j])
    ensures forall i, j :: 0 <= i < j < |rooms| ==> !rooms[i].Intersects(rooms[j], MinRoomDistance)
  {
    forall i, j | 0 <= i < j < |rooms| ensures !rooms[i].Intersects(rooms[j], MinRoomDistance) {
      RoomsInDistinctCellsSeparated(rooms[i], cells[i], rooms[j], cells[j], cw, ch);
    }
  }

  /** A room lies inside the grid and is large enough to sample from. */
  predicate RoomFits(r: Room, width: int, height: int)
  {
    0 <= r.x && r.x + r.width <= width && 0 <= r.y && r.y + r.height <= height &&
    r.width >= 3 && r.height >= 3
  }

  /** Every room lies on the grid, large enough to sample from, and has a
      cell of the partition recorded beside it. */
  ghost predicate Layout(rooms: seq<Room>, cells: seq<Cell>, width: int, height: int)
  {
    |cells| == |rooms| &&
    forall i :: 0 <= i < |rooms| ==> InGrid(cells[i]) && RoomFits(rooms[i], width, height)
  }

  /** Each room lies in the cell recorded beside it, as `_place_rooms` draws it. */
  ghost predicate InCells(rooms: seq<Room>, cells: seq<Cell>, cellWidth: int, cellHeight: int)
  {
    |cells| == |rooms| &&
    forall i :: 0 <= i < |rooms| ==> RoomInCell(rooms[i], cells[i], cellWidth, cellHeight)
  }

  /** Rooms that do not intersect share no tile. */
  lemma SeparatedRoomsShareNoTile(a: Room, b: Room, d: int, p: TilePos)
    requires d >= 0 && !a.Intersects(b, d)
    ensures !(a.Contains(p) && b.Contains(p))
  {
  }

  /** The partition fits rooms that `get_random_position` can sample: every
      room is then at least three tiles wide and high. */
  predicate GridFits(width: int, height: int)
  {
    (width - 2) / GridCols >= 7 && (height - 2) / GridRows >= 7
  }

  // ---------------------------------------------------------------------------
  // Enemy counts

  /** `max(1, int(ENEMIES_PER_ROOM[0] * (1 + (level - 1) * 0.2)))`, where
      1 + (level - 1) * 0.2 = (level + 4) / 5. */
  function MinEnemies(level: int): int
  {
    Max(1, TruncDiv(EnemiesPerRoomMin * (level + 4), 5))
  }

  /** `max(2, int(ENEMIES_PER_ROOM[1] * (1 + (level - 1) * 0.2)))`. */
  function MaxEnemies(level: int): int
  {
    Max(2, TruncDiv(EnemiesPerRoomMax * (level + 4), 5))
  }

  lemma TruncDivMonotone(a: int, b: int, d: int)
    requires a <= b && d > 0
    ensures TruncDiv(a, d) <= TruncDiv(b, d)
  {
    if a >= 0 {
      DivMonotone(a, b, d);
    } else if b >= 0 {
    } else {
      DivMonotone(-b, -a, d);
    }
  }

  lemma {:induction false} DivMonotone(a: int, b: int, d: int)
    requires 0 <= a <= b && d > 0
    ensures a / d <= b / d
  {
    if a / d > b / d {
      assert a / d >= b / d + 1;
      assert d * (a / d) >= d * (b / d) + d by {
        MulMonotone(b / d, a / d, d);
      }
      assert false;
    }
  }

  /** The per-room bounds respect their floors, `randint(min_enemies,
      max_enemies)` never sees an empty range, and both bounds grow with the
      level number. */
  lemma EnemyCountBounds(level: int, later: int)
    requires level <= later
    ensures 1 <= MinEnemies(level) <= MaxEnemies(level) && MaxEnemies(level) >= 2
    ensures MinEnemies(level) <= MinEnemies(later)
    ensures MaxEnemies(level) <= MaxEnemies(later)
  {
    TruncDivMonotone(EnemiesPerRoomMin * (level + 4), EnemiesPerRoomMin * (later + 4), 5);
    TruncDivMonotone(EnemiesPerRoomMax * (level + 4), EnemiesPerRoomMax * (later + 4), 5);
    if level + 4 >= 0 {
      TruncDivMonotone(EnemiesPerRoomMin * (level + 4), EnemiesPerRoomMax * (level + 4), 5);
    }
  }

  /** The number of enemies placed while processing room index i. */
  function Count(rooms: seq<int>, i: int): nat
  {
    if rooms == [] then 0
    else Count(rooms[..|rooms| - 1], i) + (if rooms[|rooms| - 1] == i then 1 else 0)
  }

  /** Room indices recorded in processing order, none beyond `last`. */
  predicate Ascending(roomOf: seq<int>, last: int)
    decreases |roomOf|
  {
    roomOf != [] ==>
      var n := |roomOf| - 1;
      roomOf[n] <= last && Ascending(roomOf[..n], roomOf[n])
  }

  lemma AscendingWeaken(roomOf: seq<int>, last: int, later: int)
    requires Ascending(roomOf, last) && last <= later
    ensures Ascending(roomOf, later)
  {
  }

  /** The recursive definition spelled out: every index is at most `last`
      and the indices never decrease. */
  lemma {:induction false} AscendingMeans(roomOf: seq<int>, last: int)
    requires Ascending(roomOf, last)
    ensures forall k :: 0 <= k < |roomOf| ==> roomOf[k] <= last
    ensures forall j, k :: 0 <= j < k < |roomOf| ==> roomOf[j] <= roomOf[k]
    decreases |roomOf|
  {
    if roomOf != [] {
      var n := |roomOf| - 1;
      AscendingMeans(roomOf[..n], roomOf[n]);
      assert forall k :: 0 <= k < n ==> roomOf[..n][k] == roomOf[k];
    }
  }

  /** For every room processed so far: the planned count lies within the
      level's bounds, no more than planned were placed and no more than
      tried, at most 50 tries were made, and the room stopped either with
      its plan met or with its tries used up. */
  predicate Tally(roomOf: seq<int>, planned: seq<int>, tries: seq<int>, level: int)
  {
    |planned| == |tries| &&
    forall j :: 0 <= j < |planned| ==>
      MinEnemies(level) <= planned[j] <= MaxEnemies(level) &&
      Count(roomOf, j) <= planned[j] && Count(roomOf, j) <= tries[j] <= EnemyPlacementAttempts &&
      (Count(roomOf, j) == planned[j] || tries[j] == EnemyPlacementAttempts)
  }

  /** Filling room |planned| keeps the tally of the rooms before it and
      adds its own entry. */
  lemma TallyExtend(before: seq<int>, roomOf: seq<int>, planned: seq<int>, tries: seq<int>, level: int,
                    count: int, attempts: int)
    requires Tally(before, planned, tries, level)
    requires CountsKept(before, roomOf, |planned|)
    requires MinEnemies(level) <= count <= MaxEnemies(level)
    requires Count(roomOf, |planned|) <= count && Count(roomOf, |planned|) <= attempts <= EnemyPlacementAttempts
    requires Count(roomOf, |planned|) == count || attempts == EnemyPlacementAttempts
    ensures Tally(roomOf, planned + [count], tries + [attempts], level)
  {
  }

  /** Every room but `i` has as many enemies in `after` as in `before`. */
  ghost predicate CountsKept(before: seq<int>, after: seq<int>, i: int)
  {
    forall j :: j != i ==> Count(after, j) == Count(before, j)
  }

  lemma {:induction false} CountAbsent(rooms: seq<int>, i: int)
    requires Ascending(rooms, i - 1)
    ensures Count(rooms, i) == 0
    decreases |rooms|
  {
    if rooms != [] {
      var n := |rooms| - 1;
      AscendingWeaken(rooms[..n], rooms[n], i - 1);
      CountAbsent(rooms[..n], i);
    }
  }

  lemma CountAppend(rooms: seq<int>, v: int, i: int)
    ensures Count(rooms + [v], i) == Count(rooms, i) + (if v == i then 1 else 0)
  {
    assert (rooms + [v])[..|rooms|] == rooms;
  }

  /** Recording one more enemy in room `i` keeps the other rooms' counts
      and adds one to room `i`'s. */
  lemma RecordInRoom(before: seq<int>, roomOf: seq<int>, i: int)
    requires CountsKept(before, roomOf, i)
    ensures CountsKept(before, roomOf + [i], i)
    ensures Count(roomOf + [i], i) == Count(roomOf, i) + 1
  {
    forall j ensures Count(roomOf + [i], j) == Count(roomOf, j) + (if j == i then 1 else 0) {
      CountAppend(roomOf, i, j);
    }
  }

  lemma AscendingAppend(roomOf: seq<int>, i: int)
    requires Ascending(roomOf, i)
    ensures Ascending(roomOf + [i], i)
  {
    assert (roomOf + [i])[..|roomOf|] == roomOf;
  }

  /** `distance < k`, with `distance = (dx*dx + dy*dy) ** 0.5`, is the integer
      test dx*dx + dy*dy < k*k whenever the root is exact. */
  lemma RootCompare(distance: real, d2: int, k: int)
    requires distance >= 0.0 && distance * distance == d2 as real && k >= 0
    ensures distance < k as real <==> d2 < k * k
  {
    var kr := k as real;
    assert (k * k) as real == kr * kr;
    if distance < kr {
      SquareStrict(distance, kr);
    } else {
      SquareMonotone(kr, distance);
    }
  }

  lemma SquareStrict(a: real, b: real)
    requires 0.0 <= a < b
    ensures a * a < b * b
  {
    var lower, middle, upper := a * a, a * b, b * b;
    assert lower <= middle by { assert a * (b - a) >= 0.0; }
    assert middle < upper by { assert (b - a) * b > 0.0; }
  }

  lemma SquareMonotone(a: real, b: real)
    requires 0.0 <= a <= b
    ensures a * a <= b * b
  {
    assert a * a <= a * b;
    assert a * b <= b * b;
  }


  // ---------------------------------------------------------------------------
  // What a generated level looks like

  /** The tile lies on the grid. */
  predicate OnTiles(tiles: array2<int>, p: TilePos)
  {
    0 <= p.0 < tiles.Length0 && 0 <= p.1 < tiles.Length1
  }

  /** Eight rooms, pairwise apart and all connected; the spawn tile at the
      first room's centre, walkable; the portal tile at the last room's
      centre; and the centre line of every corridor walkable. */
  ghost predicate RoomsLaid(tiles: array2<int>, rooms: seq<Room>, bends: seq<bool>, spawn: TilePos, portal: TilePos)
    reads tiles
  {
    |rooms| == RoomsPerLevel &&
    (forall i :: 0 <= i < |rooms| ==> rooms[i].connected) &&
    (forall i, j :: 0 <= i < j < |rooms| ==> !rooms[i].Intersects(rooms[j], MinRoomDistance)) &&
    spawn == rooms[0].Center() && OnTiles(tiles, spawn) && tiles[spawn.0, spawn.1] != TileWall &&
    portal == rooms[|rooms| - 1].Center() && OnTiles(tiles, portal) && tiles[portal.0, portal.1] == TilePortal &&
    |bends| == |rooms| - 1 &&
    (forall p :: OnTiles(tiles, p) && OnCentreLines(Centres(rooms), bends, p) ==> tiles[p.0, p.1] != TileWall)
  }

  /** Every enemy tile on floor strictly inside the inner room `roomOf`
      names (an index into the rooms but the first and the last, in the
      order they were filled); the enemies MinEnemyDistance apart and, in
      the first two inner rooms, MinEnemyDistanceFromPlayer from the spawn;
      and the per-room tally of planned counts and attempts. */
  ghost predicate EnemiesLaid(tiles: array2<int>, rooms: seq<Room>, spawn: TilePos, enemies: seq<TilePos>,
                              roomOf: seq<int>, planned: seq<int>, tries: seq<int>, level: int)
    reads tiles
  {
    |roomOf| == |enemies| &&
    (forall j, k :: 0 <= j < k < |roomOf| ==> roomOf[j] <= roomOf[k]) &&
    (forall k :: 0 <= k < |enemies| ==>
       OnTiles(tiles, enemies[k]) && tiles[enemies[k].0, enemies[k].1] == TileFloor &&
       1 <= roomOf[k] + 1 <= |rooms| - 2 && rooms[roomOf[k] + 1].StrictlyInside(enemies[k])) &&
    (forall j, k :: 0 <= j < k < |enemies| ==>
       TileDistSq(enemies[j], enemies[k]) >= MinEnemyDistance * MinEnemyDistance) &&
    (forall k :: 0 <= k < |enemies| && roomOf[k] < 2 ==>
       TileDistSq(enemies[k], spawn) >= MinEnemyDistanceFromPlayer * MinEnemyDistanceFromPlayer) &&
    |planned| == |tries| == |rooms| - 2 && Tally(roomOf, planned, tries, level)
  }

  /** What `generate` leaves behind, kept to state a level's layout: the
      rooms and corridor bends, the spawn, portal and enemy tiles, the inner
      room of each enemy and the per-room tally of planned counts and
      attempts. */
  datatype LevelPlan = LevelPlan(rooms: seq<Room>, bends: seq<bool>, spawn: TilePos, portal: TilePos,
                           enemies: seq<TilePos>, roomOf: seq<int>, planned: seq<int>, tries: seq<int>)

  /** The layout `generate` promises, on the given grid. */
  ghost predicate LaidOut(tiles: array2<int>, plan: LevelPlan, level: int)
    reads tiles
  {
    RoomsLaid(tiles, plan.rooms, plan.bends, plan.spawn, plan.portal) &&
    EnemiesLaid(tiles, plan.rooms, plan.spawn, plan.enemies, plan.roomOf, plan.planned, plan.tries, level)
  }

  // ---------------------------------------------------------------------------
  // The generator

  class LevelGenerator {
    const width: int
    const height: int
    const levelNumber: int
    /** `tiles[x][y]`; the grid is `width` columns of `height` tiles. */
    const tiles: array2<int>
    var rooms: seq<Room>
    var checkpoints: seq<TilePos>
    var portalPosition: Option<TilePos>
    var spawnPosition: Option<TilePos>
    var enemyPositions: seq<TilePos>
    /** The partition cell each room was drawn in. */
    ghost var roomCells: seq<Cell>

    function CellWidth(): int { (width - 2) / GridCols }
    function CellHeight(): int { (height - 2) / GridRows }

    predicate InBounds(p: TilePos)
    {
      0 <= p.0 < width && 0 <= p.1 < height
    }

    predicate Fits(r: Room)
    {
      RoomFits(r, width, height)
    }

    ghost predicate Valid()
      reads this`rooms, this`roomCells
    {
      tiles.Length0 == width && tiles.Length1 == height &&
      Layout(rooms, roomCells, width, height)
    }

    constructor (width: int, height: int, levelNumber: int)
      requires width >= 0 && height >= 0
      ensures this.width == width && this.height == height && this.levelNumber == levelNumber
      ensures Valid() && fresh(tiles)
      ensures rooms == [] && checkpoints == [] && enemyPositions == []
      ensures portalPosition == None && spawnPosition == None
      ensures forall a, b :: 0 <= a < width && 0 <= b < height ==> tiles[a, b] == TileWall
    {
      this.width := width;
      this.height := height;
      this.levelNumber := levelNumber;
      tiles := new int[width, height]((a, b) => TileWall);
      rooms := [];
      checkpoints := [];
      portalPosition := None;
      spawnPosition := None;
      enemyPositions := [];
      roomCells := [];
    }

    /** `_carve_room`: the tiles of the room become floor, nothing else changes. */
    method CarveRoom(room: Room)
      requires Valid() && Fits(room)
      modifies tiles
      ensures forall a, b :: 0 <= a < width && 0 <= b < height ==>
        tiles[a, b] == if room.Contains((a, b)) then TileFloor else old(tiles[a, b])
    {
      for x := room.x to room.x + room.width
        invariant forall a, b :: 0 <= a < width && 0 <= b < height ==>
          tiles[a, b] == if room.x <= a < x && room.y <= b < room.y + room.height then TileFloor
                         else old(tiles[a, b])
      {
        for y := room.y to room.y + room.height
          invariant forall a, b :: 0 <= a < width && 0 <= b < height ==>
            tiles[a, b] == if (room.x <= a < x && room.y <= b < room.y + room.height) ||
                              (a == x && room.y <= b < y) then TileFloor
                           else old(tiles[a, b])
        {
          tiles[x, y] := TileFloor;
        }
      }
    }

    /** `_create_corridor`: the tiles of the corridor that lie on the grid
        become floor, nothing else changes; every write is bounds-checked. */
    method CreateCorridor(start: TilePos, end: TilePos)
      requires tiles.Length0 == width && tiles.Length1 == height
      modifies tiles
      ensures forall a, b :: 0 <= a < width && 0 <= b < height ==>
        tiles[a, b] == if InCorridor(start, end, (a, b)) then TileFloor else old(tiles[a, b])
    {
      var (x1, y1) := start;
      var (x2, y2) := end;
      var lo := CorridorWidth / 2;
      for x := Min(x1, x2) to Max(x1, x2) + 1
        invariant forall a, b :: 0 <= a < width && 0 <= b < height ==>
          tiles[a, b] == if Min(x1, x2) <= a < x && y1 - lo <= b < y1 - lo + CorridorWidth then TileFloor
                         else old(tiles[a, b])
      {
        for w := 0 to CorridorWidth
          invariant forall a, b :: 0 <= a < width && 0 <= b < height ==>
            tiles[a, b] == if (Min(x1, x2) <= a < x && y1 - lo <= b < y1 - lo + CorridorWidth) ||
                              (a == x && y1 - lo <= b < y1 - lo + w) then TileFloor
                           else old(tiles[a, b])
        {
          var y := y1 + w - lo;
          if 0 <= x < width && 0 <= y < height {
            tiles[x, y] := TileFloor;
          }
        }
      }
      for y := Min(y1, y2) to Max(y1, y2) + 1
        invariant forall a, b :: 0 <= a < width && 0 <= b < height ==>
          tiles[a, b] == if (Min(x1, x2) <= a <= Max(x1, x2) && y1 - lo <= b < y1 - lo + CorridorWidth) ||
                            (Min(y1, y2) <= b < y && x2 - lo <= a < x2 - lo + CorridorWidth) then TileFloor
                         else old(tiles[a, b])
      {
        for w := 0 to CorridorWidth
          invariant forall a, b :: 0 <= a < width && 0 <= b < height ==>
            tiles[a, b] == if (Min(x1, x2) <= a <= Max(x1, x2) && y1 - lo <= b < y1 - lo + CorridorWidth) ||
                              (Min(y1, y2) <= b < y && x2 - lo <= a < x2 - lo + CorridorWidth) ||
                              (b == y && x2 - lo <= a < x2 - lo + w) then TileFloor
                           else old(tiles[a, b])
        {
          var x := x2 + w - lo;
          if 0 <= x < width && 0 <= y < height {
            tiles[x, y] := TileFloor;
          }
        }
      }
    }
  
    /** Carves a room drawn for a cell and appends it to `rooms`. */
    method AddRoom(room: Room, cell: Cell)
      requires Valid() && GridFits(width, height) && InGrid(cell)
      requires RoomInCell(room, cell, CellWidth(), CellHeight())
      modifies this`rooms, this`roomCells, tiles
      ensures Valid()
      ensures rooms == old(rooms) + [room] && roomCells == old(roomCells) + [cell]
      ensures forall a, b :: 0 <= a < width && 0 <= b < height ==>
        tiles[a, b] == if room.Contains((a, b)) then TileFloor else old(tiles[a, b])
      ensures forall p :: InSomeRoom(rooms, p) <==> InSomeRoom(old(rooms), p) || room.Contains(p)
    {
      RoomInCellFits(room, cell, width, height);
      CarveRoom(room);
      forall p ensures InSomeRoom(rooms + [room], p) <==> InSomeRoom(rooms, p) || room.Contains(p) {
        InSomeRoomAppend(rooms, room, p);
      }
      rooms := rooms + [room];
      roomCells := roomCells + [cell];
    }

    /** `_place_rooms`: eight of the twelve cells are sampled and visited in
        row-major order; each gets a room carved into the grid. The first
        new room's centre becomes the spawn position. */
    method PlaceRooms(rng: Rng)
      requires Valid() && GridFits(width, height) && rooms == []
      modifies this`rooms, this`roomCells, this`spawnPosition, tiles, rng
      ensures Valid()
      ensures |rooms| == Min(RoomsPerLevel, GridRows * GridCols)
      ensures forall i, j :: 0 <= i < j < |rooms| ==> CellBefore(roomCells[i], roomCells[j])
      ensures forall i, j :: 0 <= i < j < |rooms| ==> !rooms[i].Intersects(rooms[j], MinRoomDistance)
      ensures forall i :: 0 <= i < |rooms| ==> !rooms[i].connected
      ensures InCells(rooms, roomCells, CellWidth(), CellHeight())
      ensures spawnPosition == Some(rooms[0].Center())
      ensures forall a, b :: 0 <= a < width && 0 <= b < height ==>
        tiles[a, b] == if InSomeRoom(rooms, (a, b)) then TileFloor else old(tiles[a, b])
    {
      ghost var orig := map a, b | 0 <= a < width && 0 <= b < height :: (a, b) := tiles[a, b];
      var cw := (width - 2) / GridCols;
      var ch := (height - 2) / GridRows;
      var selected := SelectCells(rng);
      var i := 0;
      while i < |selected|
        invariant 0 <= i <= |selected|
        invariant Placing(selected, i, cw, ch, orig)
      {
        PlaceRoomAt(selected, i, cw, ch, rng, orig);
        i := i + 1;
      }
      assert selected[..i] == selected;
      LayoutSeparated(rooms, roomCells, cw, ch);
    }

    /** The cells `_place_rooms` fills: eight of the twelve grid positions,
        sampled, then sorted by `(row, col)`. */
    static method SelectCells(rng: Rng) returns (selected: seq<Cell>)
      modifies rng
      ensures |selected| == Min(RoomsPerLevel, GridRows * GridCols)
      ensures forall k :: 0 <= k < |selected| ==> InGrid(selected[k])
      ensures forall i, j :: 0 <= i < j < |selected| ==> CellBefore(selected[i], selected[j])
    {
      var gridPositions := GridPositions();
      GridPositionsDistinct();
      selected := rng.Sample(gridPositions, Min(RoomsPerLevel, |gridPositions|));
      forall i | 0 <= i < |selected| ensures InGrid(selected[i]) {
        GridPositionsAreTheCells(selected[i]);
      }
      selected := SortRowMajor(selected);
    }

    /** The state of `_place_rooms` after the rooms of the first `i` selected
        cells: each carved into `orig`, the grid as it was before. */
    ghost predicate Placing(selected: seq<Cell>, i: int, cw: int, ch: int, orig: map<TilePos, int>)
      reads this`rooms, this`roomCells, this`spawnPosition, tiles
    {
      0 <= i <= |selected| &&
      (forall k :: 0 <= k < |selected| ==> InGrid(selected[k])) &&
      Valid() && GridFits(width, height) && cw == CellWidth() && ch == CellHeight() &&
      |rooms| == i && roomCells == selected[..i] &&
      (forall k :: 0 <= k < i ==> !rooms[k].connected) &&
      InCells(rooms, roomCells, cw, ch) &&
      (i > 0 ==> spawnPosition == Some(rooms[0].Center())) &&
      forall a, b :: 0 <= a < width && 0 <= b < height ==>
        (a, b) in orig && tiles[a, b] == if InSomeRoom(rooms, (a, b)) then TileFloor else orig[(a, b)]
    }

    /** One pass of the loop of `_place_rooms`: a room is drawn for the i-th
        selected cell and carved; the first one's centre is the spawn. */
    method PlaceRoomAt(selected: seq<Cell>, i: int, cw: int, ch: int, rng: Rng, ghost orig: map<TilePos, int>)
      requires i < |selected| && Placing(selected, i, cw, ch, orig)
      modifies this`rooms, this`roomCells, this`spawnPosition, tiles, rng
      ensures Placing(selected, i + 1, cw, ch, orig)
    {
      var (row, col) := selected[i];
      var room := DrawRoom((row, col), cw, ch, rng);
      AddRoom(room, (row, col));
      forall a, b | 0 <= a < width && 0 <= b < height
        ensures (a, b) in orig && tiles[a, b] == if InSomeRoom(rooms, (a, b)) then TileFloor else orig[(a, b)]
      {
      }
      assert selected[..i + 1] == selected[..i] + [(row, col)];
      if i == 0 {
        spawnPosition := Some(room.Center());
      }
    }

    /** One step of `_connect_rooms` (lines 134-141): the two corridors
        from centre a to centre b through the bend the coin flip chose. The
        paths dug before this one are floor already. */
    method DigPath(a: TilePos, b: TilePos, horizontalFirst: bool,
                   ghost centres: seq<TilePos>, ghost bends: seq<bool>)
      requires tiles.Length0 == width && tiles.Length1 == height
      requires |bends| + 1 < |centres| && a == centres[|bends|] && b == centres[|bends| + 1]
      requires forall x, y :: 0 <= x < width && 0 <= y < height && OnPaths(centres, bends, (x, y)) ==>
        tiles[x, y] == TileFloor
      modifies tiles
      ensures forall x, y :: 0 <= x < width && 0 <= y < height ==>
        tiles[x, y] == if OnPaths(centres, bends + [horizontalFirst], (x, y)) then TileFloor else old(tiles[x, y])
      ensures forall x, y :: 0 <= x < width && 0 <= y < height && OnPaths(centres, bends, (x, y)) ==>
        OnPaths(centres, bends + [horizontalFirst], (x, y))
    {
      var (x1, y1) := a;
      var (x2, y2) := b;
      if horizontalFirst {
        CreateCorridor((x1, y1), (x2, y1));
        CreateCorridor((x2, y1), (x2, y2));
      } else {
        CreateCorridor((x1, y1), (x1, y2));
        CreateCorridor((x1, y2), (x2, y2));
      }
      forall x, y | 0 <= x < width && 0 <= y < height
        ensures OnPaths(centres, bends + [horizontalFirst], (x, y)) <==>
          OnPaths(centres, bends, (x, y)) || InLPath(a, b, horizontalFirst, (x, y))
      {
        OnPathsAppend(centres, bends, horizontalFirst, (x, y));
      }
    }

    /** One iteration of `_connect_rooms` (lines 127-144): rooms i and i + 1
        are joined through the bend a coin flip chooses, then both are marked
        connected. */
    method ConnectPair(i: int, rng: Rng, ghost original: seq<Room>, ghost centres: seq<TilePos>,
                       ghost bends: seq<bool>)
      returns (horizontalFirst: bool)
      requires tiles.Length0 == width && tiles.Length1 == height
      requires 0 <= i == |bends| && i + 1 < |rooms| && rooms == MarkConnected(original, i)
      requires centres == Centres(original)
      requires forall x, y :: 0 <= x < width && 0 <= y < height && OnPaths(centres, bends, (x, y)) ==>
        tiles[x, y] == TileFloor
      modifies this`rooms, tiles, rng
      ensures rooms == MarkConnected(original, i + 1)
      ensures forall x, y :: 0 <= x < width && 0 <= y < height ==>
        tiles[x, y] == if OnPaths(centres, bends + [horizontalFirst], (x, y)) then TileFloor else old(tiles[x, y])
      ensures forall x, y :: 0 <= x < width && 0 <= y < height && OnPaths(centres, bends, (x, y)) ==>
        OnPaths(centres, bends + [horizontalFirst], (x, y))
    {
      var coin := rng.Random();
      horizontalFirst := coin < 0.5;
      MarkConnectedCentres(original, i);
      DigPath(rooms[i].Center(), rooms[i + 1].Center(), horizontalFirst, centres, bends);
      MarkConnectedStep(original, i);
      rooms := rooms[i := rooms[i].(connected := true)];
      rooms := rooms[i + 1 := rooms[i + 1].(connected := true)];
    }

    /** `_connect_rooms`: for each room but the last, a coin flip chooses
        whether the path to the next room goes horizontally first; both
        rooms are then marked connected. `bends` records the flips. */
    method ConnectRooms(rng: Rng) returns (ghost bends: seq<bool>)
      requires Valid()
      modifies this`rooms, tiles, rng
      ensures Valid()
      ensures |rooms| == |old(rooms)| && Centres(rooms) == Centres(old(rooms))
      ensures |bends| == Max(0, |rooms| - 1)
      ensures forall i :: 0 <= i < |rooms| ==> SameBox(rooms[i], old(rooms[i]))
      ensures forall i :: 0 <= i < |rooms| ==> rooms[i].connected == (old(rooms[i].connected) || |rooms| >= 2)
      ensures forall a, b :: 0 <= a < width && 0 <= b < height ==>
        tiles[a, b] == if OnPaths(Centres(rooms), bends, (a, b)) then TileFloor else old(tiles[a, b])
    {
      ghost var centres := Centres(rooms);
      bends := [];
      var i := 0;
      while i + 1 < |rooms|
        invariant |rooms| == |old(rooms)| == |centres|
        invariant 0 <= i && i == |bends|
        invariant i == 0 || i < |rooms|
        invariant rooms == MarkConnected(old(rooms), i)
        invariant forall a, b :: 0 <= a < width && 0 <= b < height ==>
          tiles[a, b] == if OnPaths(centres, bends, (a, b)) then TileFloor else old(tiles[a, b])
      {
        var horizontalFirst := ConnectPair(i, rng, old(rooms), centres, bends);
        bends := bends + [horizontalFirst];
        i := i + 1;
      }
      MarkConnectedCentres(old(rooms), i);
      LayoutOfMarked(old(rooms), roomCells, width, height, i);
      assert Centres(rooms) == centres;
    }
  
    /** `_place_checkpoints`: up to a third of the rooms, never the first or
        the last, each get a checkpoint at a random padded position, whose
        tile is stamped `TileCheckpoint`. `chosen` records the room indices. */
    method PlaceCheckpoints(rng: Rng) returns (ghost chosen: seq<int>)
      requires Valid()
      modifies this`checkpoints, tiles, rng
      ensures |chosen| == CheckpointCount(|rooms|)
      ensures |checkpoints| == |old(checkpoints)| + |chosen|
      ensures checkpoints[..|old(checkpoints)|] == old(checkpoints)
      ensures forall k :: 0 <= k < |chosen| ==>
        1 <= chosen[k] <= |rooms| - 2 && rooms[chosen[k]].InPadding(checkpoints[|old(checkpoints)| + k])
      ensures forall j, k :: 0 <= j < k < |chosen| ==> chosen[j] != chosen[k]
      ensures forall a, b :: 0 <= a < width && 0 <= b < height ==>
        tiles[a, b] == if (a, b) in checkpoints[|old(checkpoints)|..] then TileCheckpoint else old(tiles[a, b])
    {
      var roomIndices := seq(Max(0, |rooms| - 2), k => k + 1);
      var checkpointCount := |rooms| / 3;
      ghost var n0 := |checkpoints|;
      chosen := [];
      if roomIndices != [] && checkpointCount > 0 {
        var selected := rng.Sample(roomIndices, Min(checkpointCount, |roomIndices|));
        for j := 0 to |selected|
          invariant |checkpoints| == n0 + j && checkpoints[..n0] == old(checkpoints)
          invariant forall k :: 0 <= k < j ==> rooms[selected[k]].InPadding(checkpoints[n0 + k])
          invariant forall a, b :: 0 <= a < width && 0 <= b < height ==>
            tiles[a, b] == if (a, b) in checkpoints[n0..] then TileCheckpoint else old(tiles[a, b])
        {
          var room := rooms[selected[j]];
          var position := RandomPosition(room, rng);
          ghost var before := checkpoints[n0..];
          checkpoints := checkpoints + [position];
          assert checkpoints[n0..] == before + [position];
          tiles[position.0, position.1] := TileCheckpoint;
        }
        chosen := selected;
      }
    }

    /** `_place_portal`: the portal goes to the centre of the last room, whose
        tile is stamped `TilePortal`; without rooms nothing happens. */
    method PlacePortal()
      requires Valid()
      modifies this`portalPosition, tiles
      ensures portalPosition == if rooms == [] then old(portalPosition) else Some(rooms[|rooms| - 1].Center())
      ensures forall a, b :: 0 <= a < width && 0 <= b < height ==>
        tiles[a, b] == if rooms != [] && (a, b) == rooms[|rooms| - 1].Center() then TilePortal
                       else old(tiles[a, b])
    {
      if rooms != [] {
        var lastRoom := rooms[|rooms| - 1];
        CentreInRoom(lastRoom);
        portalPosition := Some(lastRoom.Center());
        tiles[lastRoom.Center().0, lastRoom.Center().1] := TilePortal;
      }
    }

    /** The test of `_is_valid_enemy_position`, given the enemies placed so
        far: on the grid, on a floor tile, at distance at least
        MinEnemyDistance from every placed enemy, at distance at least
        MinEnemyDistanceFromPlayer from the spawn for the first two rooms
        processed, and strictly inside the room. */
    ghost predicate ValidEnemyPosition(placed: seq<TilePos>, pos: TilePos, room: Room, roomIndex: int)
      reads this`spawnPosition, tiles
      requires tiles.Length0 == width && tiles.Length1 == height
    {
      InBounds(pos) && tiles[pos.0, pos.1] == TileFloor &&
      (forall k :: 0 <= k < |placed| ==>
         TileDistSq(pos, placed[k]) >= MinEnemyDistance * MinEnemyDistance) &&
      (roomIndex < 2 && spawnPosition.Some? ==>
         TileDistSq(pos, spawnPosition.value) >= MinEnemyDistanceFromPlayer * MinEnemyDistanceFromPlayer) &&
      room.StrictlyInside(pos)
    }

    /** `_is_valid_enemy_position`, checking the conditions in the source's
        order; the bounds test comes first, so the tile read is in range. */
    method IsValidEnemyPosition(pos: TilePos, room: Room, roomIndex: int) returns (ok: bool)
      requires tiles.Length0 == width && tiles.Length1 == height
      ensures ok == ValidEnemyPosition(enemyPositions, pos, room, roomIndex)
    {
      var (x, y) := pos;
      if !(0 <= x < width && 0 <= y < height) {
        return false;
      }
      if tiles[x, y] != TileFloor {
        return false;
      }
      for k := 0 to |enemyPositions|
        invariant forall j :: 0 <= j < k ==>
          TileDistSq(pos, enemyPositions[j]) >= MinEnemyDistance * MinEnemyDistance
      {
        var enemyPos := enemyPositions[k];
        var dx := x - enemyPos.0;
        var dy := y - enemyPos.1;
        SquareIsProduct(dx);
        SquareIsProduct(dy);
        if dx * dx + dy * dy < MinEnemyDistance * MinEnemyDistance {
          return false;
        }
      }
      if roomIndex < 2 && spawnPosition.Some? {
        var dx := x - spawnPosition.value.0;
        var dy := y - spawnPosition.value.1;
        SquareIsProduct(dx);
        SquareIsProduct(dy);
        if dx * dx + dy * dy < MinEnemyDistanceFromPlayer * MinEnemyDistanceFromPlayer {
          return false;
        }
      }
      if !(room.x < x < room.x + room.width && room.y < y < room.y + room.height) {
        return false;
      }
      return true;
    }

    /** Every enemy position passed the test against the enemies placed
        before it, in the room `roomOf` records (an index into the rooms
        that take enemies, i.e. rooms[roomOf[k] + 1]). */
    ghost predicate PlacedWell(positions: seq<TilePos>, roomOf: seq<int>)
      reads this`rooms, this`spawnPosition, tiles
      requires tiles.Length0 == width && tiles.Length1 == height
      decreases |positions|
    {
      |roomOf| == |positions| &&
      (positions != [] ==>
        var n := |positions| - 1;
        PlacedWell(positions[..n], roomOf[..n]) &&
        0 <= roomOf[n] && roomOf[n] + 2 < |rooms| &&
        ValidEnemyPosition(positions[..n], positions[n], rooms[roomOf[n] + 1], roomOf[n]))
    }

    lemma PlacedWellAppend(positions: seq<TilePos>, roomOf: seq<int>, pos: TilePos, i: int)
      requires tiles.Length0 == width && tiles.Length1 == height
      requires PlacedWell(positions, roomOf)
      requires 0 <= i && i + 2 < |rooms| && ValidEnemyPosition(positions, pos, rooms[i + 1], i)
      ensures PlacedWell(positions + [pos], roomOf + [i])
    {
      assert (positions + [pos])[..|positions|] == positions;
      assert (roomOf + [i])[..|roomOf|] == roomOf;
    }

    /** One attempt of `_place_enemies` (lines 241-246): the drawn position
        is appended when it passes the test. */
    method TryPlace(pos: TilePos, room: Room, i: int, ghost roomOf1: seq<int>)
      returns (ok: bool, ghost roomOf: seq<int>)
      requires tiles.Length0 == width && tiles.Length1 == height
      requires 0 <= i && i + 2 < |rooms| && room == rooms[i + 1]
      requires PlacedWell(enemyPositions, roomOf1)
      modifies this`enemyPositions
      ensures ok == ValidEnemyPosition(old(enemyPositions), pos, room, i)
      ensures enemyPositions == if ok then old(enemyPositions) + [pos] else old(enemyPositions)
      ensures roomOf == if ok then roomOf1 + [i] else roomOf1
      ensures PlacedWell(enemyPositions, roomOf)
    {
      ok := IsValidEnemyPosition(pos, room, i);
      roomOf := roomOf1;
      if ok {
        PlacedWellAppend(enemyPositions, roomOf, pos, i);
        enemyPositions := enemyPositions + [pos];
        roomOf := roomOf + [i];
      }
    }

    /** The attempt loop of `_place_enemies` for one room (lines 238-249):
        padded positions are drawn until `enemyCount` enemies are placed or
        50 attempts are used, keeping those that pass the test. */
    method FillRoom(room: Room, i: int, enemyCount: int, rng: Rng, ghost roomOf0: seq<int>)
      returns (placedInRoom: int, attempts: int, ghost roomOf: seq<int>)
      requires tiles.Length0 == width && tiles.Length1 == height && Fits(room)
      requires 0 <= i && i + 2 < |rooms| && room == rooms[i + 1]
      requires PlacedWell(enemyPositions, roomOf0) && Ascending(roomOf0, i - 1)
      modifies this`enemyPositions, rng
      ensures PlacedWell(enemyPositions, roomOf) && Ascending(roomOf, i)
      ensures CountsKept(roomOf0, roomOf, i)
      ensures placedInRoom == Count(roomOf, i) && placedInRoom <= Max(0, enemyCount)
      ensures placedInRoom <= attempts <= EnemyPlacementAttempts
      ensures placedInRoom >= enemyCount || attempts == EnemyPlacementAttempts
    {
      attempts, placedInRoom := 0, 0;
      roomOf := roomOf0;
      CountAbsent(roomOf, i);
      AscendingWeaken(roomOf, i - 1, i);
      while placedInRoom < enemyCount && attempts < EnemyPlacementAttempts
        invariant PlacedWell(enemyPositions, roomOf)
        invariant Ascending(roomOf, i)
        invariant CountsKept(roomOf0, roomOf, i)
        invariant placedInRoom == Count(roomOf, i) && placedInRoom <= Max(0, enemyCount)
        invariant placedInRoom <= attempts <= EnemyPlacementAttempts
        decreases EnemyPlacementAttempts - attempts
      {
        var pos := RandomPosition(room, rng);
        var ok;
        ghost var before := roomOf;
        ok, roomOf := TryPlace(pos, room, i, roomOf);
        if ok {
          RecordInRoom(roomOf0, before, i);
          AscendingAppend(before, i);
          assert roomOf == before + [i];
          placedInRoom := placedInRoom + 1;
        } else {
          assert roomOf == before;
        }
        attempts := attempts + 1;
      }
    }

    /** `_place_enemies`: the list is reset; for each room but the first and
        the last, a number of enemies between the level's bounds is planned
        and filled. `roomOf` gives the room of each enemy, `planned` the
        count drawn per room, `tries` the attempts used. */
    method PlaceEnemies(rng: Rng) returns (ghost roomOf: seq<int>, ghost planned: seq<int>, ghost tries: seq<int>)
      requires Valid()
      modifies this`enemyPositions, rng
      ensures PlacedWell(enemyPositions, roomOf)
      ensures forall j, k :: 0 <= j < k < |roomOf| ==> roomOf[j] <= roomOf[k]
      ensures |planned| == |tries| == Max(0, |rooms| - 2)
      ensures Tally(roomOf, planned, tries, levelNumber)
    {
      enemyPositions := [];
      roomOf, planned, tries := [], [], [];
      var roomsForEnemies := if |rooms| >= 2 then rooms[1..|rooms| - 1] else [];
      EnemyCountBounds(levelNumber, levelNumber);
      for i := 0 to |roomsForEnemies|
        invariant PlacedWell(enemyPositions, roomOf)
        invariant Ascending(roomOf, i - 1)
        invariant |planned| == |tries| == i
        invariant Tally(roomOf, planned, tries, levelNumber)
      {
        var room := roomsForEnemies[i];
        assert Fits(room);
        var minEnemies := MinEnemies(levelNumber);
        var maxEnemies := MaxEnemies(levelNumber);
        var enemyCount := rng.RandInt(minEnemies, maxEnemies);
        ghost var before := roomOf;
        var placedInRoom, attempts;
        placedInRoom, attempts, roomOf := FillRoom(room, i, enemyCount, rng, roomOf);
        TallyExtend(before, roomOf, planned, tries, levelNumber, enemyCount, attempts);
        planned := planned + [enemyCount];
        tries := tries + [attempts];
      }
      AscendingMeans(roomOf, |roomsForEnemies| - 1);
    }
  
    /** What `PlacedWell` gives about the final list: every enemy sits on a
        floor tile strictly inside a room other than the first and the last,
        every two enemies are at least MinEnemyDistance apart, and an enemy
        of the first two rooms processed is at least
        MinEnemyDistanceFromPlayer from the spawn, when there is one. */
    lemma {:induction false} PlacedWellMeans(positions: seq<TilePos>, roomOf: seq<int>)
      requires tiles.Length0 == width && tiles.Length1 == height
      requires PlacedWell(positions, roomOf)
      ensures |roomOf| == |positions|
      ensures forall k :: 0 <= k < |positions| ==>
        InBounds(positions[k]) && tiles[positions[k].0, positions[k].1] == TileFloor &&
        1 <= roomOf[k] + 1 <= |rooms| - 2 && rooms[roomOf[k] + 1].StrictlyInside(positions[k])
      ensures forall j, k :: 0 <= j < k < |positions| ==>
        TileDistSq(positions[j], positions[k]) >= MinEnemyDistance * MinEnemyDistance
      ensures forall k :: 0 <= k < |positions| && roomOf[k] < 2 && spawnPosition.Some? ==>
        TileDistSq(positions[k], spawnPosition.value) >= MinEnemyDistanceFromPlayer * MinEnemyDistanceFromPlayer
      decreases |positions|
    {
      PlacedWellFarFromSpawn(positions, roomOf);
      if positions != [] {
        var n := |positions| - 1;
        var before, roomsBefore := positions[..n], roomOf[..n];
        PlacedWellMeans(before, roomsBefore);
        assert forall k :: 0 <= k < n ==> positions[k] == before[k] && roomOf[k] == roomsBefore[k];
        forall j | 0 <= j < n
          ensures TileDistSq(positions[j], positions[n]) >= MinEnemyDistance * MinEnemyDistance
        {
          assert TileDistSq(positions[n], before[j]) >= MinEnemyDistance * MinEnemyDistance;
          TileDistSqSymmetric(positions[n], positions[j]);
        }
      }
    }

    /** The spawn clause of `PlacedWell`, for every enemy of the first two
        rooms processed. */
    lemma {:induction false} PlacedWellFarFromSpawn(positions: seq<TilePos>, roomOf: seq<int>)
      requires tiles.Length0 == width && tiles.Length1 == height
      requires PlacedWell(positions, roomOf)
      ensures forall k :: 0 <= k < |positions| && roomOf[k] < 2 && spawnPosition.Some? ==>
        TileDistSq(positions[k], spawnPosition.value) >= MinEnemyDistanceFromPlayer * MinEnemyDistanceFromPlayer
      decreases |positions|
    {
      if positions != [] {
        var n := |positions| - 1;
        PlacedWellFarFromSpawn(positions[..n], roomOf[..n]);
        assert forall k :: 0 <= k < n ==> positions[k] == positions[..n][k] && roomOf[k] == roomOf[..n][k];
      }
    }

    /** The first half of `generate`: the rooms of an empty layout are
        placed and connected. The spawn tile is floor, and so is the centre
        line of every corridor. */
    method LayOut(rng: Rng) returns (ghost bends: seq<bool>)
      requires Valid() && GridFits(width, height) && rooms == []
      modifies this`rooms, this`roomCells, this`spawnPosition, tiles, rng
      ensures Valid()
      ensures |rooms| == RoomsPerLevel && |bends| == |rooms| - 1
      ensures forall i :: 0 <= i < |rooms| ==> rooms[i].connected
      ensures forall i, j :: 0 <= i < j < |rooms| ==> !rooms[i].Intersects(rooms[j], MinRoomDistance)
      ensures spawnPosition == Some(rooms[0].Center()) && InBounds(spawnPosition.value)
      ensures tiles[spawnPosition.value.0, spawnPosition.value.1] == TileFloor
      ensures forall p :: InBounds(p) && OnCentreLines(Centres(rooms), bends, p) ==> tiles[p.0, p.1] == TileFloor
    {
      PlaceRooms(rng);
      ghost var laidOut := rooms;
      ghost var s := laidOut[0].Center();
      assert RoomFits(laidOut[0], width, height);
      CentreInRoom(laidOut[0]);
      assert InSomeRoom(laidOut, s);
      bends := ConnectRooms(rng);
      SeparatedSameBoxes(laidOut, rooms, MinRoomDistance);
      assert rooms[0].Center() == Centres(rooms)[0] == Centres(laidOut)[0] == s;
      forall p | InBounds(p) && OnCentreLines(Centres(rooms), bends, p) ensures tiles[p.0, p.1] == TileFloor {
        CentreLinesOnPaths(Centres(rooms), bends, p);
      }
    }

    /** The middle of `generate`: checkpoints in the inner rooms and the
        portal in the last one. A tile that was not wall stays so; the new
        checkpoints keep their tiles, since the portal lies in another room. */
    method Mark(rng: Rng)
      requires Valid() && |rooms| == RoomsPerLevel
      requires forall i, j :: 0 <= i < j < |rooms| ==> !rooms[i].Intersects(rooms[j], MinRoomDistance)
      modifies this`checkpoints, this`portalPosition, tiles, rng
      ensures |checkpoints| == |old(checkpoints)| + CheckpointCount(RoomsPerLevel)
      ensures forall k :: |old(checkpoints)| <= k < |checkpoints| ==>
        InBounds(checkpoints[k]) && tiles[checkpoints[k].0, checkpoints[k].1] == TileCheckpoint
      ensures portalPosition == Some(rooms[|rooms| - 1].Center()) && InBounds(portalPosition.value)
      ensures tiles[portalPosition.value.0, portalPosition.value.1] == TilePortal
      ensures forall a, b :: 0 <= a < width && 0 <= b < height && old(tiles[a, b]) != TileWall ==>
        tiles[a, b] != TileWall
    {
      ghost var n0 := |checkpoints|;
      var chosen := PlaceCheckpoints(rng);
      ghost var last := rooms[|rooms| - 1];
      assert RoomFits(last, width, height);
      CentreInRoom(last);
      forall k | n0 <= k < |checkpoints|
        ensures InBounds(checkpoints[k]) && checkpoints[k] != last.Center()
      {
        var r := rooms[chosen[k - n0]];
        assert RoomFits(r, width, height);
        assert r.InPadding(checkpoints[k]);
        SeparatedRoomsShareNoTile(r, last, MinRoomDistance, last.Center());
      }
      PlacePortal();
    }

    /** The first steps of `generate`: the rooms and corridors from scratch,
        then the checkpoints and the portal. */
    method Build(rng: Rng) returns (ghost bends: seq<bool>)
      requires Valid() && GridFits(width, height)
      modifies this`rooms, this`roomCells, this`spawnPosition, this`checkpoints, this`portalPosition, tiles, rng
      ensures Valid()
      ensures |rooms| == RoomsPerLevel
      ensures forall i :: 0 <= i < |rooms| ==> rooms[i].connected
      ensures forall i, j :: 0 <= i < j < |rooms| ==> !rooms[i].Intersects(rooms[j], MinRoomDistance)
      ensures spawnPosition == Some(rooms[0].Center()) && InBounds(spawnPosition.value)
      ensures tiles[spawnPosition.value.0, spawnPosition.value.1] != TileWall
      ensures portalPosition == Some(rooms[|rooms| - 1].Center()) && InBounds(portalPosition.value)
      ensures tiles[portalPosition.value.0, portalPosition.value.1] == TilePortal
      ensures |checkpoints| == |old(checkpoints)| + CheckpointCount(RoomsPerLevel)
      ensures forall k :: |old(checkpoints)| <= k < |checkpoints| ==>
        InBounds(checkpoints[k]) && tiles[checkpoints[k].0, checkpoints[k].1] == TileCheckpoint
      ensures |bends| == |rooms| - 1
      ensures forall p :: InBounds(p) && OnCentreLines(Centres(rooms), bends, p) ==> tiles[p.0, p.1] != TileWall
    {
      rooms := [];
      roomCells := [];
      bends := LayOut(rng);
      Mark(rng);
    }

    /** `generate`: rooms, corridors, checkpoints, the portal and the enemies,
        in that order. The result: eight rooms, pairwise apart and all
        connected; the spawn at the first room's centre on a walkable tile;
        the portal at the last room's centre on the portal tile; the new
        checkpoints on checkpoint tiles; the enemies on floor tiles, apart
        from each other, strictly inside the inner room `roomOf` records and,
        in the first two inner rooms, far enough from the spawn; the per-room
        tally of planned counts and attempts; and the centre line of every
        corridor walkable. */
    method Generate(rng: Rng) returns (spawn: Option<TilePos>, enemies: seq<TilePos>, portal: Option<TilePos>,
                                       ghost bends: seq<bool>, ghost roomOf: seq<int>,
                                       ghost planned: seq<int>, ghost tries: seq<int>)
      requires Valid() && GridFits(width, height)
      modifies this`rooms, this`roomCells, this`spawnPosition, this`checkpoints, this`portalPosition,
               this`enemyPositions, tiles, rng
      ensures Valid()
      ensures spawn == spawnPosition && enemies == enemyPositions && portal == portalPosition
      ensures spawn.Some? && portal.Some?
      ensures RoomsLaid(tiles, rooms, bends, spawn.value, portal.value)
      ensures EnemiesLaid(tiles, rooms, spawn.value, enemies, roomOf, planned, tries, levelNumber)
      ensures |checkpoints| == |old(checkpoints)| + CheckpointCount(RoomsPerLevel)
      ensures forall k :: |old(checkpoints)| <= k < |checkpoints| ==>
        InBounds(checkpoints[k]) && tiles[checkpoints[k].0, checkpoints[k].1] == TileCheckpoint
    {
      enemyPositions := [];
      bends := Build(rng);
      roomOf, planned, tries := Populate(rng);
      spawn, enemies, portal := spawnPosition, enemyPositions, portalPosition;
    }

    /** The last step of `generate`: the enemies are placed, once the spawn
        is known, as `EnemiesLaid` describes. */
    method Populate(rng: Rng) returns (ghost roomOf: seq<int>, ghost planned: seq<int>, ghost tries: seq<int>)
      requires Valid() && |rooms| == RoomsPerLevel && spawnPosition.Some?
      modifies this`enemyPositions, rng
      ensures EnemiesLaid(tiles, rooms, spawnPosition.value, enemyPositions, roomOf, planned, tries, levelNumber)
    {
      roomOf, planned, tries := PlaceEnemies(rng);
      PlacedWellMeans(enemyPositions, roomOf);
    }
  }

  /** A generator built for a level's size and number, run once: what
      `generate_level` asks of it. The grid is new, and the layout is the
      one `generate` promises. */
  method GenerateFor(width: int, height: int, levelNumber: int, rng: Rng)
    returns (tiles: array2<int>, spawn: TilePos, portal: TilePos, enemies: seq<TilePos>, ghost plan: LevelPlan)
    requires GridFits(width, height)
    modifies rng
    ensures fresh(tiles) && tiles.Length0 == width && tiles.Length1 == height
    ensures spawn == plan.spawn && portal == plan.portal && enemies == plan.enemies
    ensures LaidOut(tiles, plan, levelNumber)
  {
    var generator := new LevelGenerator(width, height, levelNumber);
    var spawnAt, portalAt;
    ghost var bends, roomOf, planned, tries;
    spawnAt, enemies, portalAt, bends, roomOf, planned, tries := generator.Generate(rng);
    tiles, spawn, portal := generator.tiles, spawnAt.value, portalAt.value;
    plan := LevelPlan(generator.rooms, bends, spawn, portal, enemies, roomOf, planned, tries);
  }
}
