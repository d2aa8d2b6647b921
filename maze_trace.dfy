/**
 * The freehand tracing rules of the eGov Maze screen: a press must begin on the
 * start cell (or, once a run has begun, close to where the pencil was lifted),
 * dragging into a wall loses, dragging into the end cell wins.
 */
module MazeTrace {
  import opened Wrappers
  import Maze

  datatype Status = Playing | Won | Lost

  /** A pointer position in pixels, relative to the maze's top-left corner. */
  datatype Point = Point(x: real, y: real)

  /** The tracing state: game status, the drawing and started flags, the last point and cell. */
  datatype Trace = Trace(status: Status, isDrawing: bool, hasStarted: bool,
                         lastPoint: Option<Point>, lastCell: Option<Maze.Pos>)

  /** The state of a fresh maze (initial, or after a restart). */
  const Fresh := Trace(Playing, false, false, None, None)

  /** The fraction of a cell size within which a lifted pencil may be put down again. */
  const ResumeReach: real := 0.85

  /**
   * p is within ResumeReach cell sizes of q. The Euclidean distance is compared
   * through its square, which is monotone on non-negative values.
   */
  predicate WithinReach(q: Point, p: Point, cellSize: real)
  {
    (p.x - q.x) * (p.x - q.x) + (p.y - q.y) * (p.y - q.y) <= (cellSize * ResumeReach) * (cellSize * ResumeReach)
  }

  /** The press at (r, c), point p, is taken: it starts a run on the start cell or resumes one close by. */
  predicate PressTaken(t: Trace, r: int, c: int, p: Point, start: Maze.Pos, cellSize: real)
  {
    && t.status == Playing
    && (if !t.hasStarted then (r, c) == start
        else t.lastPoint.Some? && WithinReach(t.lastPoint.value, p, cellSize))
  }

  /** beginDrawFrom(r, c, x, y). */
  function Begin(t: Trace, r: int, c: int, p: Point, start: Maze.Pos, cellSize: real): (t': Trace)
    ensures t'.status == t.status
  {
    if PressTaken(t, r, c, p, start, cellSize) then
      t.(hasStarted := true, lastPoint := Some(p), lastCell := Some((r, c)), isDrawing := true)
    else
      t
  }

  /** extendPathTo(r, c, x, y), where `kind` is the grid's cell at (r, c). */
  function Extend(t: Trace, r: int, c: int, p: Point, kind: Maze.Cell, end: Maze.Pos): (t': Trace)
    ensures t'.hasStarted == t.hasStarted
  {
    if !t.isDrawing || t.status != Playing || t.lastCell == Some((r, c)) then
      t
    else
      var moved := t.(lastCell := Some((r, c)), lastPoint := Some(p));
      if kind == Maze.Wall then moved.(isDrawing := false, status := Lost)
      else if (r, c) == end then moved.(isDrawing := false, status := Won)
      else moved
  }

  /** stopDrawing: lift the pencil, keeping the last point and cell for a later resume. */
  function Stop(t: Trace): (t': Trace)
    ensures !t'.isDrawing && t'.status == t.status && t'.lastPoint == t.lastPoint && t'.lastCell == t.lastCell
  {
    t.(isDrawing := false)
  }

  /** The grid cell under pixel (x, y), or None when the point is off the grid. */
  function CellAt(x: real, y: real, cellSize: real): (cell: Option<Maze.Pos>)
    requires cellSize > 0.0
    ensures cell.Some? ==> Maze.InGrid(cell.value.0, cell.value.1)
  {
    var c := (x / cellSize).Floor;
    var r := (y / cellSize).Floor;
    if 0 <= r < Maze.Rows && 0 <= c < Maze.Cols then Some((r, c)) else None
  }

  /** handlePointerDown at pixel p. */
  function PointerDown(t: Trace, p: Point, start: Maze.Pos, cellSize: real): (t': Trace)
    requires cellSize > 0.0
    ensures t'.status == t.status
  {
    if t.status != Playing then t
    else match CellAt(p.x, p.y, cellSize)
      case None => t
      case Some(cell) => Begin(t, cell.0, cell.1, p, start, cellSize)
  }

  /** handlePointerMove at pixel p, where `kind` is the grid's cell under p. */
  function PointerMove(t: Trace, p: Point, kind: Maze.Cell, end: Maze.Pos, cellSize: real): (t': Trace)
    requires cellSize > 0.0
    ensures t'.hasStarted == t.hasStarted
  {
    if !t.isDrawing || t.status != Playing then t
    else match CellAt(p.x, p.y, cellSize)
      case None => t
      case Some(cell) => Extend(t, cell.0, cell.1, p, kind, end)
  }

  // ---------------------------------------------------------------------------
  // Properties of the rules
  // ---------------------------------------------------------------------------

  /**
   * The pixel-to-cell mapping: the point lies on the grid exactly when its
   * coordinates, measured in cells, are within 0..Cols and 0..Rows, and then
   * (r, c) is the cell whose square contains it.
   */
  lemma CellAtContains(x: real, y: real, cellSize: real)
    requires cellSize > 0.0
    ensures CellAt(x, y, cellSize).Some? <==>
      0.0 <= x / cellSize < Maze.Cols as real && 0.0 <= y / cellSize < Maze.Rows as real
    ensures CellAt(x, y, cellSize).Some? ==>
      var cell := CellAt(x, y, cellSize).value;
      cell.1 as real <= x / cellSize < (cell.1 + 1) as real &&
      cell.0 as real <= y / cellSize < (cell.0 + 1) as real
  {
  }

  /**
   * A press starts (or resumes) drawing exactly when the game is still being
   * played and the press is on the start cell for a first run, or within reach
   * of the last point for a resumed run; a refused press changes nothing.
   */
  lemma BeginRule(t: Trace, r: int, c: int, p: Point, start: Maze.Pos, cellSize: real)
    ensures var t' := Begin(t, r, c, p, start, cellSize);
      && (t' != t ==> t'.isDrawing && t'.hasStarted && t'.lastPoint == Some(p) && t'.lastCell == Some((r, c)))
      && (t'.isDrawing && t'.lastCell == Some((r, c)) && t'.lastPoint == Some(p) <==>
            (t.isDrawing && t.lastCell == Some((r, c)) && t.lastPoint == Some(p)) ||
            (t.status == Playing &&
              (if !t.hasStarted then (r, c) == start
               else t.lastPoint.Some? && WithinReach(t.lastPoint.value, p, cellSize))))
  {
  }

  /**
   * Comparing squares is comparing distances: for any cell size and any
   * point p at Euclidean distance d from q, p is within reach of q exactly
   * when d is at most ResumeReach cell sizes.
   */
  lemma WithinReachIsDistance(q: Point, p: Point, cellSize: real, d: real)
    requires cellSize > 0.0 && d >= 0.0
    requires d * d == (p.x - q.x) * (p.x - q.x) + (p.y - q.y) * (p.y - q.y)
    ensures WithinReach(q, p, cellSize) <==> d <= ResumeReach * cellSize
  {
  }

  /** Before a run has begun, only a press on the start cell does anything. */
  lemma FirstPressOnStart(t: Trace, r: int, c: int, p: Point, start: Maze.Pos, cellSize: real)
    requires !t.hasStarted && (r, c) != start
    ensures Begin(t, r, c, p, start, cellSize) == t
  {
  }

  /** While drawing, moving within the cell last entered changes nothing. */
  lemma SameCellNoChange(t: Trace, r: int, c: int, p: Point, kind: Maze.Cell, end: Maze.Pos)
    requires t.lastCell == Some((r, c))
    ensures Extend(t, r, c, p, kind, end) == t
  {
  }

  /**
   * Entering a new cell while drawing: a wall loses and stops drawing, the end
   * cell wins and stops drawing, any other cell keeps the game going.
   */
  lemma EnterCellRule(t: Trace, r: int, c: int, p: Point, kind: Maze.Cell, end: Maze.Pos)
    requires t.isDrawing && t.status == Playing && t.lastCell != Some((r, c))
    ensures var t' := Extend(t, r, c, p, kind, end);
      && t'.lastCell == Some((r, c)) && t'.lastPoint == Some(p)
      && (t'.status == Lost <==> kind == Maze.Wall)
      && (t'.status == Won <==> kind != Maze.Wall && (r, c) == end)
      && (t'.isDrawing <==> t'.status == Playing)
  {
  }

  /** A move with no drawing in progress, or after the game has ended, is ignored. */
  lemma MoveIgnoredUnlessDrawing(t: Trace, r: int, c: int, p: Point, kind: Maze.Cell, end: Maze.Pos)
    requires !t.isDrawing || t.status != Playing
    ensures Extend(t, r, c, p, kind, end) == t
  {
  }

  /** Won and lost are final: no press, move or release leaves them. */
  lemma EndIsFinal(t: Trace, r: int, c: int, p: Point, kind: Maze.Cell, start: Maze.Pos, end: Maze.Pos, cellSize: real)
    requires t.status != Playing
    ensures Begin(t, r, c, p, start, cellSize) == t
    ensures Extend(t, r, c, p, kind, end) == t
    ensures Stop(t).status == t.status
  {
  }

  // ---------------------------------------------------------------------------
  // A whole drag
  // ---------------------------------------------------------------------------

  /** The pointer samples of one drag, each extending the path in turn. */
  function Drag(t: Trace, samples: seq<(Maze.Pos, Point)>, kind: Maze.Pos -> Maze.Cell, end: Maze.Pos): Trace
    decreases |samples|
  {
    if |samples| == 0 then t
    else
      var s := samples[0];
      Drag(Extend(t, s.0.0, s.0.1, s.1, kind(s.0), end), samples[1..], kind, end)
  }

  /** The k-th sample enters a cell that neither wins nor loses. */
  predicate Harmless(samples: seq<(Maze.Pos, Point)>, kind: Maze.Pos -> Maze.Cell, end: Maze.Pos, k: int)
    requires 0 <= k < |samples|
  {
    kind(samples[k].0) != Maze.Wall && samples[k].0 != end
  }

  /**
   * A drag that begins while drawing on an ordinary cell wins exactly when it
   * reaches the end cell before touching any wall, and loses exactly when it
   * touches a wall before reaching the end cell.
   */
  lemma {:induction false} DragOutcome(t: Trace, samples: seq<(Maze.Pos, Point)>, kind: Maze.Pos -> Maze.Cell, end: Maze.Pos)
    requires t.isDrawing && t.status == Playing
    requires t.lastCell.Some? ==> kind(t.lastCell.value) != Maze.Wall && t.lastCell.value != end
    requires kind(end) != Maze.Wall
    ensures Drag(t, samples, kind, end).status == Won <==>
      exists k | 0 <= k < |samples| :: samples[k].0 == end && forall i | 0 <= i < k :: Harmless(samples, kind, end, i)
    ensures Drag(t, samples, kind, end).status == Lost <==>
      exists k | 0 <= k < |samples| :: kind(samples[k].0) == Maze.Wall && forall i | 0 <= i < k :: Harmless(samples, kind, end, i)
    decreases |samples|
  {
    if |samples| > 0 {
      var s := samples[0];
      var t1 := Extend(t, s.0.0, s.0.1, s.1, kind(s.0), end);
      var rest := samples[1..];
      if Harmless(samples, kind, end, 0) {
        assert t1.isDrawing && t1.status == Playing;
        DragOutcome(t1, rest, kind, end);
        if Drag(t, samples, kind, end).status == Won {
          var k :| 0 <= k < |rest| && rest[k].0 == end && forall i | 0 <= i < k :: Harmless(rest, kind, end, i);
          assert samples[k + 1] == rest[k];
          assert forall i | 0 <= i < k + 1 :: Harmless(samples, kind, end, i) by {
            forall i | 0 <= i < k + 1 ensures Harmless(samples, kind, end, i) {
              if i > 0 { assert Harmless(rest, kind, end, i - 1); }
            }
          }
        }
        if exists k | 0 <= k < |samples| :: samples[k].0 == end && forall i | 0 <= i < k :: Harmless(samples, kind, end, i) {
          var k :| 0 <= k < |samples| && samples[k].0 == end && forall i | 0 <= i < k :: Harmless(samples, kind, end, i);
          assert k > 0;
          assert forall i | 0 <= i < k - 1 :: Harmless(rest, kind, end, i) by {
            forall i | 0 <= i < k - 1 ensures Harmless(rest, kind, end, i) {
              assert Harmless(samples, kind, end, i + 1);
            }
          }
          assert rest[k - 1].0 == end;
        }
        if Drag(t, samples, kind, end).status == Lost {
          var k :| 0 <= k < |rest| && kind(rest[k].0) == Maze.Wall && forall i | 0 <= i < k :: Harmless(rest, kind, end, i);
          assert samples[k + 1] == rest[k];
          assert forall i | 0 <= i < k + 1 :: Harmless(samples, kind, end, i) by {
            forall i | 0 <= i < k + 1 ensures Harmless(samples, kind, end, i) {
              if i > 0 { assert Harmless(rest, kind, end, i - 1); }
            }
          }
        }
        if exists k | 0 <= k < |samples| :: kind(samples[k].0) == Maze.Wall && forall i | 0 <= i < k :: Harmless(samples, kind, end, i) {
          var k :| 0 <= k < |samples| && kind(samples[k].0) == Maze.Wall && forall i | 0 <= i < k :: Harmless(samples, kind, end, i);
          assert k > 0;
          assert forall i | 0 <= i < k - 1 :: Harmless(rest, kind, end, i) by {
            forall i | 0 <= i < k - 1 ensures Harmless(rest, kind, end, i) {
              assert Harmless(samples, kind, end, i + 1);
            }
          }
          assert kind(rest[k - 1].0) == Maze.Wall;
        }
      } else {
        assert t.lastCell != Some(s.0);
        assert t1.status != Playing;
        DragEnded(t1, rest, kind, end);
      }
    }
  }

  /** Once the game has ended, further samples change nothing. */
  lemma {:induction false} DragEnded(t: Trace, samples: seq<(Maze.Pos, Point)>, kind: Maze.Pos -> Maze.Cell, end: Maze.Pos)
    requires t.status != Playing
    ensures Drag(t, samples, kind, end) == t
    decreases |samples|
  {
    if |samples| > 0 {
      DragEnded(t, samples[1..], kind, end);
    }
  }

  // ---------------------------------------------------------------------------
  // The screen
  // ---------------------------------------------------------------------------

  /** The maze screen: its maze, effective cell size and tracing state. */
  class MazeScreen {
    var grid: array2<Maze.Cell>
    var start: Maze.Pos
    var end: Maze.Pos
    var cellSize: real
    var status: Status
    var isDrawing: bool
    var hasStarted: bool
    var lastPoint: Option<Point>
    var lastCell: Option<Maze.Pos>

    function State(): Trace
      reads this
    {
      Trace(status, isDrawing, hasStarted, lastPoint, lastCell)
    }

    /**
     * The screen's invariant: a well-formed maze; drawing only during a started,
     * unfinished run; a won run last entered the end cell; a lost run last
     * entered a wall.
     */
    ghost predicate Valid()
      reads this, grid
    {
      && Maze.IsGrid(grid) && Maze.WellFormed(grid, start, end) && cellSize > 0.0
      && (isDrawing ==> status == Playing && hasStarted && lastCell.Some?)
      && (!hasStarted ==> status == Playing && !isDrawing && lastCell == None)
      && (lastCell.Some? ==> Maze.InGrid(lastCell.value.0, lastCell.value.1))
      && (status == Won ==> lastCell == Some(end))
      && (status == Lost ==> lastCell.Some? && grid[lastCell.value.0, lastCell.value.1] == Maze.Wall)
    }

    /** The kind of the cell under pixel p (a wall off the grid, where no move reaches). */
    function KindUnder(p: Point): Maze.Cell
      reads this, grid
      requires Maze.IsGrid(grid) && cellSize > 0.0
    {
      match CellAt(p.x, p.y, cellSize)
      case None => Maze.Wall
      case Some(cell) => grid[cell.0, cell.1]
    }

    /** The screen as first shown: a new maze and a fresh tracing state. */
    constructor(rolls: (int, int) -> seq<nat>, cellSize: real)
      requires forall i, j :: |rolls(i, j)| == |Maze.Steps|
      requires cellSize > 0.0
      ensures Valid() && State() == Fresh && this.cellSize == cellSize
    {
      var g, s, e := Maze.GenerateMaze(rolls);
      grid, start, end := g, s, e;
      this.cellSize := cellSize;
      status, isDrawing, hasStarted, lastPoint, lastCell := Playing, false, false, None, None;
    }

    /** handleRestart: a new maze and a fresh tracing state; the cell size is kept. */
    method Restart(rolls: (int, int) -> seq<nat>)
      requires cellSize > 0.0
      requires forall i, j :: |rolls(i, j)| == |Maze.Steps|
      modifies this
      ensures Valid() && State() == Fresh && cellSize == old(cellSize) && fresh(grid)
    {
      var g, s, e := Maze.GenerateMaze(rolls);
      grid, start, end := g, s, e;
      status, isDrawing, hasStarted, lastPoint, lastCell := Playing, false, false, None, None;
    }

    /** A change of cell size or zoom: the effect that follows forgets the last point. */
    method Rescale(newCellSize: real)
      requires Valid() && newCellSize > 0.0
      modifies this
      ensures Valid() && cellSize == newCellSize
      ensures State() == old(State()).(lastPoint := None)
      ensures grid == old(grid) && start == old(start) && end == old(end)
    {
      cellSize := newCellSize;
      lastPoint := None;
    }

    /** beginDrawFrom(r, c, x, y). */
    method BeginDrawFrom(r: int, c: int, p: Point)
      requires Valid() && Maze.InGrid(r, c)
      modifies this
      ensures Valid() && State() == Begin(old(State()), r, c, p, start, cellSize)
      ensures grid == old(grid) && start == old(start) && end == old(end) && cellSize == old(cellSize)
    {
      if status != Playing {
        return;
      }
      if !hasStarted {
        if (r, c) != start {
          return;
        }
        hasStarted := true;
      } else {
        if lastPoint.None? {
          return;
        }
        var q := lastPoint.value;
        var dx := p.x - q.x;
        var dy := p.y - q.y;
        if dx * dx + dy * dy > (cellSize * ResumeReach) * (cellSize * ResumeReach) {
          return;
        }
      }
      lastPoint := Some(p);
      lastCell := Some((r, c));
      isDrawing := true;
    }

    /** extendPathTo(r, c, x, y). */
    method ExtendPathTo(r: int, c: int, p: Point)
      requires Valid() && Maze.InGrid(r, c)
      modifies this
      ensures Valid() && State() == Extend(old(State()), r, c, p, grid[r, c], end)
      ensures grid == old(grid) && start == old(start) && end == old(end) && cellSize == old(cellSize)
    {
      if !isDrawing || status != Playing {
        return;
      }
      var kind := grid[r, c];
      if lastCell == Some((r, c)) {
        return;
      }
      lastCell := Some((r, c));
      lastPoint := Some(p);
      if kind == Maze.Wall {
        isDrawing := false;
        status := Lost;
        return;
      }
      if (r, c) == end {
        isDrawing := false;
        status := Won;
      }
    }

    /** stopDrawing. */
    method StopDrawing()
      requires Valid()
      modifies this
      ensures Valid() && State() == Stop(old(State()))
      ensures grid == old(grid) && start == old(start) && end == old(end) && cellSize == old(cellSize)
    {
      isDrawing := false;
    }

    /** handlePointerDown at pixel p. */
    method HandlePointerDown(p: Point)
      requires Valid()
      modifies this
      ensures Valid() && State() == PointerDown(old(State()), p, start, cellSize)
      ensures grid == old(grid) && start == old(start) && end == old(end) && cellSize == old(cellSize)
    {
      if status != Playing {
        return;
      }
      var c := (p.x / cellSize).Floor;
      var r := (p.y / cellSize).Floor;
      if r < 0 || r >= Maze.Rows || c < 0 || c >= Maze.Cols {
        return;
      }
      BeginDrawFrom(r, c, p);
    }

    /** handlePointerMove at pixel p. */
    method HandlePointerMove(p: Point)
      requires Valid()
      modifies this
      ensures Valid() && State() == PointerMove(old(State()), p, KindUnder(p), end, cellSize)
      ensures grid == old(grid) && start == old(start) && end == old(end) && cellSize == old(cellSize)
    {
      if !isDrawing || status != Playing {
        return;
      }
      var c := (p.x / cellSize).Floor;
      var r := (p.y / cellSize).Floor;
      if r < 0 || r >= Maze.Rows || c < 0 || c >= Maze.Cols {
        return;
      }
      ExtendPathTo(r, c, p);
    }

    /** handlePointerUp. */
    method HandlePointerUp()
      requires Valid()
      modifies this
      ensures Valid() && State() == Stop(old(State()))
      ensures grid == old(grid) && start == old(start) && end == old(end) && cellSize == old(cellSize)
    {
      StopDrawing();
    }
  }
}
