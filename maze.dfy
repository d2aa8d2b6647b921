/**
 * The maze generator of the eGov Maze screen: an all-wall grid, a Fisher-Yates
 * shuffle, depth-first carving in steps of two cells from (1, 1), and the choice
 * of the end cell as the carved cell farthest from the start in Manhattan distance.
 */
module Maze {

  /** The kind of one maze cell. */
  datatype Cell = Wall | Path | Start | End

  const Rows: int := 21
  const Cols: int := 31

  /** A cell coordinate (row, column). */
  type Pos = (int, int)

  /** The fixed start cell, near the top-left corner. */
  const Origin: Pos := (1, 1)

  /** A carving direction: two cells up, down, left or right. */
  datatype Offset = Offset(dr: int, dc: int)

  const Steps: seq<Offset> := [Offset(-2, 0), Offset(2, 0), Offset(0, -2), Offset(0, 2)]

  predicate InGrid(r: int, c: int) { 0 <= r < Rows && 0 <= c < Cols }

  /** The generator's own bounds test: strictly inside the border. */
  predicate InBounds(r: int, c: int) { 0 < r < Rows - 1 && 0 < c < Cols - 1 }

  predicate IsGrid(g: array2<Cell>) { g.Length0 == Rows && g.Length1 == Cols }

  /** A cell that is not a wall (carved, or relabelled start or end). */
  predicate Open(g: array2<Cell>, r: int, c: int)
    reads g
    requires IsGrid(g)
  {
    InGrid(r, c) && g[r, c] != Wall
  }

  function Abs(x: int): nat { if x < 0 then -x else x }

  /** Manhattan distance from the start cell. */
  function Distance(r: int, c: int): nat { Abs(r - Origin.0) + Abs(c - Origin.1) }

  /** (r, c) comes strictly before (r', c') in row-major order. */
  predicate Before(r: int, c: int, r': int, c': int) { r < r' || (r == r' && c < c') }

  predicate Odd(x: int) { x % 2 == 1 }

  // ---------------------------------------------------------------------------
  // createEmptyGrid and shuffle
  // ---------------------------------------------------------------------------

  /** A Rows x Cols grid in which every cell is a wall. */
  method CreateEmptyGrid() returns (g: array2<Cell>)
    ensures fresh(g) && IsGrid(g)
    ensures forall r, c | InGrid(r, c) :: g[r, c] == Wall
  {
    g := new Cell[Rows, Cols];
    for r := 0 to Rows
      invariant forall i, j | 0 <= i < r && 0 <= j < Cols :: g[i, j] == Wall
    {
      for c := 0 to Cols
        invariant forall i, j | 0 <= i < r && 0 <= j < Cols :: g[i, j] == Wall
        invariant forall j | 0 <= j < c :: g[r, j] == Wall
      {
        g[r, c] := Wall;
      }
    }
  }

  /**
   * Fisher-Yates shuffle of a copy of `items`. `rolls[i]` stands for the random
   * draw made when the loop is at index i; the swap partner is `rolls[i] % (i + 1)`,
   * which ranges over exactly the indices 0..i that Math.floor(Math.random() * (i + 1))
   * can produce. The input sequence is a value and so is left as it was.
   */
  method Shuffle<T>(items: seq<T>, rolls: seq<nat>) returns (s: seq<T>)
    requires |rolls| == |items|
    ensures |s| == |items|
    ensures multiset(s) == multiset(items)
  {
    var a := new T[|items|](k requires 0 <= k < |items| => items[k]);
    assert a[..] == items;
    var i := a.Length - 1;
    while i > 0
      invariant -1 <= i < a.Length
      invariant multiset(a[..]) == multiset(items)
    {
      var j := rolls[i] % (i + 1);
      a[i], a[j] := a[j], a[i];
      i := i - 1;
    }
    s := a[..];
  }

  // ---------------------------------------------------------------------------
  // carve
  // ---------------------------------------------------------------------------

  /** Every cell of the grid. */
  ghost const AllCells: set<Pos> := set r, c | 0 <= r < Rows && 0 <= c < Cols :: (r, c)

  /** (r, c) is recorded at a depth below k. */
  ghost predicate Nearer(depth: map<Pos, nat>, r: int, c: int, k: nat)
  {
    (r, c) in depth && depth[(r, c)] < k
  }

  /** Some orthogonal neighbour of (r, c) is recorded below depth k. */
  ghost predicate HasNearerNeighbour(depth: map<Pos, nat>, r: int, c: int, k: nat)
  {
    Nearer(depth, r - 1, c, k) || Nearer(depth, r + 1, c, k) ||
    Nearer(depth, r, c - 1, k) || Nearer(depth, r, c + 1, k)
  }

  /**
   * Membership in the depth map, kept as a call of its own so that the
   * neighbour lookups inside Layered do not set off Layered again.
   */
  ghost predicate Recorded(depth: map<Pos, nat>, p: Pos) { p in depth }

  /**
   * Every recorded cell other than the origin has an orthogonal neighbour of
   * smaller depth: following those neighbours leads back to the origin.
   */
  ghost predicate Layered(depth: map<Pos, nat>)
  {
    forall p {:trigger Recorded(depth, p)} | Recorded(depth, p) && p != Origin ::
      HasNearerNeighbour(depth, p.0, p.1, depth[p])
  }

  /** Recorded cells lie inside the border and never on an even-even pillar. */
  ghost predicate Shaped(depth: map<Pos, nat>)
  {
    forall p | p in depth :: InBounds(p.0, p.1) && (Odd(p.0) || Odd(p.1))
  }

  /** During carving the grid holds a path exactly on the recorded cells and walls elsewhere. */
  ghost predicate Mirrors(g: array2<Cell>, depth: map<Pos, nat>)
    reads g
    requires IsGrid(g)
  {
    forall i, j | InGrid(i, j) :: g[i, j] == if (i, j) in depth then Path else Wall
  }

  /** The invariant of the carving phase, with the depth map as its witness. */
  ghost predicate Carved(g: array2<Cell>, depth: map<Pos, nat>)
    reads g
    requires IsGrid(g)
  {
    Mirrors(g, depth) && Shaped(depth) && Layered(depth) && Tree(depth)
  }

  /** q is one of the four orthogonal neighbours of p. */
  predicate Neighbours(p: Pos, q: Pos)
  {
    q == (p.0 - 1, p.1) || q == (p.0 + 1, p.1) || q == (p.0, p.1 - 1) || q == (p.0, p.1 + 1)
  }

  /** p and q are recorded orthogonal neighbours. */
  ghost predicate Linked(depth: map<Pos, nat>, p: Pos, q: Pos)
  {
    p in depth && q in depth && Neighbours(p, q)
  }

  /** q is a recorded neighbour of p one level nearer the origin. */
  ghost predicate ParentOf(depth: map<Pos, nat>, q: Pos, p: Pos)
  {
    Linked(depth, p, q) && depth[q] + 1 == depth[p]
  }

  /**
   * The recorded cells form a tree hung from the origin: recorded neighbours
   * lie exactly one level apart, and no cell has two nearer neighbours.
   */
  ghost predicate Tree(depth: map<Pos, nat>)
  {
    && (forall p, q | Linked(depth, p, q) :: depth[p] == depth[q] + 1 || depth[q] == depth[p] + 1)
    && (forall p, q, q' | ParentOf(depth, q, p) && ParentOf(depth, q', p) :: q == q')
  }

  /**
   * Recording x at depth k hangs it on the tree: either x is the origin and
   * nothing is recorded yet, or x's only recorded neighbour is `via`, one level
   * nearer.
   */
  ghost predicate Attaches(depth: map<Pos, nat>, x: Pos, via: Pos, k: nat)
  {
    || (x == Origin && depth == map[])
    || (via in depth && Neighbours(x, via) && depth[via] + 1 == k &&
        forall y | y in depth && Neighbours(x, y) :: y == via)
  }

  /** A cell hung on the tree keeps it a tree. */
  lemma TreeGrows(depth: map<Pos, nat>, x: Pos, via: Pos, k: nat)
    requires Tree(depth) && x !in depth && Attaches(depth, x, via, k)
    ensures Tree(depth[x := k])
  {
    var depth' := depth[x := k];
    forall p, q | Linked(depth', p, q)
      ensures depth'[p] == depth'[q] + 1 || depth'[q] == depth'[p] + 1
    {
      if p != x && q != x {
        assert Linked(depth, p, q);
      }
    }
    forall p, q, q' | ParentOf(depth', q, p) && ParentOf(depth', q', p)
      ensures q == q'
    {
      if p != x && q != x && q' != x {
        assert ParentOf(depth, q, p) && ParentOf(depth, q', p);
      }
    }
  }

  /**
   * Every odd-odd neighbour of a recorded cell is recorded, except possibly
   * `pending`: a carved connector has both of the rooms it joins carved, but for
   * the one whose far room is being carved next.
   */
  ghost predicate ClosedBut(depth: map<Pos, nat>, pending: Pos)
  {
    forall x, y | x in depth && Neighbours(x, y) && Odd(y.0) && Odd(y.1) && y != pending :: y in depth
  }

  /** Every carved connector has both of the rooms it joins carved. */
  ghost predicate Closed(depth: map<Pos, nat>)
  {
    forall x, y | x in depth && Neighbours(x, y) && Odd(y.0) && Odd(y.1) :: y in depth
  }

  /** Recording the pending room closes the map: a room has no odd-odd neighbour. */
  lemma ClosedAfterRoom(depth: map<Pos, nat>, x: Pos, k: nat)
    requires ClosedBut(depth, x) && Odd(x.0) && Odd(x.1)
    ensures Closed(depth[x := k])
  {
  }

  /** Recording a connector between a recorded room p and a room n leaves only n pending. */
  lemma ClosedAfterConnector(depth: map<Pos, nat>, m: Pos, k: nat, p: Pos, n: Pos)
    requires Closed(depth) && p in depth
    requires forall y | Neighbours(m, y) && (Odd(y.0) || Odd(y.1)) :: y == p || y == n
    ensures ClosedBut(depth[m := k], n)
  {
  }

  /** In a closed map an unrecorded room has no recorded neighbour. */
  lemma Isolated(depth: map<Pos, nat>, n: Pos)
    requires Closed(depth) && Odd(n.0) && Odd(n.1) && n !in depth
    ensures forall y | Neighbours(n, y) :: y !in depth
  {
  }

  /** Recording a new cell next to a nearer one keeps the map layered. */
  lemma LayeredGrows(depth: map<Pos, nat>, r: int, c: int, k: nat)
    requires Layered(depth) && (r, c) !in depth
    requires (r, c) == Origin || HasNearerNeighbour(depth, r, c, k)
    ensures Layered(depth[(r, c) := k])
  {
    var depth' := depth[(r, c) := k];
    forall p | Recorded(depth', p) && p != Origin ensures HasNearerNeighbour(depth', p.0, p.1, depth'[p]) {
      if p != (r, c) {
        assert Recorded(depth, p);
      }
    }
  }

  /** Carving only ever adds cells to the map. */
  ghost predicate Extends(depth: map<Pos, nat>, depth': map<Pos, nat>)
  {
    depth.Keys <= depth'.Keys
  }

  /**
   * One write `grid[r][c] = "path"` of the carving. When the cell was a wall it
   * is recorded at depth k, hung on the tree from its one open neighbour `via`
   * (or it is the origin, carved first).
   */
  method OpenCell(g: array2<Cell>, r: int, c: int, ghost k: nat, ghost via: Pos, ghost depth: map<Pos, nat>)
    returns (ghost depth': map<Pos, nat>)
    requires IsGrid(g) && InBounds(r, c) && (Odd(r) || Odd(c)) && Carved(g, depth)
    requires g[r, c] == Wall ==> Attaches(depth, (r, c), via, k)
    modifies g
    ensures depth' == if old(g[r, c]) == Wall then depth[(r, c) := k] else depth
    ensures Carved(g, depth') && (r, c) in depth'
  {
    if g[r, c] == Wall {
      if (r, c) != Origin || depth != map[] {
        NearerThroughNeighbour(depth, (r, c), via);
      }
      LayeredGrows(depth, r, c, k);
      TreeGrows(depth, (r, c), via, k);
      depth' := depth[(r, c) := k];
    } else {
      depth' := depth;
    }
    g[r, c] := Path;
  }

  /** The two-step neighbour of (r, c) in direction s, when inside the border, is recorded (so open). */
  ghost predicate NeighbourRecorded(depth: map<Pos, nat>, r: int, c: int, s: Offset)
  {
    InBounds(r + s.dr, c + s.dc) ==> (r + s.dr, c + s.dc) in depth
  }

  /** A cell next to a recorded one may be recorded one level deeper. */
  lemma NearerThroughNeighbour(depth: map<Pos, nat>, p: Pos, q: Pos)
    requires Neighbours(p, q) && q in depth
    ensures HasNearerNeighbour(depth, p.0, p.1, depth[q] + 1)
  {
  }

  /**
   * Geometry of one carving step from an odd-odd cell: the cell in between is
   * inside the border, off the even-even pillars and next to both ends, and the
   * far end is odd-odd again.
   */
  lemma StepGeometry(r: int, c: int, s: Offset)
    requires s in Steps && InBounds(r, c) && InBounds(r + s.dr, c + s.dc) && Odd(r) && Odd(c)
    ensures InBounds(r + s.dr / 2, c + s.dc / 2)
    ensures Odd(r + s.dr / 2) || Odd(c + s.dc / 2)
    ensures Odd(r + s.dr) && Odd(c + s.dc)
    ensures Neighbours((r + s.dr / 2, c + s.dc / 2), (r, c))
    ensures Neighbours((r + s.dr, c + s.dc), (r + s.dr / 2, c + s.dc / 2))
    ensures (r + s.dr / 2, c + s.dc / 2) != (r + s.dr, c + s.dc)
    ensures forall y | Neighbours((r + s.dr / 2, c + s.dc / 2), y) && (Odd(y.0) || Odd(y.1)) ::
      y == (r, c) || y == (r + s.dr, c + s.dc)
  {
  }

  /**
   * One iteration of carve's loop at (r, c) in direction `step`: if the
   * two-step neighbour (nr, nc) is inside the border and still a wall, open the
   * cell in between and carve from (nr, nc).
   */
  method CarveToward(g: array2<Cell>, r: int, c: int, step: Offset, rolls: (int, int) -> seq<nat>,
                     ghost depth: map<Pos, nat>)
    returns (ghost depth': map<Pos, nat>)
    requires IsGrid(g) && InBounds(r, c) && Odd(r) && Odd(c) && step in Steps
    requires forall i, j :: |rolls(i, j)| == |Steps|
    requires Carved(g, depth) && Closed(depth) && (r, c) in depth
    modifies g
    decreases AllCells - depth.Keys, 2
    ensures Carved(g, depth') && Closed(depth') && Extends(depth, depth')
    ensures NeighbourRecorded(depth', r, c, step)
  {
    var nr, nc := r + step.dr, c + step.dc;
    if InBounds(nr, nc) && g[nr, nc] == Wall {
      StepGeometry(r, c, step);
      depth' := Tunnel(g, (r, c), (r + step.dr / 2, c + step.dc / 2), (nr, nc), rolls, depth);
    } else {
      depth' := depth;
    }
  }

  /** Open the connector m between p and its walled two-step neighbour n, then carve from n. */
  method Tunnel(g: array2<Cell>, p: Pos, m: Pos, n: Pos, rolls: (int, int) -> seq<nat>,
                ghost depth: map<Pos, nat>)
    returns (ghost depth': map<Pos, nat>)
    requires IsGrid(g) && InBounds(m.0, m.1) && (Odd(m.0) || Odd(m.1))
    requires InBounds(n.0, n.1) && Odd(n.0) && Odd(n.1) && g[n.0, n.1] == Wall
    requires Neighbours(m, p) && Neighbours(n, m) && m != n
    requires forall y | Neighbours(m, y) && (Odd(y.0) || Odd(y.1)) :: y == p || y == n
    requires forall i, j :: |rolls(i, j)| == |Steps|
    requires Carved(g, depth) && Closed(depth) && p in depth
    modifies g
    decreases AllCells - depth.Keys, 1
    ensures Carved(g, depth') && Closed(depth') && Extends(depth, depth')
    ensures n in depth'
  {
    assert n !in depth;
    Isolated(depth, n);
    assert m !in depth;
    var depth1 := OpenCell(g, m.0, m.1, depth[p] + 1, p, depth);
    ClosedAfterConnector(depth, m, depth[p] + 1, p, n);
    HangsOnConnector(depth, m, n, depth[p] + 1);
    assert m in AllCells;
    FewerUnrecorded(depth, depth1, m);
    depth' := Carve(g, n.0, n.1, rolls, depth1[m] + 1, m, depth1);
  }

  /** Once the connector m is recorded, the isolated room n hangs on the tree from m. */
  lemma HangsOnConnector(depth: map<Pos, nat>, m: Pos, n: Pos, k: nat)
    requires Neighbours(n, m) && forall y | Neighbours(n, y) :: y !in depth
    ensures Attaches(depth[m := k], n, m, k + 1)
  {
  }

  /**
   * carve(r, c): open (r, c), then try the four two-step directions in shuffled
   * order. `rolls(r, c)` are the shuffle's random draws for the call made at
   * (r, c); a cell is carved at most once (the callee's cell must still be a
   * wall), so one roll list per cell is as general as a stream of draws.
   */
  method Carve(g: array2<Cell>, r: int, c: int, rolls: (int, int) -> seq<nat>,
               ghost d: nat, ghost via: Pos, ghost depth: map<Pos, nat>)
    returns (ghost depth': map<Pos, nat>)
    requires IsGrid(g) && InBounds(r, c) && Odd(r) && Odd(c) && g[r, c] == Wall
    requires forall i, j :: |rolls(i, j)| == |Steps|
    requires Carved(g, depth) && ClosedBut(depth, (r, c))
    requires Attaches(depth, (r, c), via, d)
    modifies g
    decreases AllCells - depth.Keys, 0
    ensures Carved(g, depth') && Closed(depth') && Extends(depth, depth') && (r, c) in depth'
    ensures forall k | 0 <= k < |Steps| :: NeighbourRecorded(depth', r, c, Steps[k])
  {
    depth' := OpenCell(g, r, c, d, via, depth);
    ClosedAfterRoom(depth, (r, c), d);
    var dirs := Shuffle(Steps, rolls(r, c));
    DirectionsAreSteps(dirs);
    assert (r, c) in AllCells;
    for k := 0 to |dirs|
      invariant Carved(g, depth') && Closed(depth') && Extends(depth, depth')
      invariant (r, c) in depth' && (r, c) !in depth
      invariant forall m | 0 <= m < k :: NeighbourRecorded(depth', r, c, dirs[m])
    {
      FewerUnrecorded(depth, depth', (r, c));
      ghost var before := depth';
      depth' := CarveToward(g, r, c, dirs[k], rolls, depth');
      StillRecorded(before, depth', r, c, dirs, k);
    }
    EveryDirection(depth', r, c, dirs);
  }

  /** A reordering of Steps holds steps only. */
  lemma DirectionsAreSteps(dirs: seq<Offset>)
    requires multiset(dirs) == multiset(Steps)
    ensures forall k | 0 <= k < |dirs| :: dirs[k] in Steps
  {
    forall k | 0 <= k < |dirs| ensures dirs[k] in Steps {
      assert dirs[k] in multiset(dirs);
    }
  }

  /** Recording a cell of the grid that was not recorded before leaves strictly fewer unrecorded cells. */
  lemma FewerUnrecorded(depth: map<Pos, nat>, depth': map<Pos, nat>, p: Pos)
    requires Extends(depth, depth') && p in AllCells && p !in depth && p in depth'
    ensures AllCells - depth'.Keys < AllCells - depth.Keys
  {
    assert p in AllCells - depth.Keys;
  }

  /** Directions already tried stay recorded when the map grows. */
  lemma StillRecorded(depth: map<Pos, nat>, depth': map<Pos, nat>, r: int, c: int, dirs: seq<Offset>, k: nat)
    requires Extends(depth, depth') && k < |dirs|
    requires forall m | 0 <= m < k :: NeighbourRecorded(depth, r, c, dirs[m])
    requires NeighbourRecorded(depth', r, c, dirs[k])
    ensures forall m | 0 <= m < k + 1 :: NeighbourRecorded(depth', r, c, dirs[m])
  {
  }

  /** Having tried every direction of a reordering of Steps is having tried every direction. */
  lemma EveryDirection(depth: map<Pos, nat>, r: int, c: int, dirs: seq<Offset>)
    requires multiset(dirs) == multiset(Steps)
    requires forall m | 0 <= m < |dirs| :: NeighbourRecorded(depth, r, c, dirs[m])
    ensures forall k | 0 <= k < |Steps| :: NeighbourRecorded(depth, r, c, Steps[k])
  {
    forall k | 0 <= k < |Steps| ensures NeighbourRecorded(depth, r, c, Steps[k]) {
      assert Steps[k] in multiset(dirs);
      var m :| 0 <= m < |dirs| && dirs[m] == Steps[k];
    }
  }

  // ---------------------------------------------------------------------------
  // Reachability
  // ---------------------------------------------------------------------------

  /** w leads from the origin to p through recorded cells, one orthogonal step at a time. */
  ghost predicate RecordedWalk(depth: map<Pos, nat>, w: seq<Pos>, p: Pos)
  {
    && |w| > 0 && w[0] == Origin && w[|w| - 1] == p
    && (forall i | 0 <= i < |w| :: w[i] in depth)
    && (forall i | 0 <= i < |w| - 1 :: Neighbours(w[i + 1], w[i]))
  }

  /** Following ever nearer neighbours from a recorded cell ends at the origin. */
  lemma {:induction false} WalkFromOrigin(depth: map<Pos, nat>, p: Pos) returns (w: seq<Pos>)
    requires Layered(depth) && p in depth
    ensures RecordedWalk(depth, w, p)
    decreases depth[p]
  {
    if p == Origin {
      w := [p];
    } else {
      assert Recorded(depth, p);
      var q: Pos;
      if Nearer(depth, p.0 - 1, p.1, depth[p]) {
        q := (p.0 - 1, p.1);
      } else if Nearer(depth, p.0 + 1, p.1, depth[p]) {
        q := (p.0 + 1, p.1);
      } else if Nearer(depth, p.0, p.1 - 1, depth[p]) {
        q := (p.0, p.1 - 1);
      } else {
        q := (p.0, p.1 + 1);
      }
      var v := WalkFromOrigin(depth, q);
      w := v + [p];
      assert w[|w| - 2] == q;
    }
  }

  /** w leads from the start cell to p through open cells, one orthogonal step at a time. */
  ghost predicate IsWalk(g: array2<Cell>, w: seq<Pos>, p: Pos)
    reads g
    requires IsGrid(g)
  {
    && |w| > 0 && w[0] == Origin && w[|w| - 1] == p
    && (forall i | 0 <= i < |w| :: Open(g, w[i].0, w[i].1))
    && (forall i | 0 <= i < |w| - 1 :: Neighbours(w[i + 1], w[i]))
  }

  ghost predicate Reachable(g: array2<Cell>, p: Pos)
    reads g
    requires IsGrid(g)
  {
    exists w :: IsWalk(g, w, p)
  }

  /** When the open cells are exactly the cells of a layered map, every open cell is reachable. */
  lemma OpenIsReachable(g: array2<Cell>, depth: map<Pos, nat>)
    requires IsGrid(g) && Layered(depth)
    requires forall p | p in depth :: Open(g, p.0, p.1)
    requires forall r, c | Open(g, r, c) :: (r, c) in depth
    ensures forall r, c | Open(g, r, c) :: Reachable(g, (r, c))
  {
    forall r, c | Open(g, r, c) ensures Reachable(g, (r, c)) {
      var w := WalkFromOrigin(depth, (r, c));
      assert IsWalk(g, w, (r, c));
    }
  }

  // ---------------------------------------------------------------------------
  // No cycles
  // ---------------------------------------------------------------------------

  /** w is a cycle of open cells: at least three distinct cells, each next to the following one and the last next to the first. */
  ghost predicate IsCycle(g: array2<Cell>, w: seq<Pos>)
    reads g
    requires IsGrid(g)
  {
    && |w| >= 3
    && (forall i | 0 <= i < |w| :: Open(g, w[i].0, w[i].1))
    && (forall i | 0 <= i < |w| - 1 :: Neighbours(w[i], w[i + 1]))
    && Neighbours(w[|w| - 1], w[0])
    && (forall i, j | 0 <= i < j < |w| :: w[i] != w[j])
  }

  /** An index of a deepest cell of w. */
  lemma Deepest(depth: map<Pos, nat>, w: seq<Pos>) returns (m: nat)
    requires |w| > 0 && forall i | 0 <= i < |w| :: w[i] in depth
    ensures m < |w| && forall i | 0 <= i < |w| :: depth[w[i]] <= depth[w[m]]
  {
    m := 0;
    for i := 1 to |w|
      invariant m < i && forall j | 0 <= j < i :: depth[w[j]] <= depth[w[m]]
    {
      if depth[w[i]] > depth[w[m]] {
        m := i;
      }
    }
  }

  /**
   * A closed walk of three or more steps through the cells of a tree repeats a
   * cell: both walk-neighbours of its deepest cell are that cell's one parent.
   */
  lemma NoRecordedCycle(depth: map<Pos, nat>, w: seq<Pos>)
    requires Tree(depth)
    requires |w| >= 3 && forall i | 0 <= i < |w| :: w[i] in depth
    requires forall i | 0 <= i < |w| - 1 :: Neighbours(w[i], w[i + 1])
    requires Neighbours(w[|w| - 1], w[0])
    ensures exists i, j | 0 <= i < j < |w| :: w[i] == w[j]
  {
    var m := Deepest(depth, w);
    var a := if m == 0 then |w| - 1 else m - 1;
    var b := if m == |w| - 1 then 0 else m + 1;
    assert Linked(depth, w[m], w[a]) && Linked(depth, w[m], w[b]);
    assert ParentOf(depth, w[a], w[m]) && ParentOf(depth, w[b], w[m]);
    if a < b {
      assert w[a] == w[b];
    } else {
      assert w[b] == w[a];
    }
  }

  // ---------------------------------------------------------------------------
  // The end cell
  // ---------------------------------------------------------------------------

  predicate IsPath(g: array2<Cell>, r: int, c: int)
    reads g
    requires IsGrid(g)
  {
    InGrid(r, c) && g[r, c] == Path
  }

  /** No path cell comes before (r, c) in row-major order. */
  ghost predicate NoPathBefore(g: array2<Cell>, r: int, c: int)
    reads g
    requires IsGrid(g)
  {
    forall i, j | IsPath(g, i, j) :: !Before(i, j, r, c)
  }

  /**
   * Among the path cells before (r, c) in row-major order, `end` is one at the
   * greatest distance from the start, and the first such one.
   */
  ghost predicate FarthestBefore(g: array2<Cell>, end: Pos, r: int, c: int)
    reads g
    requires IsGrid(g)
  {
    && IsPath(g, end.0, end.1) && Before(end.0, end.1, r, c)
    && forall i, j | IsPath(g, i, j) && Before(i, j, r, c) ::
         Distance(i, j) <= Distance(end.0, end.1) &&
         (Before(i, j, end.0, end.1) ==> Distance(i, j) < Distance(end.0, end.1))
  }

  /**
   * The row-major scan for the end cell: the first path cell of greatest
   * distance from the start (the comparison is strict), or the start itself
   * when the grid has no path cell.
   */
  method FindEnd(g: array2<Cell>) returns (end: Pos)
    requires IsGrid(g)
    ensures (NoPathBefore(g, Rows, 0) && end == Origin) || FarthestBefore(g, end, Rows, 0)
  {
    end := Origin;
    var maxDist := -1;
    for r := 0 to Rows
      invariant (maxDist == -1 && end == Origin && NoPathBefore(g, r, 0)) ||
                (maxDist == Distance(end.0, end.1) && FarthestBefore(g, end, r, 0))
    {
      for c := 0 to Cols
        invariant (maxDist == -1 && end == Origin && NoPathBefore(g, r, c)) ||
                  (maxDist == Distance(end.0, end.1) && FarthestBefore(g, end, r, c))
      {
        if g[r, c] == Path {
          var dist := Abs(r - Origin.0) + Abs(c - Origin.1);
          if dist > maxDist {
            maxDist := dist;
            end := (r, c);
          }
        }
      }
    }
  }

  // ---------------------------------------------------------------------------
  // generateMaze
  // ---------------------------------------------------------------------------

  /**
   * What a generated maze promises: the start sits at (1, 1) and the end
   * elsewhere; every other cell is a wall or a path; open cells lie inside the
   * border and off the even-even pillars; every open cell can be reached from
   * the start; the open cells hold no cycle, so with reachability they form a
   * tree (a perfect maze: one simple path from the start to each open cell); and the end is the first open cell, in row-major order, of
   * greatest Manhattan distance from the start.
   */
  ghost predicate WellFormed(g: array2<Cell>, start: Pos, end: Pos)
    reads g
    requires IsGrid(g)
  {
    && start == Origin && InGrid(end.0, end.1) && end != start
    && g[start.0, start.1] == Start && g[end.0, end.1] == End
    && (forall r, c | InGrid(r, c) && (r, c) != start && (r, c) != end :: g[r, c] == Wall || g[r, c] == Path)
    && (forall r, c | Open(g, r, c) :: InBounds(r, c) && (Odd(r) || Odd(c)))
    && (forall r, c | Open(g, r, c) :: Reachable(g, (r, c)))
    && (forall w :: !IsCycle(g, w))
    && (forall r, c | Open(g, r, c) ::
          Distance(r, c) <= Distance(end.0, end.1) &&
          (Before(r, c, end.0, end.1) ==> Distance(r, c) < Distance(end.0, end.1)))
  }

  /**
   * generateMaze: carve from (1, 1) on an all-wall grid, pick the end cell, then
   * relabel the start and end cells. `rolls` are the shuffle draws, one list of
   * four per carved cell.
   */
  method GenerateMaze(rolls: (int, int) -> seq<nat>) returns (g: array2<Cell>, start: Pos, end: Pos)
    requires forall i, j :: |rolls(i, j)| == |Steps|
    ensures fresh(g) && IsGrid(g) && WellFormed(g, start, end)
  {
    g := CreateEmptyGrid();
    ghost var depth: map<Pos, nat> := map[];
    depth := Carve(g, 1, 1, rolls, 0, Origin, depth);
    start := Origin;
    assert NeighbourRecorded(depth, 1, 1, Steps[3]);
    end := FindEnd(g);
    Relabel(g, start, end, depth);
  }

  /**
   * The last two writes of generateMaze, on a fully carved grid whose end cell
   * has been chosen: mark the start and the end.
   */
  method Relabel(g: array2<Cell>, start: Pos, end: Pos, ghost depth: map<Pos, nat>)
    requires IsGrid(g) && Carved(g, depth) && start == Origin && start in depth && (1, 3) in depth
    requires (NoPathBefore(g, Rows, 0) && end == Origin) || FarthestBefore(g, end, Rows, 0)
    modifies g
    ensures WellFormed(g, start, end)
  {
    assert IsPath(g, 1, 1) && IsPath(g, 1, 3);
    assert Distance(end.0, end.1) >= Distance(1, 3);
    label Carved:
    g[start.0, start.1] := Start;
    g[end.0, end.1] := End;
    assert forall r, c | InGrid(r, c) :: Open(g, r, c) == ((r, c) in depth);
    assert forall p | p in depth :: Open(g, p.0, p.1);
    OpenIsReachable(g, depth);
    forall w | IsCycle(g, w) ensures false {
      NoRecordedCycle(depth, w);
    }
    forall r, c | Open(g, r, c)
      ensures Distance(r, c) <= Distance(end.0, end.1) &&
              (Before(r, c, end.0, end.1) ==> Distance(r, c) < Distance(end.0, end.1))
    {
      assert old@Carved(IsPath(g, r, c)) || (r, c) == start || (r, c) == end;
    }
  }
}
