/**
 * The eGov "one mine" tile game: a 5 x 5 board hiding three bombs. Each safe
 * tile uncovered earns a star; ten stars win, a bomb ends the game. The best
 * winning star count is kept as the high score.
 */
module OneMine {
  type Pos = (int, int)

  const Size: int := 5
  const BombCount: nat := 3
  const WinStars: nat := 10

  datatype Tile = Tile(hasBomb: bool, isClicked: bool)

  /** The game's state with the board seen as a map from position to tile. */
  datatype Play = Play(tiles: map<Pos, Tile>, gameOver: bool, winner: bool, starCount: nat, highScore: nat)

  predicate OnBoard(p: Pos)
  {
    0 <= p.0 < Size && 0 <= p.1 < Size
  }

  ghost const Cells: set<Pos> := set r, c | 0 <= r < Size && 0 <= c < Size :: (r, c)

  /** The positions holding a bomb. */
  ghost function Bombs(tiles: map<Pos, Tile>): set<Pos>
  {
    set p | p in tiles && tiles[p].hasBomb
  }

  /** The uncovered safe tiles: the stars earned. */
  ghost function Stars(tiles: map<Pos, Tile>): set<Pos>
  {
    set p | p in tiles && tiles[p].isClicked && !tiles[p].hasBomb
  }

  /** The uncovered bombs. */
  ghost function Blasts(tiles: map<Pos, Tile>): set<Pos>
  {
    set p | p in tiles && tiles[p].isClicked && tiles[p].hasBomb
  }

  /**
   * The game's invariant: a full board with three bombs; the star count is the
   * number of uncovered safe tiles; the game is over exactly when a bomb was
   * uncovered and won exactly at ten stars; a winner's stars are within the
   * high score.
   */
  ghost predicate ValidPlay(s: Play)
  {
    && s.tiles.Keys == Cells
    && |Bombs(s.tiles)| == BombCount
    && s.starCount == |Stars(s.tiles)|
    && (s.gameOver <==> Blasts(s.tiles) != {})
    && (s.winner <==> s.starCount >= WinStars)
    && (s.winner ==> s.starCount <= s.highScore)
    && !(s.gameOver && s.winner)
  }

  // ---------------------------------------------------------------------------
  // handleTileClick
  // ---------------------------------------------------------------------------

  /** The click on p is refused: the game is decided or the tile is already uncovered. */
  predicate Ignored(s: Play, p: Pos)
    requires p in s.tiles
  {
    s.gameOver || s.winner || s.tiles[p].isClicked
  }

  /** The board with p uncovered. */
  function Uncovered(s: Play, p: Pos): (s': Play)
    requires p in s.tiles
    ensures s'.tiles.Keys == s.tiles.Keys
  {
    s.(tiles := s.tiles[p := s.tiles[p].(isClicked := true)])
  }

  /** What uncovering a tile does to the flags: a bomb ends the game, a safe tile earns a star, the tenth star wins. */
  function Outcome(s: Play, hasBomb: bool): (s': Play)
    ensures s'.tiles == s.tiles && s'.highScore >= s.highScore
  {
    if hasBomb then s.(gameOver := true)
    else
      var n := s.starCount + 1;
      if n >= WinStars then
        s.(starCount := n, winner := true, highScore := if n > s.highScore then n else s.highScore)
      else
        s.(starCount := n)
  }

  /** handleTileClick(p): uncover p; a bomb ends the game, a safe tile earns a star. */
  function Click(s: Play, p: Pos): (s': Play)
    requires p in s.tiles
    ensures s'.tiles.Keys == s.tiles.Keys && s'.highScore >= s.highScore
  {
    if Ignored(s, p) then s
    else Outcome(Uncovered(s, p), s.tiles[p].hasBomb)
  }

  lemma ClickIgnoredRule(s: Play, p: Pos)
    requires p in s.tiles
    ensures Click(s, p) == s <==> Ignored(s, p)
  {
    if !Ignored(s, p) {
      assert Click(s, p).tiles[p] != s.tiles[p];
    }
  }

  /** An accepted click uncovers p and no other tile, and keeps every bomb where it was. */
  lemma ClickUncoversOnlyThatTile(s: Play, p: Pos)
    requires p in s.tiles && !Ignored(s, p)
    ensures var s' := Click(s, p);
      && s'.tiles[p] == Tile(s.tiles[p].hasBomb, true)
      && (forall q | q in s.tiles && q != p :: s'.tiles[q] == s.tiles[q])
      && Bombs(s'.tiles) == Bombs(s.tiles)
  {
  }

  lemma BombClickEndsGame(s: Play, p: Pos)
    requires p in s.tiles && !Ignored(s, p) && s.tiles[p].hasBomb
    ensures Click(s, p).gameOver && Click(s, p).starCount == s.starCount
    ensures Click(s, p).highScore == s.highScore && !Click(s, p).winner
  {
  }

  lemma SafeClickEarnsStar(s: Play, p: Pos)
    requires p in s.tiles && !Ignored(s, p) && !s.tiles[p].hasBomb
    ensures var s' := Click(s, p);
      && s'.starCount == s.starCount + 1 && !s'.gameOver
      && (s'.winner <==> s'.starCount >= WinStars)
      && s'.highScore == (if s'.winner && s'.starCount > s.highScore then s'.starCount else s.highScore)
  {
  }

  lemma ClickKeepsValid(s: Play, p: Pos)
    requires ValidPlay(s) && p in s.tiles
    ensures ValidPlay(Click(s, p))
  {
    if !Ignored(s, p) {
      var tiles := Uncovered(s, p).tiles;
      assert Bombs(tiles) == Bombs(s.tiles);
      if s.tiles[p].hasBomb {
        BlastKeepsValid(s, p);
      } else {
        StarKeepsValid(s, p);
      }
    }
  }

  lemma BlastKeepsValid(s: Play, p: Pos)
    requires ValidPlay(s) && p in s.tiles && !Ignored(s, p) && s.tiles[p].hasBomb
    ensures var tiles := Uncovered(s, p).tiles;
      Stars(tiles) == Stars(s.tiles) && Blasts(tiles) != {}
  {
    var tiles := Uncovered(s, p).tiles;
    assert Stars(tiles) == Stars(s.tiles);
    assert p in Blasts(tiles);
  }

  lemma StarKeepsValid(s: Play, p: Pos)
    requires ValidPlay(s) && p in s.tiles && !Ignored(s, p) && !s.tiles[p].hasBomb
    ensures var tiles := Uncovered(s, p).tiles;
      |Stars(tiles)| == |Stars(s.tiles)| + 1 && Blasts(tiles) == Blasts(s.tiles)
  {
    var tiles := Uncovered(s, p).tiles;
    assert Stars(tiles) == Stars(s.tiles) + {p};
    assert p !in Stars(s.tiles);
    assert Blasts(tiles) == Blasts(s.tiles);
  }

  /** The high score never goes down, whatever tiles are clicked. */
  lemma {:induction false} HighScoreMonotone(s: Play, ps: seq<Pos>)
    requires forall k | 0 <= k < |ps| :: ps[k] in s.tiles
    ensures Clicks(s, ps).highScore >= s.highScore
    decreases |ps|
  {
    if |ps| > 0 {
      HighScoreMonotone(Click(s, ps[0]), ps[1..]);
    }
  }

  /** A run of clicks. */
  function Clicks(s: Play, ps: seq<Pos>): (s': Play)
    requires forall k | 0 <= k < |ps| :: ps[k] in s.tiles
    ensures s'.tiles.Keys == s.tiles.Keys
    decreases |ps|
  {
    if |ps| == 0 then s else Clicks(Click(s, ps[0]), ps[1..])
  }

  // ---------------------------------------------------------------------------
  // Bomb placement
  // ---------------------------------------------------------------------------

  /** The cells named by the first n draws. */
  ghost function Drawn(draws: seq<Pos>, n: nat): set<Pos>
    requires n <= |draws|
  {
    set k | 0 <= k < n :: draws[k]
  }

  lemma DrawnStep(draws: seq<Pos>, n: nat)
    requires n < |draws|
    ensures Drawn(draws, n + 1) == Drawn(draws, n) + {draws[n]}
  {
  }

  /**
   * The placement loop of initializeGrid: an empty board, then one bomb per
   * draw that names a cell without one, until three are placed. The bombs end
   * up exactly on the cells named by the draws used.
   */
  method PlaceBombs(draws: seq<Pos>) returns (board: array2<Tile>, ghost used: nat)
    requires forall k | 0 <= k < |draws| :: OnBoard(draws[k])
    requires |Drawn(draws, |draws|)| >= BombCount
    ensures fresh(board) && board.Length0 == Size && board.Length1 == Size
    ensures used <= |draws| && |Drawn(draws, used)| == BombCount
    ensures forall r, c | 0 <= r < Size && 0 <= c < Size :: board[r, c] == Tile((r, c) in Drawn(draws, used), false)
  {
    board := new Tile[Size, Size]((_, _) => Tile(false, false));
    var bombsPlaced := 0;
    var i := 0;
    while bombsPlaced < BombCount
      invariant 0 <= i <= |draws|
      invariant forall r, c | 0 <= r < Size && 0 <= c < Size ::
        board[r, c] == Tile((r, c) in Drawn(draws, i), false)
      invariant bombsPlaced == |Drawn(draws, i)| <= BombCount
      decreases |draws| - i
    {
      if i == |draws| {
        assert false;
      }
      var (r, c) := draws[i];
      DrawnStep(draws, i);
      assert OnBoard(draws[i]);
      assert board[r, c].hasBomb <==> (r, c) in Drawn(draws, i);
      if !board[r, c].hasBomb {
        board[r, c] := Tile(true, false);
        bombsPlaced := bombsPlaced + 1;
      }
      i := i + 1;
    }
    used := i;
  }

  // ---------------------------------------------------------------------------
  // The screen
  // ---------------------------------------------------------------------------

  /** The tile game's screen; the board is the array of rows the handlers update in place. */
  class MinePage {
    var grid: array2<Tile>
    var gameOver: bool
    var winner: bool
    var starCount: nat
    var highScore: nat

    /** The board as a map from cells to tiles. */
    ghost function Tiles(): map<Pos, Tile>
      reads this`grid, grid
      requires grid.Length0 == Size && grid.Length1 == Size
    {
      map p | p in Cells :: grid[p.0, p.1]
    }

    ghost function State(): Play
      reads this, grid
      requires grid.Length0 == Size && grid.Length1 == Size
    {
      Play(Tiles(), gameOver, winner, starCount, highScore)
    }

    ghost predicate Valid()
      reads this, grid
    {
      grid.Length0 == Size && grid.Length1 == Size && ValidPlay(State())
    }

    /** The screen on mount: a new board, and the high score read from storage. */
    constructor(draws: seq<Pos>, savedHighScore: nat)
      requires forall k | 0 <= k < |draws| :: OnBoard(draws[k])
      requires |Drawn(draws, |draws|)| >= BombCount
      ensures Valid() && State().highScore == savedHighScore
      ensures starCount == 0 && !gameOver && !winner
      ensures forall p | p in Cells :: !State().tiles[p].isClicked
    {
      highScore := savedHighScore;
      grid := new Tile[0, 0];
      new;
      InitializeGrid(draws);
    }

    /**
     * initializeGrid (and resetGame): a fresh board whose bombs go on the drawn
     * cells, a draw landing on a bomb being skipped, until three are placed;
     * stars and flags are reset, the high score kept.
     */
    method InitializeGrid(draws: seq<Pos>)
      requires forall k | 0 <= k < |draws| :: OnBoard(draws[k])
      requires |Drawn(draws, |draws|)| >= BombCount
      modifies this
      ensures fresh(grid) && Valid()
      ensures starCount == 0 && !gameOver && !winner && highScore == old(highScore)
      ensures forall p | p in Cells :: !State().tiles[p].isClicked
      ensures exists n :: 0 <= n <= |draws| && Bombs(State().tiles) == Drawn(draws, n)
    {
      var board, used := PlaceBombs(draws);
      grid := board;
      gameOver, winner, starCount := false, false, 0;
      ghost var s := State();
      ghost var bombs := Drawn(draws, used);
      forall p | p in Cells
        ensures s.tiles[p] == Tile(p in bombs, false)
      {
        assert 0 <= p.0 < Size && 0 <= p.1 < Size;
      }
      assert bombs <= Cells by {
        forall k | 0 <= k < used
          ensures draws[k] in Cells
        {
          assert OnBoard(draws[k]);
        }
      }
      PlacementValid(s, bombs);
      assert Bombs(s.tiles) == bombs;
    }

    /** Uncovers the tile at (r, c) and nothing else. */
    method Uncover(r: int, c: int)
      requires grid.Length0 == Size && grid.Length1 == Size && OnBoard((r, c))
      modifies grid
      ensures State() == Uncovered(old(State()), (r, c))
    {
      ghost var s := State();
      grid[r, c] := grid[r, c].(isClicked := true);
      assert State().tiles == s.tiles[(r, c) := s.tiles[(r, c)].(isClicked := true)];
    }

    /** The flags after uncovering a tile with or without a bomb. */
    method Award(hasBomb: bool)
      requires grid.Length0 == Size && grid.Length1 == Size
      modifies this
      ensures grid == old(grid) && State() == Outcome(old(State()), hasBomb)
    {
      if hasBomb {
        gameOver := true;
      } else {
        var newStarCount := starCount + 1;
        starCount := newStarCount;
        if newStarCount >= WinStars {
          winner := true;
          if newStarCount > highScore {
            highScore := newStarCount;
          }
        }
      }
    }

    /** handleTileClick(r, c). */
    method HandleTileClick(r: int, c: int)
      requires Valid() && OnBoard((r, c))
      modifies this, grid
      ensures grid == old(grid) && Valid()
      ensures State() == Click(old(State()), (r, c))
    {
      ghost var s := State();
      assert (r, c) in Cells;
      ClickKeepsValid(s, (r, c));
      if gameOver || winner || grid[r, c].isClicked {
        return;
      }
      var hasBomb := grid[r, c].hasBomb;
      Uncover(r, c);
      Award(hasBomb);
    }
  }

  /** A board fresh from placement (nothing uncovered, three bombs) is a valid start. */
  lemma PlacementValid(s: Play, bombs: set<Pos>)
    requires s.tiles.Keys == Cells && |bombs| == BombCount
    requires forall p | p in Cells :: s.tiles[p] == Tile(p in bombs, false)
    requires bombs <= Cells
    requires s.starCount == 0 && !s.gameOver && !s.winner
    ensures ValidPlay(s)
  {
    assert Bombs(s.tiles) == bombs;
    assert Stars(s.tiles) == {};
    assert Blasts(s.tiles) == {};
  }
}
