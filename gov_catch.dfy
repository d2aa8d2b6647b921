/**
 * The eGov Catch screen: a runner with a floaty, high jump that bounces a
 * little on hard landings, small logos scrolling in from the right, hitboxes
 * shrunk by 10 on every side, and a score meant to rise once every three
 * frames.
 */
module GovCatch {
  import opened Runner

  const Gravity: real := 0.05
  const JumpVelocity: real := -22.0
  const Shrink: real := 10.0
  /** A landing faster than this bounces. */
  const BounceSpeed: real := 1.5
  /** The fraction of the landing speed a bounce sends back up. */
  const BounceFactor: real := 0.1
  /** The player's horizontal band and its drift per frame. */
  const BandLo: real := 100.0
  const BandHi: real := 150.0
  const Forward: real := 1.2
  const Back: real := 0.6
  const Home: real := 0.4
  /** The scroll speed: initial, at a new game, its step, its cap, and the score period of a step. */
  const MountSpeed: real := 2.5
  const StartSpeed: real := 1.5
  const SpeedStep: real := 0.2
  const MaxSpeed: real := 4.0
  const SpeedEvery: nat := 1000
  /** One point per this many frames. */
  const ScoreEvery: nat := 3

  /** The player before the first game, and at the start of each game. */
  const MountPlayer := Player(100.0, GroundY - 60.0, 10.0, 10.0, false, 0.0)
  const StartPlayer := Player(100.0, GroundY - 60.0, 40.0, 40.0, false, 0.0)

  /** The screen's state; `frames` counts the frames of the current game. */
  datatype Catch = Catch(player: Player, obstacles: seq<Obstacle>, score: nat, frames: nat, highScore: nat,
                         gameSpeed: real, gameOver: bool, gameStarted: bool)

  /** Two Math.random results for a new obstacle: its height and its width. */
  datatype Rolls = Rolls(height: real, width: real)

  predicate UnitRolls(r: Rolls)
  {
    0.0 <= r.height < 1.0 && 0.0 <= r.width < 1.0
  }

  // ---------------------------------------------------------------------------
  // updatePlayer, with the bounce
  // ---------------------------------------------------------------------------

  /** The player's top where it stands on the ground. */
  function Floor(p: Player): real
  {
    GroundY - p.height
  }

  /** This frame brings the player down to (or through) the ground. */
  predicate Lands(p: Player)
  {
    p.y + (p.velocityY + Gravity) >= Floor(p)
  }

  /**
   * One frame of the player: gravity, the fall, the drift, and on reaching the
   * ground either a small bounce (when it came down faster than BounceSpeed) or
   * a stop.
   */
  function StepPlayer(p: Player): (p': Player)
    ensures p'.width == p.width && p'.height == p.height && p'.y <= Floor(p)
  {
    var vy := p.velocityY + Gravity;
    var x := Drift(p.x, p.isJumping, p.velocityY, Forward, Back, Home, BandLo, BandHi);
    if Lands(p) then
      if p.velocityY > BounceSpeed then p.(x := x, y := Floor(p), velocityY := -p.velocityY * BounceFactor, isJumping := true)
      else p.(x := x, y := Floor(p), velocityY := 0.0, isJumping := false)
    else p.(x := x, y := p.y + vy, velocityY := vy)
  }

  /** A hard landing bounces: back up at a tenth of the speed, still in the jump. */
  lemma HardLandingBounces(p: Player)
    requires Lands(p) && p.velocityY > BounceSpeed
    ensures var p' := StepPlayer(p);
      && p'.y == Floor(p) && p'.isJumping
      && p'.velocityY < 0.0 && -p'.velocityY == p.velocityY / 10.0 && -p'.velocityY < p.velocityY
  {
  }

  /** A gentle landing stops the player on the ground and ends the jump. */
  lemma GentleLandingStops(p: Player)
    requires Lands(p) && p.velocityY <= BounceSpeed
    ensures var p' := StepPlayer(p); p'.y == Floor(p) && p'.velocityY == 0.0 && !p'.isJumping
  {
  }

  /** In the air the player falls by its speed after gravity. */
  lemma AirborneStep(p: Player)
    requires !Lands(p)
    ensures var p' := StepPlayer(p);
      p'.velocityY == p.velocityY + Gravity && p'.y == p.y + p'.velocityY && p'.y < Floor(p) && p'.isJumping == p.isJumping
  {
  }

  lemma StepPlayerInBand(p: Player)
    requires BandLo <= p.x <= BandHi
    ensures BandLo <= StepPlayer(p).x <= BandHi
  {
    DriftInBand(p.x, p.isJumping, p.velocityY, Forward, Back, Home, BandLo, BandHi);
  }

  // ---------------------------------------------------------------------------
  // jump, spawning, speed
  // ---------------------------------------------------------------------------

  /** jump: only when not already in a jump. */
  function Jump(c: Catch): (c': Catch)
    ensures c'.(player := c.player) == c
  {
    if !c.player.isJumping then c.(player := c.player.(isJumping := true, velocityY := JumpVelocity)) else c
  }

  lemma JumpOnce(c: Catch)
    ensures Jump(Jump(c)) == Jump(c)
    ensures Jump(c) != c <==> !c.player.isJumping
  {
  }

  /**
   * jump called through a closure built in an earlier render: the guard reads
   * the jump flag that render saw, while the update applies to the current
   * player.
   */
  function JumpSeen(c: Catch, seenJumping: bool): (c': Catch)
    ensures c'.(player := c.player) == c
    ensures c' != c <==> !seenJumping && (!c.player.isJumping || c.player.velocityY != JumpVelocity)
  {
    if !seenJumping then c.(player := c.player.(isJumping := true, velocityY := JumpVelocity)) else c
  }

  /**
   * As written, the window key listener keeps the jump of the render that
   * started the game, where the player stands on the start position, not
   * jumping. Its guard therefore always passes: a key press in mid-air
   * relaunches the player at the jump velocity, where the guarded jump does
   * nothing.
   */
  lemma KeyJumpRelaunchesMidAir(c: Catch)
    requires c.player.isJumping
    ensures Jump(c) == c
    ensures JumpSeen(c, StartPlayer.isJumping) == c.(player := c.player.(velocityY := JumpVelocity))
    ensures Jump(c) == JumpSeen(c, c.player.isJumping)
  {
  }

  /** generateObstacle: at the right edge, 30 to 50 high and 25 to 35 wide. */
  function NewObstacle(areaWidth: real, r: Rolls): (o: Obstacle)
    requires UnitRolls(r)
    ensures o.x == areaWidth && 30.0 <= o.height < 50.0 && 25.0 <= o.width < 35.0
  {
    Obstacle(areaWidth, 25.0 + r.width * 10.0, 30.0 + r.height * 20.0)
  }

  /** The speed rule, on the score the frame started with. */
  function SpeedAfter(speed: real, score: nat): real
  {
    if score % SpeedEvery == 0 && score > 0 then Min(speed + SpeedStep, MaxSpeed) else speed
  }

  lemma SpeedRule(speed: real, score: nat)
    requires speed <= MaxSpeed
    ensures speed <= SpeedAfter(speed, score) <= MaxSpeed
    ensures SpeedAfter(speed, score) != speed ==> score % SpeedEvery == 0 && score > 0
  {
  }

  // ---------------------------------------------------------------------------
  // The score rule
  // ---------------------------------------------------------------------------

  /**
   * The score rule as written: the frame adds a point when the score it
   * captured is a multiple of 3. The frame loop is restarted with a fresh
   * capture whenever the score changes, so the captured score is the current
   * one.
   */
  function ScoreAsWritten(score: nat): nat
  {
    if score % ScoreEvery == 0 then score + 1 else score
  }

  /** The score after n frames under the rule as written. */
  function ScoreAsWrittenAfter(score: nat, n: nat): nat
    decreases n
  {
    if n == 0 then score else ScoreAsWrittenAfter(ScoreAsWritten(score), n - 1)
  }

  /** As written, the score of a new game reaches 1 on the first frame and stays there. */
  lemma {:induction false} ScoreAsWrittenSticksAtOne(n: nat)
    ensures ScoreAsWrittenAfter(0, n) == if n == 0 then 0 else 1
  {
    if n > 0 {
      StaysAtOne(n - 1);
    }
  }

  lemma {:induction false} StaysAtOne(n: nat)
    ensures ScoreAsWrittenAfter(1, n) == 1
  {
    if n > 0 {
      StaysAtOne(n - 1);
    }
  }

  /** The corrected rule: a point on every third frame of the game, counted from its first. */
  function ScoreCorrected(score: nat, frames: nat): nat
  {
    if frames % ScoreEvery == 0 then score + 1 else score
  }

  /** The score after n frames of a new game under the corrected rule. */
  function ScoreCorrectedAfter(n: nat): nat
  {
    if n == 0 then 0 else ScoreCorrected(ScoreCorrectedAfter(n - 1), n - 1)
  }

  /** Corrected, the score is one point per started group of three frames. */
  lemma {:induction false} ScoreCorrectedRate(n: nat)
    ensures ScoreCorrectedAfter(n) == (n + ScoreEvery - 1) / ScoreEvery
  {
    if n > 0 {
      ScoreCorrectedRate(n - 1);
    }
  }

  /** Six frames tell the two rules apart: two points intended, one as written. */
  lemma SixFramesDiffer()
    ensures ScoreCorrectedAfter(6) == 2 && ScoreAsWrittenAfter(0, 6) == 1
  {
    ScoreCorrectedRate(6);
    ScoreAsWrittenSticksAtOne(6);
  }

  // ---------------------------------------------------------------------------
  // A frame, the start and the end of a game
  // ---------------------------------------------------------------------------

  /** updatePlayer. */
  function Moved(c: Catch): (c': Catch)
    ensures c'.(player := c.player) == c
  {
    c.(player := StepPlayer(c.player))
  }

  /** generateObstacle, when `spawnDue` (the 4-second timer, not modelled) says so. */
  function Spawned(c: Catch, areaWidth: real, spawnDue: bool, r: Rolls): (c': Catch)
    requires UnitRolls(r)
    ensures c'.(obstacles := c.obstacles) == c
  {
    if spawnDue then c.(obstacles := c.obstacles + [NewObstacle(areaWidth, r)]) else c
  }

  /** updateObstacles: the scroll at `speed`. */
  function Scrolled(c: Catch, speed: real): (c': Catch)
    ensures c'.(obstacles := c.obstacles) == c
  {
    c.(obstacles := Scroll(c.obstacles, speed))
  }

  /** The corrected score rule and the speed rule, on the frame count, score and speed the frame started with. */
  function Scored(c: Catch, score: nat, frames: nat, speed: real): (c': Catch)
    ensures c'.(score := c.score, frames := c.frames, gameSpeed := c.gameSpeed) == c
  {
    c.(score := ScoreCorrected(score, frames), frames := frames + 1, gameSpeed := SpeedAfter(speed, score))
  }

  /** One animation frame while a game runs. */
  function Frame(c: Catch, areaWidth: real, spawnDue: bool, r: Rolls): Catch
    requires UnitRolls(r)
  {
    if !c.gameStarted || c.gameOver then c
    else Scored(Scrolled(Spawned(Moved(c), areaWidth, spawnDue, r), c.gameSpeed), c.score, c.frames, c.gameSpeed)
  }

  /** The frame registers a collision: an obstacle surviving the scroll meets the player as it was before its step. */
  predicate FrameHit(c: Catch, areaWidth: real, spawnDue: bool, r: Rolls)
    requires UnitRolls(r)
  {
    c.gameStarted && !c.gameOver && CollidesAny(c.player, Scroll(Spawned(c, areaWidth, spawnDue, r).obstacles, c.gameSpeed), Shrink)
  }

  /** n frames of a running game, all spawns declined: the corrected score is one point per three frames. */
  function Frames(c: Catch, areaWidth: real, n: nat): Catch
    decreases n
  {
    if n == 0 then c else Frames(Frame(c, areaWidth, false, Rolls(0.0, 0.0)), areaWidth, n - 1)
  }

  lemma {:induction false} FramesScore(c: Catch, areaWidth: real, n: nat)
    requires c.gameStarted && !c.gameOver && c.score == 0 && c.frames == 0
    ensures Frames(c, areaWidth, n).score == ScoreCorrectedAfter(n) && Frames(c, areaWidth, n).frames == n
  {
    FramesScoreFrom(c, areaWidth, n, 0);
  }

  lemma {:induction false} FramesScoreFrom(c: Catch, areaWidth: real, n: nat, k: nat)
    requires c.gameStarted && !c.gameOver && c.score == ScoreCorrectedAfter(k) && c.frames == k
    ensures Frames(c, areaWidth, n).score == ScoreCorrectedAfter(k + n) && Frames(c, areaWidth, n).frames == k + n
    decreases n
  {
    if n > 0 {
      FramesScoreFrom(Frame(c, areaWidth, false, Rolls(0.0, 0.0)), areaWidth, n - 1, k + 1);
    }
  }

  /** startGame. */
  function Start(c: Catch): (c': Catch)
    ensures c'.highScore == c.highScore && c'.obstacles == [] && c'.score == 0
  {
    Catch(StartPlayer, [], 0, 0, c.highScore, StartSpeed, false, true)
  }

  /**
   * endGame: the game stops, the obstacles go, the high score rises only when
   * beaten. The handler is the same code as the Dino Runner's endGame
   * (`DinoRunner.End`), applied to this game's record; the rule they share is
   * `Runner.FinalHigh`.
   */
  function End(c: Catch): (c': Catch)
    ensures c'.gameOver && c'.obstacles == [] && c'.highScore >= c.highScore && c'.highScore >= c.score
    ensures c'.highScore == c.highScore || c'.highScore == c.score
  {
    c.(gameOver := true, highScore := FinalHigh(c.score, c.highScore), obstacles := [])
  }

  /** The screen's invariant: the player inside its band and never below the ground, the speed within its cap. */
  predicate Valid(c: Catch)
  {
    && BandLo <= c.player.x <= BandHi
    && c.player.y <= Floor(c.player)
    && 0.0 < c.gameSpeed <= MaxSpeed
  }

  lemma FrameKeepsValid(c: Catch, areaWidth: real, spawnDue: bool, r: Rolls)
    requires Valid(c) && UnitRolls(r)
    ensures Valid(Frame(c, areaWidth, spawnDue, r))
  {
    StepPlayerInBand(c.player);
    SpeedRule(c.gameSpeed, c.score);
  }

  // ---------------------------------------------------------------------------
  // The screen
  // ---------------------------------------------------------------------------

  /** The eGov Catch screen's state, updated by its handlers and the animation loop. */
  class CatchScreen {
    /** The game area's width (its clientWidth). */
    const areaWidth: real
    var player: Player
    var obstacles: seq<Obstacle>
    var score: nat
    var frames: nat
    var highScore: nat
    var gameSpeed: real
    var gameOver: bool
    var gameStarted: bool

    function State(): Catch
      reads this
    {
      Catch(player, obstacles, score, frames, highScore, gameSpeed, gameOver, gameStarted)
    }

    /** The screen on mount, waiting for a start; the high score comes from storage. */
    constructor(areaWidth: real, savedHighScore: nat)
      ensures Valid(State()) && this.areaWidth == areaWidth
      ensures State() == Catch(MountPlayer, [], 0, 0, savedHighScore, MountSpeed, false, false)
    {
      this.areaWidth := areaWidth;
      player, obstacles, score, frames := MountPlayer, [], 0, 0;
      highScore, gameSpeed, gameOver, gameStarted := savedHighScore, MountSpeed, false, false;
    }

    method DoJump()
      requires Valid(State())
      modifies this
      ensures Valid(State()) && State() == Jump(old(State()))
    {
      if !player.isJumping {
        player := player.(isJumping := true, velocityY := JumpVelocity);
      }
    }

    /** updatePlayer. */
    method UpdatePlayer()
      modifies this
      ensures State() == Moved(old(State()))
    {
      player := StepPlayer(player);
    }

    /** generateObstacle, when due. */
    method SpawnObstacle(spawnDue: bool, r: Rolls)
      requires UnitRolls(r)
      modifies this
      ensures State() == Spawned(old(State()), areaWidth, spawnDue, r)
    {
      if spawnDue {
        obstacles := obstacles + [NewObstacle(areaWidth, r)];
      }
    }

    /** updateObstacles at `speed`, testing collisions against the player p. */
    method UpdateObstacles(p: Player, speed: real) returns (hit: bool)
      modifies this
      ensures State() == Scrolled(old(State()), speed)
      ensures hit == CollidesAny(p, Scroll(old(obstacles), speed), Shrink)
    {
      obstacles := Scroll(obstacles, speed);
      hit := CollidesAny(p, obstacles, Shrink);
    }

    /** The frame's point (on every third frame) and speed rule, on the counts and speed it started with. */
    method AdvanceScore(score0: nat, frames0: nat, speed0: real)
      modifies this
      ensures State() == Scored(old(State()), score0, frames0, speed0)
    {
      if frames0 % ScoreEvery == 0 {
        score := score0 + 1;
      } else {
        score := score0;
      }
      frames := frames0 + 1;
      if score0 % SpeedEvery == 0 && score0 > 0 {
        gameSpeed := Min(speed0 + SpeedStep, MaxSpeed);
      } else {
        gameSpeed := speed0;
      }
    }

    /** One animation frame; `hit` says whether it scheduled the end of the game. */
    method AnimateFrame(spawnDue: bool, r: Rolls) returns (hit: bool)
      requires Valid(State()) && UnitRolls(r)
      modifies this
      ensures Valid(State()) && State() == Frame(old(State()), areaWidth, spawnDue, r)
      ensures hit == FrameHit(old(State()), areaWidth, spawnDue, r)
    {
      ghost var c0 := State();
      FrameKeepsValid(c0, areaWidth, spawnDue, r);
      if !gameStarted || gameOver {
        return false;
      }
      var p0, speed0, score0, frames0 := player, gameSpeed, score, frames;
      UpdatePlayer();
      SpawnObstacle(spawnDue, r);
      ghost var c2 := State();
      assert c2.obstacles == Spawned(c0, areaWidth, spawnDue, r).obstacles;
      hit := UpdateObstacles(p0, speed0);
      AdvanceScore(score0, frames0, speed0);
    }

    /** startGame: a fresh run at the starting speed, keeping the high score. */
    method StartGame()
      requires Valid(State())
      modifies this
      ensures Valid(State()) && State() == Start(old(State()))
    {
      gameStarted, gameOver, score, frames, gameSpeed, obstacles := true, false, 0, 0, StartSpeed, [];
      player := StartPlayer;
    }

    /** endGame: after a collision. */
    method EndGame()
      requires Valid(State())
      modifies this
      ensures Valid(State()) && State() == End(old(State()))
    {
      gameOver := true;
      if score > highScore {
        highScore := score;
      }
      obstacles := [];
    }
  }
}
