/**
 * The Dino Runner screen: the player jumps over logos scrolling in from the
 * right; the score counts frames and the scroll speeds up every 500 of them,
 * up to a cap. A collision (found with hitboxes shrunk by 8 on every side)
 * ends the game.
 */
module DinoRunner {
  import opened Runner

  const Gravity: real := 0.4
  const JumpVelocity: real := -12.0
  const Shrink: real := 8.0
  /** The player's horizontal band and its drift per frame. */
  const BandLo: real := 100.0
  const BandHi: real := 160.0
  const Forward: real := 0.9
  const Back: real := 0.3
  const Home: real := 0.2
  /** The scroll speed: initial, at a new game, its step, its cap, and the score period of a step. */
  const MountSpeed: real := 2.8
  const StartSpeed: real := 2.5
  const SpeedStep: real := 0.4
  const MaxSpeed: real := 10.0
  const SpeedEvery: nat := 500
  /** A new obstacle needs the last one this far in from the right edge. */
  const MinObstacleGap: real := 300.0
  /** The tracked spawn position when there is none. */
  const NoObstacle: real := -1.0

  /** The player as shown before and at the start of a game. */
  const StartPlayer := Player(100.0, GroundY - 60.0, 55.0, 55.0, false, 0.0)

  /** The screen's state; isJumpingRef and lastObstaclePos are the component's refs. */
  datatype Dino = Dino(player: Player, isJumpingRef: bool, obstacles: seq<Obstacle>, score: nat, highScore: nat,
                       gameSpeed: real, gameOver: bool, gameStarted: bool, lastObstaclePos: real)

  /** Three Math.random results for a new obstacle: its height, its width, its distance past the edge. */
  datatype Rolls = Rolls(height: real, width: real, offset: real)

  predicate UnitRolls(r: Rolls)
  {
    0.0 <= r.height < 1.0 && 0.0 <= r.width < 1.0 && 0.0 <= r.offset < 1.0
  }

  // ---------------------------------------------------------------------------
  // updatePlayer
  // ---------------------------------------------------------------------------

  /** The player's top where it stands on the ground. */
  function Floor(p: Player): real
  {
    GroundY - p.height
  }

  /** This frame brings the player down to (or through) the ground. */
  predicate Lands(p: Player)
  {
    p.y + (p.velocityY + Gravity) >= Floor(p)
  }

  /** One frame of the player: gravity, the fall, the drift, and landing on the ground. */
  function StepPlayer(p: Player): (p': Player)
    ensures p'.width == p.width && p'.height == p.height && p'.y <= Floor(p)
  {
    var vy := p.velocityY + Gravity;
    var x := Drift(p.x, p.isJumping, p.velocityY, Forward, Back, Home, BandLo, BandHi);
    if Lands(p) then p.(x := x, y := Floor(p), velocityY := 0.0, isJumping := false)
    else p.(x := x, y := p.y + vy, velocityY := vy)
  }

  lemma StepPlayerRule(p: Player)
    ensures var p' := StepPlayer(p);
      && (Lands(p) ==> p'.y == Floor(p) && p'.velocityY == 0.0 && !p'.isJumping)
      && (!Lands(p) ==> p'.velocityY == p.velocityY + Gravity && p'.y == p.y + p'.velocityY
                        && p'.y < Floor(p) && p'.isJumping == p.isJumping)
  {
  }

  lemma StepPlayerInBand(p: Player)
    requires BandLo <= p.x <= BandHi
    ensures BandLo <= StepPlayer(p).x <= BandHi
  {
    DriftInBand(p.x, p.isJumping, p.velocityY, Forward, Back, Home, BandLo, BandHi);
  }

  // ---------------------------------------------------------------------------
  // jump, spawning, scrolling, speed
  // ---------------------------------------------------------------------------

  /** jump: only from the ground, guarded by both the state flag and the ref. */
  function Jump(d: Dino): (d': Dino)
    ensures d'.(player := d.player, isJumpingRef := d.isJumpingRef) == d
  {
    if !d.player.isJumping && !d.isJumpingRef then
      d.(isJumpingRef := true, player := d.player.(isJumping := true, velocityY := JumpVelocity))
    else d
  }

  /** A second jump before landing changes nothing. */
  lemma JumpOnce(d: Dino)
    ensures Jump(Jump(d)) == Jump(d)
    ensures Jump(d) != d <==> !d.player.isJumping && !d.isJumpingRef
  {
  }

  /** The spawn-distance test of the animation frame. */
  predicate CanSpawn(obstacleCount: nat, lastObstaclePos: real, areaWidth: real)
  {
    obstacleCount == 0 || (lastObstaclePos > 0.0 && areaWidth - lastObstaclePos > MinObstacleGap)
  }

  /**
   * The tracked position is only ever a spawn position, which lies at or past
   * the right edge, or none: so the distance test never passes and an obstacle
   * may only spawn when the list is empty.
   */
  lemma CanSpawnOnlyWhenEmpty(obstacleCount: nat, lastObstaclePos: real, areaWidth: real)
    requires lastObstaclePos == NoObstacle || lastObstaclePos >= areaWidth
    ensures CanSpawn(obstacleCount, lastObstaclePos, areaWidth) <==> obstacleCount == 0
  {
  }

  /** generateObstacle: 55 to 80 high, 45 to 60 wide, 0 to 99 units past the right edge. */
  function NewObstacle(areaWidth: real, r: Rolls): (o: Obstacle)
    requires UnitRolls(r)
    ensures areaWidth <= o.x < areaWidth + 100.0
    ensures 55.0 <= o.height < 80.0 && 45.0 <= o.width < 60.0
  {
    Obstacle(areaWidth + ((r.offset * 100.0).Floor) as real, 45.0 + r.width * 15.0, 55.0 + r.height * 25.0)
  }

  /** The spawn tracker after the scroll: forgotten when the obstacle spawned there is dropped. */
  function Track(obs: seq<Obstacle>, speed: real, lastObstaclePos: real): (t: real)
    ensures t == NoObstacle || t == lastObstaclePos
  {
    if exists k | 0 <= k < |obs| :: !Visible(obs[k].(x := obs[k].x - speed)) && obs[k].x == lastObstaclePos
    then NoObstacle else lastObstaclePos
  }

  /** The speed rule, on the score the frame started with. */
  function SpeedAfter(speed: real, score: nat): real
  {
    if score % SpeedEvery == 0 && score > 0 then Min(speed + SpeedStep, MaxSpeed) else speed
  }

  /** The speed never passes its cap, never drops, and steps up only every 500 points. */
  lemma SpeedRule(speed: real, score: nat)
    requires speed <= MaxSpeed
    ensures speed <= SpeedAfter(speed, score) <= MaxSpeed
    ensures SpeedAfter(speed, score) != speed ==> score % SpeedEvery == 0 && score > 0
  {
  }

  // ---------------------------------------------------------------------------
  // A frame, the start and the end of a game
  // ---------------------------------------------------------------------------

  /** updatePlayer: the player's step; landing also clears the jump ref. */
  function Moved(d: Dino): (d': Dino)
    ensures d'.(player := d.player, isJumpingRef := d.isJumpingRef) == d
  {
    d.(player := StepPlayer(d.player), isJumpingRef := if Lands(d.player) then false else d.isJumpingRef)
  }

  /** The spawn step: generateObstacle runs when the list allows it and `spawnDue` (the time threshold) says so. */
  function Spawned(d: Dino, areaWidth: real, spawnDue: bool, r: Rolls): (d': Dino)
    requires UnitRolls(r)
    ensures d'.(obstacles := d.obstacles, lastObstaclePos := d.lastObstaclePos) == d
  {
    if CanSpawn(|d.obstacles|, d.lastObstaclePos, areaWidth) && spawnDue then
      var o := NewObstacle(areaWidth, r);
      d.(obstacles := d.obstacles + [o], lastObstaclePos := o.x)
    else d
  }

  /** updateObstacles: the scroll at `speed`, and the tracker forgotten if its obstacle is dropped. */
  function Scrolled(d: Dino, speed: real): (d': Dino)
    ensures d'.(obstacles := d.obstacles, lastObstaclePos := d.lastObstaclePos) == d
  {
    d.(lastObstaclePos := Track(d.obstacles, speed, d.lastObstaclePos), obstacles := Scroll(d.obstacles, speed))
  }

  /** One point, and the speed rule on the score and speed the frame started with. */
  function Scored(d: Dino, score: nat, speed: real): (d': Dino)
    ensures d'.(score := d.score, gameSpeed := d.gameSpeed) == d
  {
    d.(score := score + 1, gameSpeed := SpeedAfter(speed, score))
  }

  /**
   * One animation frame while a game runs: the player step, a spawn, the scroll
   * at the speed the frame started with, one point, the speed rule.
   */
  function Frame(d: Dino, areaWidth: real, spawnDue: bool, r: Rolls): Dino
    requires UnitRolls(r)
  {
    if !d.gameStarted || d.gameOver then d
    else Scored(Scrolled(Spawned(Moved(d), areaWidth, spawnDue, r), d.gameSpeed), d.score, d.gameSpeed)
  }

  /**
   * The frame registers a collision: an obstacle surviving the scroll meets the
   * player as it was before its step.
   */
  predicate FrameHit(d: Dino, areaWidth: real, spawnDue: bool, r: Rolls)
    requires UnitRolls(r)
  {
    d.gameStarted && !d.gameOver && CollidesAny(d.player, Scroll(Spawned(d, areaWidth, spawnDue, r).obstacles, d.gameSpeed), Shrink)
  }

  /** startGame. */
  function Start(d: Dino): (d': Dino)
    ensures d'.highScore == d.highScore && d'.obstacles == [] && d'.score == 0
  {
    Dino(StartPlayer, false, [], 0, d.highScore, StartSpeed, false, true, NoObstacle)
  }

  /** endGame: the game stops, the obstacles go, the high score rises only when beaten. */
  function End(d: Dino): (d': Dino)
    ensures d'.gameOver && d'.obstacles == [] && d'.highScore >= d.highScore && d'.highScore >= d.score
    ensures d'.highScore == d.highScore || d'.highScore == d.score
  {
    d.(gameOver := true, highScore := FinalHigh(d.score, d.highScore), obstacles := [])
  }

  /**
   * The screen's invariant: the player inside its band and never below the
   * ground, the ref in step with the jump flag, the speed within its cap, and
   * the tracker either empty or at or past the right edge.
   */
  predicate Valid(d: Dino, areaWidth: real)
  {
    && areaWidth > 0.0
    && BandLo <= d.player.x <= BandHi
    && d.player.height == 55.0 && d.player.width == 55.0
    && d.player.y <= Floor(d.player)
    && d.isJumpingRef == d.player.isJumping
    && 0.0 < d.gameSpeed <= MaxSpeed
    && (d.lastObstaclePos == NoObstacle || d.lastObstaclePos >= areaWidth)
  }

  lemma FrameKeepsValid(d: Dino, areaWidth: real, spawnDue: bool, r: Rolls)
    requires Valid(d, areaWidth) && UnitRolls(r)
    ensures Valid(Frame(d, areaWidth, spawnDue, r), areaWidth)
  {
    StepPlayerInBand(d.player);
    SpeedRule(d.gameSpeed, d.score);
  }

  lemma FrameSpawnsOnlyWhenEmpty(d: Dino, areaWidth: real, spawnDue: bool, r: Rolls)
    requires Valid(d, areaWidth) && UnitRolls(r)
    ensures |Spawned(d, areaWidth, spawnDue, r).obstacles| == |d.obstacles| + (if |d.obstacles| == 0 && spawnDue then 1 else 0)
  {
    CanSpawnOnlyWhenEmpty(|d.obstacles|, d.lastObstaclePos, areaWidth);
  }

  lemma JumpKeepsValid(d: Dino, areaWidth: real)
    requires Valid(d, areaWidth)
    ensures Valid(Jump(d), areaWidth)
  {
  }

  // ---------------------------------------------------------------------------
  // The screen
  // ---------------------------------------------------------------------------

  /** The Dino Runner screen's state, updated by its handlers and the animation loop. */
  class DinoScreen {
    /** The game area's width (its clientWidth). */
    const areaWidth: real
    var player: Player
    var isJumpingRef: bool
    var obstacles: seq<Obstacle>
    var score: nat
    var highScore: nat
    var gameSpeed: real
    var gameOver: bool
    var gameStarted: bool
    var lastObstaclePos: real

    function State(): Dino
      reads this
    {
      Dino(player, isJumpingRef, obstacles, score, highScore, gameSpeed, gameOver, gameStarted, lastObstaclePos)
    }

    /** The screen on mount, waiting for a start; the high score comes from storage. */
    constructor(areaWidth: real, savedHighScore: nat)
      requires areaWidth > 0.0
      ensures Valid(State(), this.areaWidth) && this.areaWidth == areaWidth
      ensures State() == Dino(StartPlayer, false, [], 0, savedHighScore, MountSpeed, false, false, NoObstacle)
    {
      this.areaWidth := areaWidth;
      player, isJumpingRef, obstacles := StartPlayer, false, [];
      score, highScore, gameSpeed := 0, savedHighScore, MountSpeed;
      gameOver, gameStarted, lastObstaclePos := false, false, NoObstacle;
    }

    method DoJump()
      requires Valid(State(), areaWidth)
      modifies this
      ensures Valid(State(), areaWidth) && State() == Jump(old(State()))
    {
      if !player.isJumping && !isJumpingRef {
        isJumpingRef := true;
        player := player.(isJumping := true, velocityY := JumpVelocity);
      }
    }

    /** updatePlayer. */
    method UpdatePlayer()
      modifies this
      ensures State() == Moved(old(State()))
    {
      var p := player;
      player := StepPlayer(p);
      if Lands(p) {
        isJumpingRef := false;
      }
    }

    /** generateObstacle, when the spawn test of the frame passes. */
    method SpawnObstacle(canSpawn: bool, spawnDue: bool, r: Rolls)
      requires UnitRolls(r) && canSpawn == CanSpawn(|obstacles|, lastObstaclePos, areaWidth)
      modifies this
      ensures State() == Spawned(old(State()), areaWidth, spawnDue, r)
    {
      if canSpawn && spawnDue {
        var o := NewObstacle(areaWidth, r);
        lastObstaclePos := o.x;
        obstacles := obstacles + [o];
      }
    }

    /** updateObstacles at `speed`, testing collisions against the player p. */
    method UpdateObstacles(p: Player, speed: real) returns (hit: bool)
      modifies this
      ensures State() == Scrolled(old(State()), speed)
      ensures hit == CollidesAny(p, Scroll(old(obstacles), speed), Shrink)
    {
      lastObstaclePos := Track(obstacles, speed, lastObstaclePos);
      obstacles := Scroll(obstacles, speed);
      hit := CollidesAny(p, obstacles, Shrink);
    }

    /** The frame's point and speed rule, on the score and speed it started with. */
    method AdvanceScore(score0: nat, speed0: real)
      modifies this
      ensures State() == Scored(old(State()), score0, speed0)
    {
      score := score0 + 1;
      if score0 % SpeedEvery == 0 && score0 > 0 {
        gameSpeed := Min(speed0 + SpeedStep, MaxSpeed);
      } else {
        gameSpeed := speed0;
      }
    }

    /** One animation frame; `hit` says whether it scheduled the end of the game. */
    method AnimateFrame(spawnDue: bool, r: Rolls) returns (hit: bool)
      requires Valid(State(), areaWidth) && UnitRolls(r)
      modifies this
      ensures Valid(State(), areaWidth) && State() == Frame(old(State()), areaWidth, spawnDue, r)
      ensures hit == FrameHit(old(State()), areaWidth, spawnDue, r)
    {
      ghost var d0 := State();
      FrameKeepsValid(d0, areaWidth, spawnDue, r);
      if !gameStarted || gameOver {
        return false;
      }
      var p0, speed0, score0 := player, gameSpeed, score;
      var canSpawn := |obstacles| == 0 || (lastObstaclePos > 0.0 && areaWidth - lastObstaclePos > MinObstacleGap);
      UpdatePlayer();
      ghost var d1 := State();
      assert d1.obstacles == d0.obstacles && d1.lastObstaclePos == d0.lastObstaclePos;
      SpawnObstacle(canSpawn, spawnDue, r);
      ghost var d2 := State();
      assert d2.obstacles == Spawned(d0, areaWidth, spawnDue, r).obstacles;
      hit := UpdateObstacles(p0, speed0);
      AdvanceScore(score0, speed0);
    }

    /** startGame: a fresh run at the starting speed, keeping the high score. */
    method StartGame()
      requires Valid(State(), areaWidth)
      modifies this
      ensures Valid(State(), areaWidth) && State() == Start(old(State()))
    {
      gameStarted, gameOver, score, gameSpeed, obstacles := true, false, 0, StartSpeed, [];
      isJumpingRef, lastObstaclePos := false, NoObstacle;
      player := StartPlayer;
    }

    /** endGame: after a collision. */
    method EndGame()
      requires Valid(State(), areaWidth)
      modifies this
      ensures Valid(State(), areaWidth) && State() == End(old(State()))
    {
      gameOver := true;
      if score > highScore {
        highScore := score;
      }
      obstacles := [];
    }
  }
}
