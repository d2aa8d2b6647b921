/**
 * The eGov Flappy Bird game loop. Every 40 ms the bird falls by its velocity
 * and speeds up by gravity, the pipes scroll left, a new pipe enters once the
 * rightmost one is far enough in, a pipe passing the bird scores, and hitting
 * a pipe or leaving the field ends the game. Every constant is an integer, so
 * a tick is exact integer arithmetic.
 */
module Flappy {
  const Gravity: int := 5
  const JumpVelocity: int := -22
  const PipeWidth: int := 180
  const PipeGap: int := 250
  const BirdSize: int := 70
  const PipeSpacing: int := 450
  const PipeSpeed: int := 15
  const BirdX: int := 200
  /** The field is 1000 x 1000 game units (the size the resize handler always picks). */
  const GameWidth: int := 1000
  const GameHeight: int := 1000
  /** The field size the screen is first rendered with, before the resize handler runs. */
  const MountWidth: int := 800
  const MountHeight: int := 600

  /** A pipe pair: its left edge and the height of the gap's top. */
  datatype Pipe = Pipe(x: int, height: int)

  /** One game: the bird, the pipes, the scores and whether it has ended. */
  datatype Flight = Flight(birdY: int, velocity: int, pipes: seq<Pipe>, score: nat, highScore: nat, isGameOver: bool)

  // ---------------------------------------------------------------------------
  // The pipe update (map, filter, reduce)
  // ---------------------------------------------------------------------------

  /** A new pipe's gap top, from a random roll: 100 .. 499. */
  function PipeHeight(roll: nat): (h: int)
    ensures 100 <= h <= 499
  {
    roll % 400 + 100
  }

  /** Every pipe PipeSpeed units further left. */
  function MovePipes(ps: seq<Pipe>): (moved: seq<Pipe>)
    ensures |moved| == |ps|
    ensures forall k | 0 <= k < |ps| :: moved[k] == Pipe(ps[k].x - PipeSpeed, ps[k].height)
  {
    seq(|ps|, k requires 0 <= k < |ps| => ps[k].(x := ps[k].x - PipeSpeed))
  }

  /** Some of the pipe is still on screen. */
  predicate OnScreen(p: Pipe)
  {
    p.x + PipeWidth > 0
  }

  /** The pipes still on screen, in their order. */
  function KeepOnScreen(ps: seq<Pipe>): (kept: seq<Pipe>)
    ensures |kept| <= |ps|
  {
    if |ps| == 0 then []
    else KeepOnScreen(ps[..|ps| - 1]) + (if OnScreen(ps[|ps| - 1]) then [ps[|ps| - 1]] else [])
  }

  lemma {:induction false} KeepOnScreenMembers(ps: seq<Pipe>)
    ensures forall p :: p in KeepOnScreen(ps) <==> p in ps && OnScreen(p)
  {
    if |ps| > 0 {
      KeepOnScreenMembers(ps[..|ps| - 1]);
      assert ps == ps[..|ps| - 1] + [ps[|ps| - 1]];
    }
  }

  /** Filtering a concatenation filters each part: survivors keep their relative order. */
  lemma {:induction false} KeepOnScreenAppend(a: seq<Pipe>, b: seq<Pipe>)
    ensures KeepOnScreen(a + b) == KeepOnScreen(a) + KeepOnScreen(b)
    decreases |b|
  {
    if |b| > 0 {
      var b' := b[..|b| - 1];
      assert (a + b)[..|a + b| - 1] == a + b';
      KeepOnScreenAppend(a, b');
    } else {
      assert a + b == a;
    }
  }

  /** The largest x among the pipes, starting the fold from 0. */
  function Rightmost(ps: seq<Pipe>): (m: int)
    ensures m >= 0 && forall k | 0 <= k < |ps| :: ps[k].x <= m
    ensures m == 0 || exists k | 0 <= k < |ps| :: ps[k].x == m
  {
    if |ps| == 0 then 0
    else
      var m := Rightmost(ps[..|ps| - 1]);
      var last := ps[|ps| - 1].x;
      assert forall k | 0 <= k < |ps| - 1 :: ps[..|ps| - 1][k] == ps[k];
      if last > m then last else m
  }

  /** The pipe list after one tick; `roll` picks the height of a pipe that enters. */
  function UpdatePipes(ps: seq<Pipe>, roll: nat): seq<Pipe>
  {
    var moved := MovePipes(ps);
    var kept := KeepOnScreen(moved);
    if Rightmost(moved) < GameWidth - PipeSpacing then kept + [Pipe(GameWidth, PipeHeight(roll))] else kept
  }

  /** A new pipe enters exactly when every moved pipe is left of GameWidth - PipeSpacing. */
  lemma PipeEntersRule(ps: seq<Pipe>, roll: nat)
    ensures var ps' := UpdatePipes(ps, roll);
      var moved := MovePipes(ps);
      && ((forall k | 0 <= k < |moved| :: moved[k].x < GameWidth - PipeSpacing) ==>
            ps' == KeepOnScreen(moved) + [Pipe(GameWidth, PipeHeight(roll))])
      && ((exists k | 0 <= k < |moved| :: moved[k].x >= GameWidth - PipeSpacing) ==>
            ps' == KeepOnScreen(moved))
  {
  }

  /** After a tick a pipe is a moved old pipe still on screen, or the new one at the right edge. */
  lemma PipesAfterTick(ps: seq<Pipe>, roll: nat)
    ensures forall p | p in UpdatePipes(ps, roll) ::
      (p in MovePipes(ps) && OnScreen(p)) || (p.x == GameWidth && 100 <= p.height <= 499)
    ensures forall p | p in MovePipes(ps) && OnScreen(p) :: p in UpdatePipes(ps, roll)
  {
    KeepOnScreenMembers(MovePipes(ps));
  }

  // ---------------------------------------------------------------------------
  // Scoring and collisions, judged on the pipes and the bird before the tick
  // ---------------------------------------------------------------------------

  /** The pipe's right edge is within the last PipeSpeed units left of the bird. */
  predicate Passing(p: Pipe)
  {
    p.x + PipeWidth < BirdX && p.x + PipeWidth > BirdX - PipeSpeed
  }

  /** The number of pipes passing the bird. */
  function CountPassing(ps: seq<Pipe>): (n: nat)
    ensures n <= |ps|
  {
    if |ps| == 0 then 0 else CountPassing(ps[..|ps| - 1]) + (if Passing(ps[|ps| - 1]) then 1 else 0)
  }

  /** The bird at height birdY is clipped by pipe p: outside its gap and overlapping it. */
  predicate Hits(birdY: int, p: Pipe)
  {
    && (birdY < p.height || birdY + BirdSize > p.height + PipeGap)
    && p.x < BirdX + BirdSize / 2
    && p.x + PipeWidth > BirdX - BirdSize / 2
  }

  /** Some pipe clips the bird. */
  predicate HitsAny(birdY: int, ps: seq<Pipe>)
  {
    exists k | 0 <= k < |ps| :: Hits(birdY, ps[k])
  }

  /** The bird is above the top or below the bottom of the field. */
  predicate OutOfField(birdY: int)
  {
    birdY + BirdSize > GameHeight || birdY < 0
  }

  /** The high score after the score has risen by n from `score`. */
  function RaisedHigh(score: nat, n: nat, highScore: nat): (h: nat)
    ensures h >= highScore && (n > 0 ==> h >= score + n)
  {
    if n > 0 && score + n > highScore then score + n else highScore
  }

  /** One tick of the game-loop interval; nothing runs once the game is over. */
  function Step(f: Flight, roll: nat): Flight
  {
    if f.isGameOver then f
    else
      var n := CountPassing(f.pipes);
      Flight(f.birdY + f.velocity, f.velocity + Gravity, UpdatePipes(f.pipes, roll),
             f.score + n, RaisedHigh(f.score, n, f.highScore),
             HitsAny(f.birdY, f.pipes) || OutOfField(f.birdY))
  }

  /** A tick ends the game exactly when the bird, where it was, hit a pipe or was out of the field. */
  lemma StepOverRule(f: Flight, roll: nat)
    requires !f.isGameOver
    ensures Step(f, roll).isGameOver <==> (exists p | p in f.pipes :: Hits(f.birdY, p)) || OutOfField(f.birdY)
  {
    if exists p | p in f.pipes :: Hits(f.birdY, p) {
      var p :| p in f.pipes && Hits(f.birdY, p);
      var k :| 0 <= k < |f.pipes| && f.pipes[k] == p;
    }
  }

  /** Scores are never above the high score, and the high score never drops. */
  predicate ScoreWithinHigh(f: Flight)
  {
    f.score <= f.highScore
  }

  lemma StepScores(f: Flight, roll: nat)
    requires ScoreWithinHigh(f)
    ensures var f' := Step(f, roll);
      && ScoreWithinHigh(f') && f'.highScore >= f.highScore
      && (!f.isGameOver ==> f'.score == f.score + CountPassing(f.pipes))
  {
  }

  /** n ticks with the given rolls. */
  function Steps(f: Flight, rolls: seq<nat>): Flight
    decreases |rolls|
  {
    if |rolls| == 0 then f else Steps(Step(f, rolls[0]), rolls[1..])
  }

  lemma {:induction false} StepsKeepScoreWithinHigh(f: Flight, rolls: seq<nat>)
    requires ScoreWithinHigh(f)
    ensures ScoreWithinHigh(Steps(f, rolls)) && Steps(f, rolls).highScore >= f.highScore
    decreases |rolls|
  {
    if |rolls| > 0 {
      StepScores(f, rolls[0]);
      StepsKeepScoreWithinHigh(Step(f, rolls[0]), rolls[1..]);
    }
  }

  /** The height of a bird left alone for n ticks. */
  function Fall(y: int, v: int, n: nat): int
    decreases n
  {
    if n == 0 then y else Fall(y + v, v + Gravity, n - 1)
  }

  /** Free fall in closed form: y + n v + Gravity n (n - 1) / 2. */
  lemma {:induction false} FallClosedForm(y: int, v: int, n: nat)
    ensures 2 * Fall(y, v, n) == 2 * y + 2 * n * v + Gravity * n * (n - 1)
    decreases n
  {
    if n > 0 {
      FallClosedForm(y + v, v + Gravity, n - 1);
      assert 2 * (n - 1) * (v + Gravity) == 2 * (n - 1) * v + 2 * Gravity * (n - 1);
      assert Gravity * (n - 1) * (n - 2) + 2 * Gravity * (n - 1) == Gravity * n * (n - 1);
    }
  }

  /** Once over, the game stays over: ticks change nothing. */
  lemma {:induction false} StepsWhenOver(f: Flight, rolls: seq<nat>)
    requires f.isGameOver
    ensures Steps(f, rolls) == f
    decreases |rolls|
  {
    if |rolls| > 0 {
      StepsWhenOver(Step(f, rolls[0]), rolls[1..]);
    }
  }

  /** Ticks that leave the game running move the bird in free fall. */
  lemma {:induction false} StepsFall(f: Flight, rolls: seq<nat>)
    requires !Steps(f, rolls).isGameOver
    ensures Steps(f, rolls).birdY == Fall(f.birdY, f.velocity, |rolls|)
    ensures Steps(f, rolls).velocity == f.velocity + Gravity * |rolls|
    decreases |rolls|
  {
    if |rolls| > 0 {
      if f.isGameOver {
        StepsWhenOver(f, rolls);
      }
      var f1 := Step(f, rolls[0]);
      StepsFall(f1, rolls[1..]);
    }
  }

  /** The collision pass: does any pipe clip the bird at height y? */
  method Collides(y: int, ps: seq<Pipe>) returns (hit: bool)
    ensures hit <==> HitsAny(y, ps)
  {
    hit := false;
    for i := 0 to |ps|
      invariant hit <==> HitsAny(y, ps[..i])
    {
      if Hits(y, ps[i]) {
        hit := true;
      }
      assert forall k | 0 <= k < i :: ps[..i + 1][k] == ps[..i][k];
      assert ps[..i + 1][i] == ps[i];
    }
    assert ps[..|ps|] == ps;
  }

  // ---------------------------------------------------------------------------
  // The screen
  // ---------------------------------------------------------------------------

  /** The Flappy Bird screen's state, updated in place by the interval and the key handler. */
  class FlappyScreen {
    var birdY: int
    var velocity: int
    var pipes: seq<Pipe>
    var score: nat
    var highScore: nat
    var isGameOver: bool

    function State(): Flight
      reads this
    {
      Flight(birdY, velocity, pipes, score, highScore, isGameOver)
    }

    /**
     * The screen on mount, in the 800 x 600 field it is first rendered with:
     * the bird mid-field at rest, one pipe at the right edge, no score, and
     * the high score read back from storage.
     */
    constructor(roll: nat, savedHighScore: nat)
      ensures State() == Flight(MountHeight / 2, 0, [Pipe(MountWidth, PipeHeight(roll))], 0, savedHighScore, false)
      ensures ScoreWithinHigh(State())
    {
      birdY, velocity := MountHeight / 2, 0;
      pipes := [Pipe(MountWidth, PipeHeight(roll))];
      score, highScore, isGameOver := 0, savedHighScore, false;
    }

    /**
     * The field has been resized to 1000 x 1000: the bird goes back to
     * mid-field and the pipes are replaced by one fresh pipe at the new right
     * edge; the velocity, the scores and the game-over flag stay.
     */
    method FitField(roll: nat)
      modifies this
      ensures State() == old(State()).(birdY := GameHeight / 2, pipes := [Pipe(GameWidth, PipeHeight(roll))])
      ensures ScoreWithinHigh(old(State())) ==> ScoreWithinHigh(State())
    {
      birdY := GameHeight / 2;
      pipes := [Pipe(GameWidth, PipeHeight(roll))];
    }

    /** The interval body: bird, pipes, scoring (pipe by pipe), collisions, then the field bounds. */
    method Tick(roll: nat)
      modifies this
      ensures State() == Step(old(State()), roll)
    {
      if isGameOver {
        return;
      }
      var y0, v0, ps0 := birdY, velocity, pipes;
      birdY := y0 + v0;
      velocity := v0 + Gravity;
      pipes := UpdatePipes(ps0, roll);

      ScorePassing(ps0);
      var hit := Collides(y0, ps0);
      if hit {
        isGameOver := true;
      }
      if y0 + BirdSize > GameHeight || y0 < 0 {
        isGameOver := true;
      }
    }

    /** The scoring pass: each pipe passing the bird adds a point and lifts the high score past it. */
    method ScorePassing(ps: seq<Pipe>)
      modifies this
      ensures score == old(score) + CountPassing(ps)
      ensures highScore == RaisedHigh(old(score), CountPassing(ps), old(highScore))
      ensures birdY == old(birdY) && velocity == old(velocity) && pipes == old(pipes) && isGameOver == old(isGameOver)
    {
      ghost var score0, high0 := score, highScore;
      for i := 0 to |ps|
        invariant score == score0 + CountPassing(ps[..i])
        invariant highScore == RaisedHigh(score0, CountPassing(ps[..i]), high0)
        invariant birdY == old(birdY) && velocity == old(velocity) && pipes == old(pipes) && isGameOver == old(isGameOver)
      {
        assert ps[..i + 1][..i] == ps[..i];
        if Passing(ps[i]) {
          var newScore := score + 1;
          if newScore > highScore {
            highScore := newScore;
          }
          score := newScore;
        }
      }
      assert ps[..|ps|] == ps;
    }

    /** The space key: flap upwards, at any height, unless the game is over. */
    method Jump()
      modifies this
      ensures State() == if old(isGameOver) then old(State()) else old(State()).(velocity := JumpVelocity)
    {
      if !isGameOver {
        velocity := JumpVelocity;
      }
    }

    /** restartGame: the bird back mid-field at rest, one fresh pipe, score 0; the high score stays. */
    method Restart(roll: nat)
      modifies this
      ensures State() == Flight(GameHeight / 2, 0, [Pipe(GameWidth, PipeHeight(roll))], 0, old(highScore), false)
      ensures ScoreWithinHigh(State())
    {
      birdY, velocity := GameHeight / 2, 0;
      pipes := [Pipe(GameWidth, PipeHeight(roll))];
      isGameOver := false;
      score := 0;
    }
  }
}
