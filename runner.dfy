/**
 * What the two endless-runner screens (Dino Runner and eGov Catch) share: the
 * player and obstacle records, the drift of the player along its horizontal
 * band, the obstacle scroll that drops what has left the screen, and the
 * shrunken-hitbox collision test. Positions are exact reals.
 */
module Runner {
  /** The y coordinate of the ground line; obstacles stand on it. */
  const GroundY: real := 400.0

  /** The player: top-left corner, size, whether in a jump, vertical speed (down is positive). */
  datatype Player = Player(x: real, y: real, width: real, height: real, isJumping: bool, velocityY: real)

  /** An obstacle standing on the ground: left edge and size. */
  datatype Obstacle = Obstacle(x: real, width: real, height: real)

  // ---------------------------------------------------------------------------
  // Horizontal drift
  // ---------------------------------------------------------------------------

  function Min(a: real, b: real): real { if a <= b then a else b }
  function Max(a: real, b: real): real { if a >= b then a else b }

  /**
   * The new x of a player at x: forward by `fwd` (capped at hi) while rising in a
   * jump, back by `back` (floored at lo) while falling, and, off a jump, back
   * towards lo by `home`. prevVy is the vertical speed before gravity applies.
   */
  function Drift(x: real, isJumping: bool, prevVy: real, fwd: real, back: real, home: real, lo: real, hi: real): real
  {
    if isJumping then
      if prevVy < 0.0 then Min(x + fwd, hi)
      else if prevVy > 0.0 then Max(x - back, lo)
      else x
    else if x > lo then Max(x - home, lo)
    else x
  }

  /** The drift keeps the player inside its band, and moves it only the way the jump phase says. */
  lemma DriftInBand(x: real, isJumping: bool, prevVy: real, fwd: real, back: real, home: real, lo: real, hi: real)
    requires lo <= x <= hi && fwd >= 0.0 && back >= 0.0 && home >= 0.0
    ensures var x' := Drift(x, isJumping, prevVy, fwd, back, home, lo, hi);
      && lo <= x' <= hi
      && (isJumping && prevVy < 0.0 ==> x <= x')
      && (!(isJumping && prevVy < 0.0) ==> x' <= x)
      && (!isJumping ==> x' == Max(x - home, lo))
  {
  }

  // ---------------------------------------------------------------------------
  // Obstacle scroll
  // ---------------------------------------------------------------------------

  /** Some of the obstacle is still on screen. */
  predicate Visible(o: Obstacle)
  {
    !(o.x + o.width < 0.0)
  }

  /** Each obstacle `speed` further left; those no longer visible are dropped, the rest keep their order. */
  function Scroll(obs: seq<Obstacle>, speed: real): (kept: seq<Obstacle>)
    ensures |kept| <= |obs|
  {
    if |obs| == 0 then []
    else
      var o := obs[|obs| - 1];
      var moved := o.(x := o.x - speed);
      Scroll(obs[..|obs| - 1], speed) + (if Visible(moved) then [moved] else [])
  }

  /** An obstacle survives a scroll exactly when its moved copy is visible. */
  lemma {:induction false} ScrollMembers(obs: seq<Obstacle>, speed: real)
    ensures forall o' :: o' in Scroll(obs, speed) <==>
      Visible(o') && exists k | 0 <= k < |obs| :: o' == obs[k].(x := obs[k].x - speed)
  {
    if |obs| > 0 {
      var init := obs[..|obs| - 1];
      ScrollMembers(init, speed);
      forall o' | Visible(o') && (exists k | 0 <= k < |obs| :: o' == obs[k].(x := obs[k].x - speed))
        ensures o' in Scroll(obs, speed)
      {
        var k :| 0 <= k < |obs| && o' == obs[k].(x := obs[k].x - speed);
        if k < |obs| - 1 {
          assert o' == init[k].(x := init[k].x - speed);
        }
      }
      forall o' | o' in Scroll(init, speed)
        ensures exists k | 0 <= k < |obs| :: o' == obs[k].(x := obs[k].x - speed)
      {
        var k :| 0 <= k < |init| && o' == init[k].(x := init[k].x - speed);
        assert obs[k] == init[k];
      }
    }
  }

  /** Scrolling a concatenation scrolls each part: survivors keep their relative order. */
  lemma {:induction false} ScrollAppend(a: seq<Obstacle>, b: seq<Obstacle>, speed: real)
    ensures Scroll(a + b, speed) == Scroll(a, speed) + Scroll(b, speed)
    decreases |b|
  {
    if |b| > 0 {
      assert (a + b)[..|a + b| - 1] == a + b[..|b| - 1];
      ScrollAppend(a, b[..|b| - 1], speed);
    } else {
      assert a + b == a;
    }
  }

  // ---------------------------------------------------------------------------
  // Collision
  // ---------------------------------------------------------------------------

  /**
   * The collision test of updateObstacles: all four strict inequalities between
   * the player's box and the obstacle's box (from GroundY - height to GroundY),
   * each side moved inwards by `shrink`.
   */
  predicate Collides(p: Player, o: Obstacle, shrink: real)
  {
    && p.x + p.width - shrink > o.x + shrink
    && p.x + shrink < o.x + o.width - shrink
    && p.y + p.height - shrink > GroundY - o.height + shrink
    && p.y + shrink < GroundY - shrink
  }

  /** The open interval (lo1, hi1) meets (lo2, hi2). */
  predicate Meet(lo1: real, hi1: real, lo2: real, hi2: real)
  {
    lo1 < hi2 && lo2 < hi1
  }

  /** The test is an overlap of the two boxes shrunk by `shrink` on every side. */
  lemma CollidesIsShrunkOverlap(p: Player, o: Obstacle, shrink: real)
    ensures Collides(p, o, shrink) <==>
      && Meet(p.x + shrink, p.x + p.width - shrink, o.x + shrink, o.x + o.width - shrink)
      && Meet(p.y + shrink, p.y + p.height - shrink, GroundY - o.height + shrink, GroundY - shrink)
  {
  }

  /** A larger shrink only forgives more: every collision it reports, a smaller one reports too. */
  lemma ShrinkForgives(p: Player, o: Obstacle, shrink: real, shrink': real)
    requires shrink' <= shrink
    ensures Collides(p, o, shrink) ==> Collides(p, o, shrink')
  {
  }

  /** A collision needs the player's shrunk bottom below the obstacle's shrunk top. */
  lemma CollisionNeedsLowPlayer(p: Player, o: Obstacle, shrink: real)
    requires Collides(p, o, shrink)
    ensures p.y + p.height > GroundY - o.height + 2.0 * shrink
  {
  }

  /** Some obstacle collides with the player. */
  predicate CollidesAny(p: Player, obs: seq<Obstacle>, shrink: real)
  {
    exists k | 0 <= k < |obs| :: Collides(p, obs[k], shrink)
  }

  /** The high score after a game ending at `score`: raised only when beaten. */
  function FinalHigh(score: nat, highScore: nat): (h: nat)
    ensures h >= highScore && h >= score && (h == score || h == highScore)
  {
    if score > highScore then score else highScore
  }
}
