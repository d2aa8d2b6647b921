/**
 * The eGov Memory Flip game: twenty face-down cards holding ten pairs, flipped
 * two at a time against a forty-second countdown. A pair of flipped cards is
 * resolved in a second step (the source waits half a second or so first):
 * equal pair ids stay face up as a match, different ones turn back over.
 */
module MemoryFlip {
  import Maze

  /** The board is 4 rows of 5 cards. */
  const Rows: nat := 4
  const Cols: nat := 5
  const TotalCards: nat := Rows * Cols
  const PairsToWin: nat := TotalCards / 2
  /** Seconds on the clock at the start of a game. */
  const StartTime: int := 40

  /** A card: the pair it belongs to and whether it is face up or already matched. */
  datatype Card = Card(pairId: int, isFlipped: bool, isMatched: bool)

  /** A face-down, unmatched card of pair `id`, as dealt. */
  function Dealt(id: int): Card
  {
    Card(id, false, false)
  }

  /** The whole game: the cards, the pending flipped indices, the pair count, the clock and the flags. */
  datatype Game = Game(grid: seq<Card>, flipped: seq<int>, matchedPairs: nat, timeLeft: int,
                       gameOver: bool, winner: bool, gameStarted: bool)

  // ---------------------------------------------------------------------------
  // The deck
  // ---------------------------------------------------------------------------

  /** The cards of pairs 0 .. n-1, two consecutive cards per pair. */
  ghost function PairCards(n: nat): seq<Card>
  {
    if n == 0 then [] else PairCards(n - 1) + [Dealt(n - 1), Dealt(n - 1)]
  }

  /** A freshly dealt deck: 20 face-down unmatched cards, each pair id 0 .. 9 exactly twice. */
  ghost predicate IsDeck(cards: seq<Card>)
  {
    && |cards| == TotalCards
    && (forall c | c in cards :: c == Dealt(c.pairId) && 0 <= c.pairId < PairsToWin)
    && (forall id | 0 <= id < PairsToWin :: multiset(cards)[Dealt(id)] == 2)
  }

  lemma {:induction false} PairCardsCount(n: nat, id: int)
    ensures multiset(PairCards(n))[Dealt(id)] == if 0 <= id < n then 2 else 0
  {
    if n > 0 {
      PairCardsCount(n - 1, id);
      var pair := [Dealt(n - 1), Dealt(n - 1)];
      assert PairCards(n) == PairCards(n - 1) + pair;
      assert multiset(PairCards(n)) == multiset(PairCards(n - 1)) + multiset(pair);
      assert multiset(pair)[Dealt(id)] == if id == n - 1 then 2 else 0;
    }
  }

  lemma {:induction false} PairCardsShape(n: nat)
    ensures |PairCards(n)| == 2 * n
    ensures forall c | c in PairCards(n) :: c == Dealt(c.pairId) && 0 <= c.pairId < n
  {
    if n > 0 {
      PairCardsShape(n - 1);
    }
  }

  /** The pairs of the deck, in the order the source pushes them: pair idx twice, for idx = 0 .. 9. */
  method BuildPairs() returns (cards: seq<Card>)
    ensures IsDeck(cards)
  {
    cards := [];
    for idx := 0 to PairsToWin
      invariant cards == PairCards(idx)
    {
      for i := 0 to 2
        invariant cards == PairCards(idx) + seq(i, _ => Dealt(idx))
      {
        cards := cards + [Dealt(idx)];
      }
    }
    PairCardsShape(PairsToWin);
    forall id | 0 <= id < PairsToWin
      ensures multiset(cards)[Dealt(id)] == 2
    {
      PairCardsCount(PairsToWin, id);
    }
  }

  /** Any reordering of a dealt deck is a dealt deck. */
  lemma DeckPermutation(cards: seq<Card>, shuffled: seq<Card>)
    requires IsDeck(cards) && multiset(shuffled) == multiset(cards)
    ensures IsDeck(shuffled)
  {
    assert |shuffled| == |multiset(shuffled)| == |multiset(cards)| == |cards|;
    forall c | c in shuffled
      ensures c == Dealt(c.pairId) && 0 <= c.pairId < PairsToWin
    {
      assert c in multiset(shuffled);
      assert c in cards;
    }
  }

  /** initializeGrid: deal the pairs, shuffle them, and reset the counters and flags. */
  method Deal(rolls: seq<nat>) returns (g: Game)
    requires |rolls| == TotalCards
    ensures IsDeck(g.grid) && Valid(g)
    ensures g.flipped == [] && g.matchedPairs == 0 && g.timeLeft == StartTime
    ensures !g.gameOver && !g.winner && g.gameStarted
  {
    var pairs := BuildPairs();
    var shuffled := Maze.Shuffle(pairs, rolls);
    DeckPermutation(pairs, shuffled);
    NoneMatchedInDeck(shuffled);
    g := Game(shuffled, [], 0, StartTime, false, false, true);
  }

  // ---------------------------------------------------------------------------
  // Counting matched cards
  // ---------------------------------------------------------------------------

  /** The number of matched cards. */
  function CountMatched(cards: seq<Card>): (n: nat)
    ensures n <= |cards|
  {
    if |cards| == 0 then 0
    else CountMatched(cards[..|cards| - 1]) + (if cards[|cards| - 1].isMatched then 1 else 0)
  }

  lemma {:induction false} CountMatchedUpdate(cards: seq<Card>, i: int, c: Card)
    requires 0 <= i < |cards|
    ensures CountMatched(cards[i := c]) + (if cards[i].isMatched then 1 else 0)
         == CountMatched(cards) + (if c.isMatched then 1 else 0)
  {
    var last := |cards| - 1;
    if i < last {
      assert cards[i := c][..last] == cards[..last][i := c];
      CountMatchedUpdate(cards[..last], i, c);
    } else {
      assert cards[i := c][..last] == cards[..last];
    }
  }

  lemma {:induction false} CountMatchedFlags(cards: seq<Card>, cards': seq<Card>)
    requires |cards| == |cards'|
    requires forall k | 0 <= k < |cards| :: cards'[k].isMatched == cards[k].isMatched
    ensures CountMatched(cards') == CountMatched(cards)
  {
    if |cards| > 0 {
      CountMatchedFlags(cards[..|cards| - 1], cards'[..|cards| - 1]);
    }
  }

  lemma NoneMatchedInDeck(cards: seq<Card>)
    requires IsDeck(cards)
    ensures CountMatched(cards) == 0
  {
    CountMatchedFlags(seq(|cards|, _ => Dealt(0)), cards);
    NoneMatched(|cards|);
  }

  lemma {:induction false} NoneMatched(n: nat)
    ensures CountMatched(seq(n, _ => Dealt(0))) == 0
  {
    if n > 0 {
      assert seq(n, _ => Dealt(0))[..n - 1] == seq(n - 1, _ => Dealt(0));
      NoneMatched(n - 1);
    }
  }

  // ---------------------------------------------------------------------------
  // The game invariant
  // ---------------------------------------------------------------------------

  /**
   * At most two cards pending, distinct, face up and unmatched; two matched
   * cards per matched pair; the clock never below zero and at zero once the
   * game is over; a winner has all ten pairs.
   */
  predicate Valid(g: Game)
  {
    && |g.grid| == TotalCards
    && |g.flipped| <= 2
    && (forall k | 0 <= k < |g.flipped| ::
          0 <= g.flipped[k] < |g.grid| && g.grid[g.flipped[k]].isFlipped && !g.grid[g.flipped[k]].isMatched)
    && (|g.flipped| == 2 ==> g.flipped[0] != g.flipped[1])
    && CountMatched(g.grid) == 2 * g.matchedPairs
    && g.timeLeft >= 0
    && (g.gameOver ==> g.timeLeft == 0)
    && (g.winner ==> g.matchedPairs >= PairsToWin)
  }

  /** The pair ids in board order: what no move changes. */
  function Layout(cards: seq<Card>): (ids: seq<int>)
    ensures |ids| == |cards| && forall k | 0 <= k < |cards| :: ids[k] == cards[k].pairId
  {
    seq(|cards|, k requires 0 <= k < |cards| => cards[k].pairId)
  }

  lemma MatchedPairsBounded(g: Game)
    requires Valid(g)
    ensures g.matchedPairs <= PairsToWin
  {
  }

  // ---------------------------------------------------------------------------
  // handleCardClick: the guard and the flip
  // ---------------------------------------------------------------------------

  /** The click on card id is refused. */
  predicate Ignored(g: Game, id: int)
    requires 0 <= id < |g.grid|
  {
    || g.gameOver || g.winner
    || g.grid[id].isFlipped || g.grid[id].isMatched
    || |g.flipped| >= 2
    || g.timeLeft <= 0
  }

  /** A click on card id: turn it face up and add it to the pending cards. */
  function Click(g: Game, id: int): (r: Game)
    requires 0 <= id < |g.grid|
    ensures |r.grid| == |g.grid| && Layout(r.grid) == Layout(g.grid)
  {
    if Ignored(g, id) then g
    else g.(grid := g.grid[id := g.grid[id].(isFlipped := true)], flipped := g.flipped + [id])
  }

  lemma ClickIgnoredRule(g: Game, id: int)
    requires 0 <= id < |g.grid|
    ensures Click(g, id) == g <==> Ignored(g, id)
  {
    if !Ignored(g, id) {
      assert |Click(g, id).flipped| != |g.flipped|;
    }
  }

  /** An accepted click turns that card face up, appends it, and changes nothing else. */
  lemma ClickFlipsOnlyThatCard(g: Game, id: int)
    requires 0 <= id < |g.grid| && !Ignored(g, id)
    ensures var r := Click(g, id);
      && r.grid[id] == g.grid[id].(isFlipped := true)
      && (forall k | 0 <= k < |g.grid| && k != id :: r.grid[k] == g.grid[k])
      && r.flipped == g.flipped + [id]
      && r.(grid := g.grid, flipped := g.flipped) == g
  {
  }

  lemma ClickKeepsValid(g: Game, id: int)
    requires Valid(g) && 0 <= id < |g.grid|
    ensures Valid(Click(g, id))
  {
    if !Ignored(g, id) {
      var r := Click(g, id);
      CountMatchedUpdate(g.grid, id, g.grid[id].(isFlipped := true));
      if |g.flipped| == 1 {
        assert g.grid[g.flipped[0]].isFlipped;
      }
    }
  }

  /** Starting from a valid game, no sequence of clicks ever leaves more than two cards pending. */
  lemma {:induction false} ClicksPendAtMostTwo(g: Game, ids: seq<int>)
    requires Valid(g)
    requires forall k | 0 <= k < |ids| :: 0 <= ids[k] < TotalCards
    ensures Valid(Clicks(g, ids)) && |Clicks(g, ids).flipped| <= 2
    decreases |ids|
  {
    if |ids| > 0 {
      ClickKeepsValid(g, ids[0]);
      ClicksPendAtMostTwo(Click(g, ids[0]), ids[1..]);
    }
  }

  /** A run of clicks with no resolution in between. */
  function Clicks(g: Game, ids: seq<int>): Game
    requires |g.grid| == TotalCards
    requires forall k | 0 <= k < |ids| :: 0 <= ids[k] < TotalCards
    decreases |ids|
  {
    if |ids| == 0 then g else Clicks(Click(g, ids[0]), ids[1..])
  }

  // ---------------------------------------------------------------------------
  // The delayed resolution of two pending cards, with the win check
  // ---------------------------------------------------------------------------

  /** Ten pairs matched (and at least one, as the source also asks). */
  predicate WinReached(matchedPairs: int)
  {
    matchedPairs >= PairsToWin && matchedPairs > 0
  }

  /** The two pending cards show the same picture. */
  predicate PendingMatch(g: Game)
    requires |g.flipped| == 2 && 0 <= g.flipped[0] < |g.grid| && 0 <= g.flipped[1] < |g.grid|
  {
    g.grid[g.flipped[0]].pairId == g.grid[g.flipped[1]].pairId
  }

  /**
   * The timeout set by the second click: a match marks both cards matched and
   * counts the pair (the win check then runs on the new count); a mismatch turns
   * both face down. Either way nothing stays pending.
   */
  function Resolve(g: Game): (r: Game)
    requires |g.flipped| == 2 ==> 0 <= g.flipped[0] < |g.grid| && 0 <= g.flipped[1] < |g.grid|
    ensures |r.grid| == |g.grid| && Layout(r.grid) == Layout(g.grid)
  {
    if |g.flipped| != 2 then g
    else
      var a, b := g.flipped[0], g.flipped[1];
      if PendingMatch(g) then
        var m := g.matchedPairs + 1;
        g.(grid := g.grid[a := g.grid[a].(isMatched := true)][b := g.grid[b].(isMatched := true)],
           matchedPairs := m, flipped := [], winner := g.winner || WinReached(m))
      else
        g.(grid := g.grid[a := g.grid[a].(isFlipped := false)][b := g.grid[b].(isFlipped := false)],
           flipped := [])
  }

  lemma ResolveMatch(g: Game)
    requires Valid(g) && |g.flipped| == 2 && PendingMatch(g)
    ensures var r := Resolve(g); var a, b := g.flipped[0], g.flipped[1];
      && r.grid[a].isMatched && r.grid[b].isMatched
      && r.grid[a].isFlipped && r.grid[b].isFlipped
      && (forall k | 0 <= k < |g.grid| && k != a && k != b :: r.grid[k] == g.grid[k])
      && r.matchedPairs == g.matchedPairs + 1
      && r.flipped == []
      && (r.winner <==> g.winner || r.matchedPairs >= PairsToWin)
  {
  }

  lemma ResolveMismatch(g: Game)
    requires Valid(g) && |g.flipped| == 2 && !PendingMatch(g)
    ensures var r := Resolve(g); var a, b := g.flipped[0], g.flipped[1];
      && !r.grid[a].isFlipped && !r.grid[b].isFlipped
      && (forall k | 0 <= k < |g.grid| && k != a && k != b :: r.grid[k] == g.grid[k])
      && r.matchedPairs == g.matchedPairs
      && r.flipped == []
      && r.winner == g.winner
  {
  }

  lemma ResolveKeepsValid(g: Game)
    requires Valid(g)
    ensures Valid(Resolve(g))
  {
    if |g.flipped| == 2 {
      var a, b := g.flipped[0], g.flipped[1];
      if PendingMatch(g) {
        var g1 := g.grid[a := g.grid[a].(isMatched := true)];
        CountMatchedUpdate(g.grid, a, g.grid[a].(isMatched := true));
        CountMatchedUpdate(g1, b, g1[b].(isMatched := true));
      } else {
        var g1 := g.grid[a := g.grid[a].(isFlipped := false)];
        CountMatchedUpdate(g.grid, a, g.grid[a].(isFlipped := false));
        CountMatchedUpdate(g1, b, g1[b].(isFlipped := false));
      }
    }
  }

  // ---------------------------------------------------------------------------
  // The countdown, the reveal on game over, the clock display
  // ---------------------------------------------------------------------------

  /** The timer's state updater: one second less, and never below zero. */
  function NextTime(prev: int): (t: int)
    ensures t >= 0 && (prev >= 1 ==> t == prev - 1)
  {
    if prev <= 1 then 0 else prev - 1
  }

  /** n seconds of countdown from `from`. */
  function Countdown(from: int, n: nat): int
  {
    if n == 0 then from else NextTime(Countdown(from, n - 1))
  }

  lemma {:induction false} CountdownValue(from: int, n: nat)
    requires n >= 1 || from >= 0
    ensures Countdown(from, n) == if from - n > 0 then from - n else 0
  {
    if n > 1 {
      CountdownValue(from, n - 1);
    }
  }

  /** Every card face up, nothing else changed: the reveal when the game is lost. */
  function RevealAll(cards: seq<Card>): (r: seq<Card>)
    ensures |r| == |cards| && Layout(r) == Layout(cards)
    ensures forall k | 0 <= k < |r| :: r[k].isFlipped && r[k].isMatched == cards[k].isMatched
  {
    seq(|cards|, k requires 0 <= k < |cards| => cards[k].(isFlipped := true))
  }

  /** The clock runs while a game is on and there is time left. */
  predicate ClockRunning(g: Game)
  {
    g.gameStarted && !g.gameOver && !g.winner && g.timeLeft > 0
  }

  /** One second of the interval timer; running out ends the game and reveals all cards. */
  function Tick(g: Game): (r: Game)
    ensures |r.grid| == |g.grid| && Layout(r.grid) == Layout(g.grid)
  {
    if !ClockRunning(g) then g
    else if g.timeLeft <= 1 then g.(timeLeft := 0, gameOver := true, grid := RevealAll(g.grid))
    else g.(timeLeft := g.timeLeft - 1)
  }

  lemma TickRule(g: Game)
    requires Valid(g)
    ensures var r := Tick(g);
      && r.timeLeft == (if ClockRunning(g) then NextTime(g.timeLeft) else g.timeLeft)
      && (r.gameOver <==> g.gameOver || (ClockRunning(g) && g.timeLeft == 1))
      && r.matchedPairs == g.matchedPairs && r.flipped == g.flipped && r.winner == g.winner
  {
  }

  lemma TickKeepsValid(g: Game)
    requires Valid(g)
    ensures Valid(Tick(g))
  {
    if ClockRunning(g) && g.timeLeft <= 1 {
      CountMatchedFlags(g.grid, RevealAll(g.grid));
    }
  }

  /** Once as many ticks as there are seconds left have passed, a running game is over at 0 with every card shown. */
  lemma {:induction false} OutOfTime(g: Game, n: nat)
    requires Valid(g) && ClockRunning(g) && n >= g.timeLeft
    ensures var r := Ticks(g, n); r.gameOver && r.timeLeft == 0 && forall k | 0 <= k < |r.grid| :: r.grid[k].isFlipped
    decreases n
  {
    if g.timeLeft <= 1 {
      TickKeepsValid(g);
      StaysOver(Tick(g), n - 1);
    } else {
      TickKeepsValid(g);
      OutOfTime(Tick(g), n - 1);
    }
  }

  lemma {:induction false} StaysOver(g: Game, n: nat)
    requires g.gameOver
    ensures Ticks(g, n) == g
  {
    if n > 0 {
      StaysOver(Tick(g), n - 1);
    }
  }

  /** n seconds of the timer. */
  function Ticks(g: Game, n: nat): Game
    decreases n
  {
    if n == 0 then g else Ticks(Tick(g), n - 1)
  }

  /** The decimal digits of n, most significant first, without leading zeros. */
  function Digits(n: nat): (s: string)
    ensures |s| >= 1 && forall k | 0 <= k < |s| :: '0' <= s[k] <= '9'
    ensures n < 10 <==> |s| == 1
  {
    if n < 10 then [DigitChar(n)] else Digits(n / 10) + [DigitChar(n % 10)]
  }

  function DigitChar(d: nat): char
    requires d < 10
  {
    "0123456789"[d]
  }

  /** The number a string of decimal digits spells. */
  function Value(s: string): nat
    requires forall k | 0 <= k < |s| :: '0' <= s[k] <= '9'
  {
    if |s| == 0 then 0 else 10 * Value(s[..|s| - 1]) + (s[|s| - 1] - '0') as nat
  }

  lemma {:induction false} DigitsValue(n: nat)
    ensures Value(Digits(n)) == n
  {
    if n >= 10 {
      var s := Digits(n);
      assert s[..|s| - 1] == Digits(n / 10);
      DigitsValue(n / 10);
    }
  }

  /** Seconds under a minute, padded to two digits. */
  function Padded(secs: nat): string
    requires secs < 60
  {
    (if secs < 10 then "0" else "") + Digits(secs)
  }

  /** The padding keeps the value and always gives two digits. */
  lemma PaddedValue(secs: nat)
    requires secs < 60
    ensures |Padded(secs)| == 2 && forall k | 0 <= k < 2 :: '0' <= Padded(secs)[k] <= '9'
    ensures Value(Padded(secs)) == secs
  {
    var t := Padded(secs);
    DigitsValue(secs);
    if secs < 10 {
      assert t[..1] == "0";
      assert Value(t[..1]) == 0;
    } else {
      assert |Digits(secs / 10)| == 1;
      assert t == Digits(secs);
    }
  }

  /** formatTime: minutes, a colon, then the seconds padded to two digits. */
  function FormatTime(seconds: nat): (s: string)
    ensures |s| >= 4 && s[|s| - 3] == ':'
    ensures forall k | 0 <= k < |s| && k != |s| - 3 :: '0' <= s[k] <= '9'
  {
    PaddedValue(seconds % 60);
    Digits(seconds / 60) + ":" + Padded(seconds % 60)
  }

  /** The minutes and the two-digit seconds of a displayed clock, back to seconds. */
  function ReadTime(s: string): nat
    requires |s| >= 4 && s[|s| - 3] == ':'
    requires forall k | 0 <= k < |s| && k != |s| - 3 :: '0' <= s[k] <= '9'
  {
    60 * Value(s[..|s| - 3]) + Value(s[|s| - 2..])
  }

  /** Reading back a clock assembled from its minute digits and its two second digits. */
  lemma ReadTimeOf(m: string, t: string)
    requires |m| >= 1 && |t| == 2
    requires forall k | 0 <= k < |m| :: '0' <= m[k] <= '9'
    requires forall k | 0 <= k < |t| :: '0' <= t[k] <= '9'
    ensures ReadTime(m + ":" + t) == 60 * Value(m) + Value(t)
  {
    var s := m + ":" + t;
    assert s[..|s| - 3] == m;
    assert s[|s| - 2..] == t;
  }

  /** The display loses nothing: the seconds can be read back from it. */
  lemma FormatTimeRoundTrip(seconds: nat)
    ensures ReadTime(FormatTime(seconds)) == seconds
  {
    PaddedValue(seconds % 60);
    DigitsValue(seconds / 60);
    ReadTimeOf(Digits(seconds / 60), Padded(seconds % 60));
  }

  // ---------------------------------------------------------------------------
  // The screen
  // ---------------------------------------------------------------------------

  /** The memory-flip screen's state, updated in place by its handlers. */
  class MemoryScreen {
    var grid: seq<Card>
    var flipped: seq<int>
    var matchedPairs: nat
    var timeLeft: int
    var gameOver: bool
    var winner: bool
    var gameStarted: bool

    function State(): Game
      reads this
    {
      Game(grid, flipped, matchedPairs, timeLeft, gameOver, winner, gameStarted)
    }

    /** The screen on mount: a freshly dealt game. */
    constructor(rolls: seq<nat>)
      requires |rolls| == TotalCards
      ensures Valid(State()) && IsDeck(grid)
      ensures flipped == [] && matchedPairs == 0 && timeLeft == StartTime && !gameOver && !winner && gameStarted
    {
      var g := Deal(rolls);
      grid, flipped, matchedPairs, timeLeft := g.grid, g.flipped, g.matchedPairs, g.timeLeft;
      gameOver, winner, gameStarted := g.gameOver, g.winner, g.gameStarted;
    }

    /** resetGame (and initializeGrid): deal again and reset every counter and flag. */
    method ResetGame(rolls: seq<nat>)
      requires |rolls| == TotalCards
      modifies this
      ensures Valid(State()) && IsDeck(grid)
      ensures flipped == [] && matchedPairs == 0 && timeLeft == StartTime && !gameOver && !winner && gameStarted
    {
      var g := Deal(rolls);
      grid, flipped, matchedPairs, timeLeft := g.grid, g.flipped, g.matchedPairs, g.timeLeft;
      gameOver, winner, gameStarted := g.gameOver, g.winner, g.gameStarted;
    }

    /** handleCardClick(id), up to the point where the resolution is scheduled. */
    method CardClick(id: int)
      requires Valid(State()) && 0 <= id < |grid|
      modifies this
      ensures Valid(State()) && State() == Click(old(State()), id)
    {
      ClickKeepsValid(State(), id);
      if gameOver || winner || grid[id].isFlipped || grid[id].isMatched || |flipped| >= 2 || timeLeft <= 0 {
        return;
      }
      grid := grid[id := grid[id].(isFlipped := true)];
      flipped := flipped + [id];
    }

    /** The delayed callback of the second click: keep a match, turn a mismatch back. */
    method ResolvePending()
      requires Valid(State())
      modifies this
      ensures Valid(State()) && State() == Resolve(old(State()))
    {
      ResolveKeepsValid(State());
      if |flipped| != 2 {
        return;
      }
      var a, b := flipped[0], flipped[1];
      if grid[a].pairId == grid[b].pairId {
        grid := grid[a := grid[a].(isMatched := true)];
        grid := grid[b := grid[b].(isMatched := true)];
        matchedPairs := matchedPairs + 1;
        flipped := [];
        if matchedPairs >= PairsToWin && matchedPairs > 0 {
          winner := true;
        }
      } else {
        grid := grid[a := grid[a].(isFlipped := false)];
        grid := grid[b := grid[b].(isFlipped := false)];
        flipped := [];
      }
    }

    /** One second of the countdown interval; at zero the game is over and every card is shown. */
    method TickSecond()
      requires Valid(State())
      modifies this
      ensures Valid(State()) && State() == Tick(old(State()))
    {
      TickKeepsValid(State());
      if !(gameStarted && !gameOver && !winner && timeLeft > 0) {
        return;
      }
      timeLeft := NextTime(timeLeft);
      if timeLeft == 0 {
        gameOver := true;
        grid := RevealAll(grid);
      }
    }
  }
}
