# eGov arcade: a verified model of its game rules

This project models the rules behind the eGov arcade's screens:

- the maze generator and the pen-tracing state machine of eGov Maze;
- the Memory Flip card game;
- the five-by-five bomb-tile game;
- the Flappy Bird loop;
- the two endless runners, Dino Runner and eGov Catch;
- the file list of the PDF compressor.

Each screen's React state becomes Dafny state. Where a screen updates an array in place, the model keeps the array: the maze grid, the Fisher–Yates buffer and the tile board are `array`/`array2`. Each screen is a class whose fields are the screen's state variables. Each handler is a method proved equal to a specification function of the old state, and the rules the screen promises are lemmas about those functions. The PDF list is a pure `seq` of records: its one loop, compressAll, is a method proved against a fold of compressPdf.

Files:

- `wrappers.dfy`: `Option`.
- `maze.dfy`: grid, shuffle, carving, end search, generation.
- `maze_trace.dfy`: pointer handlers of the maze screen.
- `memory_flip.dfy`, `one_mine.dfy`, `flappy.dfy`: the three games.
- `runner.dfy`: what the two runners share (drift, scroll, shrunken-hitbox collision, high score).
- `dino_runner.dfy`, `gov_catch.dfy`: the two runners.
- `pdf_compressor.dfy`: the PDF file list.

Inputs that come from outside the program are parameters:

- **Randomness.** `Math.random` draws, the shuffle comparators, a bomb's row and column, a pipe height, an obstacle's size and offset, and the ids of added PDF files.
- **Timing.** Whether an obstacle's spawn time has come (`spawnDue`).
- **Storage.** The high score read from `localStorage`.
- **Layout.** The game area's width.

## Model

| member | source | states |
|---|---|---|
| Maze.CreateEmptyGrid | src/screens/game_maze/eGovMaze.tsx:16-26 | a fresh 21×31 grid with every cell a wall |
| Maze.Shuffle | src/screens/game_maze/eGovMaze.tsx:28-35 | the shuffled copy has the input's length and is a permutation of it (same multiset) |
| Maze.Carve | src/screens/game_maze/eGovMaze.tsx:44-61 | carving from a wall cell keeps the carving invariant (open cells exactly the recorded ones, inside the border, off the even-even pillars, each linked to a nearer neighbour, every two recorded neighbours one step apart in depth, and every cell with at most one parent), records the cell, and leaves every in-bounds two-step neighbour open; it terminates because each call records a new cell |
| Maze.CarveToward | src/screens/game_maze/eGovMaze.tsx:53-59 | one direction of the loop: afterwards that two-step neighbour, when inside the border, is open |
| Maze.Tunnel | src/screens/game_maze/eGovMaze.tsx:56-58 | opening the cell in between and carving from a walled neighbour records that neighbour and keeps the invariant |
| Maze.OpenCell | src/screens/game_maze/eGovMaze.tsx:45 | writing a path cell keeps the invariant and records the cell when it was a wall |
| Maze.TreeGrows | src/screens/game_maze/eGovMaze.tsx:45-58 | a new cell whose only recorded neighbour is its parent, one step nearer, keeps the recorded cells a tree (neighbours one step apart in depth, at most one parent each) |
| Maze.WalkFromOrigin | src/screens/game_maze/eGovMaze.tsx:44-65 | from every recorded cell there is a walk back to the start (1, 1) through recorded cells, one orthogonal step at a time |
| Maze.OpenIsReachable | src/screens/game_maze/eGovMaze.tsx:44-65 | every open cell of the carved grid can be reached from the start |
| Maze.FindEnd | src/screens/game_maze/eGovMaze.tsx:67-80 | the scan returns the first path cell, in row-major order, of greatest Manhattan distance from the start, or the start itself when there is no path cell |
| Maze.NoRecordedCycle | src/screens/game_maze/eGovMaze.tsx:44-65 | a closed walk of three or more steps through the recorded cells repeats a cell: the carved passages hold no cycle |
| Maze.Relabel | src/screens/game_maze/eGovMaze.tsx:82-83 | after marking the start and the end, the grid is a well-formed maze |
| Maze.GenerateMaze | src/screens/game_maze/eGovMaze.tsx:38-86 | a well-formed maze: start at (1, 1), the end elsewhere, every open cell inside the border and reachable from the start, no cycle of distinct open cells (the open cells form a tree, a perfect maze), and the end the first farthest open cell |
| MazeTrace.Begin | src/screens/game_maze/eGovMaze.tsx:159-189 | beginDrawFrom never changes the game status |
| MazeTrace.BeginRule | src/screens/game_maze/eGovMaze.tsx:159-189 | a press is taken exactly when the game is on and either it is the first press and lands on the start cell, or a last point exists within 0.85 cells of it; a taken press starts drawing and records the point and cell; any other press changes nothing |
| MazeTrace.WithinReachIsDistance | src/screens/game_maze/eGovMaze.tsx:176-182 | for every cell size and every point at Euclidean distance d from the last point, the squared comparison accepts the resume exactly when d ≤ 0.85 cell sizes, as the `Math.hypot` test does |
| MazeTrace.FirstPressOnStart | src/screens/game_maze/eGovMaze.tsx:162-164 | before the first run, a press off the start cell does nothing |
| MazeTrace.Extend | src/screens/game_maze/eGovMaze.tsx:191-232 | extendPathTo never changes whether a run has started |
| MazeTrace.SameCellNoChange | src/screens/game_maze/eGovMaze.tsx:197-201 | while drawing, moving within the last cell changes nothing |
| MazeTrace.EnterCellRule | src/screens/game_maze/eGovMaze.tsx:202-231 | entering a new cell records it and the point; a wall loses and stops drawing; the end cell wins and stops drawing; any other cell keeps drawing |
| MazeTrace.MoveIgnoredUnlessDrawing | src/screens/game_maze/eGovMaze.tsx:192 | a move is ignored when not drawing or once the game has ended |
| MazeTrace.EndIsFinal | src/screens/game_maze/eGovMaze.tsx:160 | once won or lost, no press, move or release changes the status |
| MazeTrace.Stop | src/screens/game_maze/eGovMaze.tsx:234-237 | lifting the pencil keeps the status and the last point and cell, for a later resume |
| MazeTrace.CellAt | src/screens/game_maze/eGovMaze.tsx:247-250 | the pixel-to-cell conversion yields only cells of the grid |
| MazeTrace.CellAtContains | src/screens/game_maze/eGovMaze.tsx:247-250 | a cell is found exactly when the point lies on the grid, and the point then lies inside that cell |
| MazeTrace.PointerDown | src/screens/game_maze/eGovMaze.tsx:239-260 | a press never changes the status |
| MazeTrace.PointerMove | src/screens/game_maze/eGovMaze.tsx:262-276 | a move never changes whether a run has started |
| MazeTrace.DragOutcome | src/screens/game_maze/eGovMaze.tsx:191-232 | a drag ends won exactly when it enters the end before any wall, and lost exactly when it enters a wall before the end |
| MazeTrace.DragEnded | src/screens/game_maze/eGovMaze.tsx:192 | after the game has ended, a drag changes nothing |
| MazeTrace.MazeScreen.constructor | src/screens/game_maze/eGovMaze.tsx:92-97 | the screen opens on a well-formed maze in the fresh tracing state |
| MazeTrace.MazeScreen.Restart | src/screens/game_maze/eGovMaze.tsx:141-157 | handleRestart: a new well-formed maze and the fresh tracing state |
| MazeTrace.MazeScreen.Rescale | src/screens/game_maze/eGovMaze.tsx:123-135 | a change of cell size forgets the last point and nothing else |
| MazeTrace.MazeScreen.BeginDrawFrom | src/screens/game_maze/eGovMaze.tsx:159-189 | the handler's new state is Begin of the old |
| MazeTrace.MazeScreen.ExtendPathTo | src/screens/game_maze/eGovMaze.tsx:191-232 | the handler's new state is Extend of the old, judged on the grid's cell |
| MazeTrace.MazeScreen.StopDrawing | src/screens/game_maze/eGovMaze.tsx:234-237 | the new state is Stop of the old |
| MazeTrace.MazeScreen.HandlePointerDown | src/screens/game_maze/eGovMaze.tsx:239-260 | the new state is PointerDown of the old; the maze is untouched |
| MazeTrace.MazeScreen.HandlePointerMove | src/screens/game_maze/eGovMaze.tsx:262-276 | the new state is PointerMove of the old; the maze is untouched |
| MazeTrace.MazeScreen.HandlePointerUp | src/screens/game_maze/eGovMaze.tsx:278-285 | releasing stops drawing and keeps the last point |
| MemoryFlip.PairCardsCount | src/screens/game_memory_flip/MemoryFlip.tsx:132-145 | the built pairs hold exactly two cards of each pair id 0..n-1 and none of any other |
| MemoryFlip.PairCardsShape | src/screens/game_memory_flip/MemoryFlip.tsx:132-145 | 2n cards, all face down and unmatched, with pair ids below n |
| MemoryFlip.BuildPairs | src/screens/game_memory_flip/MemoryFlip.tsx:132-145 | the nested loops build a deck: ten pairs, two cards per pair id |
| MemoryFlip.DeckPermutation | src/screens/game_memory_flip/MemoryFlip.tsx:148 | any reordering of a deck is a deck |
| MemoryFlip.Deal | src/screens/game_memory_flip/MemoryFlip.tsx:117-152 | initializeGrid: a shuffled deck, no flipped cards, no pairs, 40 seconds, game started and not over |
| MemoryFlip.CountMatched | src/screens/game_memory_flip/MemoryFlip.tsx:193-198 | the matched-card count is at most the number of cards |
| MemoryFlip.CountMatchedUpdate | src/screens/game_memory_flip/MemoryFlip.tsx:193-194 | replacing one card changes the count by that card's matched flag |
| MemoryFlip.CountMatchedFlags | src/screens/game_memory_flip/MemoryFlip.tsx:175-177 | changes that keep every matched flag keep the count |
| MemoryFlip.NoneMatchedInDeck | src/screens/game_memory_flip/MemoryFlip.tsx:141-142 | a fresh deck has no matched cards |
| MemoryFlip.NoneMatched | src/screens/game_memory_flip/MemoryFlip.tsx:141-142 | a run of fresh cards has no matched cards |
| MemoryFlip.Layout | src/screens/game_memory_flip/MemoryFlip.tsx:139 | the layout lists each card's pair id in place |
| MemoryFlip.MatchedPairsBounded | src/screens/game_memory_flip/MemoryFlip.tsx:44-46 | in a valid game no more than ten pairs are matched |
| MemoryFlip.Click | src/screens/game_memory_flip/MemoryFlip.tsx:155-181 | a click never moves a card: the layout is kept |
| MemoryFlip.ClickIgnoredRule | src/screens/game_memory_flip/MemoryFlip.tsx:163-172 | a click changes the game exactly when none of the six refusal conditions holds |
| MemoryFlip.ClickFlipsOnlyThatCard | src/screens/game_memory_flip/MemoryFlip.tsx:174-181 | an accepted click turns that card face up, appends its index to the flipped list, and changes nothing else |
| MemoryFlip.ClickKeepsValid | src/screens/game_memory_flip/MemoryFlip.tsx:155-181 | clicks keep the game's invariant |
| MemoryFlip.ClicksPendAtMostTwo | src/screens/game_memory_flip/MemoryFlip.tsx:168 | whatever the clicks, at most two cards are ever pending |
| MemoryFlip.Resolve | src/screens/game_memory_flip/MemoryFlip.tsx:184-219 | resolving a pair never moves a card |
| MemoryFlip.ResolveMatch | src/screens/game_memory_flip/MemoryFlip.tsx:188-206 | two cards of one pair both become matched and stay face up, the pair count rises by one, the pending list empties, and the game is won once ten pairs are matched |
| MemoryFlip.ResolveMismatch | src/screens/game_memory_flip/MemoryFlip.tsx:207-219 | two cards of different pairs both turn face down, nothing else on the board changes, and the pending list empties |
| MemoryFlip.ResolveKeepsValid | src/screens/game_memory_flip/MemoryFlip.tsx:184-219 | resolution keeps the invariant |
| MemoryFlip.NextTime | src/screens/game_memory_flip/MemoryFlip.tsx:77-85 | the countdown never goes below zero and steps down by one from 1 or more |
| MemoryFlip.CountdownValue | src/screens/game_memory_flip/MemoryFlip.tsx:77-85 | after n seconds the clock shows max(from − n, 0) |
| MemoryFlip.RevealAll | src/screens/game_memory_flip/MemoryFlip.tsx:103-107 | game over turns every card face up and keeps the layout and the matched flags |
| MemoryFlip.Tick | src/screens/game_memory_flip/MemoryFlip.tsx:72-92 | a second of the timer never moves a card |
| MemoryFlip.TickRule | src/screens/game_memory_flip/MemoryFlip.tsx:72-92 | while the clock runs it counts down; the game ends exactly when it ticks from 1; pairs, pending cards and the win are unchanged |
| MemoryFlip.TickKeepsValid | src/screens/game_memory_flip/MemoryFlip.tsx:72-107 | the timer keeps the invariant |
| MemoryFlip.OutOfTime | src/screens/game_memory_flip/MemoryFlip.tsx:72-107 | once the timer has ticked at least the time left, the game is over at 0 seconds with every card face up |
| MemoryFlip.StaysOver | src/screens/game_memory_flip/MemoryFlip.tsx:75 | a finished game ignores the timer |
| MemoryFlip.Digits | src/screens/game_memory_flip/MemoryFlip.tsx:113 | a number's decimal digits, one character exactly when below ten |
| MemoryFlip.DigitsValue | src/screens/game_memory_flip/MemoryFlip.tsx:113 | the digits spell the number back |
| MemoryFlip.PaddedValue | src/screens/game_memory_flip/MemoryFlip.tsx:112-113 | the seconds are always two digits and keep their value |
| MemoryFlip.FormatTime | src/screens/game_memory_flip/MemoryFlip.tsx:110-114 | the clock is digits, a colon, and two more digits |
| MemoryFlip.FormatTimeRoundTrip | src/screens/game_memory_flip/MemoryFlip.tsx:110-114 | reading minutes and seconds back from the display gives the seconds shown |
| MemoryFlip.MemoryScreen.constructor | src/screens/game_memory_flip/MemoryFlip.tsx:67-69 | on mount a game is dealt |
| MemoryFlip.MemoryScreen.ResetGame | src/screens/game_memory_flip/MemoryFlip.tsx:224-226 | resetGame deals a fresh game |
| MemoryFlip.MemoryScreen.CardClick | src/screens/game_memory_flip/MemoryFlip.tsx:155-181 | the handler's new state is Click of the old and stays valid |
| MemoryFlip.MemoryScreen.ResolvePending | src/screens/game_memory_flip/MemoryFlip.tsx:184-219 | the delayed check's new state is Resolve of the old |
| MemoryFlip.MemoryScreen.TickSecond | src/screens/game_memory_flip/MemoryFlip.tsx:72-107 | a timer second's new state is Tick of the old |
| OneMine.Uncovered | src/screens/game_one_mine/MainPage.tsx:62-66 | uncovering keeps the board's cells |
| OneMine.Outcome | src/screens/game_one_mine/MainPage.tsx:68-85 | the flags' update leaves the board alone and never lowers the high score |
| OneMine.Click | src/screens/game_one_mine/MainPage.tsx:57-88 | a click keeps the board's cells and never lowers the high score |
| OneMine.ClickIgnoredRule | src/screens/game_one_mine/MainPage.tsx:58-60 | a click changes the game exactly when the game is undecided and the tile still covered |
| OneMine.ClickUncoversOnlyThatTile | src/screens/game_one_mine/MainPage.tsx:62-66 | an accepted click uncovers that tile only and moves no bomb |
| OneMine.BombClickEndsGame | src/screens/game_one_mine/MainPage.tsx:68-69 | uncovering a bomb ends the game without a star, a win or a new high score |
| OneMine.SafeClickEarnsStar | src/screens/game_one_mine/MainPage.tsx:70-85 | a safe tile earns a star; the tenth wins, and a win raises the high score only when beaten |
| OneMine.ClickKeepsValid | src/screens/game_one_mine/MainPage.tsx:57-88 | clicks keep the invariant: three bombs, stars equal to uncovered safe tiles, over exactly when a bomb is uncovered, won exactly at ten stars, never both |
| OneMine.HighScoreMonotone | src/screens/game_one_mine/MainPage.tsx:80-83 | no run of clicks lowers the high score |
| OneMine.Clicks | src/screens/game_one_mine/MainPage.tsx:57-88 | a run of clicks keeps the board's cells |
| OneMine.DrawnStep | src/screens/game_one_mine/MainPage.tsx:41-49 | the drawn cells grow by one draw at a time |
| OneMine.PlaceBombs | src/screens/game_one_mine/MainPage.tsx:33-49 | the placement loop puts bombs on exactly the first distinct drawn cells, stopping at three, and uncovers nothing |
| OneMine.PlacementValid | src/screens/game_one_mine/MainPage.tsx:33-55 | a covered board with three bombs and no stars is a valid start |
| OneMine.MinePage.constructor | src/screens/game_one_mine/MainPage.tsx:25-31 | on mount: the saved high score and a fresh valid board |
| OneMine.MinePage.InitializeGrid | src/screens/game_one_mine/MainPage.tsx:33-55 | a new covered board whose bombs are the drawn cells; stars and flags reset, high score kept |
| OneMine.MinePage.Uncover | src/screens/game_one_mine/MainPage.tsx:62-66 | writes the uncovered tile and nothing else |
| OneMine.MinePage.Award | src/screens/game_one_mine/MainPage.tsx:68-85 | the new flags are Outcome of the old |
| OneMine.MinePage.HandleTileClick | src/screens/game_one_mine/MainPage.tsx:57-88 | the handler's new state is Click of the old and stays valid |
| Flappy.PipeHeight | src/screens/game_two_floppy/MainPageFlappyBird.tsx:324 | a new pipe's height is between 100 and 499 |
| Flappy.MovePipes | src/screens/game_two_floppy/MainPageFlappyBird.tsx:314 | every pipe moves 15 to the left, in order |
| Flappy.KeepOnScreenMembers | src/screens/game_two_floppy/MainPageFlappyBird.tsx:317 | a pipe is kept exactly when its right edge is still on screen |
| Flappy.KeepOnScreenAppend | src/screens/game_two_floppy/MainPageFlappyBird.tsx:317 | the filter keeps the pipes' order |
| Flappy.Rightmost | src/screens/game_two_floppy/MainPageFlappyBird.tsx:320 | the reduce gives the largest pipe x, or 0 when none is positive |
| Flappy.PipeEntersRule | src/screens/game_two_floppy/MainPageFlappyBird.tsx:319-328 | a new pipe enters at the right edge exactly when every moved pipe is left of 1000 − 450 |
| Flappy.PipesAfterTick | src/screens/game_two_floppy/MainPageFlappyBird.tsx:312-329 | after a tick every pipe is a moved, on-screen old pipe or the new one, and every moved, on-screen pipe is kept |
| Flappy.CountPassing | src/screens/game_two_floppy/MainPageFlappyBird.tsx:332-348 | the pipes passed in one tick are at most the pipes there are |
| Flappy.RaisedHigh | src/screens/game_two_floppy/MainPageFlappyBird.tsx:334-346 | the high score never falls and covers any raised score |
| Flappy.StepOverRule | src/screens/game_two_floppy/MainPageFlappyBird.tsx:350-363 | a tick ends the game exactly when the bird, where it was, clips a pipe or is out of the field |
| Flappy.StepScores | src/screens/game_two_floppy/MainPageFlappyBird.tsx:332-348 | a tick adds one point per passed pipe and keeps the score within the high score |
| Flappy.StepsKeepScoreWithinHigh | src/screens/game_two_floppy/MainPageFlappyBird.tsx:332-348 | over any number of ticks the score stays within a never-falling high score |
| Flappy.FallClosedForm | src/screens/game_two_floppy/MainPageFlappyBird.tsx:306-307 | free fall: 2y after n ticks is 2y₀ + 2nv + 5n(n−1) |
| Flappy.StepsWhenOver | src/screens/game_two_floppy/MainPageFlappyBird.tsx:303 | a finished game ignores ticks |
| Flappy.StepsFall | src/screens/game_two_floppy/MainPageFlappyBird.tsx:302-368 | while the game runs the bird follows the free fall, its speed growing by 5 a tick |
| Flappy.Collides | src/screens/game_two_floppy/MainPageFlappyBird.tsx:351-359 | the collision loop reports a hit exactly when some pipe clips the bird |
| Flappy.FlappyScreen.constructor | src/screens/game_two_floppy/MainPageFlappyBird.tsx:54-64 | the first render in the 800×600 field: the bird at height 300 and still, one pipe at x = 800, no score, the saved high score, not over |
| Flappy.FlappyScreen.FitField | src/screens/game_two_floppy/MainPageFlappyBird.tsx:257-261 | once the field is 1000×1000, the bird is back at height 500 and the pipes are one fresh pipe at x = 1000; velocity, scores and the game-over flag are kept |
| Flappy.FlappyScreen.Tick | src/screens/game_two_floppy/MainPageFlappyBird.tsx:302-368 | an interval tick's new state is Step of the old |
| Flappy.FlappyScreen.ScorePassing | src/screens/game_two_floppy/MainPageFlappyBird.tsx:332-348 | the scoring loop adds the passed pipes and raises the high score accordingly, touching nothing else |
| Flappy.FlappyScreen.Jump | src/screens/game_two_floppy/MainPageFlappyBird.tsx:371-381 | a jump sets the speed to −22 unless the game is over |
| Flappy.FlappyScreen.Restart | src/screens/game_two_floppy/MainPageFlappyBird.tsx:559-568 | restartGame: a fresh flight keeping the high score |
| Runner.DriftInBand | src/screens/game_ninja/MainContainerDinoRunner.tsx:200-248 | the horizontal drift keeps the player in its band: forward only while rising, back home when off a jump |
| Runner.Scroll | src/screens/game_ninja/MainContainerDinoRunner.tsx:282-329 | the scroll never adds obstacles |
| Runner.ScrollMembers | src/screens/game_ninja/MainContainerDinoRunner.tsx:282-329 | an obstacle survives exactly when its moved copy is still visible |
| Runner.ScrollAppend | src/screens/game_ninja/MainContainerDinoRunner.tsx:282-329 | the survivors keep their order |
| Runner.CollidesIsShrunkOverlap | src/screens/game_ninja/MainContainereGovCatch.tsx:275-290 | the four-inequality test is the overlap of both boxes shrunk on every side |
| Runner.ShrinkForgives | src/screens/game_ninja/MainContainereGovCatch.tsx:275-290 | a larger shrink reports fewer collisions |
| Runner.CollisionNeedsLowPlayer | src/screens/game_ninja/MainContainereGovCatch.tsx:275-290 | a collision needs the player's bottom below the obstacle's top by twice the shrink |
| Runner.FinalHigh | src/screens/game_ninja/MainContainerDinoRunner.tsx:356-367 | the high score is raised to the score only when beaten |
| DinoRunner.StepPlayer | src/screens/game_ninja/MainContainerDinoRunner.tsx:200-248 | a player step keeps its size and never ends below the ground |
| DinoRunner.StepPlayerRule | src/screens/game_ninja/MainContainerDinoRunner.tsx:200-248 | landing stops the player on the ground and ends the jump; in the air it falls by its speed after gravity 0.4 |
| DinoRunner.StepPlayerInBand | src/screens/game_ninja/MainContainerDinoRunner.tsx:200-248 | the player stays between x = 100 and 160 |
| DinoRunner.Jump | src/screens/game_ninja/MainContainerDinoRunner.tsx:131-142 | a jump changes only the player and the jumping flag |
| DinoRunner.JumpOnce | src/screens/game_ninja/MainContainerDinoRunner.tsx:131-142 | a second jump does nothing; a jump acts exactly when neither the player nor the flag is jumping |
| DinoRunner.CanSpawnOnlyWhenEmpty | src/screens/game_ninja/MainContainerDinoRunner.tsx:158-165 | since the last spawn position is at or past the area width, or −1, a spawn is allowed exactly when no obstacle is on screen |
| DinoRunner.NewObstacle | src/screens/game_ninja/MainContainerDinoRunner.tsx:251-279 | a new obstacle enters within 100 of the right edge, 55 to 80 high and 45 to 60 wide |
| DinoRunner.Track | src/screens/game_ninja/MainContainerDinoRunner.tsx:282-329 | the last spawn position is kept, or reset to −1 |
| DinoRunner.SpeedRule | src/screens/game_ninja/MainContainerDinoRunner.tsx:181-183 | the speed never falls or exceeds 10, and rises only at a positive multiple of 500 points |
| DinoRunner.Moved | src/screens/game_ninja/MainContainerDinoRunner.tsx:200-248 | updatePlayer touches the player only |
| DinoRunner.Spawned | src/screens/game_ninja/MainContainerDinoRunner.tsx:158-175 | spawning touches the obstacles and the last spawn position only |
| DinoRunner.Scrolled | src/screens/game_ninja/MainContainerDinoRunner.tsx:282-329 | updateObstacles touches the obstacles and the last spawn position only |
| DinoRunner.Scored | src/screens/game_ninja/MainContainerDinoRunner.tsx:177-183 | the score step touches the score and speed only |
| DinoRunner.Start | src/screens/game_ninja/MainContainerDinoRunner.tsx:332-353 | a new game starts at 0 points with no obstacles and the high score kept |
| DinoRunner.End | src/screens/game_ninja/MainContainerDinoRunner.tsx:356-367 | the game ends, obstacles cleared, high score raised only when beaten |
| DinoRunner.FrameKeepsValid | src/screens/game_ninja/MainContainerDinoRunner.tsx:150-187 | a frame keeps the player in band and above ground, the speed capped, and the spawn tracker consistent |
| DinoRunner.FrameSpawnsOnlyWhenEmpty | src/screens/game_ninja/MainContainerDinoRunner.tsx:158-175 | a frame adds an obstacle exactly when the screen is empty and the spawn time has come |
| DinoRunner.JumpKeepsValid | src/screens/game_ninja/MainContainerDinoRunner.tsx:131-142 | jumping keeps the invariant |
| DinoRunner.DinoScreen.constructor | src/screens/game_ninja/MainContainerDinoRunner.tsx:55-96 | the mount state: speed 2.8, no game running, saved high score |
| DinoRunner.DinoScreen.DoJump | src/screens/game_ninja/MainContainerDinoRunner.tsx:131-142 | the new state is Jump of the old |
| DinoRunner.DinoScreen.UpdatePlayer | src/screens/game_ninja/MainContainerDinoRunner.tsx:200-248 | the new state is Moved of the old |
| DinoRunner.DinoScreen.SpawnObstacle | src/screens/game_ninja/MainContainerDinoRunner.tsx:158-175 | the new state is Spawned of the old |
| DinoRunner.DinoScreen.UpdateObstacles | src/screens/game_ninja/MainContainerDinoRunner.tsx:282-329 | the new state is Scrolled of the old; the hit flag is a collision of a survivor with the given player |
| DinoRunner.DinoScreen.AdvanceScore | src/screens/game_ninja/MainContainerDinoRunner.tsx:177-183 | the new state is Scored of the old |
| DinoRunner.DinoScreen.AnimateFrame | src/screens/game_ninja/MainContainerDinoRunner.tsx:150-187 | a frame's new state is Frame of the old, valid, and it schedules the end exactly on FrameHit |
| DinoRunner.DinoScreen.StartGame | src/screens/game_ninja/MainContainerDinoRunner.tsx:332-353 | the new state is Start of the old |
| DinoRunner.DinoScreen.EndGame | src/screens/game_ninja/MainContainerDinoRunner.tsx:356-367 | the new state is End of the old |
| GovCatch.StepPlayer | src/screens/game_ninja/MainContainereGovCatch.tsx:168-230 | a player step keeps its size and never ends below the ground |
| GovCatch.HardLandingBounces | src/screens/game_ninja/MainContainereGovCatch.tsx:195-209 | a landing faster than 1.5 bounces back up at a tenth of the speed, still jumping |
| GovCatch.GentleLandingStops | src/screens/game_ninja/MainContainereGovCatch.tsx:195-220 | a gentler landing stops on the ground and ends the jump |
| GovCatch.AirborneStep | src/screens/game_ninja/MainContainereGovCatch.tsx:172-228 | in the air the player falls by its speed after gravity 0.05 |
| GovCatch.StepPlayerInBand | src/screens/game_ninja/MainContainereGovCatch.tsx:176-194 | the player stays between x = 100 and 150 |
| GovCatch.Jump | src/screens/game_ninja/MainContainereGovCatch.tsx:118-127 | a jump changes only the player |
| GovCatch.JumpOnce | src/screens/game_ninja/MainContainereGovCatch.tsx:118-127 | a second jump does nothing; a jump acts exactly when the player is not jumping |
| GovCatch.JumpSeen | src/screens/game_ninja/MainContainereGovCatch.tsx:79-97 | a jump through a stale closure changes only the player, and changes it exactly when the flag the closure saw was clear and the player is not already at launch (jumping at −22) |
| GovCatch.KeyJumpRelaunchesMidAir | src/screens/game_ninja/MainContainereGovCatch.tsx:79-97 | for every state with the player in mid-air, the guarded jump does nothing while the window listener's jump resets the velocity to −22; the guarded jump is the one a fresh closure makes |
| GovCatch.NewObstacle | src/screens/game_ninja/MainContainereGovCatch.tsx:233-254 | a new obstacle enters at the right edge, 30 to 50 high and 25 to 35 wide |
| GovCatch.SpeedRule | src/screens/game_ninja/MainContainereGovCatch.tsx:151-153 | the speed never falls or exceeds 4, and rises only at a positive multiple of 1000 points |
| GovCatch.ScoreAsWrittenSticksAtOne | src/screens/game_ninja/MainContainereGovCatch.tsx:145-148 | with the score rule as written, a new game's score is 1 after any positive number of frames |
| GovCatch.ScoreCorrectedRate | src/screens/game_ninja/MainContainereGovCatch.tsx:145-148 | with the corrected rule, n frames earn ⌈n / 3⌉ points |
| GovCatch.SixFramesDiffer | src/screens/game_ninja/MainContainereGovCatch.tsx:145-148 | after six frames the intended score is 2 and the written one 1 |
| GovCatch.Moved | src/screens/game_ninja/MainContainereGovCatch.tsx:168-230 | updatePlayer touches the player only |
| GovCatch.Spawned | src/screens/game_ninja/MainContainereGovCatch.tsx:136-139 | spawning touches the obstacles only |
| GovCatch.Scrolled | src/screens/game_ninja/MainContainereGovCatch.tsx:257-300 | updateObstacles touches the obstacles only |
| GovCatch.Scored | src/screens/game_ninja/MainContainereGovCatch.tsx:145-153 | the score step touches score, frame count and speed only |
| GovCatch.FramesScore | src/screens/game_ninja/MainContainereGovCatch.tsx:132-155 | n frames of a new game give the corrected score ⌈n / 3⌉ |
| GovCatch.Start | src/screens/game_ninja/MainContainereGovCatch.tsx:303-322 | a new game starts at 0 points with no obstacles and the high score kept |
| GovCatch.End | src/screens/game_ninja/MainContainereGovCatch.tsx:325-336 | the game ends, obstacles cleared, high score raised only when beaten |
| GovCatch.FrameKeepsValid | src/screens/game_ninja/MainContainereGovCatch.tsx:132-155 | a frame keeps the player in band and above ground and the speed capped |
| GovCatch.CatchScreen.constructor | src/screens/game_ninja/MainContainereGovCatch.tsx:54-62 | the mount state: a 10×10 player, speed 2.5, no game running |
| GovCatch.CatchScreen.DoJump | src/screens/game_ninja/MainContainereGovCatch.tsx:118-127 | the new state is Jump of the old |
| GovCatch.CatchScreen.UpdatePlayer | src/screens/game_ninja/MainContainereGovCatch.tsx:168-230 | the new state is Moved of the old |
| GovCatch.CatchScreen.SpawnObstacle | src/screens/game_ninja/MainContainereGovCatch.tsx:136-139 | the new state is Spawned of the old |
| GovCatch.CatchScreen.UpdateObstacles | src/screens/game_ninja/MainContainereGovCatch.tsx:257-300 | the new state is Scrolled of the old; the hit flag is a collision of a survivor with the given player |
| GovCatch.CatchScreen.AdvanceScore | src/screens/game_ninja/MainContainereGovCatch.tsx:145-153 | the new state is Scored of the old |
| GovCatch.CatchScreen.AnimateFrame | src/screens/game_ninja/MainContainereGovCatch.tsx:132-155 | a frame's new state is Frame of the old, valid, and it schedules the end exactly on FrameHit |
| GovCatch.CatchScreen.StartGame | src/screens/game_ninja/MainContainereGovCatch.tsx:303-322 | the new state is Start of the old |
| GovCatch.CatchScreen.EndGame | src/screens/game_ninja/MainContainereGovCatch.tsx:325-336 | the new state is End of the old |
| PdfCompressor.PdfFiles | src/screens/pdf_compressor/PdfCompressor.tsx:36 | the filter never adds files |
| PdfCompressor.PdfFilesMembers | src/screens/pdf_compressor/PdfCompressor.tsx:36 | a file is kept exactly when it is of type application/pdf |
| PdfCompressor.PdfFilesOfPdfs | src/screens/pdf_compressor/PdfCompressor.tsx:36 | a list of PDFs is kept whole and in order |
| PdfCompressor.AddFiles | src/screens/pdf_compressor/PdfCompressor.tsx:35-53 | adding appends one row per PDF after the existing rows, which are unchanged |
| PdfCompressor.AddFilesRejects | src/screens/pdf_compressor/PdfCompressor.tsx:38-41 | the alert, with the list unchanged, comes exactly when no file is a PDF |
| PdfCompressor.AddFilesAppends | src/screens/pdf_compressor/PdfCompressor.tsx:43-52 | the added rows are the PDFs in input order, original size = file size, compressed size 0, neither flag set |
| PdfCompressor.CompressedSizeBounds | src/screens/pdf_compressor/PdfCompressor.tsx:78-79 | at a slider level 10 to 90 the simulated size is between 0 and the original size, falling as the level rises |
| PdfCompressor.CompressedSizeIsFloor | src/screens/pdf_compressor/PdfCompressor.tsx:78-79 | the simulated size is the floor of size × (1 − level/100 × 0.7) |
| PdfCompressor.MarkCompressing | src/screens/pdf_compressor/PdfCompressor.tsx:69-71 | the first update keeps the list's length |
| PdfCompressor.FinishCompressing | src/screens/pdf_compressor/PdfCompressor.tsx:76-88 | the second update keeps the list's length |
| PdfCompressor.CompressPdfOnlyThatId | src/screens/pdf_compressor/PdfCompressor.tsx:68-89 | rows with the id end compressed, not compressing, at the simulated size, otherwise unchanged; other rows are untouched |
| PdfCompressor.CompressedIdempotent | src/screens/pdf_compressor/PdfCompressor.tsx:76-88 | compressing a compressed row again at the same level changes nothing |
| PdfCompressor.PendingIdsMembers | src/screens/pdf_compressor/PdfCompressor.tsx:92 | an id is processed exactly when some row with it is neither compressed nor compressing |
| PdfCompressor.CompressEachOutcome | src/screens/pdf_compressor/PdfCompressor.tsx:94-96 | after compressing a list of ids, exactly the rows whose id is listed are compressed at the level |
| PdfCompressor.CompressAll | src/screens/pdf_compressor/PdfCompressor.tsx:91-97 | the loop compresses the pending ids in list order |
| PdfCompressor.CompressAllOutcome | src/screens/pdf_compressor/PdfCompressor.tsx:91-97 | every pending row ends compressed at the level; a row sharing no id with a pending one is untouched |
| PdfCompressor.RemoveFile | src/screens/pdf_compressor/PdfCompressor.tsx:116-118 | removal never adds rows |
| PdfCompressor.RemoveFileMembers | src/screens/pdf_compressor/PdfCompressor.tsx:116-118 | a row stays exactly when its id differs |
| PdfCompressor.RemoveFileAppend | src/screens/pdf_compressor/PdfCompressor.tsx:116-118 | the remaining rows keep their order |
| PdfCompressor.RemoveAbsent | src/screens/pdf_compressor/PdfCompressor.tsx:116-118 | removing an absent id changes nothing |
| PdfCompressor.CompressedRowsMembers | src/screens/pdf_compressor/PdfCompressor.tsx:137 | the totals range over exactly the compressed rows |
| PdfCompressor.SumCompressedAtMost | src/screens/pdf_compressor/PdfCompressor.tsx:138-139 | no row grew, so the compressed total is at most the original total |
| PdfCompressor.RoundPercentNearest | src/screens/pdf_compressor/PdfCompressor.tsx:141 | the percentage is within half a point of 100 × saved / original, halves up |
| PdfCompressor.RoundPercentBounds | src/screens/pdf_compressor/PdfCompressor.tsx:141 | a saving between nothing and everything rounds to 0..100 percent |
| PdfCompressor.TotalStats | src/screens/pdf_compressor/PdfCompressor.tsx:136-144 | count is the number of compressed rows, saved = original − compressed, and the percentage is 0 for an empty total |
| PdfCompressor.StatsBounds | src/screens/pdf_compressor/PdfCompressor.tsx:136-144 | when no row grew, 0 ≤ saved ≤ original and the percentage is 0..100 |
| PdfCompressor.AddFilesKeepsStats | src/screens/pdf_compressor/PdfCompressor.tsx:35-53 | adding files leaves the totals unchanged |
| PdfCompressor.Initial | src/screens/pdf_compressor/PdfCompressor.tsx:20-21 | an empty list at level 50 with zero totals |
| PdfCompressor.Reset | src/screens/pdf_compressor/PdfCompressor.tsx:128-134 | resetCompressor empties the list and sets the level to 50 |
| PdfCompressor.SetLevel | src/screens/pdf_compressor/PdfCompressor.tsx:191-197 | the slider sets the level within 10..90 and keeps the list |
| PdfCompressor.CompressPdfKeepsValid | src/screens/pdf_compressor/PdfCompressor.tsx:68-89 | compressing one row never makes a row larger than its original |
| PdfCompressor.CompressAllKeepsValid | src/screens/pdf_compressor/PdfCompressor.tsx:91-97 | neither does compressing all pending rows |
| PdfCompressor.AddRemoveKeepValid | src/screens/pdf_compressor/PdfCompressor.tsx:35-53 | nor adding or removing rows |

## Left out

- Drawing, the DOM and events: canvas painting, images, confetti, CSS, and keyboard and pointer wiring beyond the handlers above. Pointer capture is omitted too.
- Timers and frame scheduling are modelled as discrete steps. For each runner, one call of `AnimateFrame` is one frame. For Flappy, one call of `Tick` is one interval tick. For Memory Flip, one call of `TickSecond` is one second.
  - The 500/800 ms delays of Memory Flip are modelled as the later call `ResolvePending`.
  - The 2-second wait of compressPdf is modelled as `CompressPdf` = `FinishCompressing` ∘ `MarkCompressing`.
  - The 10 ms delay before a runner's endGame is the `hit` flag. The caller then calls `EndGame`.
- Randomness and clocks are parameters:
  - `Math.random` draws are integer rolls or reals in [0, 1);
  - the spawn-time thresholds of the runners are the `spawnDue` flag;
  - ids of PDF rows (made from `Date.now()` and `Math.random()`) are given.
- `MemoryFlip.Deal`: the two `sort(() => Math.random() - 0.5)` calls are modelled as some permutation (`Maze.Shuffle`).
  - The choice of 10 of the 12 images is left out, along with the images themselves; only pair ids matter to the rules.
  - The card `id` field (a React key) is left out.
- Storage: `localStorage` reads and writes of high scores are left out. A saved high score is a constructor parameter; for Flappy this folds the load effect (MainPageFlappyBird.tsx:92-97) into the mount state.
- Floating point: runner and compressor arithmetic is exact.
  - Runner positions are exact reals, not IEEE doubles.
  - `CompressedSize` is the exact floor of size × (1000 − 7·level) / 1000, which may differ from the JavaScript result exactly at a floor boundary.
  - The percentage is Math.round of the exact ratio.
  - `MazeTrace.BeginRule` compares squared distances instead of `Math.hypot`.
- Screen size: the resize handlers are left out.
  - Flappy's resize effect (MainPageFlappyBird.tsx:99-130) always picks 1000×1000 on mount. The model does not keep the field size as state. The mount state uses the 800×600 default (`Flappy.FlappyScreen.constructor`). The move to 1000×1000 is `Flappy.FlappyScreen.FitField`. `Tick`, `Jump` and `Restart` use the 1000×1000 field, because the resize runs on mount, before any tick or key.
  - The maze cell size is a parameter; `Rescale` models only the effect's forgetting of the last point.
  - The runners' area width is a constant of the screen.
- React closure staleness is not modelled (apart from the Catch score rule; see Findings):
  - a handler is assumed to see the state of the last completed update;
  - a runner's endGame reads the score when it runs;
  - the eGov Catch jump is modelled with its guard, as the click and focused-key handlers see it; the window key listener's stale closure is a Findings row.
  - Memory Flip's delayed resolution works on the grid at resolution time, so a reset between a click and its resolution is not modelled.
- `formatFileSize` (PdfCompressor.tsx:120-126) uses `Math.log` and float rounding, and is left out. So are downloads (Blob, object URLs, DOM anchors), the file input and drag-and-drop wiring.
- Pacman (src/screens/game_three_pacman/Pacman.tsx) is not part of this model. Its game loop calls an `updateGame` that the file does not define, and the rest is drawing.
- `MazeTrace.Extend`: the canvas and its 2D context are taken to exist, so a move always records the point as the last point. The source records it only when both are present (eGovMaze.tsx:206-220).
- Routing, the home navigation buttons, the menu screen and the animation components are not part of this model.
- `OneMine.PlaceBombs`: the loop `while (bombsPlaced < 3)` draws until three distinct cells are hit. The model takes a finite draw list that contains at least three distinct cells (the requires). An endless unlucky run is not modelled.
- `GovCatch.CatchScreen.AnimateFrame` uses the corrected score rule; see Findings.
- `GovCatch.Jump` (and `GovCatch.CatchScreen.DoJump`) refuses a jump in mid-air for every input. The window key listener (MainContainereGovCatch.tsx:79-97) skips that guard as written, so a key press in mid-air relaunches the player; see Findings.

## Findings

| source | as written | input that shows it | evidently intended | confidence | as-written member | corrected member |
|---|---|---|---|---|---|---|
| src/screens/game_ninja/MainContainereGovCatch.tsx:145-148 | a frame adds a point when the score captured by the animation closure is a multiple of 3; the closure is rebuilt only when the score changes, so from 1 the condition never holds again | a new game (score 0) run for 6 frames: the score reaches 1 on the first frame and stays 1 | one point every third frame, counted by a frame counter | not executed; medium (assumes React re-renders between two animation frames) | GovCatch.ScoreAsWrittenSticksAtOne | GovCatch.ScoreCorrectedRate |
| src/screens/game_ninja/MainContainereGovCatch.tsx:79-97 | the window keydown listener is re-registered only when gameStarted or gameOver changes, so it calls the jump of the render that started the game, whose `!player.isJumping` guard reads the start player (not jumping) | during a game, the player in mid-air (isJumping true, falling) and the space key pressed: the velocity is reset to −22 | a jump only from the ground, as the comment at line 120 and the click handler say | not executed; medium (assumes no other re-render rebuilds the listener, which its dependency list rules out) | GovCatch.KeyJumpRelaunchesMidAir | GovCatch.JumpOnce |
