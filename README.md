# Snake game: the tick-driven state machine

This project models the game logic of `SnakeGame/SnakeGame.java`, a Swing panel that runs a
snake game on a 600×600 arena of 20-pixel cells. The panel holds these fields:

- two fixed arrays `x[]`/`y[]` of `GAME_UNITS` = 900 segment coordinates;
- the length `bodyParts`, the `score` and the `direction`;
- the flags `running` and `paused`;
- the food cell `foodX`/`foodY`;
- a Swing timer.

Each timer tick runs `move`, `checkFood` and `checkCollisions`. Key presses pause and resume,
turn the snake and restart a lost game.

Two modules:

- `SnakeRules` (snake_rules.dfy) states the rules on a value, `GameState`, that holds every
  field of the panel. The timer is its delay plus a started flag. The rule functions are
  `Start`, `PlaceFood`, `Move`, `CheckFood`, `CheckCollisions`, `Tick` and `KeyPressed`. The
  lemmas say what these functions promise. The invariant `Inv` holds after construction,
  every tick and every key press. It says:
  - `score == bodyParts - 30`;
  - the delay equals `max(50, 150 - 10·score)`;
  - the food lies on a grid cell;
  - the timer is started exactly when the game is running and not paused;
  - a game that is over is not paused;
  - every slot above `bodyParts` still holds the (0,0) of the last reset.
- `Game` (game.dfy) is the panel itself: a class `SnakeGame` with `array<int>` fields `x`, `y`
  and the other fields as mutable fields. The copy loop of `move` and the early-exit scan of
  `checkCollisions` are `while` loops with invariants. Every method is proved to leave the
  state that the matching `SnakeRules` function gives, from the state before the call.
  `move`'s copy loop is its own method, `ShiftSegments`, and `Move` calls it and then steps
  the head.

Each value the source draws from `Random` is a parameter `cellX`/`cellY` with
`0 <= cell < 30`. The draw is used only where the source draws: in `startGame`, and in
`checkFood` when the head is on the food. Key codes are the datatype
`Key = KeyLeft | KeyRight | KeyUp | KeyDown | KeyP | KeyR | KeyOther`.

The model keeps these behaviours of the code:

- **Initial layout.** Every segment starts at (0,0).
- **No occupancy check for food.** Food may land on the snake (`FoodMayLandOnSnake`).
- **Shift writes one past the snake.** `move` writes index `bodyParts`, one past the last
  segment.
- **Collision scan reaches one past the snake.** The self-collision scan includes index
  `bodyParts`. On a tick without food that slot holds the cell the tail has just left, so
  chasing one's own tail is fatal (`ChasingTailEndsGame`). On a tick with food, `checkFood`
  has already raised `bodyParts`, and the scan starts at a slot that has not been written
  since the last reset. That slot holds (0,0), so eating food that lies at the origin ends
  the game (`EatingAtOriginEndsGame`).
- **No immediate step on a turn.** A turn does not step the snake.
- **Restart can reverse.** A restart may set the direction opposite to the old one
  (`RestartMayReverse`).
- **Two presses can reverse.** Two presses between ticks can reverse the snake
  (`TwoPressesMayReverse`).

The code has no welcome phase, never draws the food again when it lands on the snake, does
not step on a turn, and its self-collision scan reaches index `bodyParts`. The model does the
same.

## Model

| member | source | states |
|---|---|---|
| `Game.SnakeGame.constructor` | SnakeGame/SnakeGame.java:35-55 | fresh distinct arrays of 900 cells; the state is the one `startGame` produces and satisfies the invariant |
| `Game.SnakeGame.StartGame` | SnakeGame/SnakeGame.java:44-55 | the new state is `Start` of the old one, whatever the old one was |
| `Game.Fill` | SnakeGame/SnakeGame.java:46-47 | every element of the array becomes the given value |
| `Game.SnakeGame.PlaceFood` | SnakeGame/SnakeGame.java:58-61 | the new state is `PlaceFood` of the old one: the food is the drawn cell times `UNIT_SIZE`, on the grid, and no other field changes |
| `Game.SnakeGame.KeyPressed` | SnakeGame/SnakeGame.java:66-98 | the new state is `KeyPressed` of the old one; unless it restarts, the press does not reverse the direction; the invariant is kept |
| `Game.SnakeGame.ShiftSegments` | SnakeGame/SnakeGame.java:110-113 | after the descending copy loop the arrays are `Shift` of the old arrays up to index `bodyParts` |
| `Game.SnakeGame.Move` | SnakeGame/SnakeGame.java:107-123 | `x[i]`,`y[i]` take the old `x[i-1]`,`y[i-1]` for `1 <= i <= bodyParts`; indices above are unchanged; the head moves by `DX`/`DY` of the direction |
| `Game.SnakeGame.CheckFood` | SnakeGame/SnakeGame.java:126-133 | the new state is `CheckFood` of the old one |
| `Game.SnakeGame.CheckCollisions` | SnakeGame/SnakeGame.java:136-155 | `running` stays true exactly when it was true, the head hits none of segments `1..bodyParts` and it lies inside the arena; a stopped game has a stopped timer |
| `Game.SnakeGame.ActionPerformed` | SnakeGame/SnakeGame.java:159-166 | on every tick that stays inside the arrays, the new state is `Tick` of the old one and the invariant is kept |
| `SnakeRules.PlaceFood` | SnakeGame/SnakeGame.java:58-61 | the food lies on a grid cell inside the arena, is exactly the drawn cell, and only the food changes |
| `SnakeRules.StartState` | SnakeGame/SnakeGame.java:44-55 | after a reset all coordinates are 0; length 30, score 0, heading right, running, not paused, delay 150, timer started, food on the grid |
| `SnakeRules.StartForgetsState` | SnakeGame/SnakeGame.java:44-55 | the reset state does not depend on the state before it (only on the capacity and the draw) |
| `SnakeRules.StartIdempotent` | SnakeGame/SnakeGame.java:44-55 | resetting twice equals resetting once; two resets differ only in the food cell |
| `SnakeRules.StartEstablishesInv` | SnakeGame/SnakeGame.java:44-55 | a reset satisfies the invariant |
| `SnakeRules.FoodMayLandOnSnake` | SnakeGame/SnakeGame.java:58-61 | a draw of the head's own cell puts the food on the head: there is no occupancy check |
| `SnakeRules.ShiftAt` | SnakeGame/SnakeGame.java:110-113 | after the copy loop from index `i`, index `k` holds the old `k-1` for `1 <= k <= i` and the old `k` otherwise |
| `SnakeRules.MoveEffect` | SnakeGame/SnakeGame.java:107-123 | each segment `1..bodyParts` takes its predecessor's old cell; indices above `bodyParts` are unchanged; the head steps by `DX`/`DY` of the direction |
| `SnakeRules.StepIsOneUnit` | SnakeGame/SnakeGame.java:116-121 | a step changes exactly one coordinate, by exactly `UNIT_SIZE`, horizontally exactly for Left and Right |
| `SnakeRules.CheckFoodEffect` | SnakeGame/SnakeGame.java:126-133 | on the food, length and score go up by 1, delay becomes `max(50, delay-10)`, food is on the grid, and nothing else changes; off the food, nothing changes |
| `SnakeRules.CheckCollisionsEffect` | SnakeGame/SnakeGame.java:136-155 | running afterwards iff running before, no segment `1..bodyParts` on the head, and the head inside the arena; never sets running; stopped implies timer stopped; nothing else changes |
| `SnakeRules.IdleTickInert` | SnakeGame/SnakeGame.java:159-166 | a tick while over or paused changes nothing |
| `SnakeRules.TickGrowth` | SnakeGame/SnakeGame.java:159-166 | length and score rise together by at most 1 per tick; the delay never rises, stays at least 50, and changes only when the snake grows; direction and pause are untouched |
| `SnakeRules.TickPreservesInv` | SnakeGame/SnakeGame.java:159-164 | a tick that stays inside the arrays keeps the invariant (score = length − 30, delay = max(50, 150 − 10·score), food on the grid, timer started iff running and not paused, slots above `bodyParts` at (0,0)) |
| `SnakeRules.RightWallEndsGame` | SnakeGame/SnakeGame.java:147-153 | a head in the last column heading right ends the game and stops the timer on the next tick |
| `SnakeRules.TightTurnEndsGame` | SnakeGame/SnakeGame.java:139-144 | a head that steps onto segment 2's cell ends the game on that tick |
| `SnakeRules.ChasingTailEndsGame` | SnakeGame/SnakeGame.java:139-144 | a head that steps onto the tail's old cell ends the game, because the scan includes index `bodyParts` |
| `SnakeRules.EatingAtOriginEndsGame` | SnakeGame/SnakeGame.java:126-144 | eating food at (0,0) scores and ends the game on the same tick, because the scan starts at a slot still holding (0,0) |
| `SnakeRules.TurnAccepts` | SnakeGame/SnakeGame.java:77-90 | an arrow key is taken iff it does not ask for the opposite of the current direction; otherwise the direction stays |
| `SnakeRules.KeyNeverReverses` | SnakeGame/SnakeGame.java:66-98 | a press that is not a restart never sets the opposite of the previous direction |
| `SnakeRules.RestartMayReverse` | SnakeGame/SnakeGame.java:93-97 | R after a game lost heading left restarts heading right |
| `SnakeRules.TwoPressesMayReverse` | SnakeGame/SnakeGame.java:76-90 | Up then Left while heading right gives Left |
| `SnakeRules.ArrowsInertUnlessLive` | SnakeGame/SnakeGame.java:67-92 | arrow keys change nothing while paused or over |
| `SnakeRules.OnlyRestartWhenOver` | SnakeGame/SnakeGame.java:93-97 | when over, R restarts and every other key changes nothing |
| `SnakeRules.KeyKeepsBoardWhileRunning` | SnakeGame/SnakeGame.java:67-92 | while running a press changes at most direction, pause and timer; P flips pause and sets the timer to the opposite; other keys keep both |
| `SnakeRules.PauseTwiceRestores` | SnakeGame/SnakeGame.java:68-74 | P twice while running restores the state, the timer as the pause flag implies; under the invariant, exactly the old state |
| `SnakeRules.KeyPressedPreservesInv` | SnakeGame/SnakeGame.java:66-98 | every key press keeps the invariant |
| `SnakeRules.KeyKeepsDelay` | SnakeGame/SnakeGame.java:66-98 | apart from a restart, a key press keeps the delay and the score |

## Left out

- Rendering (`paintComponent`, `draw`, `gameOver`, fonts, colours, `repaint`): presentation only.
- `main` and the constructor's Swing setup (preferred size, background, focus, key listener): window plumbing. The constructor keeps only the timer's initial delay of 200 and the call to `startGame`.
- `keyReleased` and `keyTyped`: their bodies are empty.
- Timer scheduling and the event thread: the timer is only its delay and a started flag, and ticks and key presses are separate calls.
- `java.util.Random`: each draw is a parameter constrained to `[0, 30)`.
- Game.SnakeGame.ActionPerformed: requires that a live tick stays inside the arrays (`TickInBounds`). That means `bodyParts < GAME_UNITS`, and `bodyParts + 1 < GAME_UNITS` when the head is about to step onto the food. `move` writes index `bodyParts`, and `checkCollisions` reads index `bodyParts` after a possible growth. The one tick this excludes is the one on which the source throws: a snake of 899 segments eats and the scan reads `x[900]`. That exception path is not modelled, and neither is whether a game can reach that length.
- SnakeRules.TickPreservesInv: carries the same `TickInBounds` precondition, for the same reason.
- 32-bit `int` overflow is not modelled. Coordinates stay within one unit of the arena, and the length and score stay below 900, so no value comes near the limits.
