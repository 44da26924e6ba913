/** The rules of the snake game, stated on a value snapshot of the panel's state.
    Every operation of the game panel (see game.dfy) is proved equal to one of the
    functions here, and the lemmas below state what those functions promise. */
module SnakeRules {

  // Game configuration
  const WIDTH := 600
  const HEIGHT := 600
  const UNIT_SIZE := 20
  const GAME_UNITS := (WIDTH * HEIGHT) / (UNIT_SIZE * UNIT_SIZE)
  const INITIAL_DELAY := 150
  const INITIAL_LENGTH := 30
  /** Floor of the timer delay and the amount it drops per food eaten. */
  const MIN_DELAY := 50
  const DELAY_STEP := 10
  /** Number of grid cells across and down: the bounds of the random draws. */
  const COLUMNS := WIDTH / UNIT_SIZE
  const ROWS := HEIGHT / UNIT_SIZE

  datatype Direction = Up | Down | Left | Right

  /** The key codes the panel reacts to; every other key is KeyOther. */
  datatype Key = KeyLeft | KeyRight | KeyUp | KeyDown | KeyP | KeyR | KeyOther

  /** Snapshot of the panel's fields. The timer is its delay plus whether it is started. */
  datatype GameState = GameState(
    xs: seq<int>,
    ys: seq<int>,
    bodyParts: int,
    score: int,
    direction: Direction,
    running: bool,
    paused: bool,
    foodX: int,
    foodY: int,
    delay: int,
    timerRunning: bool)

  function Opposite(d: Direction): Direction
  {
    match d
    case Up => Down
    case Down => Up
    case Left => Right
    case Right => Left
  }

  /** The horizontal and vertical displacement of one step in direction d. */
  function DX(d: Direction): int
  {
    match d
    case Left => -UNIT_SIZE
    case Right => UNIT_SIZE
    case _ => 0
  }

  function DY(d: Direction): int
  {
    match d
    case Up => -UNIT_SIZE
    case Down => UNIT_SIZE
    case _ => 0
  }

  function Max(a: int, b: int): int
  {
    if a >= b then a else b
  }

  /** The two coordinate arrays have their fixed capacity and the length is not negative. */
  predicate Shaped(g: GameState)
  {
    |g.xs| == GAME_UNITS && |g.ys| == GAME_UNITS && 0 <= g.bodyParts
  }

  /** The timer fires ticks that change something. */
  predicate Live(g: GameState)
  {
    g.running && !g.paused
  }

  /** Values the random draws can return. */
  predicate CellInRange(cellX: int, cellY: int)
  {
    0 <= cellX < COLUMNS && 0 <= cellY < ROWS
  }

  /** A cell's top-left corner inside the arena. */
  predicate OnGrid(px: int, py: int)
  {
    0 <= px < WIDTH && 0 <= py < HEIGHT && px % UNIT_SIZE == 0 && py % UNIT_SIZE == 0
  }

  predicate OutsideArena(px: int, py: int)
  {
    px < 0 || px >= WIDTH || py < 0 || py >= HEIGHT
  }

  /** The delay the timer has after `score` foods since the last restart. */
  function DelayFor(score: int): int
  {
    Max(MIN_DELAY, INITIAL_DELAY - DELAY_STEP * score)
  }

  /** What holds of the panel's state after construction, every tick and every key press. */
  predicate Inv(g: GameState)
  {
    Shaped(g)
    && INITIAL_LENGTH <= g.bodyParts < GAME_UNITS
    && g.score == g.bodyParts - INITIAL_LENGTH
    && g.delay == DelayFor(g.score)
    && OnGrid(g.foodX, g.foodY)
    && g.timerRunning == Live(g)
    && (!g.running ==> !g.paused)
    && UnusedSlotsZero(g)
  }

  /** Slots above bodyParts have not been written since the last reset, so they still hold (0,0). */
  predicate UnusedSlotsZero(g: GameState)
  {
    forall i :: 0 <= g.bodyParts < i < |g.xs| && i < |g.ys| ==> g.xs[i] == 0 && g.ys[i] == 0
  }

  // ---------------------------------------------------------------------------
  // Food placement and reset

  /** Food goes to the drawn cell; the snake's cells are not consulted. */
  function PlaceFood(g: GameState, cellX: int, cellY: int): (r: GameState)
    requires CellInRange(cellX, cellY)
    ensures OnGrid(r.foodX, r.foodY)
    ensures r.foodX / UNIT_SIZE == cellX && r.foodY / UNIT_SIZE == cellY
    ensures r == g.(foodX := r.foodX, foodY := r.foodY)
  {
    g.(foodX := cellX * UNIT_SIZE, foodY := cellY * UNIT_SIZE)
  }

  function Zeros(n: nat): (r: seq<int>)
  {
    seq(n, _ => 0)
  }

  /** startGame: food first, then every segment at (0,0) and the session values reset. */
  function Start(g: GameState, cellX: int, cellY: int): GameState
    requires CellInRange(cellX, cellY)
  {
    var f := PlaceFood(g, cellX, cellY);
    f.(xs := Zeros(|g.xs|), ys := Zeros(|g.ys|),
       bodyParts := INITIAL_LENGTH, direction := Right, running := true,
       score := 0, paused := false, delay := INITIAL_DELAY, timerRunning := true)
  }

  // ---------------------------------------------------------------------------
  // The tick: move, checkFood, checkCollisions

  /** The descending copy loop of move, from index i down to 1: s[i] := s[i-1], then s[i-1] := s[i-2], ... */
  function Shift(s: seq<int>, i: nat): (r: seq<int>)
    requires i < |s|
    ensures |r| == |s| && r[0] == s[0]
    decreases i
  {
    if i == 0 then s else Shift(s[i := s[i - 1]], i - 1)
  }

  /** move: shift every segment up to and including index bodyParts, then step the head
      one unit in the current direction. */
  function Move(g: GameState): (r: GameState)
    requires |g.xs| == |g.ys| && 0 <= g.bodyParts < |g.xs|
    ensures |r.xs| == |g.xs| && |r.ys| == |g.ys|
    ensures r.xs[0] == g.xs[0] + DX(g.direction) && r.ys[0] == g.ys[0] + DY(g.direction)
    ensures r == g.(xs := r.xs, ys := r.ys)
  {
    var xs := Shift(g.xs, g.bodyParts);
    var ys := Shift(g.ys, g.bodyParts);
    g.(xs := xs[0 := xs[0] + DX(g.direction)], ys := ys[0 := ys[0] + DY(g.direction)])
  }

  predicate HeadOnFood(g: GameState)
    requires |g.xs| > 0 && |g.ys| > 0
  {
    g.xs[0] == g.foodX && g.ys[0] == g.foodY
  }

  /** checkFood: eating places new food, grows the snake, scores and speeds the timer up. */
  function CheckFood(g: GameState, cellX: int, cellY: int): (r: GameState)
    requires |g.xs| > 0 && |g.ys| > 0 && CellInRange(cellX, cellY)
    ensures r.xs == g.xs && r.ys == g.ys
    ensures g.bodyParts <= r.bodyParts <= g.bodyParts + 1
  {
    if HeadOnFood(g) then
      var f := PlaceFood(g, cellX, cellY);
      f.(bodyParts := f.bodyParts + 1, score := f.score + 1,
         delay := Max(MIN_DELAY, f.delay - DELAY_STEP))
    else
      g
  }

  /** The head shares its cell with some entry 1..bodyParts. After a tick without food the
      entry at bodyParts is the cell the tail has just left; after a tick with food it is a slot
      not written since the last reset, which holds (0,0). */
  predicate HitsBody(g: GameState)
    requires |g.xs| == |g.ys| && 0 <= g.bodyParts < |g.xs|
  {
    exists i :: 1 <= i <= g.bodyParts && g.xs[i] == g.xs[0] && g.ys[i] == g.ys[0]
  }

  /** checkCollisions: either kind of collision ends the game; a stopped game stops the timer. */
  function CheckCollisions(g: GameState): GameState
    requires |g.xs| == |g.ys| && 0 <= g.bodyParts < |g.xs|
  {
    var r := if HitsBody(g) || OutsideArena(g.xs[0], g.ys[0]) then g.(running := false) else g;
    if !r.running then r.(timerRunning := false) else r
  }

  /** The cell the head steps onto at the next tick is the food. */
  predicate NextHeadOnFood(g: GameState)
    requires |g.xs| > 0 && |g.ys| > 0
  {
    g.xs[0] + DX(g.direction) == g.foodX && g.ys[0] + DY(g.direction) == g.foodY
  }

  /** A tick stays inside the arrays: move writes index bodyParts, and the collision scan reads
      index bodyParts after checkFood, one higher when the snake eats. */
  predicate TickInBounds(g: GameState)
    requires Shaped(g)
  {
    Live(g) ==>
      g.bodyParts < GAME_UNITS && (NextHeadOnFood(g) ==> g.bodyParts + 1 < GAME_UNITS)
  }

  /** actionPerformed: one timer tick. */
  function Tick(g: GameState, cellX: int, cellY: int): GameState
    requires Shaped(g) && CellInRange(cellX, cellY) && TickInBounds(g)
  {
    if g.running && !g.paused then CheckCollisions(CheckFood(Move(g), cellX, cellY)) else g
  }

  // ---------------------------------------------------------------------------
  // Key handling

  /** The direction an arrow key asks for. */
  function Requested(key: Key): Direction
    requires key in {KeyLeft, KeyRight, KeyUp, KeyDown}
  {
    match key
    case KeyLeft => Left
    case KeyRight => Right
    case KeyUp => Up
    case KeyDown => Down
  }

  /** The switch of keyPressed: each arrow key is refused while heading the opposite way. */
  function Turn(d: Direction, key: Key): Direction
  {
    match key
    case KeyLeft => if d != Right then Left else d
    case KeyRight => if d != Left then Right else d
    case KeyUp => if d != Down then Up else d
    case KeyDown => if d != Up then Down else d
    case _ => d
  }

  /** keyPressed: P toggles pause (and the timer) while running, arrows turn while running
      and not paused, R restarts only when the game is over. */
  function KeyPressed(g: GameState, key: Key, cellX: int, cellY: int): GameState
    requires CellInRange(cellX, cellY)
  {
    if g.running then
      if key == KeyP then
        var p := !g.paused;
        g.(paused := p, timerRunning := !p)
      else if !g.paused then
        g.(direction := Turn(g.direction, key))
      else
        g
    else if key == KeyR then
      Start(g, cellX, cellY)
    else
      g
  }

  // ---------------------------------------------------------------------------
  // Lemmas: reset

  /** After a reset every segment is at (0,0) and the session values are the initial ones. */
  lemma StartState(g: GameState, cellX: int, cellY: int)
    requires CellInRange(cellX, cellY)
    ensures var r := Start(g, cellX, cellY);
      |r.xs| == |g.xs| && |r.ys| == |g.ys|
      && (forall i :: 0 <= i < |r.xs| ==> r.xs[i] == 0)
      && (forall i :: 0 <= i < |r.ys| ==> r.ys[i] == 0)
      && r.bodyParts == INITIAL_LENGTH && r.score == 0 && r.direction == Right
      && r.running && !r.paused && r.delay == INITIAL_DELAY && r.timerRunning
      && OnGrid(r.foodX, r.foodY)
  {
  }

  /** A reset forgets everything about the state it starts from except the capacity. */
  lemma StartForgetsState(g: GameState, h: GameState, cellX: int, cellY: int)
    requires CellInRange(cellX, cellY)
    requires |g.xs| == |h.xs| && |g.ys| == |h.ys|
    ensures Start(g, cellX, cellY) == Start(h, cellX, cellY)
  {
  }

  /** Resetting twice is resetting once, apart from the second food draw. */
  lemma StartIdempotent(g: GameState, a: int, b: int, c: int, d: int)
    requires CellInRange(a, b) && CellInRange(c, d)
    ensures Start(Start(g, a, b), c, d) == Start(g, c, d)
    ensures Start(g, a, b) == Start(g, c, d).(foodX := a * UNIT_SIZE, foodY := b * UNIT_SIZE)
  {
    StartForgetsState(Start(g, a, b), g, c, d);
  }

  lemma StartEstablishesInv(g: GameState, cellX: int, cellY: int)
    requires |g.xs| == GAME_UNITS && |g.ys| == GAME_UNITS && CellInRange(cellX, cellY)
    ensures Inv(Start(g, cellX, cellY))
  {
  }

  /** Nothing keeps the food off the snake: any drawn cell is used, even the head's. */
  lemma FoodMayLandOnSnake(g: GameState)
    requires |g.xs| > 0 && |g.ys| > 0 && OnGrid(g.xs[0], g.ys[0])
    ensures CellInRange(g.xs[0] / UNIT_SIZE, g.ys[0] / UNIT_SIZE)
    ensures HeadOnFood(PlaceFood(g, g.xs[0] / UNIT_SIZE, g.ys[0] / UNIT_SIZE))
  {
  }

  // ---------------------------------------------------------------------------
  // Lemmas: move

  /** The copy loop moves each of indices 1..i one place up and leaves every other index alone. */
  lemma {:induction false} ShiftAt(s: seq<int>, i: nat, k: nat)
    requires i < |s| && k < |s|
    ensures Shift(s, i)[k] == if 1 <= k <= i then s[k - 1] else s[k]
    decreases i
  {
    if i > 0 {
      ShiftAt(s[i := s[i - 1]], i - 1, k);
    }
  }

  /** move: segment i takes segment i-1's old place for 1 <= i <= bodyParts, indices above
      bodyParts keep their values, and the head steps one unit along the one axis of the
      direction. */
  lemma MoveEffect(g: GameState)
    requires |g.xs| == |g.ys| && 0 <= g.bodyParts < |g.xs|
    ensures var r := Move(g);
      (forall i :: 1 <= i <= g.bodyParts ==> r.xs[i] == g.xs[i - 1] && r.ys[i] == g.ys[i - 1])
      && (forall i :: g.bodyParts < i < |g.xs| ==> r.xs[i] == g.xs[i] && r.ys[i] == g.ys[i])
      && r.xs[0] == g.xs[0] + DX(g.direction) && r.ys[0] == g.ys[0] + DY(g.direction)
  {
    var r := Move(g);
    var xs, ys := Shift(g.xs, g.bodyParts), Shift(g.ys, g.bodyParts);
    assert forall i :: 1 <= i < |g.xs| ==> r.xs[i] == xs[i] && r.ys[i] == ys[i];
    forall i | 1 <= i <= g.bodyParts
      ensures r.xs[i] == g.xs[i - 1] && r.ys[i] == g.ys[i - 1]
    {
      ShiftAt(g.xs, g.bodyParts, i);
      ShiftAt(g.ys, g.bodyParts, i);
    }
    forall i | g.bodyParts < i < |g.xs|
      ensures r.xs[i] == g.xs[i] && r.ys[i] == g.ys[i]
    {
      ShiftAt(g.xs, g.bodyParts, i);
      ShiftAt(g.ys, g.bodyParts, i);
    }
    ShiftAt(g.xs, g.bodyParts, 0);
    ShiftAt(g.ys, g.bodyParts, 0);
  }

  /** A step changes exactly one coordinate, by exactly one unit. */
  lemma StepIsOneUnit(d: Direction)
    ensures (DX(d) == 0) != (DY(d) == 0)
    ensures DX(d) * DX(d) + DY(d) * DY(d) == UNIT_SIZE * UNIT_SIZE
    ensures (d == Left || d == Right) <==> DY(d) == 0
  {
  }

  // ---------------------------------------------------------------------------
  // Lemmas: checkFood and checkCollisions

  /** checkFood on the food: length and score up by one, the delay down by a step but not below
      the floor, food at the drawn cell; otherwise nothing changes. */
  lemma CheckFoodEffect(g: GameState, cellX: int, cellY: int)
    requires |g.xs| > 0 && |g.ys| > 0 && CellInRange(cellX, cellY)
    ensures var r := CheckFood(g, cellX, cellY);
      if HeadOnFood(g) then
        r.bodyParts == g.bodyParts + 1 && r.score == g.score + 1
        && r.delay == Max(MIN_DELAY, g.delay - DELAY_STEP)
        && r.foodX == cellX * UNIT_SIZE && r.foodY == cellY * UNIT_SIZE
        && OnGrid(r.foodX, r.foodY)
        && r == g.(bodyParts := r.bodyParts, score := r.score, delay := r.delay,
                   foodX := r.foodX, foodY := r.foodY)
      else
        r == g
  {
  }

  /** checkCollisions stops the game exactly when the head is off the arena or on one of the
      segments 1..bodyParts; it never restarts it, and afterwards a stopped game has a stopped
      timer. */
  lemma CheckCollisionsEffect(g: GameState)
    requires |g.xs| == |g.ys| && 0 <= g.bodyParts < |g.xs|
    ensures var r := CheckCollisions(g);
      r.running == (g.running && !HitsBody(g) && !OutsideArena(g.xs[0], g.ys[0]))
      && (r.running ==> g.running)
      && (!r.running ==> !r.timerRunning)
      && (r.running ==> r.timerRunning == g.timerRunning)
      && r == g.(running := r.running, timerRunning := r.timerRunning)
  {
  }

  // ---------------------------------------------------------------------------
  // Lemmas: the tick

  /** A tick while stopped or paused changes nothing. */
  lemma IdleTickInert(g: GameState, cellX: int, cellY: int)
    requires Shaped(g) && CellInRange(cellX, cellY) && !Live(g)
    ensures Tick(g, cellX, cellY) == g
  {
  }

  /** Growth and score go up together, by at most one per tick; the delay never goes up;
      the direction and the pause flag are not touched. */
  lemma TickGrowth(g: GameState, cellX: int, cellY: int)
    requires Shaped(g) && CellInRange(cellX, cellY) && TickInBounds(g)
    requires g.delay >= MIN_DELAY
    ensures var r := Tick(g, cellX, cellY);
      r.bodyParts - g.bodyParts == r.score - g.score
      && g.bodyParts <= r.bodyParts <= g.bodyParts + 1
      && MIN_DELAY <= r.delay <= g.delay
      && (r.bodyParts == g.bodyParts ==> r.delay == g.delay)
      && r.direction == g.direction && r.paused == g.paused
  {
  }

  /** Every tick keeps the state invariant, as long as there is room for one more segment. */
  lemma TickPreservesInv(g: GameState, cellX: int, cellY: int)
    requires Inv(g) && CellInRange(cellX, cellY) && TickInBounds(g)
    ensures Inv(Tick(g, cellX, cellY))
  {
    if Live(g) {
      var m := Move(g);
      MoveEffect(g);
      var f := CheckFood(m, cellX, cellY);
      CheckFoodEffect(m, cellX, cellY);
      CheckCollisionsEffect(f);
      if HeadOnFood(m) {
        assert f.delay == Max(MIN_DELAY, DelayFor(g.score) - DELAY_STEP);
        assert f.delay == DelayFor(f.score);
      }
    }
  }

  /** Facing the right wall from the last column ends the game on the next tick. */
  lemma RightWallEndsGame(g: GameState, cellX: int, cellY: int)
    requires Shaped(g) && CellInRange(cellX, cellY) && Live(g) && TickInBounds(g)
    requires g.direction == Right && g.xs[0] == WIDTH - UNIT_SIZE
    ensures !Tick(g, cellX, cellY).running && !Tick(g, cellX, cellY).timerRunning
  {
    MoveEffect(g);
  }

  /** A head that steps onto the cell segment 2 held runs into segment 3, which now holds it. */
  lemma TightTurnEndsGame(g: GameState, cellX: int, cellY: int)
    requires Shaped(g) && CellInRange(cellX, cellY) && Live(g)
    requires 3 <= g.bodyParts && TickInBounds(g)
    requires g.xs[0] + DX(g.direction) == g.xs[2] && g.ys[0] + DY(g.direction) == g.ys[2]
    ensures !Tick(g, cellX, cellY).running
  {
    var m := Move(g);
    MoveEffect(g);
    assert m.xs[3] == m.xs[0] && m.ys[3] == m.ys[0];
    var f := CheckFood(m, cellX, cellY);
    assert f.xs[3] == f.xs[0] && f.ys[3] == f.ys[0];
    assert HitsBody(f);
  }

  /** move copies the tail's old cell into the slot just past the snake, and the collision scan
      reaches that slot whether or not the snake eats: a head that steps into the tail's old
      cell ends the game. */
  lemma ChasingTailEndsGame(g: GameState, cellX: int, cellY: int)
    requires Shaped(g) && CellInRange(cellX, cellY) && Live(g)
    requires 1 <= g.bodyParts && TickInBounds(g)
    requires var tail := g.bodyParts - 1;
      g.xs[0] + DX(g.direction) == g.xs[tail] && g.ys[0] + DY(g.direction) == g.ys[tail]
    ensures !Tick(g, cellX, cellY).running
  {
    var n := g.bodyParts;
    var m := Move(g);
    MoveEffect(g);
    assert m.xs[n] == m.xs[0] && m.ys[n] == m.ys[0];
    var f := CheckFood(m, cellX, cellY);
    assert f.xs[n] == f.xs[0] && f.ys[n] == f.ys[0];
    assert HitsBody(f);
  }

  /** Eating food that lies at the origin ends the game on the same tick, though it scores:
      the growth makes the collision scan start at a slot that has held (0,0) since the last
      reset. */
  lemma EatingAtOriginEndsGame(g: GameState, cellX: int, cellY: int)
    requires Inv(g) && CellInRange(cellX, cellY) && Live(g) && TickInBounds(g)
    requires g.foodX == 0 && g.foodY == 0 && NextHeadOnFood(g)
    ensures Tick(g, cellX, cellY).score == g.score + 1
    ensures !Tick(g, cellX, cellY).running
  {
    var n := g.bodyParts;
    var m := Move(g);
    MoveEffect(g);
    assert m.xs[n + 1] == 0 && m.ys[n + 1] == 0;
    var f := CheckFood(m, cellX, cellY);
    assert f.bodyParts == n + 1;
    assert f.xs[n + 1] == f.xs[0] && f.ys[n + 1] == f.ys[0];
    assert HitsBody(f);
  }

  // ---------------------------------------------------------------------------
  // Lemmas: keys

  /** An arrow key is taken exactly when it does not ask for the opposite of the current
      direction; a refused arrow and any other key leave the direction as it is. */
  lemma TurnAccepts(d: Direction, key: Key)
    ensures key in {KeyLeft, KeyRight, KeyUp, KeyDown} ==>
      (Turn(d, key) == Requested(key) <==> Requested(key) != Opposite(d))
    ensures key in {KeyLeft, KeyRight, KeyUp, KeyDown} && Turn(d, key) != Requested(key) ==>
      Turn(d, key) == d
    ensures key !in {KeyLeft, KeyRight, KeyUp, KeyDown} ==> Turn(d, key) == d
  {
  }

  /** One key press other than a restart never turns the snake around. */
  lemma KeyNeverReverses(g: GameState, key: Key, cellX: int, cellY: int)
    requires CellInRange(cellX, cellY)
    requires g.running || key != KeyR
    ensures KeyPressed(g, key, cellX, cellY).direction != Opposite(g.direction)
  {
  }

  /** The restart is not subject to the rule: a game lost heading left restarts heading right. */
  lemma RestartMayReverse(g: GameState, cellX: int, cellY: int)
    requires CellInRange(cellX, cellY)
    requires !g.running && g.direction == Left
    ensures KeyPressed(g, KeyR, cellX, cellY).direction == Opposite(g.direction)
  {
  }

  /** Two presses between ticks can reverse the snake: Up then Left while heading right. */
  lemma TwoPressesMayReverse(g: GameState, cellX: int, cellY: int)
    requires CellInRange(cellX, cellY)
    requires Live(g) && g.direction == Right
    ensures KeyPressed(KeyPressed(g, KeyUp, cellX, cellY), KeyLeft, cellX, cellY).direction
            == Opposite(g.direction)
  {
  }

  /** Arrow keys do nothing while paused or after the game is over. */
  lemma ArrowsInertUnlessLive(g: GameState, key: Key, cellX: int, cellY: int)
    requires CellInRange(cellX, cellY)
    requires key in {KeyLeft, KeyRight, KeyUp, KeyDown} && !Live(g)
    ensures KeyPressed(g, key, cellX, cellY) == g
  {
  }

  /** After the game is over only R does anything; R restarts. */
  lemma OnlyRestartWhenOver(g: GameState, key: Key, cellX: int, cellY: int)
    requires CellInRange(cellX, cellY) && !g.running
    ensures KeyPressed(g, key, cellX, cellY) == if key == KeyR then Start(g, cellX, cellY) else g
  {
  }

  /** While the game runs a key press changes at most the direction, the pause flag and the
      timer; in particular the arrays, length, score, food and delay are kept. */
  lemma KeyKeepsBoardWhileRunning(g: GameState, key: Key, cellX: int, cellY: int)
    requires CellInRange(cellX, cellY) && g.running
    ensures var r := KeyPressed(g, key, cellX, cellY);
      r == g.(direction := r.direction, paused := r.paused, timerRunning := r.timerRunning)
      && r.running
      && (key == KeyP ==> r.paused == !g.paused && r.timerRunning == !r.paused)
      && (key != KeyP ==> r.paused == g.paused && r.timerRunning == g.timerRunning)
  {
  }

  /** Pressing P twice while running gives back the state; the timer comes back started or
      stopped as the invariant says it was. */
  lemma PauseTwiceRestores(g: GameState, cellX: int, cellY: int)
    requires CellInRange(cellX, cellY) && g.running
    ensures KeyPressed(KeyPressed(g, KeyP, cellX, cellY), KeyP, cellX, cellY)
            == g.(timerRunning := !g.paused)
    ensures Inv(g) ==> KeyPressed(KeyPressed(g, KeyP, cellX, cellY), KeyP, cellX, cellY) == g
  {
  }

  /** Every key press keeps the state invariant. */
  lemma KeyPressedPreservesInv(g: GameState, key: Key, cellX: int, cellY: int)
    requires Inv(g) && CellInRange(cellX, cellY)
    ensures Inv(KeyPressed(g, key, cellX, cellY))
  {
    if !g.running && key == KeyR {
      StartEstablishesInv(g, cellX, cellY);
    }
  }

  /** Outside a restart, a key press never changes the delay. */
  lemma KeyKeepsDelay(g: GameState, key: Key, cellX: int, cellY: int)
    requires CellInRange(cellX, cellY)
    requires g.running || key != KeyR
    ensures KeyPressed(g, key, cellX, cellY).delay == g.delay
    ensures KeyPressed(g, key, cellX, cellY).score == g.score
  {
  }
}
