/** The game panel: the fields the timer and the key listener update in place, and the
    methods that update them. Each method is proved to produce the state the matching
    function of SnakeRules describes; the lemmas there say what that state satisfies. */
module Game {
  import opened SnakeRules

  class SnakeGame {
    /** Segment coordinates; only indices 0..bodyParts-1 are the snake, index 0 the head. */
    const x: array<int>
    const y: array<int>
    var bodyParts: int
    var score: int
    var direction: Direction
    var running: bool
    var paused: bool
    var foodX: int
    var foodY: int
    /** The Swing timer, as its delay and whether it is started. */
    var delay: int
    var timerRunning: bool

    /** Both arrays have the fixed capacity GAME_UNITS and are distinct objects. */
    ghost predicate Valid()
      reads this
    {
      x.Length == GAME_UNITS && y.Length == GAME_UNITS && x != y && 0 <= bodyParts
    }

    /** The panel's state as a value. */
    ghost function Snapshot(): GameState
      reads this, x, y
    {
      GameState(x[..], y[..], bodyParts, score, direction, running, paused,
                foodX, foodY, delay, timerRunning)
    }

    /** Allocates the arrays and a stopped timer of delay 200, then starts a game. */
    constructor (cellX: int, cellY: int)
      requires CellInRange(cellX, cellY)
      ensures Valid() && fresh(x) && fresh(y)
      ensures Inv(Snapshot())
      // Start ignores its state argument apart from the array lengths (StartForgetsState),
      // so this says the new panel holds exactly the reset state for this draw.
      ensures Snapshot() == Start(Snapshot(), cellX, cellY)
    {
      x := new int[GAME_UNITS];
      y := new int[GAME_UNITS];
      bodyParts := 0;
      delay := 200;
      timerRunning := false;
      new;
      StartGame(cellX, cellY);
      StartEstablishesInv(Snapshot(), cellX, cellY);
    }

    /** startGame: food, zeroed arrays, length 30 heading right, score 0, timer restarted at 150. */
    method StartGame(cellX: int, cellY: int)
      requires Valid() && CellInRange(cellX, cellY)
      modifies this, x, y
      ensures Valid()
      ensures Snapshot() == Start(old(Snapshot()), cellX, cellY)
    {
      PlaceFood(cellX, cellY);
      Fill(x, 0);
      Fill(y, 0);
      bodyParts := INITIAL_LENGTH;
      direction := Right;
      running := true;
      score := 0;
      paused := false;
      delay := INITIAL_DELAY;
      timerRunning := true;
      assert x[..] == Zeros(x.Length);
      assert y[..] == Zeros(y.Length);
    }

    /** placeFood: the drawn cell, scaled to pixels. */
    method PlaceFood(cellX: int, cellY: int)
      requires CellInRange(cellX, cellY)
      modifies this
      ensures Snapshot() == SnakeRules.PlaceFood(old(Snapshot()), cellX, cellY)
      ensures foodX == cellX * UNIT_SIZE && foodY == cellY * UNIT_SIZE
      ensures OnGrid(foodX, foodY)
      ensures bodyParts == old(bodyParts) && score == old(score) && direction == old(direction)
      ensures running == old(running) && paused == old(paused)
      ensures delay == old(delay) && timerRunning == old(timerRunning)
    {
      foodX := cellX * UNIT_SIZE;
      foodY := cellY * UNIT_SIZE;
    }

    /** keyPressed: pause toggling, turning without reversal, restart after game over. */
    method KeyPressed(key: Key, cellX: int, cellY: int)
      requires Valid() && CellInRange(cellX, cellY)
      modifies this, x, y
      ensures Valid()
      ensures Snapshot() == SnakeRules.KeyPressed(old(Snapshot()), key, cellX, cellY)
      ensures old(running) || key != KeyR ==> direction != Opposite(old(direction))
      ensures Inv(old(Snapshot())) ==> Inv(Snapshot())
    {
      ghost var g := Snapshot();
      if running {
        if key == KeyP {
          paused := !paused;
          if paused {
            timerRunning := false;
          } else {
            timerRunning := true;
          }
        } else {
          if !paused {
            match key {
              case KeyLeft =>
                if direction != Right { direction := Left; }
              case KeyRight =>
                if direction != Left { direction := Right; }
              case KeyUp =>
                if direction != Down { direction := Up; }
              case KeyDown =>
                if direction != Up { direction := Down; }
              case _ =>
            }
          }
        }
      } else {
        if key == KeyR {
          StartGame(cellX, cellY);
        }
      }
      if old(running) || key != KeyR {
        KeyNeverReverses(g, key, cellX, cellY);
      }
      if Inv(g) {
        KeyPressedPreservesInv(g, key, cellX, cellY);
      }
    }

    /** The descending copy loop of move: x[i], y[i] := x[i-1], y[i-1] for i = bodyParts down to 1. */
    method ShiftSegments()
      requires Valid() && bodyParts < GAME_UNITS
      modifies x, y
      ensures x[..] == Shift(old(x[..]), bodyParts) && y[..] == Shift(old(y[..]), bodyParts)
    {
      var i := bodyParts;
      while i > 0
        invariant 0 <= i <= bodyParts
        invariant Shift(x[..], i) == Shift(old(x[..]), bodyParts)
        invariant Shift(y[..], i) == Shift(old(y[..]), bodyParts)
      {
        ghost var xs, ys := x[..], y[..];
        x[i] := x[i - 1];
        y[i] := y[i - 1];
        assert x[..] == xs[i := xs[i - 1]] && y[..] == ys[i := ys[i - 1]];
        i := i - 1;
      }
    }

    /** move: shift the body one place towards the tail, then step the head by one unit. */
    method Move()
      requires Valid() && bodyParts < GAME_UNITS
      modifies x, y
      ensures Snapshot() == SnakeRules.Move(old(Snapshot()))
      ensures forall i :: 1 <= i <= bodyParts ==> x[i] == old(x[i - 1]) && y[i] == old(y[i - 1])
      ensures forall i :: bodyParts < i < GAME_UNITS ==> x[i] == old(x[i]) && y[i] == old(y[i])
      ensures x[0] == old(x[0]) + DX(direction) && y[0] == old(y[0]) + DY(direction)
    {
      ghost var g := Snapshot();
      ShiftSegments();
      ghost var sx, sy := x[..], y[..];
      match direction {
        case Up => y[0] := y[0] - UNIT_SIZE;
        case Down => y[0] := y[0] + UNIT_SIZE;
        case Left => x[0] := x[0] - UNIT_SIZE;
        case Right => x[0] := x[0] + UNIT_SIZE;
      }
      assert x[..] == sx[0 := sx[0] + DX(direction)];
      assert y[..] == sy[0 := sy[0] + DY(direction)];
      assert Snapshot() == SnakeRules.Move(g);
      MoveEffect(g);
      forall i | 0 <= i < GAME_UNITS
        ensures x[i] == Snapshot().xs[i] && y[i] == Snapshot().ys[i]
        ensures old(x[i]) == g.xs[i] && old(y[i]) == g.ys[i]
      {
      }
    }

    /** checkFood: on the food, new food, one more segment, one more point, a faster timer. */
    method CheckFood(cellX: int, cellY: int)
      requires Valid() && CellInRange(cellX, cellY)
      modifies this
      ensures Valid()
      ensures Snapshot() == SnakeRules.CheckFood(old(Snapshot()), cellX, cellY)
    {
      if x[0] == foodX && y[0] == foodY {
        PlaceFood(cellX, cellY);
        bodyParts := bodyParts + 1;
        score := score + 1;
        delay := Max(MIN_DELAY, delay - DELAY_STEP);
      }
    }

    /** checkCollisions: a scan of indices bodyParts..1 that stops at the first segment on the
        head, then the wall test, then the timer is stopped if the game has ended. */
    method CheckCollisions()
      requires Valid() && bodyParts < GAME_UNITS
      modifies this
      ensures Valid()
      ensures Snapshot() == SnakeRules.CheckCollisions(old(Snapshot()))
      ensures running == (old(running) && !HitsBody(Snapshot()) && !OutsideArena(x[0], y[0]))
      ensures !running ==> !timerRunning
    {
      var i := bodyParts;
      while i > 0
        invariant 0 <= i <= bodyParts
        invariant running == old(running)
        invariant forall j :: i < j <= bodyParts ==> !(x[j] == x[0] && y[j] == y[0])
      {
        if x[0] == x[i] && y[0] == y[i] {
          running := false;
          break;
        }
        i := i - 1;
      }
      if x[0] < 0 || x[0] >= WIDTH || y[0] < 0 || y[0] >= HEIGHT {
        running := false;
      }
      if !running {
        timerRunning := false;
      }
    }

    /** actionPerformed: one timer tick, which does nothing unless running and not paused. */
    method ActionPerformed(cellX: int, cellY: int)
      requires Valid() && CellInRange(cellX, cellY)
      requires running && !paused ==>
        bodyParts < GAME_UNITS
        && (x[0] + DX(direction) == foodX && y[0] + DY(direction) == foodY ==> bodyParts + 1 < GAME_UNITS)
      modifies this, x, y
      ensures Valid()
      ensures Snapshot() == Tick(old(Snapshot()), cellX, cellY)
      ensures Inv(old(Snapshot())) ==> Inv(Snapshot())
    {
      ghost var g := Snapshot();
      if running && !paused {
        Move();
        CheckFood(cellX, cellY);
        CheckCollisions();
      }
      if Inv(g) {
        TickPreservesInv(g, cellX, cellY);
      }
    }
  }

  /** Arrays.fill: every element set to v. */
  method Fill(a: array<int>, v: int)
    modifies a
    ensures forall i :: 0 <= i < a.Length ==> a[i] == v
  {
    for i := 0 to a.Length
      invariant forall j :: 0 <= j < i ==> a[j] == v
    {
      a[i] := v;
    }
  }
}
