/**
 * The snake game component (components/SnakeGame.tsx): a 20 by 20 grid, a
 * snake whose first segment is its head, a food cell, the direction state
 * that key presses change, and the tick that moves the snake one cell.
 */
module Snake {
  import opened Wrappers

  const GridSize: int := 20

  datatype Position = Position(x: int, y: int)

  datatype Direction = Up | Down | Left | Right

  /** The cell one step from `p` in direction `d` (y grows downwards). */
  function Advance(p: Position, d: Direction): (q: Position)
    ensures d == Up ==> q == Position(p.x, p.y - 1)
    ensures d == Down ==> q == Position(p.x, p.y + 1)
    ensures d == Left ==> q == Position(p.x - 1, p.y)
    ensures d == Right ==> q == Position(p.x + 1, p.y)
  {
    match d
    case Up => Position(p.x, p.y - 1)
    case Down => Position(p.x, p.y + 1)
    case Left => Position(p.x - 1, p.y)
    case Right => Position(p.x + 1, p.y)
  }

  function Opposite(d: Direction): Direction {
    match d
    case Up => Down
    case Down => Up
    case Left => Right
    case Right => Left
  }

  predicate InGrid(p: Position) {
    0 <= p.x < GridSize && 0 <= p.y < GridSize
  }

  /** The direction a key asks for, if it is one of the arrow or WASD keys. */
  function KeyDirection(key: string): (r: Option<Direction>)
    ensures r == Some(Up) <==> key in {"ArrowUp", "w", "W"}
    ensures r == Some(Down) <==> key in {"ArrowDown", "s", "S"}
    ensures r == Some(Left) <==> key in {"ArrowLeft", "a", "A"}
    ensures r == Some(Right) <==> key in {"ArrowRight", "d", "D"}
  {
    if key == "ArrowUp" || key == "w" || key == "W" then Some(Up)
    else if key == "ArrowDown" || key == "s" || key == "S" then Some(Down)
    else if key == "ArrowLeft" || key == "a" || key == "A" then Some(Left)
    else if key == "ArrowRight" || key == "d" || key == "D" then Some(Right)
    else None
  }

  /**
   * The direction state after a key press: the asked-for direction unless
   * it is the reverse of the current direction state, which is ignored.
   */
  function Turn(d: Direction, key: string): Direction {
    var asked := KeyDirection(key);
    if asked.Some? && asked.value != Opposite(d) then asked.value else d
  }

  /** What one tick does: a crash, or the new body and whether the food was eaten. */
  datatype Outcome = Crashed | Moved(body: seq<Position>, ate: bool)

  /**
   * `moveSnake`: the head steps in the current direction; leaving the grid
   * or landing on any segment, the tail included, is a crash; otherwise the
   * head is put in front, and the tail is dropped unless the food is eaten.
   */
  function Tick(snake: seq<Position>, d: Direction, food: Position): Outcome
    requires snake != []
  {
    var head := Advance(snake[0], d);
    if !InGrid(head) || head in snake then Crashed
    else if head == food then Moved([head] + snake, true)
    else Moved([head] + snake[..|snake| - 1], false)
  }

  /** No segment appears twice. */
  predicate Distinct(s: seq<Position>) {
    forall i, j :: 0 <= i < j < |s| ==> s[i] != s[j]
  }

  /** Every segment is on the grid and none overlaps another. */
  predicate WellFormed(snake: seq<Position>) {
    snake != [] && (forall k :: 0 <= k < |snake| ==> InGrid(snake[k])) && Distinct(snake)
  }

  /** `Math.floor(Math.random() * GRID_SIZE)` for a roll in [0, 1). */
  function Coordinate(roll: real): (c: int)
    requires 0.0 <= roll < 1.0
    ensures 0 <= c < GridSize
  {
    (roll * GridSize as real).Floor
  }

  /**
   * The component's state: the `useState` values and the ref recording
   * whether `onGameOver` has been called, with the scores it was given.
   */
  class SnakeGame {
    var snake: seq<Position>
    var food: Position
    var direction: Direction
    var gameOver: bool
    var score: int
    var hasCalledGameOver: bool
    var reported: seq<int>

    /**
     * The snake is on the grid without overlaps, and `onGameOver` has been
     * called once, with the current score, exactly when the flag is set;
     * the flag is only set once the game is over.
     */
    ghost predicate Valid()
      reads this
    {
      && WellFormed(snake)
      && (hasCalledGameOver ==> gameOver)
      && |reported| == (if hasCalledGameOver then 1 else 0)
      && (hasCalledGameOver ==> reported[0] == score)
    }

    /** The initial state. */
    constructor ()
      ensures Valid()
      ensures snake == [Position(10, 10)] && food == Position(15, 15) && direction == Right
      ensures score == 0 && !gameOver && !hasCalledGameOver && reported == []
    {
      snake := [Position(10, 10)];
      food := Position(15, 15);
      direction := Right;
      gameOver := false;
      score := 0;
      hasCalledGameOver := false;
      reported := [];
    }

    /**
     * The key handler: no handler is listening once the game is over;
     * otherwise a direction key changes the direction state unless it
     * reverses it.
     */
    method KeyPress(key: string)
      requires Valid()
      modifies this
      ensures Valid()
      ensures direction == if old(gameOver) then old(direction) else Turn(old(direction), key)
      ensures snake == old(snake) && food == old(food) && gameOver == old(gameOver) && score == old(score)
      ensures hasCalledGameOver == old(hasCalledGameOver) && reported == old(reported)
    {
      if gameOver {
        return;
      }
      if key == "ArrowUp" || key == "w" || key == "W" {
        if direction != Down {
          direction := Up;
        }
      } else if key == "ArrowDown" || key == "s" || key == "S" {
        if direction != Up {
          direction := Down;
        }
      } else if key == "ArrowLeft" || key == "a" || key == "A" {
        if direction != Right {
          direction := Left;
        }
      } else if key == "ArrowRight" || key == "d" || key == "D" {
        if direction != Left {
          direction := Right;
        }
      }
    }

    /**
     * One interval tick of `moveSnake`, with the two rolls that place new
     * food: nothing once the game is over; a crash sets the game-over flag
     * and leaves the snake alone; otherwise the snake takes the new body,
     * and eating adds one to the score and moves the food.
     */
    method MoveSnake(rollX: real, rollY: real)
      requires Valid() && 0.0 <= rollX < 1.0 && 0.0 <= rollY < 1.0
      modifies this
      ensures Valid()
      ensures direction == old(direction) && hasCalledGameOver == old(hasCalledGameOver) && reported == old(reported)
      ensures old(gameOver) ==> snake == old(snake) && food == old(food) && gameOver && score == old(score)
      ensures !old(gameOver) ==> match Tick(old(snake), old(direction), old(food))
        case Crashed => gameOver && snake == old(snake) && food == old(food) && score == old(score)
        case Moved(body, ate) =>
          && !gameOver && snake == body
          && score == old(score) + (if ate then 1 else 0)
          && food == if ate then Position(Coordinate(rollX), Coordinate(rollY)) else old(food)
    {
      if gameOver {
        return;
      }
      var outcome := NextBody(snake, direction, food);
      match outcome {
        case Crashed =>
          gameOver := true;
        case Moved(body, ate) =>
          TickKeepsWellFormed(snake, direction, food);
          if ate {
            score := score + 1;
            food := Position(Coordinate(rollX), Coordinate(rollY));
          }
          snake := body;
      }
    }

    /** The effect that calls `onGameOver` with the score, guarded by the ref so it happens once. */
    method ReportGameOver()
      requires Valid()
      modifies this
      ensures Valid()
      ensures snake == old(snake) && food == old(food) && direction == old(direction)
      ensures gameOver == old(gameOver) && score == old(score)
      ensures hasCalledGameOver == (old(hasCalledGameOver) || gameOver)
      ensures reported == if gameOver && !old(hasCalledGameOver) then old(reported) + [score] else old(reported)
    {
      if gameOver && !hasCalledGameOver {
        hasCalledGameOver := true;
        reported := reported + [score];
      }
    }
  }

  /**
   * The body work of `moveSnake` on a copy of the snake: step the head,
   * check the walls and every segment, put the head in front, and pop the
   * tail unless the head is on the food.
   */
  method NextBody(snake: seq<Position>, d: Direction, food: Position) returns (o: Outcome)
    requires snake != []
    ensures o == Tick(snake, d, food)
  {
    var newSnake := snake;
    var head := newSnake[0];
    match d {
      case Up => head := head.(y := head.y - 1);
      case Down => head := head.(y := head.y + 1);
      case Left => head := head.(x := head.x - 1);
      case Right => head := head.(x := head.x + 1);
    }
    if head.x < 0 || head.x >= GridSize || head.y < 0 || head.y >= GridSize {
      return Crashed;
    }
    var hit := Occupied(newSnake, head);
    if hit {
      return Crashed;
    }
    newSnake := [head] + newSnake;
    if head.x == food.x && head.y == food.y {
      o := Moved(newSnake, true);
    } else {
      newSnake := newSnake[..|newSnake| - 1];
      o := Moved(newSnake, false);
    }
  }

  /** `newSnake.some(segment => …)`: whether `p` is one of the segments. */
  method Occupied(body: seq<Position>, p: Position) returns (hit: bool)
    ensures hit <==> p in body
  {
    hit := false;
    var k := 0;
    while k < |body| && !hit
      invariant 0 <= k <= |body|
      invariant hit <==> p in body[..k]
    {
      hit := body[k] == p;
      k := k + 1;
    }
    assert !hit ==> body[..k] == body;
  }

  /** A crash happens exactly when the stepped head leaves the grid or lands on a segment, the tail included. */
  lemma CrashIff(snake: seq<Position>, d: Direction, food: Position)
    requires snake != []
    ensures Tick(snake, d, food).Crashed? <==>
      (exists k :: 0 <= k < |snake| && snake[k] == Advance(snake[0], d)) || !InGrid(Advance(snake[0], d))
  {
    var head := Advance(snake[0], d);
    if head in snake {
      var k :| 0 <= k < |snake| && snake[k] == head;
    }
  }

  /**
   * After a move the head is one step from the old head; the rest of the
   * body is the old body, with the tail dropped unless the food was eaten,
   * so the length grows by one exactly when the food is eaten.
   */
  lemma MoveShape(snake: seq<Position>, d: Direction, food: Position)
    requires snake != []
    requires Tick(snake, d, food).Moved?
    ensures var o := Tick(snake, d, food);
      && o.body[0] == Advance(snake[0], d)
      && (o.ate <==> Advance(snake[0], d) == food)
      && |o.body| == |snake| + (if o.ate then 1 else 0)
      && o.body[1..] == (if o.ate then snake else snake[..|snake| - 1])
  {
  }

  /** A tick keeps the snake on the grid and free of overlaps. */
  lemma TickKeepsWellFormed(snake: seq<Position>, d: Direction, food: Position)
    requires WellFormed(snake)
    ensures Tick(snake, d, food).Moved? ==> WellFormed(Tick(snake, d, food).body)
  {
    var o := Tick(snake, d, food);
    if o.Moved? {
      var head := Advance(snake[0], d);
      var rest := if o.ate then snake else snake[..|snake| - 1];
      assert o.body == [head] + rest;
      forall k | 0 <= k < |rest|
        ensures rest[k] != head
      {
        assert rest[k] == snake[k];
      }
    }
  }

  /** A key never turns the direction state into the reverse of itself. */
  lemma {:induction false} TurnNeverReverses(d: Direction, key: string)
    ensures Turn(d, key) != Opposite(d)
    ensures Turn(d, key) == d || KeyDirection(key) == Some(Turn(d, key))
  {
  }

  /**
   * The reverse check is against the latest direction state, not the
   * direction the snake last moved in: two keys between ticks can reverse
   * a snake moving right into one moving left.
   */
  lemma TwoKeysReverse()
    ensures Turn(Turn(Right, "ArrowUp"), "ArrowLeft") == Left == Opposite(Right)
  {
    assert KeyDirection("ArrowUp") == Some(Up);
    assert KeyDirection("ArrowLeft") == Some(Left);
  }

  /** `onGameOver` is called at most once, whatever the sequence of ticks, keys and effect runs. */
  lemma ReportedAtMostOnce(game: SnakeGame)
    requires game.Valid()
    ensures |game.reported| <= 1
    ensures game.reported != [] ==> game.gameOver && game.reported[0] == game.score
  {
  }
}
