/** The game controller: the script's global state as one object, and the
    tick, start, game-over, reset, score and key handlers that update it. */
module Game {
  import opened Options
  import opened Grid
  import opened Input
  import opened Score
  import opened Body
  import opened Food

  datatype GameState = NotStarted | Started | Over

  /** The snake's single segment when the page loads. */
  const StartCell := Cell(24, 9)
  /** The snake's single segment after a reset; not the same as on load. */
  const ResetCell := Cell(10, 12)
  /** The tick interval on load, and the one a reset restores; they differ. */
  const StartSpeed := 190
  const ResetSpeed := 250

  /** Moves `head` one cell in direction `d` and wraps each axis on its own. */
  method StepHead(head: Cell, d: Direction) returns (next: Cell)
    ensures next == NextHead(head, d)
  {
    var x, y := head.x, head.y;
    match d {
      case Up => y := y - 1;
      case Down => y := y + 1;
      case Left => x := x - 1;
      case Right => x := x + 1;
    }
    if x > GridSize {
      x := 1;
    } else if x < 1 {
      x := GridSize;
    }
    if y > GridSize {
      y := 1;
    } else if y < 1 {
      y := GridSize;
    }
    next := Cell(x, y);
  }

  class SnakeGame {
    var snakes: seq<Cell>
    var direction: Direction
    var currentGameState: GameState
    /** None until the first start places the food. */
    var foodPosition: Option<Cell>
    var isFoodEaten: bool
    var gameSpeed: int
    var currentIterator: int
    var secondIterator: int
    var currentScore: int
    /** Stands for the interval handle: true while a tick timer is pending. */
    var timerRunning: bool
    /** The delay the pending tick timer was last started with. */
    var timerInterval: int
    /** The score counter's text. */
    var scoreText: string

    /** The state between two handlers. */
    ghost predicate Valid()
      reads this
    {
      |snakes| >= 1 && AllInBounds(snakes) &&
      currentScore == |snakes| - 1 &&
      0 <= currentIterator <= secondIterator &&
      !isFoodEaten &&
      (timerRunning <==> currentGameState == Started) &&
      (currentGameState == Started ==> foodPosition.Some? && InBounds(foodPosition.value))
    }

    /** The old head is on the food: this tick grows the snake. */
    predicate Eats()
      reads this
    {
      |snakes| >= 1 && foodPosition == Some(snakes[0])
    }

    /** The globals as the page loads them. */
    constructor ()
      ensures Valid()
      ensures snakes == [StartCell] && direction == Right && currentGameState == NotStarted
      ensures foodPosition == None && !isFoodEaten && !timerRunning
      ensures gameSpeed == StartSpeed && currentIterator == 0 && currentScore == 0
      ensures secondIterator == 5000 / StartSpeed == 26
    {
      snakes := [StartCell];
      direction := Right;
      currentGameState := NotStarted;
      foodPosition := None;
      isFoodEaten := false;
      gameSpeed := StartSpeed;
      currentIterator := 0;
      secondIterator := 5000 / StartSpeed;
      currentScore := 0;
      timerRunning := false;
      timerInterval := 0;
      scoreText := "";
    }

    /** Scans the body for `c`, segment by segment. */
    method OnSnake(c: Cell) returns (hit: bool)
      ensures hit <==> c in snakes
    {
      hit := false;
      var i := 0;
      while i < |snakes|
        invariant 0 <= i <= |snakes|
        invariant forall k :: 0 <= k < i ==> snakes[k] != c
      {
        if snakes[i] == c {
          hit := true;
          break;
        }
        i := i + 1;
      }
    }

    /** The food picker as written: draws until a draw is off the body, but
        the overlap flag, once set, is never cleared, so it returns only if
        the first draw is free. None: has not returned after these draws. */
    method GenerateFoodAsWritten(draws: seq<Cell>) returns (food: Option<Cell>)
      ensures food == PickAsWritten(draws, snakes, false)
      ensures food.Some? <==> |draws| > 0 && draws[0] !in snakes
      ensures food.Some? ==> food.value == draws[0]
      ensures AllInBounds(draws) && food.Some? ==> InBounds(food.value)
    {
      food := None;
      var overlaps := false;
      var i := 0;
      while i < |draws|
        invariant 0 <= i <= |draws|
        invariant food == None
        invariant PickAsWritten(draws[i..], snakes, overlaps) == PickAsWritten(draws, snakes, false)
      {
        var hit := OnSnake(draws[i]);
        if hit {
          overlaps := true;
        }
        if !overlaps {
          food := Some(draws[i]);
          break;
        }
        assert draws[i..][1..] == draws[i + 1..];
        i := i + 1;
      }
      PickAsWrittenOnlyFirst(draws, snakes);
    }

    /** The food picker as meant: the flag is taken afresh for every draw, so
        it returns the first draw that is off the body. */
    method GenerateFood(draws: seq<Cell>) returns (food: Option<Cell>)
      ensures food == FirstFree(draws, snakes)
      ensures food.Some? <==> Supplies(draws, snakes)
      ensures food.Some? ==> food.value in draws && food.value !in snakes
      ensures AllInBounds(draws) && food.Some? ==> InBounds(food.value)
    {
      food := None;
      var i := 0;
      while i < |draws|
        invariant 0 <= i <= |draws|
        invariant food == None
        invariant FirstFree(draws[i..], snakes) == FirstFree(draws, snakes)
      {
        var overlaps := OnSnake(draws[i]);
        if !overlaps {
          food := Some(draws[i]);
          break;
        }
        assert draws[i..][1..] == draws[i + 1..];
        i := i + 1;
      }
      FirstFreeFound(draws, snakes);
    }

    /** The collision scan of a tick: compares `head` with every segment
        after the first. */
    method ScanForCollision(head: Cell) returns (hit: bool)
      ensures hit <==> HitsBody(head, snakes)
    {
      hit := false;
      var s := 1;
      while s < |snakes|
        invariant 1 <= s
        invariant forall k :: 1 <= k < s && k < |snakes| ==> snakes[k] != head
      {
        if snakes[s] == head {
          hit := true;
          break;
        }
        s := s + 1;
      }
    }

    /** The score is recomputed from the length, never incremented. */
    method UpdateScore()
      requires |snakes| >= 1
      modifies this`currentScore, this`scoreText
      ensures currentScore == |snakes| - 1
      ensures scoreText == ScoreText(|snakes| - 1)
    {
      currentScore := |snakes| - 1;
      scoreText := ScoreText(currentScore);
    }

    /** Ends the game: stops the tick timer and recomputes the score. */
    method GameOver()
      requires |snakes| >= 1
      modifies this`currentGameState, this`timerRunning, this`currentScore, this`scoreText
      ensures currentGameState == Over && !timerRunning
      ensures currentScore == |snakes| - 1 && scoreText == ScoreText(currentScore)
    {
      currentGameState := Over;
      timerRunning := false;
      UpdateScore();
    }

    /** The state part of the redraw: eaten food is replaced by a draw off
        the body as it is now, new head included. */
    method DrawSnake(draws: seq<Cell>)
      requires AllInBounds(draws) && (isFoodEaten ==> Supplies(draws, snakes))
      modifies this`isFoodEaten, this`foodPosition
      ensures !isFoodEaten
      ensures old(isFoodEaten) ==>
        foodPosition.Some? && InBounds(foodPosition.value) && foodPosition.value !in snakes
      ensures foodPosition == if old(isFoodEaten) then FirstFree(draws, snakes) else old(foodPosition)
    {
      if isFoodEaten {
        isFoodEaten := false;
        foodPosition := GenerateFood(draws);
      }
    }

    /** One tick: clock bookkeeping, one step of the head with wrap-around,
        growth or tail drop, the collision scan, then the redraw. */
    method MoveSnake(draws: seq<Cell>)
      requires Valid() && timerRunning && AllInBounds(draws)
      requires Eats() ==> Supplies(draws, [NextHead(snakes[0], direction)] + snakes)
      modifies this
      ensures Valid()
      ensures snakes == NextBody(old(snakes), old(direction), old(foodPosition).value)
      ensures direction == old(direction) && secondIterator == old(secondIterator)
      ensures currentGameState == (if HitsBody(snakes[0], snakes) then Over else Started)
      ensures timerRunning <==> !HitsBody(snakes[0], snakes)
      ensures old(currentIterator) + 1 > secondIterator ==>
        gameSpeed == old(gameSpeed) - 1 && timerInterval == old(gameSpeed)
      ensures old(currentIterator) + 1 <= secondIterator ==>
        gameSpeed == old(gameSpeed) && timerInterval == old(timerInterval)
      ensures currentIterator == if old(Eats()) then secondIterator
                                 else if old(currentIterator) + 1 > secondIterator then 0
                                 else old(currentIterator) + 1
      ensures foodPosition == if old(Eats()) then FirstFree(draws, snakes) else old(foodPosition)
      ensures old(Eats()) ==> foodPosition.Some? && foodPosition.value !in snakes
      ensures old(Eats()) || HitsBody(snakes[0], snakes) ==> scoreText == ScoreText(currentScore)
      ensures !old(Eats()) && !HitsBody(snakes[0], snakes) ==> scoreText == old(scoreText)
    {
      TickClock();
      var snakeHead := snakes[0];
      var head := StepHead(snakeHead, direction);
      ghost var before := snakes;
      snakes := [head] + snakes;
      if snakeHead == foodPosition.value {
        isFoodEaten := true;
        UpdateScore();
        currentIterator := secondIterator;
      } else {
        snakes := snakes[..|snakes| - 1];
      }
      assert snakes == NextBody(before, direction, foodPosition.value);
      NextBodyInBounds(before, direction, foodPosition.value);
      var hit := ScanForCollision(head);
      if hit {
        GameOver();
      }
      DrawSnake(draws);
    }

    /** The clock part of a tick: once the counter passes the threshold it
        restarts from 0 and the timer is restarted with the value of
        `gameSpeed--`, that is with the current speed, which then drops by 1. */
    method TickClock()
      modifies this`currentIterator, this`timerRunning, this`timerInterval, this`gameSpeed
      ensures old(currentIterator) + 1 > secondIterator ==>
        currentIterator == 0 && timerRunning && timerInterval == old(gameSpeed) &&
        gameSpeed == old(gameSpeed) - 1
      ensures old(currentIterator) + 1 <= secondIterator ==>
        currentIterator == old(currentIterator) + 1 && timerRunning == old(timerRunning) &&
        timerInterval == old(timerInterval) && gameSpeed == old(gameSpeed)
    {
      currentIterator := currentIterator + 1;
      if currentIterator > secondIterator {
        currentIterator := 0;
        // clearInterval, then setInterval with the value of gameSpeed--
        timerRunning, timerInterval := true, gameSpeed;
        gameSpeed := gameSpeed - 1;
      }
    }

    /** Starts a game; ignored while one is running, and from OVER it resets
        first. Places the food, then starts the tick timer. */
    method StartGame(draws: seq<Cell>)
      requires Valid() && AllInBounds(draws)
      requires currentGameState != Started ==>
        Supplies(draws, if currentGameState == Over then [ResetCell] else snakes)
      modifies this
      ensures Valid()
      ensures old(currentGameState) == Started ==> unchanged(this)
      ensures old(currentGameState) != Started ==>
        currentGameState == Started && timerRunning && timerInterval == gameSpeed &&
        foodPosition == FirstFree(draws, snakes) && foodPosition.value !in snakes
      ensures old(currentGameState) == Over ==>
        snakes == [ResetCell] && direction == Right && gameSpeed == ResetSpeed &&
        currentIterator == 0 && currentScore == 0 && scoreText == ScoreText(0)
      ensures old(currentGameState) == NotStarted ==>
        snakes == old(snakes) && direction == old(direction) && gameSpeed == old(gameSpeed) &&
        currentIterator == old(currentIterator) && currentScore == old(currentScore) &&
        scoreText == old(scoreText)
      ensures secondIterator == old(secondIterator)
    {
      if currentGameState == Started {
        // the "already started" alert
        return;
      } else if currentGameState == Over {
        ResetGame();
      }
      currentGameState := Started;
      foodPosition := GenerateFood(draws);
      timerRunning, timerInterval := true, gameSpeed;
    }

    /** Restores the defaults of a new game and stops the tick timer. The
        food is left where it was. */
    method ResetGame()
      requires Valid()
      modifies this`currentGameState, this`isFoodEaten, this`timerRunning, this`snakes,
               this`direction, this`gameSpeed, this`currentIterator, this`currentScore,
               this`scoreText
      ensures Valid()
      ensures currentGameState == NotStarted && !isFoodEaten && !timerRunning
      ensures snakes == [ResetCell] && direction == Right && gameSpeed == ResetSpeed
      ensures currentIterator == 0 && currentScore == 0 && scoreText == ScoreText(0)
    {
      currentGameState := NotStarted;
      isFoodEaten := false;
      timerRunning := false;
      snakes := [ResetCell];
      direction := Right;
      gameSpeed := ResetSpeed;
      currentIterator := 0;
      currentScore := 0;
      scoreText := ScoreText(currentScore);
    }

    /** A key press: space starts the game, an arrow key steers unless it
        asks for the reverse of the current direction, other keys do nothing. */
    method HandleKeypress(key: Key, draws: seq<Cell>)
      requires Valid() && AllInBounds(draws)
      requires key == Space && currentGameState != Started ==>
        Supplies(draws, if currentGameState == Over then [ResetCell] else snakes)
      modifies this
      ensures Valid()
      ensures key != Space ==>
        direction == Steer(old(direction), key) &&
        snakes == old(snakes) && currentGameState == old(currentGameState) &&
        foodPosition == old(foodPosition) && gameSpeed == old(gameSpeed) &&
        currentIterator == old(currentIterator) && currentScore == old(currentScore) &&
        timerRunning == old(timerRunning) && timerInterval == old(timerInterval) &&
        scoreText == old(scoreText)
      ensures key == Space && old(currentGameState) == Started ==> unchanged(this)
      ensures key == Space && old(currentGameState) != Started ==>
        currentGameState == Started && timerRunning && timerInterval == gameSpeed &&
        foodPosition == FirstFree(draws, snakes) && foodPosition.value !in snakes
      ensures key == Space && old(currentGameState) == Over ==>
        snakes == [ResetCell] && direction == Right && gameSpeed == ResetSpeed &&
        currentIterator == 0 && currentScore == 0 && scoreText == ScoreText(0)
      ensures key == Space && old(currentGameState) == NotStarted ==>
        snakes == old(snakes) && direction == old(direction) && gameSpeed == old(gameSpeed) &&
        currentIterator == old(currentIterator) && currentScore == old(currentScore) &&
        scoreText == old(scoreText)
      ensures secondIterator == old(secondIterator)
    {
      if key == Space {
        StartGame(draws);
        return;
      }
      direction := Steer(direction, key);
    }
  }
}
