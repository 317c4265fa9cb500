# Snake game state engine

A model of the state machine behind a browser snake game (`script.js`). The
snake moves on a 50 x 50 grid whose edges wrap around. It grows when it
eats food and the game ends when it runs into itself. A tick timer speeds
up as the game goes on. The script keeps this state in global variables and
updates it from a timer callback and a key handler. Here the globals are the
fields of one class, `Game.SnakeGame`, and each handler is a method that
updates those fields. The pure rules the methods are proved against live in
small modules of their own:

- `Grid`: cells, directions, and one wrapped step of the head.
- `Input`: key presses and the rule that refuses a reversal.
- `Score`: the four-digit score text and reading it back.
- `Body`: the body after one tick, and when a tick collides.
- `Food`: what the food picker returns for a run of random draws, both as the
  loop is written and as it is meant.

`Math.random` is replaced by a caller-supplied sequence of draws, each a cell
on the board. The pending `setInterval` handle is replaced by a flag,
`timerRunning`, plus the delay it was last started with, `timerInterval`.

The game's design description differs from the code in several places. The
model follows the code in each of them:

- A tick tests for eating against the head from BEFORE the move. So the snake
  grows on the tick after its head reaches the food (`Body.EatingIsOneTickLate`).
  The design tests the new head.
- New food is picked after the new head has been added, so the new head is
  one of the cells the food must avoid. The design excludes only the old body.
- The speed threshold `secondIterator` is computed once, as 5000 / 190 = 26,
  and never again. The design recomputes it from each new speed.
- The timer is restarted with `gameSpeed--`. That passes the old speed and
  then lowers `gameSpeed` by 1. The speed has no lower bound; the design asks
  for a floor of 1.
- A reset puts the snake at (10, 12) with speed 250. On load it is at (24, 9)
  with speed 190.
- The reversal check compares a key with the direction as last set, not as
  last moved. Two presses between ticks can still reverse the snake
  (`Input.TwoPressesReverse`). The design forbids a reversal within one tick.

## Model

| member | source | states |
|---|---|---|
| `Grid.Wrap` | script.js:118-128 | the result is always on the board; an on-board value is kept; anything past 50 becomes 1 and anything below 1 becomes 50 |
| `Grid.NextHead` | script.js:100-128 | the new head is on the board; from an on-board head it is the neighbour on the 50 x 50 torus, `(v - 1 + delta) % 50 + 1` on each axis, and differs from the old head |
| `Game.StepHead` | script.js:101-128 | the switch on the direction and the two wrap tests compute exactly `NextHead` |
| `Input.KeyDirection` | script.js:213-238 | only the four arrow keys ask for a direction |
| `Input.Steer` | script.js:213-238 | a key that asks for the current direction's opposite leaves the direction as it is; every other arrow key sets it; other keys change nothing; the result is never the old direction's opposite |
| `Input.SteerAccepts` | script.js:213-238 | an arrow key is obeyed if and only if it does not ask for the reverse |
| `Input.TwoPressesReverse` | script.js:213-238 | UP then LEFT, pressed between two ticks, turns a snake heading RIGHT to LEFT |
| `Score.DecimalText` | script.js:199 | the decimal text of a score: at least one digit, all digits, no leading zero except in "0" |
| `Score.PadStart` | script.js:199 | `padStart`: the length is the larger of the width and the text's length, the text is kept as the suffix, and everything in front of it is the fill |
| `Score.ScoreText` | script.js:197-200 | the counter text is at least four characters, all digits |
| `Score.ParseDecimalText` | script.js:199 | reading the decimal text back gives the score |
| `Score.ParseLeadingZeros` | script.js:199 | the zeros `padStart` adds do not change the value |
| `Score.ScoreTextRoundTrip` | script.js:197-200 | a score below 10000 shows as exactly four digits that read back as the score |
| `Score.ScoreTextWide` | script.js:199 | a score of 10000 or more shows in full, untruncated |
| `Score.ScoreTextExamples` | script.js:190 | scores 0, 1 and 7 show as "0000", "0001" and "0007" |
| `Body.NextBody` | script.js:100-137 | the new body is the new head followed by the old body; a tick whose OLD head is on the food keeps every old segment (length + 1), any other tick drops the last one (length unchanged) |
| `Body.CollisionLaw` | script.js:130-143 | a tick collides if and only if the new head lands on an old segment that survives the tick; the tail cell it vacates is free unless the snake grew |
| `Body.NextBodyInBounds` | script.js:118-137 | a body on the board stays on the board |
| `Body.EatingIsOneTickLate` | script.js:100-136 | the tick whose new head reaches the food keeps the length; the following tick grows it by one |
| `Food.FirstFree` | script.js:50-65 | the corrected picker returns one of the draws, and it is off the body |
| `Food.FirstFreeFound` | script.js:50-65 | the corrected picker returns if and only if some draw is off the body |
| `Food.FirstFreeIsFirst` | script.js:50-65 | what it returns is the first such draw: every earlier draw is on the body |
| `Food.PickAsWritten` | script.js:52-63 | the loop as written, draw by draw with its flag carried: it can return only on the first draw it sees with the flag still clear, and then that draw is off the body |
| `Food.PickAsWrittenStuck` | script.js:52-63 | once the overlap flag is set, the written loop never returns |
| `Food.PickAsWrittenOnlyFirst` | script.js:52-63 | the written loop returns if and only if its first draw is off the body, and then returns that draw |
| `Food.CorrectionAgrees` | script.js:52-64 | wherever the written loop returns, the corrected picker returns the same cell |
| `Food.FlagNeverCleared` | script.js:52-63 | a first draw on the body followed by a free one: the written loop does not return, the corrected picker returns the second draw |
| `Game.SnakeGame.constructor` | script.js:15-38 | the globals on load: snake `[(24, 9)]`, RIGHT, NOT_STARTED, no food yet, speed 190, counter 0, threshold 26, score 0, no timer; the object invariant holds |
| `Game.SnakeGame.OnSnake` | script.js:57-62 | the scan over the body reports a hit if and only if the cell is a segment |
| `Game.SnakeGame.GenerateFoodAsWritten` | script.js:50-65 | the loop as written returns `PickAsWritten`: it returns only if the first draw is off the body, and then that draw, which is on the board |
| `Game.SnakeGame.GenerateFood` | script.js:50-65 | the corrected loop returns `FirstFree`: it returns if and only if some draw is free, and what it returns is on the board and off the body |
| `Game.SnakeGame.ScanForCollision` | script.js:138-143 | reports a hit if and only if the head equals a segment at index 1 or later |
| `Game.SnakeGame.UpdateScore` | script.js:197-200 | the score becomes the body length minus 1, and the counter shows its four-digit text |
| `Game.SnakeGame.GameOver` | script.js:164-174 | the state becomes OVER, the timer stops, the score is recomputed from the length; nothing else changes |
| `Game.SnakeGame.DrawSnake` | script.js:76-88 | if the food was eaten, the flag is cleared and the food becomes the first draw off the current body, new head included; otherwise the food is kept |
| `Game.SnakeGame.TickClock` | script.js:92-99 | when the incremented counter passes the threshold, it goes back to 0, the timer restarts with the old speed, and the speed drops by exactly 1; otherwise the speed and the timer are unchanged |
| `Game.SnakeGame.MoveSnake` | script.js:91-145 | the new body is `NextBody` of the old state; the state is OVER and the timer off exactly when the new head hits the body; the clock rule; eating sets the counter to the threshold, so the next tick restarts the timer; new food is off the new body; the threshold and the direction are unchanged; the object invariant is kept: the body is on the board, the score equals the length minus 1, and the counter stays within 0..threshold |
| `Game.SnakeGame.StartGame` | script.js:148-161 | no effect while STARTED; from OVER it resets first; otherwise it ends STARTED with the timer running at `gameSpeed` and the food the first draw off the body |
| `Game.SnakeGame.ResetGame` | script.js:177-194 | NOT_STARTED, snake `[(10, 12)]`, RIGHT, speed 250, counter 0, score 0 and counter text "0000", food not eaten, timer stopped; the food position is left as it was |
| `Game.SnakeGame.HandleKeypress` | script.js:206-239 | space does exactly what `StartGame` does: no change while STARTED; otherwise STARTED with the timer running at `gameSpeed` and the food the first draw off the body, after a reset when the game was OVER (snake, direction, speed, counter, score and text given per case); any other key sets the direction to `Steer` of the old one and changes nothing else |

## Left out

- DOM work is not modelled: creating the cells, clearing the board, the
  instruction and game-over texts, showing and hiding the overlay, and the
  "already started" alert. Only the counter text is kept, as `scoreText`.
- The counter's text before the first score update comes from the page's
  markup, which is not part of this model. The constructor leaves it empty.
- Real timer behaviour is not modelled. The pending interval is a flag plus
  the delay it was started with. The tick only runs while that flag is set.
  How a browser treats a delay of 0 or less, which `gameSpeed--` reaches
  after many restarts, is not modelled either.
- `Math.random` and its floating-point arithmetic are replaced by the `draws`
  parameter. The model only assumes each draw is a cell on the board.
- The event-listener registration is not modelled. The double-click on the
  board is the same call as `StartGame`.
- The rendering done by `drawFood` and by the redraw after a game over is
  not modelled. Only picking new food matters for the state.
- Game.SnakeGame.DrawSnake, Game.SnakeGame.MoveSnake, Game.SnakeGame.StartGame
  and Game.SnakeGame.HandleKeypress place food with the corrected picker
  `GenerateFood`, not the loop as written. When the first draw lands on the
  body they go on to the first free draw, where the script hangs for good.
  Wherever the script's loop does return they place the same cell
  (`Food.CorrectionAgrees`). The hang itself is modelled only by
  `GenerateFoodAsWritten`.
- Game.SnakeGame.DrawSnake, Game.SnakeGame.MoveSnake, Game.SnakeGame.StartGame
  and Game.SnakeGame.HandleKeypress require the supplied draws to contain at
  least one cell off the body. The picker they use returns only then.
  Running out of random draws is not modelled.

## Findings

| source | as written | input that shows it | evidently intended | confidence | as-written member | corrected member |
|---|---|---|---|---|---|---|
| script.js:52-63 | `overlapsWithSnake` is set to true on a hit and never set back to false, so after one overlapping draw the do-while loops forever | body `[(24, 9)]`, draws `(24, 9)` then `(1, 1)`: the loop never returns | retry until a draw is off the body, then return `(1, 1)` | high; not executed | `Game.SnakeGame.GenerateFoodAsWritten` | `Game.SnakeGame.GenerateFood` |

`Food.FlagNeverCleared` states the discrepancy for every such input.
`Food.CorrectionAgrees` shows the correction changes nothing when the first
draw is free. The rest of the model picks food with `GenerateFood`.
