# rust-snake: the snake and food simulation in Dafny

This project models the game logic of a Snake clone. The play field is a
square of 42 × 42 cells of 12 pixels each. A snake is a head-first sequence
of grid points plus a velocity. Every tick the head moves by its velocity, one
cell or none, and each other segment takes its predecessor's former place. The snake grows by one
segment when its head reaches the food, and it is reset to a single
motionless segment at the origin when its head runs into its own body or
leaves the field. The food is a single cell, placed at random.

The model follows the source file `src/main.rs` entity by entity:

- `grid.dfy`, module `Grid`: `Point`, the four unit directions, the
  constants `SCALE` = 12 and `SIZE` = 42, and `Overlap`. The random placement
  `Rand` takes the generator's two draws as a parameter.
- `snake.dfy`, module `Snakes`: class `Snake`, with `body: seq<Point>` and
  `vel: Point` updated in place by its methods. It also holds the
  specification functions these methods are proved against: `Stepped` for one
  move, `SelfHit` and `Steer`.
- `food.dfy`, module `Foods`: class `Food` and `Replace`.
- `game.dfy`, module `Games`: class `Game`. Its `Update` method is one tick
  of the game loop. It is proved equal to the function `Tick` on an abstract
  `State`. The lemmas about `Tick` state the invariant the game keeps, the
  reset on a collision and growth on eating.

Reference identity (`ptr::eq`) in `overlap` is modelled by a `Place` attached to each
point: `Segment(i)` for the i-th body segment and `FoodCell` for the food.
Two points are the same object exactly when their places are equal. So the
head never overlaps itself, and it overlaps the food exactly when the
coordinates agree.

Coordinates are `i32` in the source and unbounded integers here. The game
invariant `Games.Inv` holds for every state reachable from a new game
(`ReachableStates`). It says that every segment lies inside [0, 504] × [0, 504]
on the 12-pixel grid, and that the body is in one piece. The head move, the
only arithmetic of a tick, then stays far inside the 32-bit range, so no
wrap-around or overflow can occur (`TickFitsI32`).

Three consequences of the code as written are proved:

- Two keys pressed in the same tick can turn a moving snake straight back.
  The reversal guard compares each key only with the velocity left by the
  keys handled before it (`TwoKeysReverse`).
- A new snake whose first food lies on the origin, with no key pressed on the
  first tick, eats it and then runs into its own copied segment at once
  (`FoodAtOriginResetsNewSnake`).
- The food only reaches cells with coordinates in [0, 348], since the draw
  ranges over [0, SIZE − SCALE) (`Grid.Rand`, `Grid.RandOnto`). A head at
  coordinate 504 still counts as in bounds, because the bounds test is `>`
  against SIZE × SCALE (`Snakes.Snake.OfBounds`, through the closed square of
  `Snakes.InField`).

## Model

| member | source | states |
|---|---|---|
| `Grid.Overlap` | src/main.rs:31-33 | two points overlap exactly when their coordinates agree and they are not the same object |
| `Grid.OverlapNeverSelf` | src/main.rs:31-33 | a point never overlaps itself: the same object is excluded whatever its coordinates |
| `Grid.OverlapOfDistinct` | src/main.rs:31-33 | for two distinct objects, overlap holds exactly when both coordinates agree |
| `Grid.Rand` | src/main.rs:35-42 | a random cell has both coordinates multiples of 12 in [0, 348] |
| `Grid.RandOnto` | src/main.rs:35-42 | every multiple-of-12 cell in [0, 348] × [0, 348] is produced by some valid draw |
| `Grid.RandInjective` | src/main.rs:35-42 | distinct draws give distinct cells |
| `Snakes.Stepped` | src/main.rs:60-72 | one move keeps the length, puts the head at old head + vel × 12, and gives every segment i ≥ 1 the old segment i − 1 |
| `Snakes.Snake.Update` | src/main.rs:60-72 | the reverse in-place loop leaves exactly `Stepped(old body, vel)`, with `vel` unchanged and the body non-empty |
| `Snakes.SteppedAfterGrowth` | src/main.rs:114-119 | growing by a copy of the head and then moving equals a plain move with the old tail kept at the end |
| `Snakes.Steer` | src/main.rs:121-147 | a key press yields either the old velocity or the key's direction, and keeps the old one exactly when it already is that direction or is the refused reversal on a snake longer than one segment |
| `Snakes.SteerNeverReverses` | src/main.rs:121-147 | on a snake longer than one segment, a single key press never yields the opposite of the current direction |
| `Snakes.Snake.constructor` | src/main.rs:52-58 | a new snake is one segment at the origin, standing still |
| `Snakes.Snake.Head` | src/main.rs:149-151 | the head is the first segment, which always exists because the body is never empty |
| `Snakes.Snake.Eats` | src/main.rs:88-90 | the snake eats exactly when its head's coordinates equal the food's |
| `Snakes.Snake.HitsItSelf` | src/main.rs:92-100 | the scan reports a hit exactly when some segment other than the head lies on the head's cell |
| `Snakes.Snake.OfBounds` | src/main.rs:102-107 | out of bounds exactly when the head is outside the closed square [0, 504] × [0, 504] |
| `Snakes.Snake.Reset` | src/main.rs:109-112 | whatever the prior state, the body becomes the single origin segment and the velocity zero |
| `Snakes.Snake.LevelUp` | src/main.rs:114-119 | the body grows by exactly one segment, a copy of the head at the end, and nothing else changes |
| `Snakes.Snake.MoveUp` | src/main.rs:121-126 | velocity becomes Up unless it is Down on a snake longer than one segment; the body is untouched |
| `Snakes.Snake.MoveRight` | src/main.rs:128-133 | velocity becomes Right unless it is Left on a snake longer than one segment; the body is untouched |
| `Snakes.Snake.MoveDown` | src/main.rs:135-140 | velocity becomes Down unless it is Up on a snake longer than one segment; the body is untouched |
| `Snakes.Snake.MoveLeft` | src/main.rs:142-147 | velocity becomes Left unless it is Right on a snake longer than one segment; the body is untouched |
| `Foods.Food.constructor` | src/main.rs:160-165 | new food sits on the cell the draw selects |
| `Foods.Food.Replace` | src/main.rs:178-180 | the food moves to the drawn cell, which by `Rand` is a multiple-of-12 cell in [0, 348] × [0, 348] |
| `Games.SteerAll` | src/main.rs:207-221 | the keys leave the velocity unchanged or set it to a unit direction, and unchanged when no key is pressed |
| `Games.SteerAllKeepsVelocity` | src/main.rs:207-221 | steering keeps the velocity zero or a unit direction |
| `Games.OneKeyNeverReverses` | src/main.rs:207-221 | with exactly one key pressed, a moving snake longer than one segment never turns straight back |
| `Games.TwoKeysReverse` | src/main.rs:207-221 | Down and Left together turn a right-moving snake to Left, and a three-segment snake then hits itself |
| `Games.Game.ApplyKeys` | src/main.rs:207-221 | the four key checks in order Right, Down, Left, Up set the velocity to `SteerAll` of the old one and leave the body alone |
| `Games.Advance` | src/main.rs:207-228 | after steering, eating and moving, the body is the moved body, with the old tail kept and the food redrawn when the head was on the food |
| `Games.Tick` | src/main.rs:207-238 | a tick never leaves the body empty |
| `Games.TickResetsOnCollision` | src/main.rs:230-238 | after a self-hit or leaving the field, the snake is reset and the food redrawn by the check that fired |
| `Games.TickWithoutCollision` | src/main.rs:228-238 | without a collision, the tick's result is what steering, eating and moving produced |
| `Games.TickGrows` | src/main.rs:223-228 | eating without a collision lengthens the body by exactly one, keeps the old tail last, and redraws the food |
| `Games.MovedOnGrid` | src/main.rs:64-65 | moving by a zero or unit velocity keeps a point on the 12-pixel grid |
| `Games.TickKeepsConnected` | src/main.rs:223-238 | a tick keeps the body in one piece: each segment is on the same cell as the one before it or on a side-by-side cell |
| `Games.TickPreservesInv` | src/main.rs:207-238 | every tick keeps the invariant: a non-empty, connected body of grid cells inside the field, a zero or unit velocity, and food on a reachable cell |
| `Games.Run` | src/main.rs:201-242 | any number of ticks leaves the body non-empty |
| `Games.RunPreservesInv` | src/main.rs:201-242 | the invariant holds after any sequence of ticks (by induction on the inputs) |
| `Games.ReachableStates` | src/main.rs:190-242 | every state reachable from a new game satisfies the invariant, and its next head move fits in i32 |
| `Games.TickFitsI32` | src/main.rs:64-65 | in every state satisfying the invariant, the head's new coordinates fit in i32 |
| `Games.FoodAtOriginResetsNewSnake` | src/main.rs:223-233 | a new snake with food on the origin and no key pressed is reset at once, with the food redrawn by the self-hit |
| `Games.Start` | src/main.rs:190-198 | a new game is a single snake segment with food on the drawn cell, and it satisfies the game invariant |
| `Games.Game.constructor` | src/main.rs:190-198 | a new game is a one-segment snake at the origin with food on the drawn cell, and satisfies the invariant |
| `Games.Game.Update` | src/main.rs:207-238 | one tick changes the snake and food exactly as `Tick` says and keeps the invariant |

## Left out

- Rendering: `Snake::draw`, `Food::draw`, `Game::draw` and the colour fields. They are calls into the graphics library on `f32` coordinates.
- The frame timer at the top of `Game::update` and the final `last_update` store. They read the wall clock and compute in `f32`. The model's `Game.Update` is a tick whose time has come.
- Keyboard polling. The four `is_key_pressed` results are the `Keys` parameter, applied in the source's order.
- The random number generator. Each placement takes a `Draw` parameter whose two numbers lie in [0, SIZE − SCALE), which is the range `gen_range` promises. A tick takes one draw for each of the three places it may replace the food.
- `main` and the event-loop and window setup, which are I/O plumbing.
- Snakes.Snake.Update: coordinates are unbounded integers, as in `Snakes.Moved`, so a head near the `i32` limits would move where the source panics or wraps. Overflow is ruled out only for states reachable from a new game (`Games.ReachableStates`, `Games.TickFitsI32`), not for an arbitrary snake.
