# PySnake game-state model

A Dafny model of the game rules of PySnake, a single-player snake game on a
20 × 20 grid of 40-pixel cells (an 800 × 800 window). The model covers:

- the grid: cells as pixel pairs, the four direction vectors, the one-cell
  step, the toroidal wrap-around that `move` applies to each axis, and
  `get_random_location` with the two random indices passed in (`grid.dfy`,
  module `Grid`);
- the `Snake` object: body (head first), direction, `paused` and `grow`
  flags, and its operations `get_head`, `get_next_position`, `move`,
  `toggle_grow`, `set_direction`, `reset` and `toggle_paused`
  (`snake.dfy`, module `Snakes`);
- the `Goal` object with `get_location` and `set_location` (`goal.dfy`,
  module `Goals`);
- the main loop (`tick.dfy`, module `GameLoop`): `input_listener` applying
  the arrow and space keys of a pass through `set_direction` and
  `toggle_paused`; one tick: move, compare head and goal by value, and on a
  match flag growth and relocate the goal; and any finite number of passes,
  each its keys followed by a tick.

Each state-changing operation exists twice: as a pure function on the
value `SnakeState` (or `World` for a tick), and as a method of the class
`Snake` (or `GameLoop.Tick`) that updates fields in place and is proved to
produce exactly that function's result. The game's properties are lemmas
about the functions.

The snake invariant `SnakeState.Valid` holds at construction and after
every operation: the body is non-empty, every segment is a grid-aligned cell
inside the window, and each segment touches the next one on the torus (one
wrapped step apart). `MovedValid` proves that each segment stays one wrapped
step from the next; `MovedPlain` and `MovedGrowing` state that the new head
is one wrapped step from the old head in the current direction.

Behaviour modelled as the code has it, where a plain reading of the game's
intent would differ:

- `set_direction` compares the *unwrapped* next position with the second
  segment. After the head has wrapped across an edge, a direct reversal is
  therefore accepted, and the following move runs into the second segment
  and resets the snake (`ReversalAcrossEdgeResets`).
- The goal relocation loop (snake.py:199-203) tests `is not` against the
  old location list; a freshly built list is never the same object, so the
  loop always stops after one draw and the goal may be placed on its old
  cell again (`GoalMayStayPut`). The loop evidently means to redraw until
  the new cell differs from the old one; the model follows the code.

## Model

| member | source | states |
|---|---|---|
| `Grid.Direction.Reverse` | snake.py:146-155 | the opposite of a direction vector is its negation and differs from it |
| `Grid.WrapAxis` | snake.py:61-67 | a wrapped coordinate is always within [0, extent − PIXEL_SIZE], keeps an in-window coordinate unchanged, and keeps alignment to PIXEL_SIZE |
| `Grid.Wrapped` | snake.py:61-67 | a wrapped cell is inside the window, an in-window cell is unchanged, and an aligned cell wraps to a grid cell |
| `Grid.WrapToGrid` | snake.py:61-67 | the loop over the two axes, overwriting the coordinate that left the window, yields exactly the wrapped cell |
| `Grid.WrapAtEdges` | snake.py:64-67 | one step past the last cell gives 0; one step below 0 gives extent − PIXEL_SIZE |
| `Grid.WrapIsModulo` | snake.py:61-67 | for an aligned coordinate at most one cell outside the window, the wrap equals the coordinate modulo the extent (the board is a torus) |
| `Grid.StepReverse` | snake.py:49-54 | a step followed by the opposite step returns to the start |
| `Grid.WrappedStepReverse` | snake.py:54-67 | on the torus, a wrapped step followed by the opposite wrapped step returns to the starting grid cell |
| `Grid.WrappedStepMoves` | snake.py:58-67 | a wrapped step from a grid cell never stays on that cell |
| `Grid.RandomLocation` | snake.py:32-35 | every draw in randint's range gives a multiple of PIXEL_SIZE within [0, WIN_WIDTH − PIXEL_SIZE] × [0, WIN_HEIGHT − PIXEL_SIZE] |
| `Grid.EveryCellIsDrawable` | snake.py:32-35 | every grid cell is produced by some draw in range, namely its cell index on each axis |
| `Grid.RandomLocationInjective` | snake.py:32-35 | different draws give different cells |
| `Snakes.SnakeState.ResetBody` | snake.py:93-96 | reset leaves a one-cell body holding the old head; direction and flags are kept |
| `Snakes.SnakeState.Moved` | snake.py:56-79 | move never empties the body and never changes the direction or the pause flag |
| `Snakes.SnakeState.GrowToggled` | snake.py:82-84 | after toggle_grow the growth flag is set and nothing else changed |
| `Snakes.SnakeState.PauseToggled` | snake.py:103-107 | toggle_paused flips the pause flag and changes nothing else |
| `Snakes.SnakeState.Redirected` | snake.py:86-91 | set_direction changes only the direction, either to the requested one or not at all |
| `Snakes.MovedWhilePaused` | snake.py:56-57 | while paused, move changes neither the body nor any flag |
| `Snakes.MovedIntoBody` | snake.py:70-71 | if the body has more than one cell and the wrapped next head is anywhere in it (tail included), the body becomes exactly [old head]; grow and direction unchanged |
| `Snakes.MovedPlain` | snake.py:73-79 | a non-colliding move without growth puts the wrapped next head first, followed by the old body minus its last cell; length preserved; grow stays clear |
| `Snakes.MovedGrowing` | snake.py:73-77 | a non-colliding move with growth pending keeps the whole old body behind the new head, adds exactly one cell, and clears grow |
| `Snakes.MovedLength` | snake.py:56-79 | the length after move is unchanged when paused, 1 on collision, +1 on growth, unchanged otherwise |
| `Snakes.NextHeadAdjacent` | snake.py:58-67 | the wrapped next head touches the current head on the torus |
| `Snakes.MovedValid` | snake.py:56-79 | move preserves the invariant: non-empty body, every cell on the grid, consecutive cells touching |
| `Snakes.GrowthIsOneShot` | snake.py:76-84 | after toggle_grow, the first non-colliding move adds one cell and the second keeps the length, with grow cleared |
| `Snakes.GrowToggledIdempotent` | snake.py:82-84 | toggle_grow twice equals toggle_grow once |
| `Snakes.PauseToggledTwice` | snake.py:103-107 | toggle_paused twice is the identity |
| `Snakes.RedirectedWhilePaused` | snake.py:86-87 | while paused, set_direction changes nothing |
| `Snakes.RedirectedRefusesOnlyReversal` | snake.py:86-91 | when the head reached its cell by a plain step in direction D, set_direction refuses exactly the reversal of D and accepts every other direction |
| `Snakes.RedirectedAcrossEdgeAcceptsAll` | snake.py:86-91 | when the head reached its cell by wrapping across an edge, set_direction accepts every direction |
| `Snakes.RedirectedOneCell` | snake.py:86-91 | a running one-cell snake accepts every direction, its reversal included |
| `Snakes.ReversalAcrossEdgeResets` | snake.py:49-91 | when the head reached its cell by wrapping across an edge, the reversal is accepted and the next move resets the body to the head |
| `Snakes.Snake.constructor` | snake.py:39-44 | a new snake is one random grid cell, heading left, not paused, no growth pending |
| `Snakes.Snake.Head` | snake.py:46-47 | get_head returns the first segment, which is a grid cell |
| `Snakes.Snake.NextPosition` | snake.py:49-54 | the unwrapped next position is aligned and the opposite step from it leads back to the head |
| `Snakes.Snake.Move` | snake.py:56-79 | updating the fields in place yields exactly `SnakeState.Moved` of the old state and keeps the invariant |
| `Snakes.Snake.ToggleGrow` | snake.py:82-84 | the new state is `SnakeState.GrowToggled` of the old one |
| `Snakes.Snake.SetDirection` | snake.py:86-91 | the new state is `SnakeState.Redirected` of the old one |
| `Snakes.Snake.Reset` | snake.py:93-96 | clearing the list and reinserting the head yields `SnakeState.ResetBody` of the old state |
| `Snakes.Snake.TogglePaused` | snake.py:103-107 | the new state is `SnakeState.PauseToggled` of the old one |
| `Goals.Goal.constructor` | snake.py:110-111 | a new goal sits on a random grid cell |
| `Goals.Goal.GetLocation` | snake.py:113-114 | get_location returns the stored cell, which is on the grid |
| `Goals.Goal.SetLocation` | snake.py:116-117 | set_location stores exactly the given cell |
| `GameLoop.World.Ticked` | snake.py:194-205 | a tick never empties the snake's body |
| `GameLoop.TickedValid` | snake.py:194-205 | a tick with an on-grid draw keeps the snake invariant and the goal on the grid |
| `GameLoop.TickedEating` | snake.py:196-205 | when the moved head equals the goal, grow becomes true, the goal takes the drawn cell (whatever it is), the body is the moved one, and direction and pause flag are kept |
| `GameLoop.TickedMissing` | snake.py:194-196 | otherwise the tick is just the move: goal and growth flag untouched |
| `GameLoop.GoalMayStayPut` | snake.py:199-205 | there is an eating tick after which the goal is on its old cell again, under the snake's head |
| `GameLoop.EatingGrowsOnNextTick` | snake.py:194-205 | after an eating tick, the next running, non-colliding tick adds exactly one cell, and grow afterwards is set only if that tick eats again |
| `GameLoop.Tick` | snake.py:194-205 | moving the snake object and relocating the goal object in place yields exactly `World.Ticked` of the old state with the drawn cell |
| `GameLoop.HandleKey` | snake.py:144-158 | no key changes the body or the growth flag; arrows go to `Redirected`, the space bar to `PauseToggled`, other keys are ignored (by definition) |
| `GameLoop.Handled` | snake.py:139-158 | handling a pass's keys in order never changes the body or the growth flag |
| `GameLoop.HandledWhilePaused` | snake.py:144-158 | while paused, keys without the space bar change nothing |
| `GameLoop.InputListener` | snake.py:138-158 | handling the keys in place, one at a time, yields exactly `Handled` of the old state and keeps the invariant |
| `GameLoop.Passed` | snake.py:193-205 | one pass (keys, then tick) never empties the body |
| `GameLoop.Run` | snake.py:189-205 | any number of passes of the loop, with any keys, leaves the snake's body non-empty |
| `GameLoop.RunValid` | snake.py:189-205 | any number of passes, with any keys, keeps the snake invariant and the goal on the grid |
| `GameLoop.RunLengthBound` | snake.py:189-205 | the snake gains at most one cell per pass, whatever keys are pressed |
| `GameLoop.RunWhilePaused` | snake.py:189-205 | while paused and without the space bar, any number of passes leaves body, direction and pause flag unchanged |
| `GameLoop.Play` | snake.py:189-205 | running the loop in place, each pass handling its keys and then ticking, yields exactly `Run` of the starting state |

## Left out

- Rendering (`Snake.draw`, `Goal.draw`, `draw_background`): pygame drawing only.
- `show_app_info`: a tkinter dialog before the game starts.
- `input_listener`: event polling and the quit path (`pygame.quit`, `sys.exit`); key presses are given to each pass as a sequence of `Key` values.
- Window creation, `clock.tick(FPS_LIMIT)` and `pygame.display.update`: timing and display plumbing.
- Randomness: `random.randint` results are parameters (`kx`, `ky`) in randint's inclusive range; the float division in the bound is an exact integer (19) here. `randint` receives the float 19.0; Python 3.11 and earlier accept it, Python 3.12 and later raise TypeError, so `Snake()` fails at startup there. The model describes the game on interpreters that accept the float.
- The game loop runs until a quit event; `Play` and `Run` cover any finite number of passes before it, each with its keys and its draw.
- The retry loop around the goal draw is not written as a loop: its identity test always succeeds on the first pass, so the model takes exactly one draw.
- `Snake.length`: set once and never read or updated; the model uses the body's length.
- The optional argument of `get_next_position`: `move` passes the current direction and `set_direction` the requested one, so `NextPosition` always takes a direction.
- Python list identity and aliasing: cells are values; the source never mutates a list after it has entered the body or the goal, so value semantics lose nothing observable.
