/** The main loop, without event polling, timing and drawing: the key
    handling of a pass (arrows to set_direction, the space bar to
    toggle_paused); one tick (move the snake, and when its head has reached
    the goal, flag growth and move the goal to a freshly drawn cell); and
    any finite run of passes, each its keys followed by a tick. */
module GameLoop {
  import opened Grid
  import opened Snakes
  import opened Goals

  /** The state a tick reads and writes: the snake and the goal's cell. */
  datatype World = World(snake: SnakeState, goal: Cell) {

    ghost predicate Valid() {
      snake.Valid() && OnGrid(goal)
    }

    /** The head reached the goal in this tick (compared by value). */
    predicate Eats()
      requires |snake.body| > 0
    {
      snake.Moved().Head() == goal
    }

    /** The world after a tick in which the relocation drew `draw`. */
    function Ticked(draw: Cell): (w: World)
      requires |snake.body| > 0
      ensures |w.snake.body| > 0
    {
      var moved := snake.Moved();
      if moved.Head() == goal then World(moved.GrowToggled(), draw)
      else World(moved, goal)
    }
  }

  /** A tick keeps the snake invariant and leaves the goal on the grid. */
  lemma TickedValid(w: World, draw: Cell)
    requires w.Valid() && OnGrid(draw)
    ensures w.Ticked(draw).Valid()
  {
    MovedValid(w.snake);
  }

  /** On reaching the goal, growth is flagged and the goal takes the drawn
      cell, whatever it is: the draw may be the goal's old cell. The body is
      the one move produced; direction and pause flag are kept. */
  lemma TickedEating(w: World, draw: Cell)
    requires |w.snake.body| > 0 && w.Eats()
    ensures w.Ticked(draw).snake.grow
    ensures w.Ticked(draw).goal == draw
    ensures w.Ticked(draw).snake.body == w.snake.Moved().body
    ensures w.Ticked(draw).snake.direction == w.snake.direction
    ensures w.Ticked(draw).snake.paused == w.snake.paused
  {
  }

  /** Otherwise the tick is just the move: goal and growth flag untouched. */
  lemma TickedMissing(w: World, draw: Cell)
    requires |w.snake.body| > 0 && !w.Eats()
    ensures w.Ticked(draw) == World(w.snake.Moved(), w.goal)
    ensures w.Ticked(draw).snake.grow == w.snake.Moved().grow
  {
  }

  /** The goal may land on its own cell again: a snake standing next to the
      goal steps onto it and the relocation draws the same cell, so after
      the tick the head sits on the goal. */
  lemma GoalMayStayPut()
    ensures var w := World(SnakeState([Cell(120, 80)], Left, false, false), Cell(80, 80));
      && w.Eats()
      && w.Ticked(RandomLocation(2, 2)).goal == w.goal
      && w.Ticked(RandomLocation(2, 2)).snake.Head() == w.goal
  {
  }

  /** After eating, the next tick's move (if running and not colliding)
      makes the snake one cell longer and consumes the growth. */
  lemma EatingGrowsOnNextTick(w: World, draw: Cell, draw': Cell)
    requires |w.snake.body| > 0 && w.Eats()
    requires !w.snake.paused
    requires !w.Ticked(draw).snake.Collides()
    ensures |w.Ticked(draw).Ticked(draw').snake.body| == |w.snake.Moved().body| + 1
    ensures w.Ticked(draw).Ticked(draw').snake.grow == w.Ticked(draw).Eats()
  {
    var w1 := w.Ticked(draw);
    MovedGrowing(w1.snake);
  }

  /** A key press input_listener reacts to: an arrow key, the space bar, or
      any other key, which it ignores. */
  datatype Key = Arrow(direction: Direction) | Space | Other

  /** One key through input_listener: an arrow calls set_direction with its
      vector, the space bar calls toggle_paused. No key touches the body or
      the growth flag. */
  function HandleKey(s: SnakeState, key: Key): (t: SnakeState)
    requires |s.body| > 0
    ensures t.body == s.body && t.grow == s.grow
  {
    match key
    case Arrow(d) => s.Redirected(d)
    case Space => s.PauseToggled()
    case Other => s
  }

  /** The keys of one pass, handled in the order they arrived. */
  function Handled(s: SnakeState, keys: seq<Key>): (t: SnakeState)
    requires |s.body| > 0
    ensures t.body == s.body && t.grow == s.grow
    decreases |keys|
  {
    if keys == [] then s
    else Handled(HandleKey(s, keys[0]), keys[1..])
  }

  /** Without the space bar, the keys of a paused game change nothing. */
  lemma {:induction false} HandledWhilePaused(s: SnakeState, keys: seq<Key>)
    requires |s.body| > 0 && s.paused && Space !in keys
    ensures Handled(s, keys) == s
    decreases |keys|
  {
    if keys != [] {
      assert keys[0] in keys;
      assert forall k | k in keys[1..] :: k in keys;
      HandledWhilePaused(HandleKey(s, keys[0]), keys[1..]);
    }
  }

  /** One pass of the game loop: the keys pressed since the last pass, and
      the two randint results that a goal relocation in this pass uses. */
  datatype Pass = Pass(keys: seq<Key>, kx: int, ky: int)

  /** Every pass's draw is a possible result of the two randint calls. */
  predicate AllDrawsInRange(passes: seq<Pass>) {
    forall k :: 0 <= k < |passes| ==> DrawInRange(passes[k].kx, passes[k].ky)
  }

  /** The world after one pass: input handling, then the tick. */
  function Passed(w: World, p: Pass): (r: World)
    requires |w.snake.body| > 0 && DrawInRange(p.kx, p.ky)
    ensures |r.snake.body| > 0
  {
    World(Handled(w.snake, p.keys), w.goal).Ticked(RandomLocation(p.kx, p.ky))
  }

  /** The world after one pass per element of `passes`. */
  function Run(w: World, passes: seq<Pass>): (r: World)
    requires |w.snake.body| > 0 && AllDrawsInRange(passes)
    ensures |r.snake.body| > 0
    decreases |passes|
  {
    if passes == [] then w
    else Run(Passed(w, passes[0]), passes[1..])
  }

  /** Any number of passes, whatever keys are pressed, keeps the snake
      invariant (non-empty body, every cell on the grid, touching segments)
      and the goal on the grid. */
  lemma {:induction false} RunValid(w: World, passes: seq<Pass>)
    requires w.Valid() && AllDrawsInRange(passes)
    ensures Run(w, passes).Valid()
    decreases |passes|
  {
    if passes != [] {
      var p := passes[0];
      var handled := World(Handled(w.snake, p.keys), w.goal);
      assert handled.snake.body == w.snake.body;
      assert handled.Valid();
      TickedValid(handled, RandomLocation(p.kx, p.ky));
      RunValid(Passed(w, p), passes[1..]);
    }
  }

  /** The snake gains at most one cell per pass, whatever keys are pressed. */
  lemma {:induction false} RunLengthBound(w: World, passes: seq<Pass>)
    requires |w.snake.body| > 0 && AllDrawsInRange(passes)
    ensures |Run(w, passes).snake.body| <= |w.snake.body| + |passes|
    decreases |passes|
  {
    if passes != [] {
      MovedLength(Handled(w.snake, passes[0].keys));
      RunLengthBound(Passed(w, passes[0]), passes[1..]);
    }
  }

  /** While the game is paused and nobody presses the space bar, passes
      leave the body, the direction and the pause flag alone, whatever
      happens to the goal and the growth flag. */
  lemma {:induction false} RunWhilePaused(w: World, passes: seq<Pass>)
    requires |w.snake.body| > 0 && w.snake.paused && AllDrawsInRange(passes)
    requires forall k :: 0 <= k < |passes| ==> Space !in passes[k].keys
    ensures Run(w, passes).snake.body == w.snake.body
    ensures Run(w, passes).snake.direction == w.snake.direction
    ensures Run(w, passes).snake.paused
    decreases |passes|
  {
    if passes != [] {
      HandledWhilePaused(w.snake, passes[0].keys);
      MovedWhilePaused(w.snake);
      RunWhilePaused(Passed(w, passes[0]), passes[1..]);
    }
  }

  /** input_listener for the keys of one pass (the quit event left out). */
  method InputListener(snake: Snake, keys: seq<Key>)
    requires snake.Valid()
    modifies snake
    ensures snake.Valid()
    ensures snake.State() == Handled(old(snake.State()), keys)
  {
    ghost var start := snake.State();
    for k := 0 to |keys|
      invariant snake.Valid()
      invariant Handled(start, keys) == Handled(snake.State(), keys[k..])
    {
      match keys[k] {
        case Arrow(d) => snake.SetDirection(d);
        case Space => snake.TogglePaused();
        case Other =>
      }
      assert keys[k..][1..] == keys[k + 1..];
    }
  }

  /** The loop body of main from the move to the goal relocation. (kx, ky)
      are the two random.randint results of get_random_location. The
      retry loop around the draw stops after one draw, because its identity
      test always holds for a freshly built list. */
  method Tick(snake: Snake, goal: Goal, kx: int, ky: int)
    requires snake.Valid() && goal.Valid() && DrawInRange(kx, ky)
    modifies snake, goal
    ensures snake.Valid() && goal.Valid()
    ensures World(snake.State(), goal.location)
         == old(World(snake.State(), goal.location)).Ticked(RandomLocation(kx, ky))
  {
    snake.Move();
    if snake.Head() == goal.GetLocation() {
      snake.ToggleGrow();
      var newGoalLoc := RandomLocation(kx, ky);
      goal.SetLocation(newGoalLoc);
    }
  }

  /** The game loop of main, for as many passes as given: each pass handles
      its keys, then ticks (timing and drawing left out). */
  method Play(snake: Snake, goal: Goal, passes: seq<Pass>)
    requires snake.Valid() && goal.Valid() && AllDrawsInRange(passes)
    modifies snake, goal
    ensures snake.Valid() && goal.Valid()
    ensures World(snake.State(), goal.location)
         == Run(old(World(snake.State(), goal.location)), passes)
  {
    ghost var start := World(snake.State(), goal.location);
    for k := 0 to |passes|
      invariant snake.Valid() && goal.Valid()
      invariant Run(start, passes) == Run(World(snake.State(), goal.location), passes[k..])
    {
      InputListener(snake, passes[k].keys);
      Tick(snake, goal, passes[k].kx, passes[k].ky);
      assert passes[k..][1..] == passes[k + 1..];
    }
  }
}
