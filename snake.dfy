/** The player's snake: a body of grid cells (head first), a travel
    direction and the two flags `paused` and `grow`. SnakeState is the value
    of a snake at one instant, with one function per operation giving the
    state after it; the class Snake updates its fields in place and each of
    its methods is proved to produce exactly that state. */
module Snakes {
  import opened Grid

  /** a is one wrapped step away from b: the two cells touch on the torus. */
  ghost predicate Adjacent(a: Cell, b: Cell) {
    exists d: Direction :: a == Wrapped(Step(b, d))
  }

  /** Each segment touches the one behind it. */
  ghost predicate Chained(body: seq<Cell>) {
    forall i :: 0 <= i < |body| - 1 ==> Adjacent(body[i], body[i + 1])
  }

  datatype SnakeState = SnakeState(body: seq<Cell>, direction: Direction, paused: bool, grow: bool) {

    /** The snake invariant: a non-empty chain of touching grid cells. */
    ghost predicate Valid() {
      && |body| > 0
      && (forall i :: 0 <= i < |body| ==> OnGrid(body[i]))
      && Chained(body)
    }

    function Head(): Cell
      requires |body| > 0
    {
      body[0]
    }

    /** Where move puts the head: one step in the current direction, wrapped. */
    function NextHead(): Cell
      requires |body| > 0
    {
      Wrapped(Step(Head(), direction))
    }

    /** The self-collision test of move (a one-cell snake never collides). */
    predicate Collides()
      requires |body| > 0
    {
      |body| > 1 && NextHead() in body
    }

    /** reset: the body shrinks to the current head. */
    function ResetBody(): (t: SnakeState)
      requires |body| > 0
      ensures |t.body| == 1 && t.Head() == Head()
      ensures t.direction == direction && t.paused == paused && t.grow == grow
    {
      this.(body := [Head()])
    }

    /** move: nothing while paused; on collision reset; otherwise push the
        wrapped next head and drop the tail unless a growth is pending. */
    function Moved(): (t: SnakeState)
      requires |body| > 0
      ensures |t.body| > 0
      ensures t.direction == direction && t.paused == paused
    {
      if paused then this
      else if Collides() then ResetBody()
      else if grow then this.(body := [NextHead()] + body, grow := false)
      else this.(body := [NextHead()] + body[..|body| - 1])
    }

    /** toggle_grow: raise the growth flag if it is not raised. */
    function GrowToggled(): (t: SnakeState)
      ensures t.grow
      ensures t.body == body && t.direction == direction && t.paused == paused
    {
      if !grow then this.(grow := true) else this
    }

    /** toggle_paused: flip the pause flag. */
    function PauseToggled(): (t: SnakeState)
      ensures t.paused != paused
      ensures t.body == body && t.direction == direction && t.grow == grow
    {
      if paused then this.(paused := false) else this.(paused := true)
    }

    /** set_direction: ignored while paused, and ignored when the unwrapped
        step in the new direction lands on the second segment. */
    function Redirected(d: Direction): (t: SnakeState)
      requires |body| > 0
      ensures t.body == body && t.paused == paused && t.grow == grow
      ensures t.direction == direction || t.direction == d
    {
      if paused then this
      else if |body| > 1 && Step(Head(), d) == body[1] then this
      else this.(direction := d)
    }
  }

  // ---------------------------------------------------------------------
  // Properties of move

  /** While paused, move changes nothing at all. */
  lemma MovedWhilePaused(s: SnakeState)
    requires |s.body| > 0 && s.paused
    ensures s.Moved() == s
  {
  }

  /** A collision (including with the tail about to be vacated) collapses
      the body to the pre-move head; direction and growth are kept. */
  lemma MovedIntoBody(s: SnakeState)
    requires |s.body| > 1 && !s.paused
    requires s.NextHead() in s.body
    ensures s.Moved().body == [s.body[0]]
    ensures s.Moved().grow == s.grow && s.Moved().direction == s.direction
  {
  }

  /** A plain move shifts the body by one cell: the new head in front, the
      old body without its last cell behind it, same length. */
  lemma MovedPlain(s: SnakeState)
    requires |s.body| > 0 && !s.paused && !s.grow && !s.Collides()
    ensures var t := s.Moved();
      && |t.body| == |s.body|
      && t.body[0] == s.NextHead()
      && t.body[1..] == s.body[..|s.body| - 1]
      && !t.grow
  {
  }

  /** A growing move keeps the whole old body behind the new head, so the
      length goes up by exactly one, and it consumes the growth. */
  lemma MovedGrowing(s: SnakeState)
    requires |s.body| > 0 && !s.paused && s.grow && !s.Collides()
    ensures var t := s.Moved();
      && |t.body| == |s.body| + 1
      && t.body[0] == s.NextHead()
      && t.body[1..] == s.body
      && !t.grow
  {
  }

  /** The length after a move: unchanged, one more, or one. */
  lemma MovedLength(s: SnakeState)
    requires |s.body| > 0
    ensures |s.Moved().body| == if s.paused then |s.body|
                                else if s.Collides() then 1
                                else if s.grow then |s.body| + 1
                                else |s.body|
  {
    if !s.paused && !s.Collides() {
      if s.grow { MovedGrowing(s); } else { MovedPlain(s); }
    }
  }

  /** The new head touches the old one. */
  lemma NextHeadAdjacent(s: SnakeState)
    requires |s.body| > 0
    ensures Adjacent(s.NextHead(), s.Head())
  {
    assert s.NextHead() == Wrapped(Step(s.Head(), s.direction));
  }

  /** A cell touching the front of a chain extends it. */
  lemma ChainedCons(c: Cell, body: seq<Cell>)
    requires |body| > 0 && Chained(body) && Adjacent(c, body[0])
    ensures Chained([c] + body)
  {
    var b := [c] + body;
    forall i | 0 <= i < |b| - 1
      ensures Adjacent(b[i], b[i + 1])
    {
      if i > 0 {
        assert b[i] == body[i - 1] && b[i + 1] == body[i];
      }
    }
  }

  /** A prefix of a chain is a chain. */
  lemma ChainedPrefix(body: seq<Cell>, n: nat)
    requires n <= |body| && Chained(body)
    ensures Chained(body[..n])
  {
    var b := body[..n];
    forall i | 0 <= i < |b| - 1
      ensures Adjacent(b[i], b[i + 1])
    {
      assert b[i] == body[i] && b[i + 1] == body[i + 1];
    }
  }

  /** move keeps the snake invariant: the body stays non-empty, every cell
      stays on the grid, and consecutive cells keep touching. */
  lemma MovedValid(s: SnakeState)
    requires s.Valid()
    ensures s.Moved().Valid()
  {
    var t := s.Moved();
    if s.paused || s.Collides() {
      return;
    }
    var next := s.NextHead();
    assert Aligned(Step(s.Head(), s.direction));
    assert OnGrid(next);
    NextHeadAdjacent(s);
    var rest := if s.grow then s.body else s.body[..|s.body| - 1];
    assert t.body == [next] + rest;
    if s.grow {
      ChainedCons(next, s.body);
    } else {
      ChainedPrefix(s.body, |s.body| - 1);
      if |rest| > 0 {
        assert rest[0] == s.Head();
        ChainedCons(next, rest);
      }
    }
    forall i | 0 <= i < |t.body|
      ensures OnGrid(t.body[i])
    {
      if i > 0 {
        assert t.body[i] == rest[i - 1] == s.body[i - 1];
      }
    }
  }

  // ---------------------------------------------------------------------
  // Growth and the flags

  /** Growth is one-shot: after toggle_grow, the first non-colliding move
      adds one cell and the second keeps the length. */
  lemma GrowthIsOneShot(s: SnakeState)
    requires |s.body| > 0 && !s.paused
    requires !s.GrowToggled().Collides()
    requires !s.GrowToggled().Moved().Collides()
    ensures |s.GrowToggled().Moved().body| == |s.body| + 1
    ensures |s.GrowToggled().Moved().Moved().body| == |s.body| + 1
    ensures !s.GrowToggled().Moved().Moved().grow
  {
    var g := s.GrowToggled();
    MovedGrowing(g);
    MovedPlain(g.Moved());
  }

  /** Calling toggle_grow twice is the same as calling it once: growths
      requested before a move do not queue. */
  lemma GrowToggledIdempotent(s: SnakeState)
    ensures s.GrowToggled().GrowToggled() == s.GrowToggled()
  {
  }

  /** toggle_paused twice restores the state. */
  lemma PauseToggledTwice(s: SnakeState)
    ensures s.PauseToggled().PauseToggled() == s
  {
  }

  // ---------------------------------------------------------------------
  // Properties of set_direction

  /** While paused, set_direction changes nothing. */
  lemma RedirectedWhilePaused(s: SnakeState, d: Direction)
    requires |s.body| > 0 && s.paused
    ensures s.Redirected(d) == s
  {
  }

  /** When the head last moved onto its cell by a plain step in direction
      `last` (no edge crossed), set_direction refuses exactly the reversal
      of `last` and accepts every other direction. */
  lemma RedirectedRefusesOnlyReversal(s: SnakeState, last: Direction, d: Direction)
    requires |s.body| > 1 && !s.paused
    requires s.body[0] == Step(s.body[1], last)
    ensures s.Redirected(d).direction == (if d == last.Reverse() then s.direction else d)
  {
    StepReverse(s.body[1], last);
  }

  /** When the head reached its cell by wrapping across an edge in direction
      `last`, the reversal is NOT refused, because the guard compares the
      unwrapped step; the next move then runs into the second segment and
      resets the snake to its head. */
  lemma ReversalAcrossEdgeResets(s: SnakeState, last: Direction)
    requires s.Valid() && |s.body| > 1 && !s.paused
    requires s.body[0] == Wrapped(Step(s.body[1], last))
    requires s.body[0] != Step(s.body[1], last)
    ensures s.Redirected(last.Reverse()).direction == last.Reverse()
    ensures s.Redirected(last.Reverse()).Moved().body == [s.body[0]]
  {
    var b1 := s.body[1];
    assert OnGrid(b1);
    StepReverse(b1, last);
    var t := s.Redirected(last.Reverse());
    WrappedStepReverse(b1, last);
    assert t.NextHead() == b1;
    MovedIntoBody(t);
  }

  /** After a wrap across an edge, set_direction accepts every direction:
      no unwrapped step from the head lands on the second segment. */
  lemma RedirectedAcrossEdgeAcceptsAll(s: SnakeState, last: Direction, d: Direction)
    requires s.Valid() && |s.body| > 1 && !s.paused
    requires s.body[0] == Wrapped(Step(s.body[1], last))
    requires s.body[0] != Step(s.body[1], last)
    ensures s.Redirected(d).direction == d
  {
  }

  /** A one-cell snake that is running accepts every direction, its own
      reversal included. */
  lemma RedirectedOneCell(s: SnakeState, d: Direction)
    requires |s.body| == 1 && !s.paused
    ensures s.Redirected(d).direction == d
  {
  }

  // ---------------------------------------------------------------------
  // The in-place object

  class Snake {
    var body: seq<Cell>
    var direction: Direction
    var paused: bool
    var grow: bool

    function State(): SnakeState
      reads this
    {
      SnakeState(body, direction, paused, grow)
    }

    ghost predicate Valid()
      reads this
    {
      State().Valid()
    }

    /** A one-cell snake at a random location, heading left, running, with
        no growth pending. */
    constructor (kx: int, ky: int)
      requires DrawInRange(kx, ky)
      ensures Valid()
      ensures State() == SnakeState([RandomLocation(kx, ky)], Left, false, false)
    {
      body := [RandomLocation(kx, ky)];
      direction := Left;
      paused := false;
      grow := false;
    }

    /** get_head: the first segment, always a grid cell. */
    function Head(): (h: Cell)
      reads this
      requires Valid()
      ensures h == body[0] && OnGrid(h)
    {
      body[0]
    }

    /** get_next_position: the unwrapped cell one step from the head; the
        opposite step from it leads back to the head. */
    function NextPosition(d: Direction): (n: Cell)
      reads this
      requires Valid()
      ensures Step(n, d.Reverse()) == Head()
      ensures Aligned(n)
    {
      Step(Head(), d)
    }

    method Move()
      requires Valid()
      modifies this
      ensures Valid()
      ensures State() == old(State()).Moved()
    {
      ghost var s := State();
      MovedValid(s);
      if !paused {
        var nextPos := NextPosition(direction);
        nextPos := WrapToGrid(nextPos);
        if |body| > 1 && nextPos in body {
          Reset();
        } else {
          body := [nextPos] + body;
          if grow {
            grow := false;
          } else {
            body := body[..|body| - 1];
          }
        }
      }
    }

    method ToggleGrow()
      requires Valid()
      modifies this
      ensures Valid()
      ensures State() == old(State()).GrowToggled()
    {
      if !grow {
        grow := true;
      }
    }

    method SetDirection(newDirection: Direction)
      requires Valid()
      modifies this
      ensures Valid()
      ensures State() == old(State()).Redirected(newDirection)
    {
      if !paused {
        if |body| <= 1 || NextPosition(newDirection) != body[1] {
          direction := newDirection;
        }
      }
    }

    method Reset()
      requires Valid()
      modifies this
      ensures Valid()
      ensures State() == old(State()).ResetBody()
    {
      var head := Head();
      body := [];
      body := [head] + body;
    }

    method TogglePaused()
      requires Valid()
      modifies this
      ensures Valid()
      ensures State() == old(State()).PauseToggled()
    {
      if paused {
        paused := false;
      } else {
        paused := true;
      }
    }
  }
}
