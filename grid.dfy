/** Board geometry of the snake game: the window and cell constants, grid
    cells, the four travel directions, the one-cell step, toroidal
    wrap-around and the placement of a randomly drawn cell. */
module Grid {

  const PixelSize: int := 40
  const WinWidth: int := 800
  const WinHeight: int := 800

  /** Largest index a random draw may return on each axis: the source
      computes (WIN - PIXEL_SIZE) / PIXEL_SIZE, here as an exact integer. */
  const MaxColumn: int := (WinWidth - PixelSize) / PixelSize
  const MaxRow: int := (WinHeight - PixelSize) / PixelSize

  /** A position in pixels, the source's two-element list [x, y]. */
  datatype Cell = Cell(x: int, y: int) {

    /** The coordinate stored at list index i (0 is x, 1 is y). */
    function At(i: nat): int
      requires i < 2
    {
      if i == 0 then x else y
    }

    /** This cell with the coordinate at list index i overwritten. */
    function With(i: nat, v: int): (c: Cell)
      requires i < 2
      ensures c.At(i) == v && c.At(1 - i) == At(1 - i)
    {
      if i == 0 then Cell(v, y) else Cell(x, v)
    }
  }

  /** The four direction vectors the key handler ever passes. */
  datatype Direction = Up | Right | Down | Left {

    function DX(): int {
      match this
      case Right => 1
      case Left => -1
      case _ => 0
    }

    function DY(): int {
      match this
      case Down => 1
      case Up => -1
      case _ => 0
    }

    /** The opposite direction: its vector is the negation of this one's. */
    function Reverse(): (r: Direction)
      ensures r.DX() == -DX() && r.DY() == -DY()
      ensures r != this
    {
      match this
      case Up => Down
      case Down => Up
      case Left => Right
      case Right => Left
    }
  }

  /** Window extent along list index i: WIN_WIDTH for x, WIN_HEIGHT for y. */
  function Extent(i: nat): int
    requires i < 2
  {
    if i == 0 then WinWidth else WinHeight
  }

  predicate Aligned(c: Cell) {
    c.x % PixelSize == 0 && c.y % PixelSize == 0
  }

  predicate InBounds(c: Cell) {
    0 <= c.x <= WinWidth - PixelSize && 0 <= c.y <= WinHeight - PixelSize
  }

  /** A cell the snake or the goal may occupy. */
  predicate OnGrid(c: Cell) {
    Aligned(c) && InBounds(c)
  }

  /** The cell one step of PIXEL_SIZE away from c in direction d, unwrapped. */
  function Step(c: Cell, d: Direction): Cell {
    Cell(c.x + d.DX() * PixelSize, c.y + d.DY() * PixelSize)
  }

  /** Wrap-around of one coordinate: below 0 goes to the far edge, past the
      last cell goes to 0, anything else is kept. */
  function WrapAxis(v: int, i: nat): (r: int)
    requires i < 2
    ensures 0 <= r <= Extent(i) - PixelSize
    ensures 0 <= v <= Extent(i) - PixelSize ==> r == v
    ensures v % PixelSize == 0 ==> r % PixelSize == 0
  {
    var maxValue := Extent(i);
    if v < 0 then maxValue - PixelSize
    else if v > maxValue - PixelSize then 0
    else v
  }

  /** Both coordinates wrapped. */
  function Wrapped(c: Cell): (r: Cell)
    ensures InBounds(r)
    ensures InBounds(c) ==> r == c
    ensures Aligned(c) ==> OnGrid(r)
  {
    Cell(WrapAxis(c.x, 0), WrapAxis(c.y, 1))
  }

  /** The wrap-around loop of move: for each axis, overwrite the coordinate
      of the fresh next position when it has left the window. */
  method WrapToGrid(p: Cell) returns (q: Cell)
    ensures q == Wrapped(p)
  {
    q := p;
    for i := 0 to 2
      invariant forall j :: 0 <= j < i ==> q.At(j) == WrapAxis(p.At(j), j)
      invariant forall j :: i <= j < 2 ==> q.At(j) == p.At(j)
    {
      var maxValue := if i == 0 then WinWidth else WinHeight;
      if q.At(i) < 0 {
        q := q.With(i, maxValue - PixelSize);
      } else if q.At(i) > maxValue - PixelSize {
        q := q.With(i, 0);
      }
    }
    assert q.At(0) == WrapAxis(p.x, 0) && q.At(1) == WrapAxis(p.y, 1);
  }

  /** The two indices random.randint may return for a location. */
  predicate DrawInRange(kx: int, ky: int) {
    0 <= kx <= MaxColumn && 0 <= ky <= MaxRow
  }

  /** get_random_location with the two drawn indices passed in. */
  function RandomLocation(kx: int, ky: int): (c: Cell)
    requires DrawInRange(kx, ky)
    ensures OnGrid(c)
  {
    Cell(kx * PixelSize, ky * PixelSize)
  }

  /** Every cell of the grid is a possible draw, and the draw that gives it
      is its index on each axis. */
  lemma EveryCellIsDrawable(c: Cell)
    requires OnGrid(c)
    ensures DrawInRange(c.x / PixelSize, c.y / PixelSize)
    ensures RandomLocation(c.x / PixelSize, c.y / PixelSize) == c
  {
  }

  /** Distinct draws give distinct cells. */
  lemma RandomLocationInjective(kx: int, ky: int, kx': int, ky': int)
    requires DrawInRange(kx, ky) && DrawInRange(kx', ky')
    requires RandomLocation(kx, ky) == RandomLocation(kx', ky')
    ensures kx == kx' && ky == ky'
  {
  }

  /** Stepping past the last cell lands on 0; stepping below 0 lands on the
      last cell. */
  lemma WrapAtEdges(i: nat)
    requires i < 2
    ensures WrapAxis(Extent(i), i) == 0
    ensures WrapAxis(-PixelSize, i) == Extent(i) - PixelSize
  {
  }

  /** For an aligned coordinate at most one cell outside the window, the
      wrap agrees with arithmetic modulo the window extent: the board is a
      torus. */
  lemma WrapIsModulo(v: int, i: nat)
    requires i < 2
    requires v % PixelSize == 0 && -PixelSize <= v <= Extent(i)
    ensures WrapAxis(v, i) == v % Extent(i)
  {
    if Extent(i) - PixelSize < v {
      assert v == Extent(i);
    }
  }

  /** A step undoes the opposite step. */
  lemma StepReverse(c: Cell, d: Direction)
    ensures Step(Step(c, d), d.Reverse()) == c
  {
  }

  /** On the torus too: from a grid cell, one wrapped step forward and one
      wrapped step back return to the cell. */
  lemma WrappedStepReverse(c: Cell, d: Direction)
    requires OnGrid(c)
    ensures Wrapped(Step(Wrapped(Step(c, d)), d.Reverse())) == c
  {
    AxisRoundTrip(c.x, d.DX(), 0);
    AxisRoundTrip(c.y, d.DY(), 1);
  }

  /** One grid coordinate moved by a unit step and then back, each time
      wrapped, returns to where it started. */
  lemma AxisRoundTrip(v: int, delta: int, i: nat)
    requires i < 2 && -1 <= delta <= 1
    requires v % PixelSize == 0 && 0 <= v <= Extent(i) - PixelSize
    ensures WrapAxis(WrapAxis(v + delta * PixelSize, i) - delta * PixelSize, i) == v
  {
    var m := Extent(i);
    if delta == 1 && v == m - PixelSize {
      assert WrapAxis(v + PixelSize, i) == 0;
    } else if delta == 1 {
      assert v + PixelSize <= m - PixelSize;
    } else if delta == -1 && v == 0 {
      assert WrapAxis(v - PixelSize, i) == m - PixelSize;
    }
  }

  /** The four wrapped neighbours of a grid cell are distinct from it. */
  lemma WrappedStepMoves(c: Cell, d: Direction)
    requires OnGrid(c)
    ensures Wrapped(Step(c, d)) != c
  {
    WrapIsModulo(c.x + d.DX() * PixelSize, 0);
    WrapIsModulo(c.y + d.DY() * PixelSize, 1);
  }
}
