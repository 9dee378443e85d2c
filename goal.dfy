/** The goal (food): a single location on the grid. */
module Goals {
  import opened Grid

  class Goal {
    var location: Cell

    ghost predicate Valid()
      reads this
    {
      OnGrid(location)
    }

    /** A goal at a random location. */
    constructor (kx: int, ky: int)
      requires DrawInRange(kx, ky)
      ensures Valid() && location == RandomLocation(kx, ky)
    {
      location := RandomLocation(kx, ky);
    }

    /** get_location: the stored cell, which is on the grid. */
    function GetLocation(): (c: Cell)
      reads this
      requires Valid()
      ensures OnGrid(c) && c == location
    {
      location
    }

    /** set_location: store the given cell; nothing else is kept. */
    method SetLocation(newPos: Cell)
      modifies this
      ensures location == newPos
    {
      location := newPos;
    }
  }
}
