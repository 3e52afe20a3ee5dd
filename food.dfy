/** The food: one cell, placed at random. */
module Foods {
  import opened Grid

  class Food {
    var pos: Point

    constructor (d: Draw)
      requires ValidDraw(d)
      ensures pos == Rand(d)
    {
      pos := Rand(d);
    }

    /** Moves the food to a fresh random cell. */
    method Replace(d: Draw)
      requires ValidDraw(d)
      modifies this
      ensures pos == Rand(d)
    {
      pos := Rand(d);
    }
  }
}
