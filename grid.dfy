/** Grid cells of the play field: integer points, the four unit directions,
    the overlap test and the random placement of a cell. */
module Grid {

  /** Pixel size of one cell. */
  const SCALE: int := 12
  /** Number of cells along one side of the window. */
  const SIZE: int := 42
  /** Largest coordinate the bounds test still accepts: SIZE * SCALE. */
  const FIELD: int := SIZE * SCALE
  /** Exclusive upper bound of one random draw: SIZE - SCALE. */
  const DRAWS: int := SIZE - SCALE

  const I32_MIN: int := -0x8000_0000
  const I32_MAX: int := 0x7fff_ffff

  predicate InI32(n: int) { I32_MIN <= n <= I32_MAX }

  /** A point of the grid, in pixels; the source stores both coordinates as i32. */
  datatype Point = Point(x: int, y: int)

  const Origin: Point := Point(0, 0)
  const Up: Point := Point(0, -1)
  const Right: Point := Point(1, 0)
  const Down: Point := Point(0, 1)
  const Left: Point := Point(-1, 0)

  /** The velocity that undoes `v`. */
  function Opposite(v: Point): Point {
    Point(-v.x, -v.y)
  }

  /** One of the four unit directions a key press selects. */
  predicate IsDirection(v: Point) {
    v == Up || v == Right || v == Down || v == Left
  }

  /** A velocity the snake can have: a direction, or standing still. */
  predicate IsVelocity(v: Point) {
    v == Origin || IsDirection(v)
  }

  /** Both coordinates are whole multiples of the cell size. */
  predicate OnGrid(p: Point) {
    p.x % SCALE == 0 && p.y % SCALE == 0
  }

  /** Where a point lives. The source compares references with `ptr::eq`;
      two places are the same object exactly when they are equal here. */
  datatype Place = Segment(index: nat) | FoodCell

  /** Coordinate equality between two points that are not the same object. */
  function Overlap(p: Point, at: Place, q: Point, qAt: Place): (r: bool)
    ensures r <==> p == q && at != qAt
  {
    p.x == q.x && p.y == q.y && at != qAt
  }

  lemma OverlapNeverSelf(p: Point, at: Place)
    ensures !Overlap(p, at, p, at)
  {
  }

  lemma OverlapOfDistinct(p: Point, at: Place, q: Point, qAt: Place)
    requires at != qAt
    ensures Overlap(p, at, q, qAt) <==> p == q
  {
  }

  /** The two numbers the random generator hands out for one placement,
      each drawn from the half-open range [0, DRAWS). */
  datatype Draw = Draw(kx: nat, ky: nat)

  predicate ValidDraw(d: Draw) {
    d.kx < DRAWS && d.ky < DRAWS
  }

  /** A grid point in the square the random placement can reach. */
  predicate Placeable(p: Point) {
    OnGrid(p) && 0 <= p.x <= (DRAWS - 1) * SCALE && 0 <= p.y <= (DRAWS - 1) * SCALE
  }

  /** A random cell, given the generator's draw. */
  function Rand(d: Draw): (p: Point)
    requires ValidDraw(d)
    ensures Placeable(p)
  {
    Point(d.kx * SCALE, d.ky * SCALE)
  }

  /** Every placeable cell is the outcome of exactly one draw. */
  lemma RandOnto(p: Point)
    requires Placeable(p)
    ensures exists d :: ValidDraw(d) && Rand(d) == p
  {
    var d := Draw(p.x / SCALE, p.y / SCALE);
    assert Rand(d) == p;
  }

  lemma RandInjective(d: Draw, e: Draw)
    requires ValidDraw(d) && ValidDraw(e)
    requires Rand(d) == Rand(e)
    ensures d == e
  {
  }
}
