/** The snake: a head-first sequence of segments and a velocity. */
module Snakes {
  import opened Grid
  import Foods

  /** Where `p` lands after one tick at velocity `v`: one cell per unit of `v`. */
  function Moved(p: Point, v: Point): Point {
    Point(p.x + v.x * SCALE, p.y + v.y * SCALE)
  }

  /** The body after one tick: the head moves, every other segment takes
      the place its predecessor held before the tick, the old tail is dropped. */
  function Stepped(body: seq<Point>, v: Point): (r: seq<Point>)
    requires |body| >= 1
    ensures |r| == |body|
    ensures r[0] == Moved(body[0], v)
    ensures forall i :: 1 <= i < |body| ==> r[i] == body[i - 1]
  {
    [Moved(body[0], v)] + body[..|body| - 1]
  }

  /** Some segment other than the head sits on the head's cell. */
  predicate SelfHit(body: seq<Point>)
    requires |body| >= 1
  {
    exists i :: 1 <= i < |body| && body[i] == body[0]
  }

  /** The velocity after a key press for direction `d` whose reversal is
      `back`: turning onto `back` is refused once the snake is longer than
      one segment. */
  function Steer(v: Point, len: nat, d: Point, back: Point): (r: Point)
    ensures r == v || r == d
    ensures r == v <==> v == d || (v == back && len > 1)
  {
    if v == back && len > 1 then v else d
  }

  /** A snake longer than one segment never turns straight back on one key press. */
  lemma SteerNeverReverses(v: Point, len: nat, d: Point)
    requires len > 1 && IsDirection(v) && IsDirection(d)
    ensures Steer(v, len, d, Opposite(d)) != Opposite(v)
  {
  }

  /** A growing snake: appending a copy of the head and then stepping keeps
      the old tail, where a plain step would have dropped it. */
  lemma SteppedAfterGrowth(body: seq<Point>, v: Point)
    requires |body| >= 1
    ensures Stepped(body + [body[0]], v) == Stepped(body, v) + [body[|body| - 1]]
  {
  }

  /** A point within the closed square [0, FIELD] x [0, FIELD]. */
  predicate InField(p: Point) {
    0 <= p.x <= FIELD && 0 <= p.y <= FIELD
  }

  class Snake {
    var body: seq<Point>
    var vel: Point

    /** The body is never empty, so the head always exists. */
    ghost predicate Valid()
      reads this
    {
      |body| >= 1
    }

    constructor ()
      ensures Valid()
      ensures body == [Origin] && vel == Origin
    {
      vel := Origin;
      body := [Origin];
    }

    /** The first segment; it exists because the body is never empty. */
    function Head(): (h: Point)
      reads this
      requires Valid()
      ensures h in body && h == body[0]
    {
      body[0]
    }

    /** Advances one tick: walking from the tail to the head, each segment
        copies its predecessor, then the head moves by the velocity. */
    method Update()
      requires Valid()
      modifies this
      ensures Valid()
      ensures body == Stepped(old(body), old(vel))
      ensures vel == old(vel)
    {
      var i := |body|;
      while i > 0
        invariant 0 <= i <= |body| == |old(body)|
        invariant vel == old(vel)
        invariant forall j :: 0 <= j < i ==> body[j] == old(body)[j]
        invariant forall j :: i <= j < |body| ==> body[j] == Stepped(old(body), vel)[j]
      {
        i := i - 1;
        if i == 0 {
          body := body[0 := body[0].(x := body[0].x + vel.x * SCALE)];
          body := body[0 := body[0].(y := body[0].y + vel.y * SCALE)];
        } else {
          body := body[i := body[i].(x := body[i - 1].x)];
          body := body[i := body[i].(y := body[i - 1].y)];
        }
      }
    }

    /** The head lies on the food's cell; the food is never one of the
        segments, so only the coordinates decide. */
    function Eats(food: Foods.Food): (r: bool)
      reads this, food
      requires Valid()
      ensures r <==> body[0] == food.pos
    {
      Overlap(Head(), Segment(0), food.pos, FoodCell)
    }

    /** Scans the whole body, the head included, for a segment that
        overlaps the head. */
    method HitsItSelf() returns (r: bool)
      requires Valid()
      ensures r <==> SelfHit(body)
    {
      for i := 0 to |body|
        invariant forall j :: 0 <= j < i ==> !Overlap(body[0], Segment(0), body[j], Segment(j))
      {
        if Overlap(Head(), Segment(0), body[i], Segment(i)) {
          return true;
        }
      }
      return false;
    }

    /** The head has left the closed square [0, FIELD] x [0, FIELD]. */
    function OfBounds(): (r: bool)
      reads this
      requires Valid()
      ensures r <==> !InField(body[0])
    {
      Head().x < 0 || Head().y < 0 || Head().x > FIELD || Head().y > FIELD
    }

    method Reset()
      modifies this
      ensures Valid()
      ensures body == [Origin] && vel == Origin
    {
      body := [Origin];
      vel := Origin;
    }

    /** Grows by one segment, a copy of the head placed at the end. */
    method LevelUp()
      requires Valid()
      modifies this
      ensures Valid()
      ensures body == old(body) + [old(body)[0]]
      ensures vel == old(vel)
    {
      body := body + [Point(Head().x, Head().y)];
    }

    method MoveUp()
      modifies this
      ensures body == old(body)
      ensures vel == if old(vel) == Down && |body| > 1 then old(vel) else Up
    {
      if !(vel == Down && |body| > 1) {
        vel := Up;
      }
    }

    method MoveRight()
      modifies this
      ensures body == old(body)
      ensures vel == if old(vel) == Left && |body| > 1 then old(vel) else Right
    {
      if !(vel == Left && |body| > 1) {
        vel := Right;
      }
    }

    method MoveDown()
      modifies this
      ensures body == old(body)
      ensures vel == if old(vel) == Up && |body| > 1 then old(vel) else Down
    {
      if !(vel == Up && |body| > 1) {
        vel := Down;
      }
    }

    method MoveLeft()
      modifies this
      ensures body == old(body)
      ensures vel == if old(vel) == Right && |body| > 1 then old(vel) else Left
    {
      if !(vel == Right && |body| > 1) {
        vel := Left;
      }
    }
  }
}
