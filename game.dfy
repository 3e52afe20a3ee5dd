/** One tick of the game loop: steering from the pressed keys, eating,
    moving, and the two collision checks. The frame timer, keyboard polling
    and rendering are not part of this model; the pressed keys and the
    random draws arrive as parameters. */
module Games {
  import opened Grid
  import opened Snakes
  import opened Foods

  /** The arrow keys held down during a tick. */
  datatype Keys = Keys(right: bool, down: bool, left: bool, up: bool)

  /** The part of the game a tick changes: the snake and the food cell. */
  datatype State = State(body: seq<Point>, vel: Point, food: Point)

  /** The game's starting state, given the draw for the first food cell. */
  function Start(d: Draw): (r: State)
    requires ValidDraw(d)
    ensures Inv(r) && |r.body| == 1 && r.food == Rand(d)
  {
    State([Origin], Origin, Rand(d))
  }

  /** The velocity after the pressed keys are applied in the order
      Right, Down, Left, Up, each through the reversal guard. */
  function SteerAll(v: Point, len: nat, k: Keys): (r: Point)
    ensures r == v || IsDirection(r)
    ensures !(k.right || k.down || k.left || k.up) ==> r == v
  {
    var v1 := if k.right then Steer(v, len, Right, Left) else v;
    var v2 := if k.down then Steer(v1, len, Down, Up) else v1;
    var v3 := if k.left then Steer(v2, len, Left, Right) else v2;
    if k.up then Steer(v3, len, Up, Down) else v3
  }

  /** Two cells that are the same or side by side. */
  predicate Touching(p: Point, q: Point) {
    p == q || p == Moved(q, Up) || p == Moved(q, Right) || p == Moved(q, Down) || p == Moved(q, Left)
  }

  /** The body is in one piece: each segment touches the one before it. */
  predicate Connected(body: seq<Point>) {
    forall i :: 1 <= i < |body| ==> Touching(body[i - 1], body[i])
  }

  /** What the game keeps true between ticks: a non-empty body in one piece
      whose every segment is a grid cell inside the field, a velocity that is
      a unit direction or zero, and food on a cell the random placement can
      reach. */
  ghost predicate Inv(s: State) {
    && |s.body| >= 1
    && (forall i :: 0 <= i < |s.body| ==> InField(s.body[i]) && OnGrid(s.body[i]))
    && Connected(s.body)
    && IsVelocity(s.vel)
    && Placeable(s.food)
  }

  /** The first half of a tick: steer, eat (replace the food and grow), move. */
  function Advance(s: State, k: Keys, onEat: Draw): (r: State)
    requires |s.body| >= 1 && ValidDraw(onEat)
    ensures r.vel == SteerAll(s.vel, |s.body|, k)
    ensures s.body[0] == s.food ==>
      r.body == Stepped(s.body, r.vel) + [s.body[|s.body| - 1]] && r.food == Rand(onEat)
    ensures s.body[0] != s.food ==> r.body == Stepped(s.body, r.vel) && r.food == s.food
  {
    var vel := SteerAll(s.vel, |s.body|, k);
    if s.body[0] == s.food then
      SteppedAfterGrowth(s.body, vel);
      State(Stepped(s.body + [s.body[0]], vel), vel, Rand(onEat))
    else
      State(Stepped(s.body, vel), vel, s.food)
  }

  /** The state the game loop leaves after one tick. */
  function Tick(s: State, k: Keys, onEat: Draw, onHit: Draw, onOut: Draw): (r: State)
    requires |s.body| >= 1
    requires ValidDraw(onEat) && ValidDraw(onHit) && ValidDraw(onOut)
    ensures |r.body| >= 1
  {
    var moved := Advance(s, k, onEat);
    var checked := if SelfHit(moved.body) then State([Origin], Origin, Rand(onHit)) else moved;
    if !InField(checked.body[0]) then State([Origin], Origin, Rand(onOut)) else checked
  }

  /** A tick that detects a collision leaves the snake reset and the food
      moved; after a self-hit the reset head is inside the field, so the
      bounds check does not fire a second time. */
  lemma TickResetsOnCollision(s: State, k: Keys, onEat: Draw, onHit: Draw, onOut: Draw)
    requires |s.body| >= 1
    requires ValidDraw(onEat) && ValidDraw(onHit) && ValidDraw(onOut)
    requires SelfHit(Advance(s, k, onEat).body) || !InField(Advance(s, k, onEat).body[0])
    ensures Tick(s, k, onEat, onHit, onOut).body == [Origin]
    ensures Tick(s, k, onEat, onHit, onOut).vel == Origin
    ensures Tick(s, k, onEat, onHit, onOut).food
            == if SelfHit(Advance(s, k, onEat).body) then Rand(onHit) else Rand(onOut)
  {
  }

  /** A tick without a collision keeps what steering, eating and moving produced. */
  lemma TickWithoutCollision(s: State, k: Keys, onEat: Draw, onHit: Draw, onOut: Draw)
    requires |s.body| >= 1
    requires ValidDraw(onEat) && ValidDraw(onHit) && ValidDraw(onOut)
    requires !SelfHit(Advance(s, k, onEat).body) && InField(Advance(s, k, onEat).body[0])
    ensures Tick(s, k, onEat, onHit, onOut) == Advance(s, k, onEat)
  {
  }

  /** Eating without a collision grows the snake by exactly one segment,
      the tail it would otherwise have dropped, and moves the food. */
  lemma TickGrows(s: State, k: Keys, onEat: Draw, onHit: Draw, onOut: Draw)
    requires |s.body| >= 1
    requires ValidDraw(onEat) && ValidDraw(onHit) && ValidDraw(onOut)
    requires s.body[0] == s.food
    requires !SelfHit(Advance(s, k, onEat).body) && InField(Advance(s, k, onEat).body[0])
    ensures |Tick(s, k, onEat, onHit, onOut).body| == |s.body| + 1
    ensures Tick(s, k, onEat, onHit, onOut).body[|s.body|] == s.body[|s.body| - 1]
    ensures Tick(s, k, onEat, onHit, onOut).food == Rand(onEat)
  {
  }

  lemma SteerAllKeepsVelocity(v: Point, len: nat, k: Keys)
    requires IsVelocity(v)
    ensures IsVelocity(SteerAll(v, len, k))
  {
  }

  /** Moving by a velocity keeps a point on the grid. */
  lemma MovedOnGrid(p: Point, v: Point)
    requires OnGrid(p) && IsVelocity(v)
    ensures OnGrid(Moved(p, v))
  {
  }

  /** A tick keeps the snake in one piece: the moved head touches the old
      head, the other segments keep their old neighbours, and a segment kept
      by growth touches the one before it as it did before. */
  lemma TickKeepsConnected(s: State, k: Keys, onEat: Draw, onHit: Draw, onOut: Draw)
    requires |s.body| >= 1 && Connected(s.body) && IsVelocity(s.vel)
    requires ValidDraw(onEat) && ValidDraw(onHit) && ValidDraw(onOut)
    ensures Connected(Tick(s, k, onEat, onHit, onOut).body)
  {
  }

  /** Every tick preserves the game invariant. */
  lemma TickPreservesInv(s: State, k: Keys, onEat: Draw, onHit: Draw, onOut: Draw)
    requires Inv(s)
    requires ValidDraw(onEat) && ValidDraw(onHit) && ValidDraw(onOut)
    ensures Inv(Tick(s, k, onEat, onHit, onOut))
  {
    var m := Advance(s, k, onEat);
    SteerAllKeepsVelocity(s.vel, |s.body|, k);
    TickKeepsConnected(s, k, onEat, onHit, onOut);
    if SelfHit(m.body) || !InField(m.body[0]) {
      TickResetsOnCollision(s, k, onEat, onHit, onOut);
    } else {
      TickWithoutCollision(s, k, onEat, onHit, onOut);
      MovedOnGrid(s.body[0], m.vel);
      forall i | 0 <= i < |m.body|
        ensures InField(m.body[i]) && OnGrid(m.body[i])
      {
        if i >= |s.body| {
          assert m.body[i] == s.body[|s.body| - 1];
        } else if i >= 1 {
          assert m.body[i] == s.body[i - 1];
        }
      }
    }
  }

  /** In any state the game reaches, the only arithmetic of a tick, moving
      the head by the velocity, stays within the source's 32-bit coordinates. */
  lemma TickFitsI32(s: State, k: Keys)
    requires Inv(s)
    ensures InI32(Moved(s.body[0], SteerAll(s.vel, |s.body|, k)).x)
    ensures InI32(Moved(s.body[0], SteerAll(s.vel, |s.body|, k)).y)
  {
  }

  /** What the outside world supplies to one tick: the pressed keys and a
      draw for each place the tick may move the food. */
  datatype Input = Input(keys: Keys, onEat: Draw, onHit: Draw, onOut: Draw)

  predicate ValidInput(i: Input) {
    ValidDraw(i.onEat) && ValidDraw(i.onHit) && ValidDraw(i.onOut)
  }

  /** The state after one tick per input, in order. */
  function Run(s: State, inputs: seq<Input>): (r: State)
    requires |s.body| >= 1
    requires forall i :: 0 <= i < |inputs| ==> ValidInput(inputs[i])
    ensures |r.body| >= 1
    decreases |inputs|
  {
    if inputs == [] then s
    else
      var i := inputs[0];
      assert ValidInput(i);
      Run(Tick(s, i.keys, i.onEat, i.onHit, i.onOut), inputs[1..])
  }

  /** However many ticks run, the game invariant holds afterwards. */
  lemma {:induction false} RunPreservesInv(s: State, inputs: seq<Input>)
    requires Inv(s)
    requires forall i :: 0 <= i < |inputs| ==> ValidInput(inputs[i])
    ensures Inv(Run(s, inputs))
    decreases |inputs|
  {
    if inputs != [] {
      var i := inputs[0];
      assert ValidInput(i);
      TickPreservesInv(s, i.keys, i.onEat, i.onHit, i.onOut);
      RunPreservesInv(Tick(s, i.keys, i.onEat, i.onHit, i.onOut), inputs[1..]);
    }
  }

  /** Every state reachable from the start keeps its body in one piece inside
      the field, and its next move stays within 32-bit coordinates. */
  lemma ReachableStates(d: Draw, inputs: seq<Input>, k: Keys)
    requires ValidDraw(d)
    requires forall i :: 0 <= i < |inputs| ==> ValidInput(inputs[i])
    ensures Inv(Run(Start(d), inputs))
    ensures var s := Run(Start(d), inputs);
            InI32(Moved(s.body[0], SteerAll(s.vel, |s.body|, k)).x)
            && InI32(Moved(s.body[0], SteerAll(s.vel, |s.body|, k)).y)
  {
    RunPreservesInv(Start(d), inputs);
    TickFitsI32(Run(Start(d), inputs), k);
  }

  /** With a single key pressed, a snake longer than one segment that is
      moving never ends the steering step facing straight back. */
  lemma OneKeyNeverReverses(v: Point, len: nat, k: Keys)
    requires len > 1 && IsDirection(v)
    requires (if k.right then 1 else 0) + (if k.down then 1 else 0)
           + (if k.left then 1 else 0) + (if k.up then 1 else 0) == 1
    ensures SteerAll(v, len, k) != Opposite(v)
  {
  }

  /** Two keys in one tick, however, can turn a moving snake straight back:
      Down turns it, Left is then no reversal of the new velocity. A snake of
      three segments moving right along the top row then runs into itself. */
  lemma TwoKeysReverse(d: Draw)
    requires ValidDraw(d)
    ensures SteerAll(Right, 3, Keys(false, true, true, false)) == Left
    ensures var s := State([Point(24, 0), Point(12, 0), Point(0, 0)], Right, Point(348, 348));
            SelfHit(Advance(s, Keys(false, true, true, false), d).body)
  {
    var s := State([Point(24, 0), Point(12, 0), Point(0, 0)], Right, Point(348, 348));
    var m := Advance(s, Keys(false, true, true, false), d);
    assert m.body[2] == m.body[0];
  }

  /** A new snake standing on the food eats it, grows a second segment on its
      own cell, and since it does not move yet, hits itself at once. */
  lemma FoodAtOriginResetsNewSnake(onEat: Draw, onHit: Draw, onOut: Draw)
    requires ValidDraw(onEat) && ValidDraw(onHit) && ValidDraw(onOut)
    ensures Tick(State([Origin], Origin, Origin), Keys(false, false, false, false), onEat, onHit, onOut)
            == State([Origin], Origin, Rand(onHit))
  {
  }

  /** The game: a snake and a food cell, advanced one tick at a time. */
  class Game {
    var food: Food
    var snake: Snake

    ghost function Snapshot(): State
      reads this, snake, food
    {
      State(snake.body, snake.vel, food.pos)
    }

    ghost predicate Valid()
      reads this, snake, food
    {
      Inv(Snapshot())
    }

    constructor (d: Draw)
      requires ValidDraw(d)
      ensures Valid()
      ensures fresh(snake) && fresh(food)
      ensures Snapshot() == Start(d)
    {
      food := new Food(d);
      snake := new Snake();
    }

    /** The key handling of a tick: each pressed arrow key, in the order
        Right, Down, Left, Up, asks the snake to turn. */
    method ApplyKeys(k: Keys)
      requires snake.Valid()
      modifies snake
      ensures snake.Valid()
      ensures snake.body == old(snake.body)
      ensures snake.vel == SteerAll(old(snake.vel), |snake.body|, k)
    {
      ghost var n := |snake.body|;
      if k.right {
        snake.MoveRight();
      }
      ghost var v1 := snake.vel;
      if k.down {
        snake.MoveDown();
      }
      ghost var v2 := snake.vel;
      if k.left {
        snake.MoveLeft();
      }
      ghost var v3 := snake.vel;
      if k.up {
        snake.MoveUp();
      }
      assert v1 == if k.right then Steer(old(snake.vel), n, Right, Left) else old(snake.vel);
      assert v2 == if k.down then Steer(v1, n, Down, Up) else v1;
      assert v3 == if k.left then Steer(v2, n, Left, Right) else v2;
    }

    /** One tick of the game loop, once the frame timer has elapsed. */
    method Update(k: Keys, onEat: Draw, onHit: Draw, onOut: Draw)
      requires Valid()
      requires ValidDraw(onEat) && ValidDraw(onHit) && ValidDraw(onOut)
      modifies snake, food
      ensures Valid()
      ensures Snapshot() == Tick(old(Snapshot()), k, onEat, onHit, onOut)
    {
      ghost var s := Snapshot();
      ApplyKeys(k);
      ghost var v := snake.vel;

      ghost var grown := if s.body[0] == s.food then s.body + [s.body[0]] else s.body;
      if snake.Eats(food) {
        food.Replace(onEat);
        snake.LevelUp();
      }
      assert snake.body == grown;
      snake.Update();
      ghost var m := Advance(s, k, onEat);
      assert m == State(Stepped(grown, v), v, food.pos);
      assert snake.body == m.body && snake.vel == m.vel && food.pos == m.food;

      var hit := snake.HitsItSelf();
      if hit {
        food.Replace(onHit);
        snake.Reset();
      }
      ghost var c := if SelfHit(m.body) then State([Origin], Origin, Rand(onHit)) else m;
      assert snake.body == c.body && snake.vel == c.vel && food.pos == c.food;
      assert Tick(s, k, onEat, onHit, onOut)
          == if !InField(c.body[0]) then State([Origin], Origin, Rand(onOut)) else c;
      if snake.OfBounds() {
        food.Replace(onOut);
        snake.Reset();
      }
      TickPreservesInv(s, k, onEat, onHit, onOut);
    }
  }
}
