/**
 * Integer positions, displacements and half-open bounding boxes on a grid,
 * with the three-way limit test used to detect collisions with the edges.
 */
module Positions {

  /** A requested displacement along each axis. */
  datatype Delta = Delta(x: int, y: int)

  /** A grid coordinate; plain unbounded integers, no sign or range of its own. */
  datatype Position = Position(x: int, y: int)

  /** The half-open rectangle [pos, pos + size) on both axes. */
  datatype BoundingBox = BoundingBox(pos: Position, size: Delta)

  /** Component-wise equality of positions. */
  function Equal(l: Position, r: Position): (b: bool)
    ensures b <==> l == r
  {
    l.x == r.x && l.y == r.y
  }

  /** Inequality, defined as the negation of `Equal`. */
  function NotEqual(l: Position, r: Position): (b: bool)
    ensures b <==> l != r
  {
    !Equal(l, r)
  }

  /** The position displaced by `d`, the value that `+` produces. */
  function Plus(p: Position, d: Delta): Position
  {
    Position(p.x + d.x, p.y + d.y)
  }

  /** The opposite displacement. */
  function Negate(d: Delta): Delta
  {
    Delta(-d.x, -d.y)
  }

  /**
   * In-place `+=`: x and then y are incremented. A position is copied by
   * value, so updating it in place is returning its new value.
   */
  method AddAssign(p: Position, d: Delta) returns (q: Position)
    ensures q.x == p.x + d.x && q.y == p.y + d.y
    ensures q == Plus(p, d)
  {
    q := p;
    q := q.(x := q.x + d.x);
    q := q.(y := q.y + d.y);
  }

  /** `+` applies `+=` to its own copy of the left operand and returns it. */
  method Add(l: Position, d: Delta) returns (r: Position)
    ensures r == Plus(l, d)
  {
    var copy := l;
    r := AddAssign(copy, d);
  }

  /** A zero displacement leaves a position unchanged. */
  lemma PlusZero(p: Position)
    ensures Equal(Plus(p, Delta(0, 0)), p)
  {
  }

  /** Displacing by `d` and then by its opposite returns to the start. */
  lemma PlusNegate(p: Position, d: Delta)
    ensures Plus(Plus(p, d), Negate(d)) == p
    ensures d != Delta(0, 0) ==> NotEqual(Plus(p, d), p)
  {
  }

  /** Three-way test of `x` against [begin, end): -1 below, 1 at or past the end, 0 inside. */
  function TestLimitsGeneric(x: int, begin: int, end: int): (r: int)
    ensures r == -1 || r == 0 || r == 1
    ensures r == -1 <==> x < begin
    ensures r == 1 <==> begin <= x && end <= x
    ensures r == 0 <==> begin <= x < end
  {
    if x < begin then -1
    else if x >= end then 1
    else 0
  }

  /** The limit test on the x axis of a box. */
  function TestLimitsX(p: Position, bb: BoundingBox): (r: int)
    ensures r == -1 <==> p.x < bb.pos.x
    ensures r == 1 <==> bb.pos.x <= p.x && bb.pos.x + bb.size.x <= p.x
    ensures r == 0 <==> bb.pos.x <= p.x < bb.pos.x + bb.size.x
  {
    TestLimitsGeneric(p.x, bb.pos.x, bb.pos.x + bb.size.x)
  }

  /** The limit test on the y axis of a box. */
  function TestLimitsY(p: Position, bb: BoundingBox): (r: int)
    ensures r == -1 <==> p.y < bb.pos.y
    ensures r == 1 <==> bb.pos.y <= p.y && bb.pos.y + bb.size.y <= p.y
    ensures r == 0 <==> bb.pos.y <= p.y < bb.pos.y + bb.size.y
  {
    TestLimitsGeneric(p.y, bb.pos.y, bb.pos.y + bb.size.y)
  }

  /** Whether a box contains a position, stated directly on the coordinates. */
  predicate Contains(bb: BoundingBox, p: Position)
  {
    bb.pos.x <= p.x < bb.pos.x + bb.size.x && bb.pos.y <= p.y < bb.pos.y + bb.size.y
  }

  /** The x test reads only x components, the y test only y components. */
  lemma TestLimitsSeparate(p: Position, bb: BoundingBox, q: Position, cc: BoundingBox)
    ensures p.x == q.x && bb.pos.x == cc.pos.x && bb.size.x == cc.size.x ==> TestLimitsX(p, bb) == TestLimitsX(q, cc)
    ensures p.y == q.y && bb.pos.y == cc.pos.y && bb.size.y == cc.size.y ==> TestLimitsY(p, bb) == TestLimitsY(q, cc)
  {
  }

  /** Both axis tests pass exactly for the positions the box contains. */
  lemma TestLimitsContains(p: Position, bb: BoundingBox)
    ensures TestLimitsX(p, bb) == 0 && TestLimitsY(p, bb) == 0 <==> Contains(bb, p)
  {
  }
}
