/**
  Geometry primitives of the snake board: the four headings, integer points,
  the window and block constants, and the one-block step along a heading.
  Screen coordinates are used throughout: x grows to the right, y grows
  downwards, so UP decreases y.
 */
module Geometry {

  /** Window width and height in pixels. */
  const Width: int := 640
  const Height: int := 480

  /** Side of one grid cell in pixels; every move is exactly one block. */
  const BlockSize: int := 20

  datatype Direction = Right | Left | Up | Down

  datatype Point = Point(x: int, y: int)

  /** The grid centre where both game modes start the head (320, 240). */
  const Centre: Point := Point(Width / 2, Height / 2)

  /** Reference definition of one quarter turn clockwise on screen. */
  function Clockwise(d: Direction): Direction {
    match d
    case Right => Down
    case Down => Left
    case Left => Up
    case Up => Right
  }

  /** Reference definition of one quarter turn counter-clockwise on screen. */
  function CounterClockwise(d: Direction): Direction {
    match d
    case Right => Up
    case Up => Left
    case Left => Down
    case Down => Right
  }

  /** The heading that points straight back. */
  function Opposite(d: Direction): Direction {
    match d
    case Right => Left
    case Left => Right
    case Up => Down
    case Down => Up
  }

  predicate Horizontal(d: Direction) {
    d == Right || d == Left
  }

  function Abs(n: int): nat {
    if n < 0 then -n else n
  }

  /** Two points one block apart along exactly one axis. */
  predicate Adjacent(p: Point, q: Point) {
    (p.y == q.y && Abs(q.x - p.x) == BlockSize) || (p.x == q.x && Abs(q.y - p.y) == BlockSize)
  }

  /** Manhattan distance, used to talk about approaching the food. */
  function Distance(p: Point, q: Point): nat {
    Abs(q.x - p.x) + Abs(q.y - p.y)
  }

  /** The point one block away from `p` along heading `d`. */
  function Advance(p: Point, d: Direction): (q: Point)
    ensures Adjacent(p, q)
    ensures Horizontal(d) <==> q.y == p.y
    ensures q.x > p.x <==> d == Right
    ensures q.x < p.x <==> d == Left
    ensures q.y > p.y <==> d == Down
    ensures q.y < p.y <==> d == Up
  {
    match d
    case Right => Point(p.x + BlockSize, p.y)
    case Left => Point(p.x - BlockSize, p.y)
    case Down => Point(p.x, p.y + BlockSize)
    case Up => Point(p.x, p.y - BlockSize)
  }

  /** Inside the window rectangle [0, Width) x [0, Height). */
  predicate InBounds(p: Point) {
    0 <= p.x < Width && 0 <= p.y < Height
  }

  /** Both coordinates are multiples of the block size. */
  predicate Aligned(p: Point) {
    p.x % BlockSize == 0 && p.y % BlockSize == 0
  }

  /** A grid cell: aligned and inside the window. */
  predicate OnGrid(p: Point) {
    Aligned(p) && InBounds(p)
  }

  /** Stepping back along the opposite heading undoes a step. */
  lemma AdvanceOpposite(p: Point, d: Direction)
    ensures Advance(Advance(p, d), Opposite(d)) == p
  {
  }

  /** Different headings lead to different neighbours. */
  lemma AdvanceInjective(p: Point, d1: Direction, d2: Direction)
    ensures Advance(p, d1) == Advance(p, d2) <==> d1 == d2
  {
  }

  /** A step keeps a point on the block lattice. */
  lemma AdvanceAligned(p: Point, d: Direction)
    requires Aligned(p)
    ensures Aligned(Advance(p, d))
  {
    var q := Advance(p, d);
    assert q.x == p.x || q.x == p.x + BlockSize || q.x == p.x - BlockSize;
    assert q.y == p.y || q.y == p.y + BlockSize || q.y == p.y - BlockSize;
    ShiftKeepsMultiple(p.x);
    ShiftKeepsMultiple(p.y);
  }

  lemma ShiftKeepsMultiple(n: int)
    requires n % BlockSize == 0
    ensures (n + BlockSize) % BlockSize == 0 && (n - BlockSize) % BlockSize == 0
  {
  }
}
