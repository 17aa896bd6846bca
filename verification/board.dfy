/**
  The playing field shared by both game modes: random grid cells, food
  placement by retrying random cells until one is off the body, and the
  shape a live snake body keeps.
 */
module Board {
  import opened Geometry

  /** Largest column and row index a random draw can produce (31 and 23). */
  const MaxCol: int := (Width - BlockSize) / BlockSize
  const MaxRow: int := (Height - BlockSize) / BlockSize

  type Col = i: int | 0 <= i <= MaxCol
  type Row = j: int | 0 <= j <= MaxRow

  /**
    One draw of the random generator during food placement: a column and a
    row index, each taken uniformly from its inclusive range.
   */
  datatype Cell = Cell(col: Col, row: Row)

  /** The pixel position of a drawn cell. */
  function CellPoint(c: Cell): (p: Point)
    ensures OnGrid(p)
  {
    Point(c.col * BlockSize, c.row * BlockSize)
  }

  /** Every grid cell can be drawn, so placement can reach every free cell. */
  lemma CellPointOnto(p: Point)
    requires OnGrid(p)
    ensures exists c: Cell :: CellPoint(c) == p
  {
    var c := Cell(p.x / BlockSize, p.y / BlockSize);
    assert CellPoint(c) == p;
  }

  /** The cells of a body behind its head (Python's `body[1:]`). */
  function AfterHead(body: seq<Point>): (r: seq<Point>)
    ensures |body| > 0 ==> body == body[..1] + r
    ensures |body| == 0 ==> r == []
  {
    if |body| == 0 then [] else body[1..]
  }

  /** Some draw in the stream lands off the body. */
  predicate HasFreeDraw(body: seq<Point>, draws: seq<Cell>) {
    exists k :: 0 <= k < |draws| && CellPoint(draws[k]) !in body
  }

  /**
    Food placement: draw a random cell; while it lies on the body, draw
    again. Returns the food and the draws left unconsumed.
   */
  function PlaceFood(body: seq<Point>, draws: seq<Cell>): (r: (Point, seq<Cell>))
    requires HasFreeDraw(body, draws)
    ensures OnGrid(r.0) && r.0 !in body
    ensures |r.1| < |draws| && r.1 == draws[|draws| - |r.1|..]
    ensures CellPoint(draws[|draws| - |r.1| - 1]) == r.0
    ensures forall k :: 0 <= k < |draws| - |r.1| - 1 ==> CellPoint(draws[k]) in body
    decreases |draws|
  {
    if CellPoint(draws[0]) !in body then
      (CellPoint(draws[0]), draws[1..])
    else
      assert HasFreeDraw(body, draws[1..]) by {
        var k :| 0 <= k < |draws| && CellPoint(draws[k]) !in body;
        assert draws[1..][k - 1] == draws[k];
      }
      PlaceFood(body, draws[1..])
  }

  /** Consecutive segments touch along one axis. */
  predicate Contiguous(body: seq<Point>) {
    forall i :: 0 <= i < |body| - 1 ==> Adjacent(body[i], body[i + 1])
  }

  /** No cell is occupied twice. */
  predicate Distinct(body: seq<Point>) {
    forall i, j :: 0 <= i < j < |body| ==> body[i] != body[j]
  }

  predicate AllOnGrid(body: seq<Point>) {
    forall i :: 0 <= i < |body| ==> OnGrid(body[i])
  }

  /** The shape of a live board: a connected, self-avoiding snake and food beside it. */
  predicate WellFormed(body: seq<Point>, food: Point) {
    && |body| >= 3
    && Contiguous(body)
    && Distinct(body)
    && AllOnGrid(body)
    && OnGrid(food)
    && food !in body
  }

  /**
    The shape of every running (not yet lost) game in both modes: a
    well-formed body led by the head, the segment behind the head lying
    opposite the heading, and three more segments than points scored.
   */
  predicate LiveShape(direction: Direction, head: Point, body: seq<Point>, score: int, food: Point) {
    && WellFormed(body, food)
    && head == body[0]
    && body[1] == Advance(head, Opposite(direction))
    && score >= 0
    && |body| == score + 3
  }

  /** The three-segment starting body, head first, trailing to the left. */
  function InitialBody(head: Point): (body: seq<Point>)
    ensures |body| == 3 && body[0] == head
    ensures body[1] == Advance(head, Left) && body[2] == Advance(body[1], Left)
  {
    [head, Point(head.x - BlockSize, head.y), Point(head.x - 2 * BlockSize, head.y)]
  }

  /** Starting from the centre, the body lies on the grid without overlap. */
  lemma InitialBodyShape()
    ensures Contiguous(InitialBody(Centre))
    ensures Distinct(InitialBody(Centre))
    ensures AllOnGrid(InitialBody(Centre))
  {
    var b := InitialBody(Centre);
    assert b == [Point(320, 240), Point(300, 240), Point(280, 240)];
  }

  /** Prepending a fresh head adjacent to the old one keeps the body well shaped. */
  lemma GrowKeepsShape(head: Point, body: seq<Point>)
    requires |body| > 0 && Adjacent(head, body[0]) && OnGrid(head) && head !in body
    requires Contiguous(body) && Distinct(body) && AllOnGrid(body)
    ensures Contiguous([head] + body) && Distinct([head] + body) && AllOnGrid([head] + body)
  {
    var b := [head] + body;
    forall i | 0 <= i < |b| - 1
      ensures Adjacent(b[i], b[i + 1])
    {
      if i > 0 {
        assert b[i] == body[i - 1] && b[i + 1] == body[i];
      }
    }
    forall i, j | 0 <= i < j < |b|
      ensures b[i] != b[j]
    {
      assert b[j] == body[j - 1];
      if i > 0 {
        assert b[i] == body[i - 1];
      }
    }
  }

  /** Dropping the last cell keeps the body well shaped. */
  lemma DropLastKeepsShape(body: seq<Point>)
    requires |body| > 0 && Contiguous(body) && Distinct(body) && AllOnGrid(body)
    ensures Contiguous(body[..|body| - 1]) && Distinct(body[..|body| - 1]) && AllOnGrid(body[..|body| - 1])
  {
    var b := body[..|body| - 1];
    forall i | 0 <= i < |b| - 1
      ensures Adjacent(b[i], b[i + 1])
    {
      assert b[i] == body[i] && b[i + 1] == body[i + 1];
    }
  }
}
