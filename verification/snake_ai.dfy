/**
  The reinforcement-learning environment: a snake driven by relative
  actions [straight, right, left], one `PlayStep` per frame, with reward,
  termination and growth.
 */
module SnakeAI {
  import opened Geometry
  import opened Board

  /** The clockwise cycle used for relative turns. */
  const ClockwiseCycle: seq<Direction> := [Right, Down, Left, Up]

  /** Actions are one-hot lists over [straight, turn right, turn left]. */
  const Straight: seq<int> := [1, 0, 0]
  const TurnRight: seq<int> := [0, 1, 0]
  const TurnLeft: seq<int> := [0, 0, 1]

  /** Frames allowed per body segment before an idle episode is ended. */
  const FrameBudgetPerSegment: int := 100

  /** The environment's state; `frame` counts steps since the last reset. */
  datatype Game = Game(
    direction: Direction,
    head: Point,
    snake: seq<Point>,
    score: int,
    food: Point,
    frame: int)

  /** What one step reports, with the random draws it did not consume. */
  datatype Step = Step(game: Game, reward: int, gameOver: bool, score: int, draws: seq<Cell>)

  /** Position of a heading in the clockwise cycle (`list.index`). */
  function ClockIndex(d: Direction): (i: nat)
    ensures i < |ClockwiseCycle| && ClockwiseCycle[i] == d
  {
    match d
    case Right => 0
    case Down => 1
    case Left => 2
    case Up => 3
  }

  /**
    The heading after a relative action: [1,0,0] keeps it, [0,1,0] takes the
    next heading clockwise, anything else the previous one.
   */
  function NewDirection(d: Direction, action: seq<int>): (r: Direction)
    ensures action == Straight ==> r == d
    ensures action == TurnRight ==> r == Clockwise(d)
    ensures action != Straight && action != TurnRight ==> r == CounterClockwise(d)
  {
    var idx := ClockIndex(d);
    if action == Straight then ClockwiseCycle[idx]
    else if action == TurnRight then ClockwiseCycle[(idx + 1) % 4]
    else ClockwiseCycle[(idx - 1) % 4]
  }

  /** A right turn followed by a left turn restores the heading. */
  lemma RightThenLeft(d: Direction)
    ensures NewDirection(NewDirection(d, TurnRight), TurnLeft) == d
  {
  }

  /** Four right turns restore the heading. */
  lemma FourRightTurns(d: Direction)
    ensures NewDirection(NewDirection(NewDirection(NewDirection(d, TurnRight), TurnRight), TurnRight), TurnRight) == d
  {
  }

  /** Where the head goes when `action` is played. */
  function NextHead(g: Game, action: seq<int>): (p: Point)
    ensures Adjacent(g.head, p)
  {
    Advance(g.head, NewDirection(g.direction, action))
  }

  /**
    Collision test for an arbitrary point against a body: out of the
    playing field, or on a body cell other than the first.
   */
  function IsCollision(pt: Point, snake: seq<Point>): (r: bool)
    ensures !InBounds(pt) ==> r
    ensures pt in AfterHead(snake) ==> r
    ensures !r ==> InBounds(pt) && pt !in AfterHead(snake)
    ensures Aligned(pt) ==> (r <==> !OnGrid(pt) || pt in AfterHead(snake))
  {
    if pt.x > Width - BlockSize || pt.x < 0 || pt.y > Height - BlockSize || pt.y < 0 then
      true
    else
      pt in AfterHead(snake)
  }

  /** Whether playing `action` ends the episode. */
  predicate Ends(g: Game, action: seq<int>) {
    var head := NextHead(g, action);
    IsCollision(head, [head] + g.snake) || g.frame + 1 > FrameBudgetPerSegment * |[head] + g.snake|
  }

  /** Whether playing `action` eats the food (and so needs a new food cell). */
  predicate Eats(g: Game, action: seq<int>) {
    !Ends(g, action) && NextHead(g, action) == g.food
  }

  /**
    Start a new episode: heading right, head at the centre with two segments
    trailing to the left, score and frame counter zero, food placed.
   */
  function Reset(draws: seq<Cell>): (r: (Game, seq<Cell>))
    requires HasFreeDraw(InitialBody(Centre), draws)
    ensures r.0.direction == Right
    ensures r.0.head == Centre && r.0.snake == [Centre, Point(Centre.x - BlockSize, Centre.y), Point(Centre.x - 2 * BlockSize, Centre.y)]
    ensures r.0.score == 0 && r.0.frame == 0
    ensures OnGrid(r.0.food) && r.0.food !in r.0.snake
    ensures |r.1| < |draws|
  {
    var body := InitialBody(Centre);
    var (food, rest) := PlaceFood(body, draws);
    (Game(Right, Centre, body, 0, food, 0), rest)
  }

  /**
    One environment step. The frame counter goes up, the head moves and is
    inserted, then: on collision or an exhausted frame budget the episode
    ends with reward -10 and the body left grown; on food the score and body
    grow and new food is placed; otherwise the tail is dropped.
   */
  function PlayStep(g: Game, action: seq<int>, draws: seq<Cell>): (o: Step)
    requires Eats(g, action) ==> HasFreeDraw([NextHead(g, action)] + g.snake, draws)
    ensures o.game.frame == g.frame + 1
    ensures o.game.direction == NewDirection(g.direction, action)
    ensures o.game.head == Advance(g.head, o.game.direction)
    ensures o.score == o.game.score
    ensures o.gameOver <==>
              IsCollision(o.game.head, [o.game.head] + g.snake)
              || o.game.frame > FrameBudgetPerSegment * (|g.snake| + 1)
    ensures o.gameOver ==>
              && o.reward == -10 && o.score == g.score
              && o.game.snake == [o.game.head] + g.snake
              && o.game.food == g.food && o.draws == draws
    ensures !o.gameOver && o.game.head == g.food ==>
              && o.reward == 10 && o.score == g.score + 1
              && o.game.snake == [o.game.head] + g.snake
              && OnGrid(o.game.food) && o.game.food !in o.game.snake
              && |o.draws| < |draws|
    ensures !o.gameOver && o.game.head != g.food ==>
              && o.reward == 0 && o.score == g.score
              && |o.game.snake| == |g.snake|
              && (|g.snake| > 0 ==> o.game.snake == [o.game.head] + g.snake[..|g.snake| - 1])
              && o.game.food == g.food && o.draws == draws
  {
    var frame := g.frame + 1;
    var direction := NewDirection(g.direction, action);
    var head := Advance(g.head, direction);
    var snake := [head] + g.snake;
    var moved := Game(direction, head, snake, g.score, g.food, frame);
    if IsCollision(head, snake) || frame > FrameBudgetPerSegment * |snake| then
      Step(moved, -10, true, g.score, draws)
    else if head == g.food then
      var (food, rest) := PlaceFood(snake, draws);
      Step(moved.(score := g.score + 1, food := food), 10, false, g.score + 1, rest)
    else
      assert |g.snake| == 0 || snake[..|snake| - 1] == [head] + g.snake[..|g.snake| - 1];
      Step(moved.(snake := snake[..|snake| - 1]), 0, false, g.score, draws)
  }

  /**
    The invariant of every non-terminal state: the head leads a well-formed
    body, the segment behind the head lies opposite the heading, and the
    body is exactly three segments longer than the score.
   */
  predicate Live(g: Game) {
    LiveShape(g.direction, g.head, g.snake, g.score, g.food) && g.frame >= 0
  }

  lemma ResetIsLive(draws: seq<Cell>)
    requires HasFreeDraw(InitialBody(Centre), draws)
    ensures Live(Reset(draws).0)
  {
    InitialBodyShape();
  }

  /** Every step that does not end the episode keeps the invariant. */
  lemma PlayStepKeepsLive(g: Game, action: seq<int>, draws: seq<Cell>)
    requires Live(g)
    requires Eats(g, action) ==> HasFreeDraw([NextHead(g, action)] + g.snake, draws)
    requires !PlayStep(g, action, draws).gameOver
    ensures Live(PlayStep(g, action, draws).game)
  {
    var o := PlayStep(g, action, draws);
    var head := o.game.head;
    AdvanceAligned(g.head, o.game.direction);
    assert OnGrid(head);
    assert head !in g.snake by {
      assert AfterHead([head] + g.snake) == g.snake;
    }
    assert Adjacent(head, g.snake[0]) by {
      AdvanceOpposite(g.head, o.game.direction);
    }
    GrowKeepsShape(head, g.snake);
    AdvanceOpposite(g.head, o.game.direction);
    if head != g.food {
      DropLastKeepsShape([head] + g.snake);
      assert ([head] + g.snake)[..|g.snake|] == o.game.snake;
    }
  }

  /**
    Moving into the cell the tail currently occupies ends the episode: the
    collision test runs before the tail is dropped.
   */
  lemma TailCellIsFatal(g: Game, action: seq<int>, draws: seq<Cell>)
    requires |g.snake| >= 2 && NextHead(g, action) == g.snake[|g.snake| - 1]
    ensures PlayStep(g, action, draws).gameOver
  {
    var head := NextHead(g, action);
    assert AfterHead([head] + g.snake) == g.snake;
  }

  /** A step taken after the frame budget is used up always ends the episode. */
  lemma IdleEpisodeEnds(g: Game, action: seq<int>, draws: seq<Cell>)
    requires g.frame >= FrameBudgetPerSegment * (|g.snake| + 1)
    ensures PlayStep(g, action, draws).gameOver && PlayStep(g, action, draws).reward == -10
  {
  }
}
