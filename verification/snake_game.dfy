/**
  The human-playable game: the same board driven by absolute arrow-key
  directions. One frame reads the key presses, moves the snake one block,
  then checks for collision and food.
 */
module HumanSnake {
  import opened Wrappers
  import opened Geometry
  import opened Board

  /** The key presses the game reacts to; any other key is ignored. */
  datatype Key = ArrowLeft | ArrowRight | ArrowUp | ArrowDown | OtherKey

  datatype HumanGame = HumanGame(
    direction: Direction,
    head: Point,
    snake: seq<Point>,
    score: int,
    food: Point,
    gameOver: bool)

  /**
    What a status check leaves behind: the game, the reported
    `(game_over, score)` pair (only on collision), and the unused draws.
   */
  datatype Status = Status(game: HumanGame, result: Option<(bool, int)>, draws: seq<Cell>)

  /**
    A new game: heading right, head at the centre with two segments
    trailing to the left, score zero, not over, food placed.
   */
  function Initialize(draws: seq<Cell>): (r: (HumanGame, seq<Cell>))
    requires HasFreeDraw(InitialBody(Centre), draws)
    ensures r.0.direction == Right && r.0.head == Point(320, 240)
    ensures |r.0.snake| == 3 && r.0.snake[0] == r.0.head
    ensures forall i :: 0 <= i < 2 ==> r.0.snake[i + 1] == Advance(r.0.snake[i], Left)
    ensures r.0.score == 0 && !r.0.gameOver
    ensures OnGrid(r.0.food) && r.0.food !in r.0.snake
  {
    var head := Point(Width / 2, Height / 2);
    var body := InitialBody(head);
    var (food, rest) := PlaceFood(body, draws);
    (HumanGame(Right, head, body, 0, food, false), rest)
  }

  /** The heading an arrow key asks for. */
  function KeyDirection(k: Key): Option<Direction> {
    match k
    case ArrowLeft => Some(Left)
    case ArrowRight => Some(Right)
    case ArrowUp => Some(Up)
    case ArrowDown => Some(Down)
    case OtherKey => None
  }

  /**
    One key press: an arrow key sets the heading unless it points straight
    back; every other key leaves the heading alone.
   */
  function Steer(d: Direction, k: Key): (r: Direction)
    ensures KeyDirection(k).None? ==> r == d
    ensures KeyDirection(k) == Some(Opposite(d)) ==> r == d
    ensures KeyDirection(k).Some? && KeyDirection(k).value != Opposite(d) ==> r == KeyDirection(k).value
    ensures r != Opposite(d)
  {
    if k == ArrowLeft && d != Right then Left
    else if k == ArrowRight && d != Left then Right
    else if k == ArrowUp && d != Down then Up
    else if k == ArrowDown && d != Up then Down
    else d
  }

  /**
    All key presses of one frame, as the event loop handles them: each
    press is checked against the heading left by the previous press.
   */
  function SteerEvents(d: Direction, keys: seq<Key>): (r: Direction)
    ensures r == d || exists i :: 0 <= i < |keys| && KeyDirection(keys[i]) == Some(r)
    decreases |keys|
  {
    if |keys| == 0 then d
    else
      var r := SteerEvents(Steer(d, keys[0]), keys[1..]);
      assert r != Steer(d, keys[0]) ==> exists i :: 1 <= i < |keys| && KeyDirection(keys[i]) == Some(r) by {
        if r != Steer(d, keys[0]) {
          var i :| 0 <= i < |keys[1..]| && KeyDirection(keys[1..][i]) == Some(r);
          assert keys[1..][i] == keys[i + 1];
        }
      }
      r
  }

  /** Two presses within one frame can turn the snake straight back. */
  lemma SteerEventsCanReverse()
    ensures SteerEvents(Right, [ArrowUp, ArrowLeft]) == Opposite(Right)
  {
    assert [ArrowUp, ArrowLeft][1..] == [ArrowLeft];
    assert [ArrowLeft][1..] == [];
  }

  /** A press is accepted when its heading does not point back along `last`. */
  predicate Accepted(last: Direction, k: Key) {
    KeyDirection(k).Some? && KeyDirection(k).value != Opposite(last)
  }

  /**
    The key presses of one frame checked against `last`, the heading of the
    most recent move: an accepted press replaces `current`.
   */
  function SteerAgainst(last: Direction, current: Direction, keys: seq<Key>): (r: Direction)
    ensures current != Opposite(last) ==> r != Opposite(last)
    ensures r == current || exists i :: 0 <= i < |keys| && Accepted(last, keys[i]) && KeyDirection(keys[i]) == Some(r)
    decreases |keys|
  {
    if |keys| == 0 then current
    else
      var next := if Accepted(last, keys[0]) then KeyDirection(keys[0]).value else current;
      var r := SteerAgainst(last, next, keys[1..]);
      assert r != next ==> exists i :: 1 <= i < |keys| && Accepted(last, keys[i]) && KeyDirection(keys[i]) == Some(r) by {
        if r != next {
          var i :| 0 <= i < |keys[1..]| && Accepted(last, keys[1..][i]) && KeyDirection(keys[1..][i]) == Some(r);
          assert keys[1..][i] == keys[i + 1];
        }
      }
      r
  }

  /** The steering of one frame, never reversing the heading of the last move. */
  function SteerFrame(d: Direction, keys: seq<Key>): (r: Direction)
    ensures r != Opposite(d)
    ensures r == d || exists i :: 0 <= i < |keys| && KeyDirection(keys[i]) == Some(r)
  {
    SteerAgainst(d, d, keys)
  }

  /** With at most one press per frame the corrected steering is the event loop's. */
  lemma SteerFrameAgreesOnOneKey(d: Direction, k: Key)
    ensures SteerFrame(d, [k]) == Steer(d, k) == SteerEvents(d, [k])
    ensures SteerFrame(d, []) == SteerEvents(d, []) == d
  {
    assert [k][1..] == [];
  }

  /** Move the head one block along the heading and insert it in front. */
  function MoveSnake(g: HumanGame): (r: HumanGame)
    ensures r.head == Advance(g.head, g.direction) && Adjacent(g.head, r.head)
    ensures r.snake == [r.head] + g.snake && |r.snake| == |g.snake| + 1
    ensures r.direction == g.direction && r.score == g.score && r.food == g.food && r.gameOver == g.gameOver
  {
    var x := g.head.x;
    var y := g.head.y;
    var x' := if g.direction == Right then x + BlockSize else if g.direction == Left then x - BlockSize else x;
    var y' := if g.direction == Down then y + BlockSize else if g.direction == Up then y - BlockSize else y;
    var head := Point(x', y');
    g.(head := head, snake := [head] + g.snake)
  }

  /** The head left the window or landed on a later segment. */
  function IsCollision(g: HumanGame): (r: bool)
    ensures r <==> !InBounds(g.head) || g.head in AfterHead(g.snake)
  {
    if g.head.x >= Width || g.head.x < 0 || g.head.y >= Height || g.head.y < 0 then true
    else g.head in AfterHead(g.snake)
  }

  /**
    After a move: on collision the game is over and `(true, score)` is
    reported with the body left grown; on food the score rises, the body
    keeps its new segment and food is placed again; otherwise the tail is
    dropped.
   */
  function CheckGameStatus(g: HumanGame, draws: seq<Cell>): (r: Status)
    requires |g.snake| > 0
    requires !IsCollision(g) && g.head == g.food ==> HasFreeDraw(g.snake, draws)
    ensures IsCollision(g) ==>
              r.game == g.(gameOver := true) && r.result == Some((true, g.score)) && r.draws == draws
    ensures !IsCollision(g) && g.head == g.food ==>
              && r.game.score == g.score + 1 && r.game.snake == g.snake
              && OnGrid(r.game.food) && r.game.food !in r.game.snake
              && r.result.None? && r.game.gameOver == g.gameOver && |r.draws| < |draws|
    ensures !IsCollision(g) && g.head != g.food ==>
              && r.game.score == g.score && |r.game.snake| == |g.snake| - 1
              && r.game.snake + [g.snake[|g.snake| - 1]] == g.snake
              && r.game.food == g.food && r.result.None? && r.game.gameOver == g.gameOver && r.draws == draws
    ensures r.game.direction == g.direction && r.game.head == g.head
  {
    if IsCollision(g) then
      Status(g.(gameOver := true), Some((true, g.score)), draws)
    else if g.head == g.food then
      var (food, rest) := PlaceFood(g.snake, draws);
      Status(g.(score := g.score + 1, food := food), None, rest)
    else
      Status(g.(snake := g.snake[..|g.snake| - 1]), None, draws)
  }

  /** The game after the move of one frame in heading `d`. */
  function Moved(g: HumanGame, d: Direction): HumanGame {
    MoveSnake(g.(direction := d))
  }

  /** The random draws suffice for any food the frame's move eats. */
  predicate DrawsCover(g: HumanGame, d: Direction, draws: seq<Cell>) {
    var m := Moved(g, d);
    !IsCollision(m) && m.head == m.food ==> HasFreeDraw(m.snake, draws)
  }

  /** One frame as the game loop runs it: events, move, status check. */
  function FrameAsWritten(g: HumanGame, keys: seq<Key>, draws: seq<Cell>): (r: Status)
    requires DrawsCover(g, SteerEvents(g.direction, keys), draws)
    ensures r.game.direction == SteerEvents(g.direction, keys)
    ensures r.game.head == Advance(g.head, r.game.direction)
  {
    CheckGameStatus(Moved(g, SteerEvents(g.direction, keys)), draws)
  }

  /** One frame with the corrected steering. */
  function Frame(g: HumanGame, keys: seq<Key>, draws: seq<Cell>): (r: Status)
    requires DrawsCover(g, SteerFrame(g.direction, keys), draws)
    ensures r.game.direction != Opposite(g.direction)
    ensures r.game.head == Advance(g.head, r.game.direction)
  {
    CheckGameStatus(Moved(g, SteerFrame(g.direction, keys)), draws)
  }

  /** The invariant of a running game. */
  predicate Live(g: HumanGame) {
    LiveShape(g.direction, g.head, g.snake, g.score, g.food) && !g.gameOver
  }

  lemma InitializeIsLive(draws: seq<Cell>)
    requires HasFreeDraw(InitialBody(Centre), draws)
    ensures Live(Initialize(draws).0)
  {
    InitialBodyShape();
  }

  /** Moving straight back onto the segment behind the head is always a collision. */
  lemma ReversalIsFatal(g: HumanGame)
    requires Live(g)
    ensures IsCollision(Moved(g, Opposite(g.direction)))
  {
    var m := Moved(g, Opposite(g.direction));
    assert m.head == g.snake[1];
    assert AfterHead(m.snake) == g.snake;
  }

  /**
    As written, pressing UP then LEFT within one frame while heading right
    reverses the snake into itself and ends the game.
   */
  lemma FrameAsWrittenCanReverse(g: HumanGame, draws: seq<Cell>)
    requires Live(g) && g.direction == Right
    ensures DrawsCover(g, SteerEvents(g.direction, [ArrowUp, ArrowLeft]), draws)
    ensures FrameAsWritten(g, [ArrowUp, ArrowLeft], draws).game.gameOver
  {
    SteerEventsCanReverse();
    ReversalIsFatal(g);
  }

  /** With the corrected steering a frame never moves the head onto the segment behind it. */
  lemma FrameNeverReverses(g: HumanGame, keys: seq<Key>, draws: seq<Cell>)
    requires Live(g)
    requires DrawsCover(g, SteerFrame(g.direction, keys), draws)
    ensures Frame(g, keys, draws).game.head != g.snake[1]
  {
    var d := SteerFrame(g.direction, keys);
    AdvanceInjective(g.head, d, Opposite(g.direction));
  }

  /** A move in any heading that does not end the game keeps the invariant. */
  lemma MoveKeepsLive(g: HumanGame, d: Direction, draws: seq<Cell>)
    requires Live(g)
    requires DrawsCover(g, d, draws)
    requires !CheckGameStatus(Moved(g, d), draws).game.gameOver
    ensures Live(CheckGameStatus(Moved(g, d), draws).game)
  {
    var m := Moved(g, d);
    var r := CheckGameStatus(m, draws).game;
    var head := m.head;
    assert !IsCollision(m);
    AdvanceAligned(g.head, d);
    assert OnGrid(head);
    assert head !in g.snake by {
      assert AfterHead(m.snake) == g.snake;
    }
    AdvanceOpposite(g.head, d);
    GrowKeepsShape(head, g.snake);
    if head != g.food {
      DropLastKeepsShape([head] + g.snake);
      assert r.snake == ([head] + g.snake)[..|g.snake|];
    }
  }

  /** Every frame the event loop runs that does not end the game keeps the invariant. */
  lemma FrameAsWrittenKeepsLive(g: HumanGame, keys: seq<Key>, draws: seq<Cell>)
    requires Live(g)
    requires DrawsCover(g, SteerEvents(g.direction, keys), draws)
    requires !FrameAsWritten(g, keys, draws).game.gameOver
    ensures Live(FrameAsWritten(g, keys, draws).game)
  {
    MoveKeepsLive(g, SteerEvents(g.direction, keys), draws);
  }

  /** Every frame with the corrected steering that does not end the game keeps the invariant. */
  lemma FrameKeepsLive(g: HumanGame, keys: seq<Key>, draws: seq<Cell>)
    requires Live(g)
    requires DrawsCover(g, SteerFrame(g.direction, keys), draws)
    requires !Frame(g, keys, draws).game.gameOver
    ensures Live(Frame(g, keys, draws).game)
  {
    MoveKeepsLive(g, SteerFrame(g.direction, keys), draws);
  }
}
