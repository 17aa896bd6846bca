/**
  How the two game modes relate: they start from the same board, their
  two different boundary tests agree on grid cells, and a straight AI step
  does what a human frame without key presses does.
 */
module Modes {
  import opened Geometry
  import opened Board
  import SnakeAI
  import HumanSnake

  /**
    The AI test `x > Width - BlockSize` and the human test `x >= Width`
    (likewise for y) agree on every aligned head.
   */
  lemma BoundaryTestsAgree(g: HumanSnake.HumanGame)
    requires Aligned(g.head)
    ensures HumanSnake.IsCollision(g) == SnakeAI.IsCollision(g.head, g.snake)
  {
    var p := g.head;
    if 0 <= p.x && p.x > Width - BlockSize {
      assert p.x >= Width by {
        var k := p.x / BlockSize;
        assert p.x == BlockSize * k;
      }
    }
    if 0 <= p.y && p.y > Height - BlockSize {
      assert p.y >= Height by {
        var k := p.y / BlockSize;
        assert p.y == BlockSize * k;
      }
    }
  }

  /** Off the lattice the two tests differ: x = 630 is outside for the AI test only. */
  lemma BoundaryTestsDifferOffGrid()
    ensures SnakeAI.IsCollision(Point(630, 0), [])
    ensures !HumanSnake.IsCollision(HumanSnake.HumanGame(Right, Point(630, 0), [], 0, Point(0, 0), false))
  {
  }

  /** Both modes start from the same board for the same random draws. */
  lemma StartsAgree(draws: seq<Cell>)
    requires HasFreeDraw(InitialBody(Centre), draws)
    ensures SnakeAI.Reset(draws).0.direction == HumanSnake.Initialize(draws).0.direction
    ensures SnakeAI.Reset(draws).0.head == HumanSnake.Initialize(draws).0.head
    ensures SnakeAI.Reset(draws).0.snake == HumanSnake.Initialize(draws).0.snake
    ensures SnakeAI.Reset(draws).0.food == HumanSnake.Initialize(draws).0.food
    ensures SnakeAI.Reset(draws).1 == HumanSnake.Initialize(draws).1
  {
  }

  /** A human game holding the same board as an AI game. */
  predicate SameBoard(g: SnakeAI.Game, h: HumanSnake.HumanGame) {
    && g.direction == h.direction && g.head == h.head && g.snake == h.snake
    && g.score == h.score && g.food == h.food
  }

  /**
    Within the frame budget, a straight AI step on a live board ends,
    grows or moves the snake exactly as a human frame without key presses.
   */
  lemma StraightStepMatchesHumanFrame(g: SnakeAI.Game, h: HumanSnake.HumanGame, draws: seq<Cell>)
    requires SnakeAI.Live(g) && SameBoard(g, h) && !h.gameOver
    requires g.frame + 1 <= SnakeAI.FrameBudgetPerSegment * (|g.snake| + 1)
    requires SnakeAI.Eats(g, SnakeAI.Straight) ==> HasFreeDraw([SnakeAI.NextHead(g, SnakeAI.Straight)] + g.snake, draws)
    ensures HumanSnake.DrawsCover(h, h.direction, draws)
    ensures SnakeAI.PlayStep(g, SnakeAI.Straight, draws).gameOver
              == HumanSnake.CheckGameStatus(HumanSnake.Moved(h, h.direction), draws).game.gameOver
    ensures SameBoard(SnakeAI.PlayStep(g, SnakeAI.Straight, draws).game,
                      HumanSnake.CheckGameStatus(HumanSnake.Moved(h, h.direction), draws).game)
    ensures SnakeAI.PlayStep(g, SnakeAI.Straight, draws).draws
              == HumanSnake.CheckGameStatus(HumanSnake.Moved(h, h.direction), draws).draws
  {
    var m := HumanSnake.Moved(h, h.direction);
    var head := SnakeAI.NextHead(g, SnakeAI.Straight);
    assert m.head == head;
    assert m.snake == [head] + g.snake;
    AdvanceAligned(g.head, g.direction);
    BoundaryTestsAgree(m);
  }
}
