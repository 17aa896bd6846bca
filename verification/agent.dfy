/**
  The learning agent: the 11-entry feature vector read from the
  environment, the bounded replay memory and its long-training batch, the
  epsilon-greedy action choice, and the per-episode statistics kept by the
  training loop.
 */
module Agent {
  import opened Wrappers
  import opened Geometry
  import opened Board
  import opened SnakeAI
  import opened QModel

  /** Replay-memory capacity and long-training batch size. */
  const MaxMemory: int := 100_000
  const BatchSize: int := 1000

  /** Discount factor handed to the trainer. */
  const Gamma: real := 0.9

  /** Episodes after which exploration stops entirely. */
  const ExplorationEpisodes: int := 80

  function Flag(b: bool): (n: int)
    ensures n == 0 || n == 1
    ensures n == 1 <==> b
  {
    if b then 1 else 0
  }

  /** The heading encoded by four flags in the order left, right, up, down. */
  function DecodeHeading(flags: seq<int>): Direction
    requires |flags| == 4
  {
    if flags[0] == 1 then Left
    else if flags[1] == 1 then Right
    else if flags[2] == 1 then Up
    else Down
  }

  /**
    The feature vector: danger straight / right / left, the heading as four
    flags (left, right, up, down), and whether the food is left, right,
    above or below the head.
   */
  function GetState(g: Game): (s: seq<int>)
    requires |g.snake| > 0
    ensures |s| == InputSize
    ensures forall i :: 0 <= i < |s| ==> s[i] == 0 || s[i] == 1
    ensures s[0] == Flag(IsCollision(Advance(g.snake[0], g.direction), g.snake))
    ensures s[1] == Flag(IsCollision(Advance(g.snake[0], Clockwise(g.direction)), g.snake))
    ensures s[2] == Flag(IsCollision(Advance(g.snake[0], CounterClockwise(g.direction)), g.snake))
    ensures s[3] + s[4] + s[5] + s[6] == 1
    ensures DecodeHeading(s[3..7]) == g.direction
    ensures s[7] == 1 <==> g.food.x < g.head.x
    ensures s[8] == 1 <==> g.food.x > g.head.x
    ensures s[9] == 1 <==> g.food.y < g.head.y
    ensures s[10] == 1 <==> g.food.y > g.head.y
    ensures s[7] + s[8] <= 1 && s[9] + s[10] <= 1
    ensures s[7] + s[8] + s[9] + s[10] == 0 <==> g.food == g.head
  {
    var danger := [StraightDanger(g), RightDanger(g), LeftDanger(g)];
    var heading := HeadingFlags(g.direction);
    var food := FoodFlags(g.head, g.food);
    var s := danger + heading + food;
    assert s[0] == danger[0] && s[1] == danger[1] && s[2] == danger[2];
    assert s[3..7] == heading;
    assert s[7] == food[0] && s[8] == food[1] && s[9] == food[2] && s[10] == food[3];
    s
  }

  /** The heading as four flags: left, right, up, down. */
  function HeadingFlags(d: Direction): (f: seq<int>)
    ensures |f| == 4 && f[0] + f[1] + f[2] + f[3] == 1
    ensures forall i :: 0 <= i < 4 ==> f[i] == 0 || f[i] == 1
    ensures DecodeHeading(f) == d
  {
    var dirL := d == Left;
    var dirR := d == Right;
    var dirU := d == Up;
    var dirD := d == Down;
    [Flag(dirL), Flag(dirR), Flag(dirU), Flag(dirD)]
  }

  /** Whether the food is left of, right of, above or below the head. */
  function FoodFlags(head: Point, food: Point): (f: seq<int>)
    ensures |f| == 4
    ensures forall i :: 0 <= i < 4 ==> f[i] == 0 || f[i] == 1
    ensures f[0] == 1 <==> food.x < head.x
    ensures f[1] == 1 <==> food.x > head.x
    ensures f[2] == 1 <==> food.y < head.y
    ensures f[3] == 1 <==> food.y > head.y
    ensures f[0] + f[1] <= 1 && f[2] + f[3] <= 1
    ensures f[0] + f[1] + f[2] + f[3] == 0 <==> food == head
  {
    [Flag(food.x < head.x), Flag(food.x > head.x), Flag(food.y < head.y), Flag(food.y > head.y)]
  }

  /** The four cells around the head, built once per state. */
  datatype Neighbours = Neighbours(left: Point, right: Point, up: Point, down: Point)

  function NeighboursOf(head: Point): (n: Neighbours)
    ensures n.left == Advance(head, Left) && n.right == Advance(head, Right)
    ensures n.up == Advance(head, Up) && n.down == Advance(head, Down)
  {
    Neighbours(Point(head.x - BlockSize, head.y), Point(head.x + BlockSize, head.y),
               Point(head.x, head.y - BlockSize), Point(head.x, head.y + BlockSize))
  }

  /** Danger straight: the cell ahead in the current heading (the program's or-chain). */
  function StraightDanger(g: Game): (f: int)
    requires |g.snake| > 0
    ensures f == Flag(IsCollision(Advance(g.snake[0], g.direction), g.snake))
  {
    var n := NeighboursOf(g.snake[0]);
    var d := g.direction;
    Flag((d == Right && IsCollision(n.right, g.snake)) ||
         (d == Left && IsCollision(n.left, g.snake)) ||
         (d == Up && IsCollision(n.up, g.snake)) ||
         (d == Down && IsCollision(n.down, g.snake)))
  }

  /** Danger right: the cell in the clockwise neighbour heading. */
  function RightDanger(g: Game): (f: int)
    requires |g.snake| > 0
    ensures f == Flag(IsCollision(Advance(g.snake[0], Clockwise(g.direction)), g.snake))
  {
    var n := NeighboursOf(g.snake[0]);
    var d := g.direction;
    Flag((d == Up && IsCollision(n.right, g.snake)) ||
         (d == Down && IsCollision(n.left, g.snake)) ||
         (d == Left && IsCollision(n.up, g.snake)) ||
         (d == Right && IsCollision(n.down, g.snake)))
  }

  /** Danger left: the cell in the counter-clockwise neighbour heading. */
  function LeftDanger(g: Game): (f: int)
    requires |g.snake| > 0
    ensures f == Flag(IsCollision(Advance(g.snake[0], CounterClockwise(g.direction)), g.snake))
  {
    var n := NeighboursOf(g.snake[0]);
    var d := g.direction;
    Flag((d == Down && IsCollision(n.right, g.snake)) ||
         (d == Up && IsCollision(n.left, g.snake)) ||
         (d == Right && IsCollision(n.up, g.snake)) ||
         (d == Left && IsCollision(n.down, g.snake)))
  }

  /** The one-hot action vector selecting index `k`. */
  function OneHot(k: int): (a: seq<int>)
    requires 0 <= k < OutputSize
    ensures |a| == OutputSize && a[k] == 1
    ensures forall j :: 0 <= j < OutputSize && j != k ==> a[j] == 0
    ensures ActionIndex(a) == k
  {
    [0, 0, 0][k := 1]
  }

  /** Action index 0, 1, 2 is straight, right turn, left turn. */
  lemma OneHotActions()
    ensures OneHot(0) == Straight && OneHot(1) == TurnRight && OneHot(2) == TurnLeft
  {
    assert OneHot(0) == [1, 0, 0];
    assert OneHot(1) == [0, 1, 0];
    assert OneHot(2) == [0, 0, 1];
  }

  /** The heading a relative action index turns to. */
  function RelativeHeading(d: Direction, k: int): Direction
    requires 0 <= k < OutputSize
  {
    if k == 0 then d else if k == 1 then Clockwise(d) else CounterClockwise(d)
  }

  /**
    The danger flags forecast the environment: flag k is set exactly when
    playing action k would collide, because the collision test during a
    step sees the old body behind the new head.
   */
  lemma DangerForecastsCollision(g: Game, k: int)
    requires |g.snake| > 0 && g.head == g.snake[0] && 0 <= k < OutputSize
    ensures NewDirection(g.direction, OneHot(k)) == RelativeHeading(g.direction, k)
    ensures GetState(g)[k] == 1 <==>
              IsCollision(NextHead(g, OneHot(k)), [NextHead(g, OneHot(k))] + g.snake)
  {
    OneHotActions();
    var d := RelativeHeading(g.direction, k);
    var p := Advance(g.head, d);
    assert NextHead(g, OneHot(k)) == p;
    assert AfterHead([p] + g.snake) == g.snake;
    assert g.snake == [g.snake[0]] + AfterHead(g.snake);
    assert p != g.snake[0];
  }

  /** A set danger flag means that action ends the episode with reward -10. */
  lemma DangerMeansGameOver(g: Game, k: int, draws: seq<Cell>)
    requires |g.snake| > 0 && g.head == g.snake[0] && 0 <= k < OutputSize
    requires GetState(g)[k] == 1
    ensures PlayStep(g, OneHot(k), draws).gameOver && PlayStep(g, OneHot(k), draws).reward == -10
  {
    DangerForecastsCollision(g, k);
  }

  /**
    A set food flag points the right way: on the grid, moving along that
    heading brings the head one block closer to the food.
   */
  lemma FoodFlagMeansCloser(g: Game, d: Direction)
    requires |g.snake| > 0 && g.head == g.snake[0] && Aligned(g.head) && Aligned(g.food)
    requires GetState(g)[7 + FoodSlot(d)] == 1
    ensures Distance(Advance(g.head, d), g.food) + BlockSize == Distance(g.head, g.food)
  {
    var h := g.head;
    var f := g.food;
    match d
    case Left =>
      assert f.x < h.x;
      AlignedGap(f.x, h.x);
    case Right =>
      assert f.x > h.x;
      AlignedGap(h.x, f.x);
    case Up =>
      assert f.y < h.y;
      AlignedGap(f.y, h.y);
    case Down =>
      assert f.y > h.y;
      AlignedGap(h.y, f.y);
  }

  /**
    On the grid a food flag is set exactly when a step along its heading
    brings the head closer to the food.
   */
  lemma FoodFlagIffCloser(g: Game, d: Direction)
    requires |g.snake| > 0 && g.head == g.snake[0] && Aligned(g.head) && Aligned(g.food)
    ensures GetState(g)[7 + FoodSlot(d)] == 1 <==> Distance(Advance(g.head, d), g.food) < Distance(g.head, g.food)
  {
    if GetState(g)[7 + FoodSlot(d)] == 1 {
      FoodFlagMeansCloser(g, d);
    }
  }

  /** Position of a heading among the food flags (left, right, up, down). */
  function FoodSlot(d: Direction): (i: int)
    ensures 0 <= i < 4
  {
    match d
    case Left => 0
    case Right => 1
    case Up => 2
    case Down => 3
  }

  lemma AlignedGap(a: int, b: int)
    requires a % BlockSize == 0 && b % BlockSize == 0 && a < b
    ensures b - a >= BlockSize
  {
    var qa := a / BlockSize;
    var qb := b / BlockSize;
    assert a == BlockSize * qa;
    assert b == BlockSize * qb;
    assert qa < qb;
  }

  /** The replay memory never holds more than its capacity. */
  type Memory = m: seq<Transition> | |m| <= MaxMemory

  /** The most recent `MaxMemory` entries of a history. */
  function Newest(h: seq<Transition>): (m: Memory)
    ensures |m| == if |h| <= MaxMemory then |h| else MaxMemory
    ensures m == h[|h| - |m|..]
  {
    if |h| <= MaxMemory then h else h[|h| - MaxMemory..]
  }

  /**
    Append a transition; when the memory is full the oldest entry is
    evicted first.
   */
  function Remember(m: Memory, t: Transition): (r: Memory)
    ensures |r| == if |m| < MaxMemory then |m| + 1 else MaxMemory
    ensures r[|r| - 1] == t
    ensures r[..|r| - 1] == m[|m| - (|r| - 1)..]
  {
    if |m| < MaxMemory then m + [t] else m[1..] + [t]
  }

  /** Remembering a list of transitions one after the other. */
  function RememberAll(m: Memory, ts: seq<Transition>): Memory
    decreases |ts|
  {
    if |ts| == 0 then m else RememberAll(Remember(m, ts[0]), ts[1..])
  }

  lemma RememberIsNewest(m: Memory, t: Transition)
    ensures Remember(m, t) == Newest(m + [t])
  {
    if |m| == MaxMemory {
      assert m[1..] + [t] == (m + [t])[1..];
    }
  }

  lemma NewestOfNewest(a: seq<Transition>, b: seq<Transition>)
    ensures Newest(Newest(a) + b) == Newest(a + b)
  {
    if |a| > MaxMemory {
      var na := Newest(a);
      var i := |a| - MaxMemory;
      assert na + b == (a + b)[i..];
      var x := Newest(na + b);
      var y := Newest(a + b);
      assert |x| == |y|;
      assert x == (a + b)[i..][|na + b| - |x|..];
    }
  }

  /**
    FIFO semantics of the bounded memory: after any sequence of appends the
    memory holds exactly the newest `MaxMemory` entries of everything
    remembered, oldest first.
   */
  lemma {:induction false} RememberAllKeepsNewest(m: Memory, ts: seq<Transition>)
    ensures RememberAll(m, ts) == Newest(m + ts)
    decreases |ts|
  {
    if |ts| == 0 {
      assert m + ts == m;
    } else {
      var m1 := Remember(m, ts[0]);
      calc {
        RememberAll(m, ts);
        RememberAll(m1, ts[1..]);
        { RememberAllKeepsNewest(m1, ts[1..]); }
        Newest(m1 + ts[1..]);
        { RememberIsNewest(m, ts[0]); }
        Newest(Newest(m + [ts[0]]) + ts[1..]);
        { NewestOfNewest(m + [ts[0]], ts[1..]); }
        Newest(m + [ts[0]] + ts[1..]);
        { assert m + [ts[0]] + ts[1..] == m + ts; }
        Newest(m + ts);
      }
    }
  }

  /** Positions into a sequence of length `n`, none repeated. */
  predicate DistinctIndices(picks: seq<int>, n: int) {
    && (forall k :: 0 <= k < |picks| ==> 0 <= picks[k] < n)
    && (forall k, l :: 0 <= k < l < |picks| ==> picks[k] != picks[l])
  }

  /** The entries at the given positions. */
  function Gather(m: seq<Transition>, picks: seq<int>): (b: seq<Transition>)
    requires forall k :: 0 <= k < |picks| ==> 0 <= picks[k] < |m|
    ensures |b| == |picks|
    ensures forall k :: 0 <= k < |picks| ==> b[k] == m[picks[k]]
  {
    seq(|picks|, k requires 0 <= k < |picks| => m[picks[k]])
  }

  lemma GatherConcat(m: seq<Transition>, a: seq<int>, b: seq<int>)
    requires forall k :: 0 <= k < |a| ==> 0 <= a[k] < |m|
    requires forall k :: 0 <= k < |b| ==> 0 <= b[k] < |m|
    ensures Gather(m, a + b) == Gather(m, a) + Gather(m, b)
  {
    var l := Gather(m, a + b);
    var r := Gather(m, a) + Gather(m, b);
    assert |l| == |r|;
    forall k | 0 <= k < |l|
      ensures l[k] == r[k]
    {
      if k < |a| {
        assert (a + b)[k] == a[k];
      } else {
        assert (a + b)[k] == b[k - |a|];
      }
    }
  }

  /** Removing one position from distinct indices below `n + 1` that used `n` leaves distinct indices below `n`. */
  lemma DropPick(picks: seq<int>, p: int, n: int)
    requires DistinctIndices(picks, n + 1) && 0 <= p < |picks| && picks[p] == n
    ensures picks == picks[..p] + [n] + picks[p + 1..]
    ensures DistinctIndices(picks[..p] + picks[p + 1..], n)
  {
    var rest := picks[..p] + picks[p + 1..];
    forall k | 0 <= k < |rest|
      ensures rest[k] == picks[if k < p then k else k + 1]
    {
    }
    forall k | 0 <= k < |rest|
      ensures 0 <= rest[k] < n
    {
      var k' := if k < p then k else k + 1;
      assert rest[k] == picks[k'] && k' != p;
    }
    forall k, l | 0 <= k < l < |rest|
      ensures rest[k] != rest[l]
    {
      var k' := if k < p then k else k + 1;
      var l' := if l < p then l else l + 1;
      assert rest[k] == picks[k'] && rest[l] == picks[l'] && k' < l';
    }
  }

  /** Gathering at positions p, n, q is gathering at p, q plus the entry at n. */
  lemma GatherSplit(m: seq<Transition>, before: seq<int>, n: int, after: seq<int>)
    requires 0 <= n < |m|
    requires forall k :: 0 <= k < |before| ==> 0 <= before[k] < |m|
    requires forall k :: 0 <= k < |after| ==> 0 <= after[k] < |m|
    ensures multiset(Gather(m, before + [n] + after)) == multiset(Gather(m, before + after)) + multiset{m[n]}
  {
    GatherConcat(m, before, [n]);
    GatherConcat(m, before + [n], after);
    GatherConcat(m, before, after);
    assert Gather(m, [n]) == [m[n]];
  }

  /** Positions all below `n` gather the same entries from a prefix of length `n`. */
  lemma GatherPrefix(m: seq<Transition>, picks: seq<int>, n: int)
    requires 0 <= n <= |m| && forall k :: 0 <= k < |picks| ==> 0 <= picks[k] < n
    ensures Gather(m, picks) == Gather(m[..n], picks)
  {
  }

  /** Sampling without replacement never yields an entry more often than it is stored. */
  lemma {:induction false} GatherSubMultiset(m: seq<Transition>, picks: seq<int>)
    requires DistinctIndices(picks, |m|)
    ensures multiset(Gather(m, picks)) <= multiset(m)
    decreases |m|
  {
    if |picks| == 0 {
      assert Gather(m, picks) == [];
    } else {
      assert 0 <= picks[0] < |m|;
      var n := |m| - 1;
      var init := m[..n];
      assert multiset(m) == multiset(init) + multiset{m[n]} by {
        assert m == init + [m[n]];
      }
      if p :| 0 <= p < |picks| && picks[p] == n {
        var rest := picks[..p] + picks[p + 1..];
        DropPick(picks, p, n);
        GatherSubMultiset(init, rest);
        GatherPrefix(m, rest, n);
        GatherSplit(m, picks[..p], n, picks[p + 1..]);
      } else {
        assert forall k :: 0 <= k < |picks| ==> 0 <= picks[k] < n;
        GatherSubMultiset(init, picks);
        GatherPrefix(m, picks, n);
      }
    }
  }

  /**
    The batch for long training: `BatchSize` entries drawn without
    replacement when memory holds more than that, otherwise the whole
    memory. The memory itself is left as it is.
   */
  function LongBatch(m: Memory, picks: seq<int>): (b: seq<Transition>)
    requires |m| > BatchSize ==> |picks| == BatchSize && DistinctIndices(picks, |m|)
    ensures |b| == if |m| > BatchSize then BatchSize else |m|
    ensures |b| <= |m|
    ensures multiset(b) <= multiset(m)
    ensures |m| <= BatchSize ==> b == m
    ensures |m| > BatchSize ==> forall k :: 0 <= k < |b| ==> b[k] == m[picks[k]]
  {
    if |m| > BatchSize then
      GatherSubMultiset(m, picks);
      Gather(m, picks)
    else
      m
  }

  /**
    The input of a long training step: the sampled batch in column form.
    With an empty memory the program's unpacking of the transposed batch
    fails, so no step is produced.
   */
  function LongTrainingInput(m: Memory, picks: seq<int>): (r: Option<TrainInput>)
    requires |m| > BatchSize ==> |picks| == BatchSize && DistinctIndices(picks, |m|)
    ensures r.None? <==> |m| == 0
    ensures r.Some? ==> r.value.Batched? && Rectangular(r.value.columns)
    ensures r.Some? ==> Zip(r.value.columns) == LongBatch(m, picks)
    ensures r.Some? ==> 0 < BatchSizeOf(r.value.columns) <= BatchSize
  {
    if |m| == 0 then None
    else
      var b := LongBatch(m, picks);
      ZipUnzip(b);
      Some(Batched(Unzip(b)))
  }

  /** The per-step short training input: the latest transition alone. */
  function ShortTrainingInput(t: Transition): (r: TrainInput)
    ensures WellShapedInput(r)
    ensures BatchSizeOf(Lift(r)) == 1 && Zip(Lift(r)) == [t]
  {
    ZipUnzip([t]);
    Single(t)
  }

  /**
    One short training step with the agent's discount: the latest transition
    alone, whose taken action is trained toward its reward when terminal and
    toward reward + 0.9 * max Q(next state) otherwise.
   */
  method TrainShortMemory(t: Transition, q: QFunction) returns (pred: seq<seq<real>>, target: seq<seq<real>>)
    requires ActionValued(q)
    requires |t.action| > 0 && ActionIndex(t.action) < OutputSize
    ensures |pred| == 1 && pred[0] == q(t.state)
    ensures |target| == 1
    ensures target[0] == q(t.state)[ActionIndex(t.action) :=
              if t.done then t.reward as real else t.reward as real + Gamma * Max(q(t.nextState))]
  {
    pred, target := TrainStep(ShortTrainingInput(t), Gamma, q);
  }

  /** Exploration threshold: positive only during the first 80 episodes. */
  function Epsilon(nGames: int): int {
    ExplorationEpisodes - nGames
  }

  /** Exactly one entry is 1 and the others are 0. */
  predicate IsOneHot(a: seq<int>) {
    && (forall j :: 0 <= j < |a| ==> a[j] == 0 || a[j] == 1)
    && exists k :: 0 <= k < |a| && a[k] == 1 && forall j :: 0 <= j < |a| && j != k ==> a[j] == 0
  }

  /**
    Epsilon-greedy choice. `explore` is the draw from [0, 200] and
    `randomMove` the draw from [0, 2]; below epsilon the random move is
    taken, otherwise the arg-max of the network's prediction.
   */
  function GetAction(nGames: nat, q: QFunction, state: seq<int>, explore: int, randomMove: int): (a: seq<int>)
    requires 0 <= explore <= 200 && 0 <= randomMove < OutputSize
    requires |q(state)| == OutputSize
    ensures |a| == OutputSize && IsOneHot(a)
    ensures explore < Epsilon(nGames) ==> a[randomMove] == 1
    ensures explore >= Epsilon(nGames) ==>
              forall j :: 0 <= j < OutputSize ==> q(state)[j] <= q(state)[ActionIndex(a)]
    ensures explore >= Epsilon(nGames) ==>
              forall j :: 0 <= j < ActionIndex(a) ==> q(state)[j] < q(state)[ActionIndex(a)]
    ensures nGames >= ExplorationEpisodes ==> a == OneHot(ArgMax(q(state)))
  {
    var epsilon := Epsilon(nGames);
    if explore < epsilon then
      OneHot(randomMove)
    else
      var prediction := q(state);
      OneHot(ArgMax(prediction))
  }

  /** Running statistics of the training loop. */
  datatype Stats = Stats(nGames: nat, record: int, totalScore: int, scores: seq<int>, means: seq<real>)

  const InitialStats: Stats := Stats(0, 0, 0, [], [])

  function Sum(s: seq<int>): int {
    if |s| == 0 then 0 else Sum(s[..|s| - 1]) + s[|s| - 1]
  }

  /** The best score seen, or 0 before any score. */
  function Best(s: seq<int>): int {
    if |s| == 0 then 0
    else
      var b := Best(s[..|s| - 1]);
      if s[|s| - 1] > b then s[|s| - 1] else b
  }

  /**
    The bookkeeping at the end of an episode: count it, record the score,
    update the running mean, and raise the record (reporting whether the
    model is saved, which happens only on a strictly better score).
   */
  function EndEpisode(st: Stats, score: int): (r: (Stats, bool))
    ensures r.0.nGames == st.nGames + 1
    ensures r.0.record >= st.record && r.0.record >= score
    ensures r.0.record == st.record || r.0.record == score
    ensures r.1 <==> score > st.record
    ensures r.0.scores == st.scores + [score]
    ensures r.0.totalScore == st.totalScore + score
    ensures r.0.means == st.means + [r.0.totalScore as real / r.0.nGames as real]
  {
    var nGames := st.nGames + 1;
    var saved := score > st.record;
    var record := if saved then score else st.record;
    var total := st.totalScore + score;
    var mean := total as real / nGames as real;
    (Stats(nGames, record, total, st.scores + [score], st.means + [mean]), saved)
  }

  /** Statistics agree with the list of episode scores. */
  predicate StatsAgree(st: Stats) {
    && st.nGames == |st.scores| == |st.means|
    && st.totalScore == Sum(st.scores)
    && st.record == Best(st.scores)
    && forall i :: 0 <= i < |st.means| ==> st.means[i] == Sum(st.scores[..i + 1]) as real / (i + 1) as real
  }

  lemma InitialStatsAgree()
    ensures StatsAgree(InitialStats)
  {
  }

  lemma EndEpisodeKeepsAgreement(st: Stats, score: int)
    requires StatsAgree(st)
    ensures StatsAgree(EndEpisode(st, score).0)
  {
    var r := EndEpisode(st, score).0;
    var s := r.scores;
    assert s[..|s| - 1] == st.scores;
    forall i | 0 <= i < |r.means|
      ensures r.means[i] == Sum(s[..i + 1]) as real / (i + 1) as real
    {
      if i < |st.means| {
        assert s[..i + 1] == st.scores[..i + 1];
      } else {
        assert s[..i + 1] == s;
      }
    }
  }

  lemma {:induction false} SumAtMostBest(s: seq<int>)
    ensures Sum(s) <= |s| * Best(s)
    ensures Best(s) >= 0
    decreases |s|
  {
    if |s| > 0 {
      var init := s[..|s| - 1];
      SumAtMostBest(init);
      assert Best(s) >= Best(init);
      assert |init| * Best(init) <= |init| * Best(s);
    }
  }

  /** The running mean never exceeds the record. */
  lemma MeanAtMostRecord(st: Stats)
    requires StatsAgree(st) && st.nGames > 0
    ensures st.means[|st.means| - 1] <= st.record as real
  {
    var s := st.scores;
    var n := |s|;
    assert s[..n] == s;
    SumAtMostBest(s);
    var total := Sum(s) as real;
    assert total <= (n as real) * (st.record as real);
    assert st.means[n - 1] == total / n as real;
  }
}
