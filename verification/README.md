# Snake-Intelligence: the game state machine and the DQN agent's rules, in Dafny

This project models the deterministic core of a snake reinforcement-learning
testbed:

- the **AI environment** (`SnakeGameAI`): reset, relative turning over the
  clockwise cycle RIGHT → DOWN → LEFT → UP, the one-block head advance, the
  collision test, and the `play_step` transition with its frame budget,
  rewards, growth and tail drop;
- the **agent** (`Agent` and the `train` loop): the 11-entry feature vector,
  the bounded replay memory, the long-training batch, the epsilon-greedy
  one-hot action, and the episode statistics (games, record, save-on-record,
  running mean);
- the **trainer** (`QTrainer.train_step`): lifting a single transition to a
  batch of one and building the Bellman target row by row, with the network
  as an abstract function to reals, plus the shape of `Linear_QNet.forward`;
- the **human-mode game** (`Snake`): initial state, the no-reversal arrow-key
  rule, `move_snake`, `is_collision` and `check_game_status`.

Modules follow the program's structure: `Geometry` (directions, points,
constants 640 × 480 and block 20), `Board` (random grid cells, food
placement, body shape), `SnakeAI`, `QModel`, `Agent`, `HumanSnake`, and
`Modes` for lemmas relating the two game modes. `Wrappers` holds `Option`.

Randomness is a parameter. Food placement takes a stream of random cells
and retries until one is off the body, as the program's recursion does. Its
precondition says some draw in the stream is free. `random.sample` becomes
a caller-supplied list of distinct positions. The two `randint` draws of
`get_action` become arguments.

Behaviour of the code worth knowing, which the model keeps:

- Stepping into the cell the tail occupies is a collision, even though the
  tail leaves it this tick: the test runs after the head is inserted and
  before the tail is popped (`SnakeAI.TailCellIsFatal`).
- Epsilon is `80 - n_games` and goes negative. The draw is never negative,
  so from 80 games on the random branch is never taken.
- With an empty memory, long training cannot unpack the transposed batch.
  `Agent.LongTrainingInput` returns `None` there.
- Several key presses in one human-mode frame can reverse the snake (see
  "## Findings"). `HumanSnake.FrameAsWritten` is the frame as the program
  runs it; `HumanSnake.SteerAgainst`, `HumanSnake.SteerFrame`,
  `HumanSnake.Frame` and `HumanSnake.FrameNeverReverses` are the corrected
  steering.

## Model

| member | source | states |
|---|---|---|
| Geometry.Advance | ai/snake_ai.py:170-181 | the new point is one block from the old along the heading's axis, the other coordinate unchanged, on the side the heading names |
| Geometry.AdvanceOpposite | ai/snake_ai.py:170-181 | a step followed by a step in the opposite heading returns to the start |
| Board.CellPoint | ai/snake_ai.py:64-66 | every drawn cell is an aligned point inside the window |
| Board.CellPointOnto | ai/snake_ai.py:64-65 | every aligned in-window point can be drawn |
| Board.PlaceFood | ai/snake_ai.py:60-68 | the food is an aligned in-window cell off the body; it is the first free draw and every earlier draw hit the body (same rule at game/snake.py:33-39) |
| Board.InitialBody | ai/snake_ai.py:50-54 | three segments, head first, each next one a block to the left |
| SnakeAI.ClockIndex | ai/snake_ai.py:156-157 | the index of the heading in the clockwise list holds that heading |
| SnakeAI.NewDirection | ai/snake_ai.py:156-168 | [1,0,0] keeps the heading, [0,1,0] turns clockwise, every other vector turns counter-clockwise |
| SnakeAI.RightThenLeft | ai/snake_ai.py:156-168 | a right turn then a left turn restores the heading |
| SnakeAI.FourRightTurns | ai/snake_ai.py:156-168 | four right turns restore the heading |
| SnakeAI.IsCollision | ai/snake_ai.py:115-133 | out of the window or on a body cell after the first implies collision; for aligned points, collision iff off the grid or on a later segment |
| SnakeAI.Reset | ai/snake_ai.py:44-58 | heading right, body [c, c-(20,0), c-(40,0)] at the centre, score 0, frame 0, food on the grid and off the body |
| SnakeAI.PlayStep | ai/snake_ai.py:70-113 | frame +1; game over iff collision of the inserted head or frame > 100·(length after insert); then reward -10, score kept, body grown; on food reward 10, score +1, body grown, new food off the body; otherwise reward 0 and the old last cell dropped |
| SnakeAI.ResetIsLive | ai/snake_ai.py:44-58 | a reset board is live: contiguous, self-avoiding, on the grid, food off the body, neck behind the head, length = score + 3 |
| SnakeAI.PlayStepKeepsLive | ai/snake_ai.py:88-106 | every step that does not end the episode keeps the board live |
| SnakeAI.TailCellIsFatal | ai/snake_ai.py:89-95 | moving into the current tail cell ends the episode |
| SnakeAI.IdleEpisodeEnds | ai/snake_ai.py:95-97 | once the frame budget is spent, the next step ends the episode with reward -10 |
| QModel.ArgMax | ai/model.py:129 | the index holds a largest entry and every earlier entry is strictly smaller (first maximum) |
| QModel.Max | ai/model.py:127 | the result bounds every entry and is one of them |
| QModel.MaxAtArgMax | ai/model.py:127-129 | the maximum is the entry at the arg-max |
| QModel.ActionIndex | ai/model.py:129 | the selected column holds the first largest action entry |
| QModel.Unzip | ai/agent.py:137 | the column form has five columns of the batch's length |
| QModel.ZipUnzip | ai/agent.py:137 | transposing a batch to columns and back gives the batch |
| QModel.UnzipZip | ai/agent.py:137 | transposing columns to a batch and back gives the columns |
| QModel.Lift | ai/model.py:112-118 | a single transition becomes the column form of a batch of one; a batch is kept |
| QModel.BuildTargets | ai/model.py:123-129 | target has pred's dimensions; per row only the taken action's entry changes, to the reward when terminal and to reward + gamma·max Q(next) otherwise |
| QModel.TrainStep | ai/model.py:106-129 | one prediction row per lifted transition; every target row, batched or single, is its prediction row with the taken entry replaced by the reward (terminal) or reward + gamma·max Q(next); a single transition gives exactly one such row |
| QModel.Affine | ai/model.py:22-23 | a layer yields one value per output row |
| QModel.Relu | ai/model.py:39 | each hidden value is non-negative, at least its input, and equals the input or 0 |
| QModel.ReluIdempotent | ai/model.py:39 | rectifying twice equals rectifying once |
| QModel.Hidden | ai/model.py:39 | linear1 then ReLU gives 256 non-negative values |
| QModel.Forward | ai/model.py:25-41 | the forward pass gives one value per action |
| Agent.GetState | ai/agent.py:50-107 | 11 entries, each 0 or 1; danger flags test the cells ahead, clockwise and counter-clockwise; exactly one heading flag, decoding to the heading; each food flag set iff the food lies on its side; all food flags 0 iff food is on the head |
| Agent.StraightDanger | ai/agent.py:76-80 | the or-chain equals the collision test one block ahead in the heading |
| Agent.RightDanger | ai/agent.py:82-86 | the or-chain equals the collision test one block ahead in the clockwise heading |
| Agent.LeftDanger | ai/agent.py:88-92 | the or-chain equals the collision test one block ahead in the counter-clockwise heading |
| Agent.HeadingFlags | ai/agent.py:70-73 | exactly one of the four flags is set and the flags decode to the heading |
| Agent.FoodFlags | ai/agent.py:101-104 | each flag is set iff the food lies on its side (left, right, above, below); left/right never both, up/down never both, all zero iff food equals head |
| Agent.OneHot | ai/agent.py:175-183 | length 3, a 1 at the chosen index, 0 elsewhere, and argmax recovers the index |
| Agent.OneHotActions | ai/agent.py:175-183 | action indices 0, 1, 2 are the vectors straight, right, left of the environment |
| Agent.DangerForecastsCollision | ai/agent.py:76-92 | danger flag k is set iff playing action k collides in the environment's step |
| Agent.DangerMeansGameOver | ai/agent.py:76-92 | a set danger flag means that action ends the episode with reward -10 |
| Agent.FoodFlagMeansCloser | ai/agent.py:101-104 | on the grid, moving toward a set food flag brings the head one block closer to the food |
| Agent.FoodFlagIffCloser | ai/agent.py:101-104 | on the grid, a food flag is set iff a step along its heading brings the head closer to the food |
| Agent.Newest | ai/agent.py:46 | the newest min(n, 100000) entries of a history, in order |
| Agent.Remember | ai/agent.py:109-126 | the transition is appended last; length grows by one up to 100000; when full the oldest entry is the one dropped |
| Agent.RememberIsNewest | ai/agent.py:126 | one append keeps the newest 100000 entries |
| Agent.RememberAllKeepsNewest | ai/agent.py:46 | after any sequence of appends the memory is exactly the newest 100000 transitions, oldest first |
| Agent.GatherSubMultiset | ai/agent.py:133 | drawing at distinct positions never yields an entry more often than memory holds it |
| Agent.LongBatch | ai/agent.py:128-135 | more than 1000 stored: 1000 entries from distinct positions; otherwise the whole memory; never more than stored, as a sub-multiset |
| Agent.LongTrainingInput | ai/agent.py:128-138 | no step iff memory is empty; otherwise a column batch of at most 1000 rows that transposes back to the sampled batch |
| Agent.ShortTrainingInput | ai/agent.py:140-157 | the latest transition alone, as a batch of one |
| Agent.TrainShortMemory | ai/agent.py:140-157 | one row whose taken action is trained toward the reward when terminal, else reward + 0.9·max Q(next), every other entry kept from the prediction |
| Agent.GetAction | ai/agent.py:159-185 | one-hot of length 3; below epsilon the random move; otherwise the first move of maximal predicted value; from 80 games on always the arg-max |
| Agent.EndEpisode | ai/agent.py:216-231 | games +1; record is the larger of old record and score; saved iff score beats the record; total and mean updated |
| Agent.InitialStatsAgree | ai/agent.py:192-195 | the empty statistics agree with the empty score list |
| Agent.EndEpisodeKeepsAgreement | ai/agent.py:216-231 | games, total, record and means stay the count, sum, best and prefix means of the scores |
| Agent.MeanAtMostRecord | ai/agent.py:222-230 | the running mean never exceeds the record |
| HumanSnake.Initialize | game/snake.py:22-30 | heading right, head at (320, 240), three contiguous segments trailing left, score 0, not over, food on the grid off the body |
| HumanSnake.Steer | game/snake.py:57-65 | an arrow key for the opposite heading is ignored, any other arrow key sets its heading, other keys change nothing; never the reverse |
| HumanSnake.SteerEvents | game/snake.py:53-65 | the frame's presses applied in order, each against the heading left by the previous one; the result is the old heading or a pressed one |
| HumanSnake.SteerEventsCanReverse | game/snake.py:53-65 | heading right, UP then LEFT in one frame gives LEFT |
| HumanSnake.SteerAgainst | game/snake.py:57-65 | corrected steering (see Findings): presses checked against the last move's heading never produce its reverse |
| HumanSnake.SteerFrame | game/snake.py:57-65 | corrected steering (see Findings): a frame's steering never reverses the heading of the last move and picks the old heading or a pressed one |
| HumanSnake.SteerFrameAgreesOnOneKey | game/snake.py:57-65 | with at most one press per frame the corrected steering equals the event loop's |
| HumanSnake.MoveSnake | game/snake.py:72-85 | the new head is one block along the heading and is inserted first; length +1 |
| HumanSnake.IsCollision | game/snake.py:41-49 | collision iff the head is outside [0,640)×[0,480) or on a later segment |
| HumanSnake.CheckGameStatus | game/snake.py:101-111 | collision: game over, tail kept, (true, score) reported; food: score +1, body kept grown, new food off the body; otherwise the tail dropped, score kept |
| HumanSnake.FrameAsWritten | game/snake.py:115-118 | one frame's heading is the event loop's result and the head moves one block along it |
| HumanSnake.Frame | game/snake.py:115-118 | corrected steering (see Findings): a frame never reverses and the head moves one block along the new heading |
| HumanSnake.InitializeIsLive | game/snake.py:22-30 | the initial board is live |
| HumanSnake.ReversalIsFatal | game/snake.py:44-48 | moving straight back lands on the segment behind the head and collides |
| HumanSnake.FrameAsWrittenCanReverse | game/snake.py:53-65 | as written, UP then LEFT in one frame while heading right ends the game |
| HumanSnake.FrameNeverReverses | game/snake.py:57-65 | corrected steering (see Findings): the head never lands on the segment behind it |
| HumanSnake.MoveKeepsLive | game/snake.py:101-111 | a move in any heading followed by the status check keeps the board live unless it ends the game |
| HumanSnake.FrameAsWrittenKeepsLive | game/snake.py:115-118 | every frame the event loop runs that does not end the game keeps the board live |
| HumanSnake.FrameKeepsLive | game/snake.py:115-118 | corrected steering (see Findings): every frame that does not end the game keeps the board live |
| Modes.BoundaryTestsAgree | game/snake.py:44 | the human bound test (>= 640) and the AI one (> 620) give the same collision verdict on aligned heads |
| Modes.BoundaryTestsDifferOffGrid | ai/snake_ai.py:128 | off the lattice they differ: x = 630 is outside only for the AI test |
| Modes.StartsAgree | game/snake.py:22-30 | both modes start from the same direction, body and food for the same draws |
| Modes.StraightStepMatchesHumanFrame | game/snake.py:101-111 | within the frame budget a straight AI step and a key-less human frame end, grow or move the snake identically |

## Left out

- Rendering, window, fonts, clock, FPS pacing and event polling (pygame I/O), including quit and escape handling.
- `ai/plot.py` (matplotlib display) and `__main__.py` (console menu).
- Network numerics: `nn.Linear` weight initialisation, the Adam optimiser, MSE loss, `backward`, `optimizer.step`, float32 arithmetic. The network is an abstract function to reals. Saving to disk is reduced to the `saved` flag of `Agent.EndEpisode`.
- QModel.Affine: states only the output length, not the weighted sums; only the shape matters to the trainer.
- The trainer's Q function is not built from `QModel.Forward`. It is an abstract function whose one-value-per-action shape (`QModel.ActionValued`) mirrors `QModel.Forward`'s contract.
- The infinite `train` loop itself (printing, plotting, the per-tick call order). Its bookkeeping is `Agent.EndEpisode`; its memory and training calls are `Agent.Remember`, `Agent.TrainShortMemory` (with `Agent.ShortTrainingInput`) and `Agent.LongTrainingInput`.
- Agent.EndEpisode: the running mean is an exact real; the program's `total_score / n_games` is the nearest float. Rounding is monotone, so `Agent.MeanAtMostRecord` still holds of the program's value.
- Uniform distribution of the random draws. Only their ranges are modelled.
- Board.PlaceFood: each retry is one more nested call, so the interpreter's default limit of about 1000 nested calls ends placement with a recursion error after about a thousand draws in a row on the body, even when a free cell exists; that limit is not modelled, and placement succeeds for any stream holding a free draw. The run of failing draws is only long on a nearly full board. On a full board the program recurses until that error; here the draw stream must contain a free cell.
- `WIDTH / 2` is a float in the AI mode. It is modelled as the integer 320, which compares equal.
- The dead duplicate methods after the AI module's demo loop, and the demo blocks.
- HumanSnake.SteerEvents: states only that the result is the old heading or a pressed one. The exact fold is its definition.

## Findings

| source | as written | input that shows it | evidently intended | confidence | as-written member | corrected member |
|---|---|---|---|---|---|---|
| game/snake.py:57-65 | each key press of a frame is checked against the heading already changed by earlier presses in that frame | heading RIGHT, UP then LEFT pressed in one frame: heading becomes LEFT, the head moves onto the segment behind it, game over | no frame may reverse the heading of the last move | medium; not executed | HumanSnake.FrameAsWrittenCanReverse | HumanSnake.FrameNeverReverses |
