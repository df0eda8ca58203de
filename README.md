# Tabular tic-tac-toe MDP solvers

A Dafny model of the three learning agents of the tic-tac-toe project:
- `ValueIterationAgent` runs `k` in-place sweeps of the Bellman optimality backup over its value table. It then reads off a greedy policy by one-step lookahead.
- `PolicyIterationAgent` starts from a random legal policy. It then alternates policy improvement and in-place policy evaluation until improvement changes nothing, or until `maxRounds` evaluations have run.
- `QLearningAgent` keeps a Q-table with a temporal-difference update and an epsilon-greedy move choice. It reads a greedy policy off the table.

The model follows the structure of the Java classes:
- Each agent is a Dafny class with the fields of the Java class it models. Each class also gets the `policy` field it inherits from `Agent`. `QLearningAgent` has the game's `rules` in place of the environment `env`, which is not modelled. Each method modifies exactly the fields its Java counterpart writes, and each loop is a `for` or `while` loop with invariants.
- Each method is proved against a specification function of the old state, for example `Sweep`, `Improve`, `ExtractedPolicy`, `QUpdate` or `QPolicy`. Lemmas prove what the source promises about those functions.

Modules:
- `Argmax` (argmax.dfy): the running-maximum scans.
  - `FirstMax` models strict `>`, where the first maximal position wins.
  - `LastMax` models `>=`, where the last maximal position wins.
  - `FirstAbove` models a scan that starts from an incumbent score.
- `Mdp` (mdp.dfy):
  - States and moves are type parameters.
  - `isTerminal`, `getPossibleMoves` and `TTTMDP.generateTransitions` are function-valued fields.
  - Also here: the Bellman backup, the one-step lookahead, and the first maximal move `BestMove`.
- `InPlace` (sweep.dfy): one in-place sweep over a value table in key order, shared by `iterate` and `evaluatePolicy`.
- `ValueIteration`, `PolicyIteration`, `QLearning`: the three agents.
- `Sentinel` (sentinel.dfy): the scans exactly as written, with the `-Integer.MAX_VALUE` starting score (see Findings).

Assumptions the code relies on are stated as predicates:
- `Closed`: every successor state is a key of the table, and every non-terminal key has a legal move.
- `NoSelfLoops`: no transition returns to its source state. This holds in tic-tac-toe, where every move adds a mark.
- `IsEnumeration`: `order` lists the keys of a `HashMap` exactly once, in its `keySet()` order.

## Model

| member | source | states |
|---|---|---|
| Argmax.FirstMax | src/main/java/ticTacToe/ValueIterationAgent.java:217-220 | a scan that replaces on strictly greater keeps a maximal position that beats every earlier one |
| Argmax.LastMax | src/main/java/ticTacToe/QLearningAgent.java:221-224 | a scan that replaces on greater-or-equal keeps a maximal position that beats every later one |
| Argmax.Max | src/main/java/ticTacToe/ValueIterationAgent.java:143-145 | the running maximum is one of the scores and is at least all of them |
| Argmax.FirstAbove | src/main/java/ticTacToe/PolicyIterationAgent.java:216-238 | a scan starting from an incumbent score picks, if anything, a position of the scores |
| Argmax.FirstAboveMeaning | src/main/java/ticTacToe/PolicyIterationAgent.java:216-238 | the scan from an incumbent score keeps the incumbent iff no score strictly beats it; otherwise it picks the first maximal position, whose score beats the incumbent |
| Argmax.MaxPositionsUnique | src/main/java/ticTacToe/QLearningAgent.java:253-263 | a maximal position is the strict scan's choice iff it beats all earlier scores; it is the `>=` scan's choice iff it beats all later ones |
| Argmax.FirstMaxLastMax | src/main/java/ticTacToe/QLearningAgent.java:217-225 | the `>=` exploit scan and the strict extract scan reach the same maximum; the exploit position is never earlier; they coincide iff the maximum is attained once |
| Mdp.Backup | src/main/java/ticTacToe/ValueIterationAgent.java:135-141 | the expected return of a move: the sum over its transitions of prob * (reward + discount * V[s']), accumulated in list order (the same sum as at PolicyIterationAgent.java:165-183 and 223-233) |
| Mdp.Lookahead | src/main/java/ticTacToe/ValueIterationAgent.java:132-141 | the lookahead of a legal move of a non-terminal state is the backup over that move's transitions, read from the current table |
| Mdp.BackupFrame | src/main/java/ticTacToe/PolicyIterationAgent.java:165-183 | a backup depends only on the table's values at the listed successors |
| Mdp.Lookaheads | src/main/java/ticTacToe/ValueIterationAgent.java:132-146 | one lookahead per legal move, in `getPossibleMoves` order, for each non-terminal state (which has at least one move) |
| Mdp.BestIndex | src/main/java/ticTacToe/ValueIterationAgent.java:204-221 | the chosen position has maximal lookahead, and every earlier move's lookahead is strictly smaller |
| Mdp.BestMove | src/main/java/ticTacToe/ValueIterationAgent.java:204-221 | the chosen move is legal and no legal move has a larger lookahead |
| Mdp.BestValue | src/main/java/ticTacToe/ValueIterationAgent.java:130-148 | the value written is the lookahead of the best move and at least every legal move's lookahead |
| Mdp.SumTransitions | src/main/java/ticTacToe/ValueIterationAgent.java:133-141 | the accumulated total is the sum of prob * (reward + discount * V[s']) over the transitions |
| Mdp.GreedyLookahead | src/main/java/ticTacToe/ValueIterationAgent.java:130-148 | the inner loops return the first maximal move and the maximal lookahead |
| InPlace.NewValue | src/main/java/ticTacToe/ValueIterationAgent.java:121-148 | the value a sweep writes at a state: 0 when terminal; otherwise the largest lookahead (value iteration) or the lookahead of the policy's move (policy evaluation, PolicyIterationAgent.java:153-186) |
| InPlace.Sweep | src/main/java/ticTacToe/ValueIterationAgent.java:119-149 | a sweep never adds or removes a key of the table |
| InPlace.SweepUnvisited | src/main/java/ticTacToe/ValueIterationAgent.java:119-149 | a state the sweep has not visited keeps its value |
| InPlace.SweepVisit | src/main/java/ticTacToe/ValueIterationAgent.java:119-149 | the value left at the j-th visited state is the backup computed from the table as it stood when the sweep reached it (in place, later visits do not touch it) |
| InPlace.SweepSettles | src/main/java/ticTacToe/ValueIterationAgent.java:121-128 | after a sweep over every key, every terminal state holds 0 |
| InPlace.OptimalSweepVisit | src/main/java/ticTacToe/ValueIterationAgent.java:130-148 | the value written at a non-terminal state is the lookahead of a legal move and at least every legal move's lookahead, read from the table at that moment |
| InPlace.FollowSweepVisit | src/main/java/ticTacToe/PolicyIterationAgent.java:162-191 | under a fixed policy the value written at a non-terminal state is the backup over the transitions of that state's policy move, read from the table at that moment |
| ValueIteration.Sweeps | src/main/java/ticTacToe/ValueIterationAgent.java:117-119 | k sweeps keep the key set of the table |
| ValueIteration.SweepsSettle | src/main/java/ticTacToe/ValueIterationAgent.java:117-128 | after at least one sweep, or from a settled table, every terminal state holds 0 |
| ValueIteration.ExtractedValues | src/main/java/ticTacToe/ValueIterationAgent.java:190-200 | extraction never adds or removes a key of the table |
| ValueIteration.ExtractedPolicy | src/main/java/ticTacToe/ValueIterationAgent.java:190-222 | the policy extraction builds in key order: a terminal state gets no entry; a non-terminal one gets its first maximal move against the table as the loop found it |
| ValueIteration.ExtractedValuesShape | src/main/java/ticTacToe/ValueIterationAgent.java:192-199 | extraction changes only visited terminal states, and sets them to 0; no non-terminal value changes |
| ValueIteration.ExtractedPolicyKeys | src/main/java/ticTacToe/ValueIterationAgent.java:190-222 | a state gets a policy entry iff it was visited and is non-terminal |
| ValueIteration.ExtractChoice | src/main/java/ticTacToe/ValueIterationAgent.java:204-222 | the move recorded for the j-th visited state is its first maximal move against the table as the loop found it |
| ValueIteration.ExtractSettled | src/main/java/ticTacToe/ValueIterationAgent.java:190-222 | on a settled table extraction leaves the table unchanged; every entry is a non-terminal key mapped to its first maximal move against that table |
| ValueIteration.ExtractTwice | src/main/java/ticTacToe/ValueIterationAgent.java:192-199 | a second extraction leaves the table as the first left it; on a settled table both return the same policy |
| ValueIteration.TrainGreedy | src/main/java/ticTacToe/ValueIterationAgent.java:233-244 | after train, the table is the k-swept table; the policy covers exactly the non-terminal keys with their first maximal moves against it |
| ValueIteration.ValueIterationAgent.constructor | src/main/java/ticTacToe/ValueIterationAgent.java:91-95 | the reward-taking constructor sets discount and model, keeps k = 10 and leaves the tables empty |
| ValueIteration.ValueIterationAgent.Trained | src/main/java/ticTacToe/ValueIterationAgent.java:68-74 | the table and policy are those of extraction after 10 sweeps from the all-zero table over the generated states |
| ValueIteration.ValueIterationAgent.InitValues | src/main/java/ticTacToe/ValueIterationAgent.java:83-89 | every generated state is mapped to 0; other keys keep their values; the invariant is kept |
| ValueIteration.ValueIterationAgent.Iterate | src/main/java/ticTacToe/ValueIterationAgent.java:112-151 | the table becomes exactly k in-place sweeps of the old table, and stays settled |
| ValueIteration.ValueIterationAgent.SweepOnce | src/main/java/ticTacToe/ValueIterationAgent.java:119-149 | one pass of the outer loop is one in-place optimality sweep in key order |
| ValueIteration.ValueIterationAgent.ExtractPolicy | src/main/java/ticTacToe/ValueIterationAgent.java:172-226 | the returned policy and the table left behind are those of the extraction specification |
| ValueIteration.ValueIterationAgent.Train | src/main/java/ticTacToe/ValueIterationAgent.java:233-244 | the stored policy and table are the extraction of the k-swept table |
| PolicyIteration.ImprovedMove | src/main/java/ticTacToe/PolicyIterationAgent.java:216-238 | the move left at a state is its current move or one of its legal moves |
| PolicyIteration.ImprovedMoveChoice | src/main/java/ticTacToe/PolicyIterationAgent.java:216-238 | the move is kept when no legal lookahead is strictly greater than V[s]; when one is, the first maximal move is taken |
| PolicyIteration.ImprovedMoveTwice | src/main/java/ticTacToe/PolicyIterationAgent.java:216-238 | improving a state's move a second time against the same table leaves the move of the first improvement |
| PolicyIteration.Improve | src/main/java/ticTacToe/PolicyIterationAgent.java:213-241 | the pass keeps the key set and assigns only legal moves |
| PolicyIteration.ImproveAt | src/main/java/ticTacToe/PolicyIterationAgent.java:213-241 | each state's move after the pass is its improved move, which reads only that state's move and the table, so the visit order does not matter |
| PolicyIteration.ImproveChanges | src/main/java/ticTacToe/PolicyIterationAgent.java:213-248 | the pass changes the policy iff some state has a strictly better lookahead than its value and its move is not already the first maximal one |
| PolicyIteration.ImproveMove | src/main/java/ticTacToe/PolicyIterationAgent.java:216-238 | the inner loops leave the move of the improvement specification |
| PolicyIteration.ImprovePass | src/main/java/ticTacToe/PolicyIterationAgent.java:213-241 | overwriting the keys one by one, in key order, gives the improved policy |
| PolicyIteration.ImproveIdempotent | src/main/java/ticTacToe/PolicyIterationAgent.java:213-248 | a second pass against an unchanged table changes nothing, so a pass can only report a change after the values were re-evaluated |
| PolicyIteration.Steps | src/main/java/ticTacToe/PolicyIterationAgent.java:266-269 | the number of rounds of a loop that runs while its condition holds, with room for `budget` rounds: at most the budget, and zero exactly when the budget is zero or the condition fails at the start |
| PolicyIteration.StepsMeaning | src/main/java/ticTacToe/PolicyIterationAgent.java:266-269 | every counted round begins in a state where the loop condition holds, and the loop stops with budget left only in a state where it fails |
| PolicyIteration.Next | src/main/java/ticTacToe/PolicyIterationAgent.java:266-269 | one round, an evaluation sweep under the current policy followed by an improvement pass from it, keeps a stage proper over the same states |
| PolicyIteration.LoopMeaning | src/main/java/ticTacToe/PolicyIterationAgent.java:262-269 | after the rounds `Steps` counts from a stage whose policy is one pass from its evaluated policy, the stage is proper over the same states, its policy is one pass from its evaluated policy against its table, and when a round ran its table is one evaluation sweep, under the policy the round before left, of the table the round before left |
| PolicyIteration.PolicyIterationAgent.constructor | src/main/java/ticTacToe/PolicyIterationAgent.java:94-100 | after `initValues`, `initRandomPolicy` and `train`, the invariant holds, the table keys are the generated states, the current policy covers exactly the non-terminal ones, and the agent's policy is the current policy; the run is `Trained` from the all-zero table over the generated states with the second set of draws, so the final table and policy are those of the stage reached after `Steps` rounds from that table, the random policy of those draws and one improvement pass from it |
| PolicyIteration.PolicyIterationAgent.InitValues | src/main/java/ticTacToe/PolicyIterationAgent.java:110-115 | every generated state is mapped to 0; other keys keep their values |
| PolicyIteration.PolicyIterationAgent.InitRandomPolicy | src/main/java/ticTacToe/PolicyIterationAgent.java:124-137 | every non-terminal key gets the legal move of its random draw; terminal states get no entry |
| PolicyIteration.PolicyIterationAgent.EvaluateState | src/main/java/ticTacToe/PolicyIterationAgent.java:158-191 | the do-while leaves the state's value at the backup under its policy move, and changes nothing else |
| PolicyIteration.PolicyIterationAgent.EvaluatePolicy | src/main/java/ticTacToe/PolicyIterationAgent.java:149-195 | the table becomes one in-place sweep under the current policy (terminal states set to 0); the key set and the policy are unchanged |
| PolicyIteration.PolicyIterationAgent.ImprovePolicy | src/main/java/ticTacToe/PolicyIterationAgent.java:208-249 | the policy becomes the improved policy, with the same keys and legal moves; the result is true iff the map differs from the copy taken before |
| PolicyIteration.PolicyIterationAgent.Train | src/main/java/ticTacToe/PolicyIterationAgent.java:262-274 | `Trained`: `run.start` is the random policy of the draws; the loop starts from the table before `train`, that policy and one improvement pass from it, so improvement comes before the first evaluation; `run.rounds` is the number of rounds, each an evaluation followed by an improvement pass, that a loop with room for `maxRounds` evaluations runs until a pass changes nothing (`Steps`); the table and the current policy are those of the stage reached after `run.rounds` rounds (`Iterate` of `Step`); the agent's policy is the current policy |
| PolicyIteration.PolicyIterationAgent.TrainedMeaning | src/main/java/ticTacToe/PolicyIterationAgent.java:262-274 | for a run `Train` records: at most `maxRounds` evaluations ran; every improvement pass before the stop changed the policy it started from; if the loop stopped with room left, its last pass changed nothing; the current policy is one pass, against the final table, from the policy the last evaluation followed; when an evaluation ran, the final table is one evaluation sweep under that policy of the table the round before left |
| PolicyIteration.PolicyIterationAgent.Start | src/main/java/ticTacToe/PolicyIterationAgent.java:264-266 | the steps before the loop: the random policy of the draws, then one improvement pass from it; the result is true iff that pass changed the policy |
| PolicyIteration.PolicyIterationAgent.Round | src/main/java/ticTacToe/PolicyIterationAgent.java:266-269 | one pass of the loop, `evaluatePolicy` then the next `improvePolicy`: the stage becomes `Next` of the stage it started from, the result is true iff the pass changed the policy, and the run stays on track towards its last stage |
| PolicyIteration.PolicyIterationAgent.Loop | src/main/java/ticTacToe/PolicyIterationAgent.java:266-269 | the while loop runs exactly the `Steps` rounds from the stage it is entered with, and leaves the table and policy of the stage reached after them (`Ran`) |
| PolicyIteration.PolicyIterationAgent.Finish | src/main/java/ticTacToe/PolicyIterationAgent.java:266-273 | the loop, then the agent's policy is the current policy; together with the steps before it, the run is `Trained` |
| QLearning.AddQValue | src/main/java/ticTacToe/QLearningAgent.java:89 | adding a value sets exactly one entry, creates the row if needed, and changes no other entry |
| QLearning.AddZeros | src/main/java/ticTacToe/QLearningAgent.java:87-93 | the inner loop of `initQTable`: `addQValue(g, m, 0.0)` for each move of `g`, in order |
| QLearning.InitTable | src/main/java/ticTacToe/QLearningAgent.java:84-96 | the outer loop of `initQTable`: the inner loop for each generated state, in order |
| QLearning.AddZerosShape | src/main/java/ticTacToe/QLearningAgent.java:87-92 | the inner loop sets 0 for each listed move of the state and changes no other row |
| QLearning.InitTableShape | src/main/java/ticTacToe/QLearningAgent.java:84-95 | Q(g, m) = 0 for every generated state g and legal move m; a row exists iff the state had one or is generated with a move; other rows are unchanged |
| QLearning.InitTableValid | src/main/java/ticTacToe/QLearningAgent.java:84-95 | initialisation keeps every row complete over the legal moves of its state |
| QLearning.InitialTable | src/main/java/ticTacToe/QLearningAgent.java:75 | the table a new agent builds has a value for every legal move of each of its states |
| QLearning.QValues | src/main/java/ticTacToe/QLearningAgent.java:290-297 | one Q-value per legal move, in `getPossibleMoves` order |
| QLearning.MaxQ | src/main/java/ticTacToe/QLearningAgent.java:280-299 | 0 for a terminal state; otherwise one of the legal moves' Q-values, and at least all of them |
| QLearning.BestQMove | src/main/java/ticTacToe/QLearningAgent.java:253-263 | a legal move of maximal Q whose every earlier move has strictly smaller Q |
| QLearning.LastQMove | src/main/java/ticTacToe/QLearningAgent.java:217-225 | a legal move of maximal Q whose every later move has strictly smaller Q |
| QLearning.QPolicy | src/main/java/ticTacToe/QLearningAgent.java:242-265 | exactly the non-terminal tabulated states get an entry, each a legal move of maximal Q |
| QLearning.Target | src/main/java/ticTacToe/QLearningAgent.java:149 | the temporal-difference target r + discount * maxQ(s') |
| QLearning.Learned | src/main/java/ticTacToe/QLearningAgent.java:142-152 | the learned value (1 - alpha) * Q(s, a) + alpha * target |
| QLearning.QUpdate | src/main/java/ticTacToe/QLearningAgent.java:142-154 | Q(s, a) becomes (1 - alpha) * Q(s, a) + alpha * (r + discount * maxQ(s')); no other entry changes; the table shape is kept |
| QLearning.UpdateBetween | src/main/java/ticTacToe/QLearningAgent.java:146-152 | with a learning rate in [0, 1] the new Q(s, a) lies between the old value and the target |
| QLearning.Convex | src/main/java/ticTacToe/QLearningAgent.java:146-152 | the weighted average of two values with weight in [0, 1] lies between them |
| QLearning.Replay | src/main/java/ticTacToe/QLearningAgent.java:121-155 | a run of updates keeps the table's states and every row's moves |
| QLearning.GreedyQ | src/main/java/ticTacToe/QLearningAgent.java:253-263 | the strict scan over the legal moves returns the first maximal move and the maximal Q |
| QLearning.CalculateMaxQValue | src/main/java/ticTacToe/QLearningAgent.java:280-299 | the method returns the max-Q of the specification: 0 when terminal |
| QLearning.ChooseMove | src/main/java/ticTacToe/QLearningAgent.java:195-229 | no move iff there are no legal moves; a draw below epsilon plays the move at the drawn index; otherwise the last move of maximal Q |
| QLearning.ExtractPolicy | src/main/java/ticTacToe/QLearningAgent.java:237-269 | the loop over the keys builds the greedy policy of the table, reading no other state |
| QLearning.QLearningAgent.constructor | src/main/java/ticTacToe/QLearningAgent.java:70-77 | the table is the zero table over the generated states after the reported updates; the policy is its greedy policy |
| QLearning.QLearningAgent.InitQTable | src/main/java/ticTacToe/QLearningAgent.java:84-96 | the nested loops build the initialisation specification and keep the invariant |
| QLearning.QLearningAgent.Update | src/main/java/ticTacToe/QLearningAgent.java:142-154 | one step of `train` applies the temporal-difference update to the table |
| QLearning.QLearningAgent.Train | src/main/java/ticTacToe/QLearningAgent.java:118-167 | the table is the old table after the reported updates in order; the agent's policy is its greedy policy |
| Sentinel.SentinelMax | src/main/java/ticTacToe/ValueIterationAgent.java:130-148 | the value as written equals the largest lookahead only when that lookahead is above -2147483647; otherwise it is -2147483647 |
| Sentinel.SentinelMaxMisses | src/main/java/ticTacToe/ValueIterationAgent.java:130-148 | a state whose only lookahead is -3e9 is given -2147483647 |
| Sentinel.SentinelChoice | src/main/java/ticTacToe/ValueIterationAgent.java:184-222 | the move as written is the first maximal one only when some score beats -2147483647; otherwise the carried-over candidate |
| Sentinel.SentinelChoiceCarries | src/main/java/ticTacToe/ValueIterationAgent.java:184-222 | a state whose only move scores -3e9 is recorded with another state's move, or with none |

## Left out

- Nullness and sentinels: the model starts the scans with "no candidate yet" instead of `-Integer.MAX_VALUE` or `-Double.MAX_VALUE`. The sentinel behaviour is modelled apart, in the `Sentinel` module (see Findings).
- `calculateMaxQValue` on a non-terminal state with no moves would return `-Double.MAX_VALUE`. The model excludes this for every successor it reads: `Fits` requires a non-terminal `sPrime` to be tabulated, and `QValid` gives every tabulated state a move.
- Iteration order: the order of `HashMap.keySet()` is the parameter `order`, a duplicate-free list of the keys.
- Randomness: `java.util.Random` draws are parameters.
  - `draws` and `trainDraws` in policy iteration: the random draws of the two `initRandomPolicy` calls.
  - `randomValue` and `randomIndex` in `ChooseMove`.
- Floating point: IEEE-754 doubles are modelled as exact reals. Rounding is not modelled.
- Q-learning episodes: the episode loop of `train` and `TTTEnvironment` are not modelled. This covers the opponent, `env.reset`, and `executeMoveSafely` with its catch-and-print.
  - `QLearningAgent.Train` replays a given sequence of reported outcomes (s, a, r, s') instead.
  - Episodes are not counted, so `numEpisodes` is stored but not used.
  - `chooseMoveWithEpsilonGreedyPolicy` is modelled separately, as `ChooseMove`.
- `QLearningAgent.Train`: does not model that each outcome's state and move come from `ChooseMove` and the environment. The outcomes are inputs, required only to fit the table.
- Declared but not modelled: the internals of `Game.generateAllValidGames`, `getPossibleMoves`, `isTerminal`, `TTTMDP.generateTransitions`, `QTable` and `Policy`.
  - The generated states are a parameter `allGames`.
  - `addQValue` is assumed to set one entry and keep the rest.
  - `getQValue` is only applied to entries that exist.
- Interactive code: `main`, `HumanAgent`, `Game.playOut` and the console messages in `train` are left out.
- Constructors:
  - The `Policy`-taking constructors `ValueIterationAgent(Policy p)` and `PolicyIterationAgent(Policy p)` are left out. They only install a given policy through `super(p)`, building no table and not training; `Agent` and `Policy` are not part of this model.
  - The default and discount-only constructors are not modelled separately from the ones listed. They pass the default discount or the default rewards on.
  - Constructor chaining is flattened.
  - The rewards of `TTTMDP` are part of the transition function `transitions`.
- `PolicyIteration.PolicyIterationAgent.Train`: the improve/evaluate loop is bounded by a `maxRounds` parameter, because termination of policy iteration is not proved. The ghost record `run` gives the random policy and the number of rounds, and `Trained` fixes the final table and policy as the stage reached after them. When the loop did not stop because a pass changed nothing, `maxRounds` evaluations ran and the last pass still changed the policy it started from (`TrainedMeaning`). The value of the final policy, or its optimality, is not stated.
- `PolicyIteration.PolicyIterationAgent.EvaluateState`: requires `NoSelfLoops`. Under it, the do-while stops after its first pass when the change is already at most `delta`, and otherwise on its second pass, which recomputes the value of the first. Runs where a state's value feeds its own backup are not modelled, and neither are more passes.
- `PolicyIteration.PolicyIterationAgent.ImprovePolicy`: the pass is computed on a local map that is then assigned, not by writing the field entry by entry. The result is the same, because no state's new move reads another state's move. Overwriting entries of a `HashMap` while iterating over its `keySet()` is not modelled.
- Move equality: moves are compared as values. `improvePolicy` compares the policy maps through `HashMap.equals` and so through `Move.equals`, which is not shown. Its result is modelled on the assumption that `Move.equals` compares moves by value. Under identity equality the Java would report a change whenever some state is improvable.
- `ValueIteration.ExtractTwice`: the identical second policy is proved only for a table whose terminal states already hold 0. The class invariant `Valid` keeps every table the agent reaches in that state.
- `ValueIteration.ValueIterationAgent.constructor`: the reward-taking constructor leaves the table empty, because it does not call `initValues`. The model does the same. Its empty `policy` assumes that the implicit `Agent()` superclass constructor leaves the policy empty; `Agent`, which may load a policy from a file, is not part of this model.
- Terminal states in the Q-table: the model does not assume that the move generator gives a terminal state no moves. If it does give one moves, `initQTable` gives that state a row. `extractPolicy` skips the row, and `calculateMaxQValue` returns 0 without reading it.

## Findings

| source | as written | input that shows it | evidently intended | confidence | as-written member | corrected member |
|---|---|---|---|---|---|---|
| src/main/java/ticTacToe/ValueIterationAgent.java:130-148 | the running maximum of the lookaheads starts at `-Integer.MAX_VALUE` although the scores are doubles | values after the reward-taking constructor is given a living reward of -3e9 (with `initValues` called): a non-terminal state whose every lookahead is -3e9 is written -2147483647 | the largest lookahead, whatever its size | medium, not executed | Sentinel.SentinelMax, Sentinel.SentinelMaxMisses | Mdp.BestValue |
| src/main/java/ticTacToe/ValueIterationAgent.java:184-222 | `optimalMove` is declared outside the loop over states, and a move replaces it only if it beats `-Integer.MAX_VALUE` | the same state: no move beats the sentinel, so the policy records the move chosen for the previously visited state (which need not be legal here), or null | the first legal move of maximal lookahead | medium, not executed | Sentinel.SentinelChoice, Sentinel.SentinelChoiceCarries | Mdp.BestMove |
| src/main/java/ticTacToe/QLearningAgent.java:248-265 | `maxQValue` starts at `-Integer.MAX_VALUE` and `bestMove` at null | a state whose every Q-value is below -2147483647 is recorded with a null move | the first legal move of maximal Q | low (needs rewards that large from the environment), not executed | Sentinel.SentinelChoice, Sentinel.SentinelChoiceCarries | QLearning.BestQMove |
