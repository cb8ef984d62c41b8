# Glass bridge reinforcement learning, modelled in Dafny

The system is a small tabular reinforcement-learning study. Players cross a bridge of glass panels laid out as a character grid:
- `S` is a start panel;
- `O` is tempered glass, which is safe;
- `-` is thin glass, where the player falls;
- `G` is the goal.

An environment built on gym's `DiscreteEnv` turns the grid into a transition table `T[s][a]`:
- a move goes as intended with probability 0.8;
- it slips to the other action with probability 0.2;
- thin glass and the goal end the episode;
- only the goal pays 1.

Two learners update a table of action values in place:
- Q-learning with uniformly random actions;
- SARSA with a choice of exploration strategy for the first action of each episode, and an exploration rate that decays between episodes.

An evaluation plays trial episodes with the learned tables, greedily or at random. It credits each win to the player on the bridge, rotating through six players. A sweep over learning rates and discount factors keeps, per policy, the best success ratio and the first point that reached it.

The model has one module per source file, plus three shared modules:
- `Common` holds an option type and sums.
- `GlassBridge` covers the grid, the state numbering, the transition table and the initial-state vector. The constructor's loops are the methods `BuildTransitions` and `InitialStates`.
- `Episode` models gym's `reset`, `step` and `action_space.sample` as explicit draws (`Draws`). It also defines the trajectory of one episode (`Rollout`).
- `QTable` holds the value table: `Holds` ties an `array2<real>` to its value, and `Argmax`, `RowMax` and the temporal-difference blend are defined over rows.
- `QLearning`, `Sarsa`, `Experiments` and `Optimize` follow the source files of those names.

Each loop that updates the Q array in place is a method. Its postcondition ties the array to a recursive specification function. Lemmas then prove the properties the code promises, for every input:
- the update changes one entry;
- the values stay in [0, 1];
- the episode is a fold over its trajectory;
- SARSA bootstraps from the action it takes next;
- the evaluation's counts agree.

## Model

| member | source | states |
|---|---|---|
| GlassBridge.Decompose | reinforcement_learning/glass_bridge.py:46-47 | every state number is `to_s` of its row and column, the column below the width |
| GlassBridge.ToS | reinforcement_learning/glass_bridge.py:46-47 | `to_s` numbers the cells row by row: a cell with col < n_cols gets a number in [row*n_cols, (row+1)*n_cols) |
| GlassBridge.ToSInverse | reinforcement_learning/glass_bridge.py:46-47 | row and column are recovered from `to_s(row, col)` whenever col < n_cols |
| GlassBridge.RowColAreDivMod | reinforcement_learning/glass_bridge.py:46-47 | the row and column of a state are `s // n_cols` and `s % n_cols` |
| GlassBridge.ToSInRange | reinforcement_learning/glass_bridge.py:35 | `to_s` maps every cell of an n_rows x n_cols grid below n_states = n_rows * n_cols |
| GlassBridge.StateInGrid | reinforcement_learning/glass_bridge.py:46-47 | every state below n_rows * n_cols is `to_s` of a cell of the grid (onto) |
| GlassBridge.ToSInjective | reinforcement_learning/glass_bridge.py:46-47 | `to_s` is one-to-one on valid cells |
| GlassBridge.NumStatesIsProduct | reinforcement_learning/glass_bridge.py:31-35 | a rectangular map has n_rows * n_cols states |
| GlassBridge.FlatCell | reinforcement_learning/glass_bridge.py:37 | in the ravelled map, cell (row, col) sits at position `to_s(row, col)` |
| GlassBridge.FlatState | reinforcement_learning/glass_bridge.py:37 | position s of the ravelled map is the cell that s decomposes into |
| GlassBridge.Inc | reinforcement_learning/glass_bridge.py:50-57 | the column becomes min(col + 1, n_cols - 1); right keeps the row; diagonal swaps rows 0 and 1 and leaves any other row |
| GlassBridge.IncStaysOnGrid | reinforcement_learning/glass_bridge.py:50-57 | a move from a cell of a grid with at least two rows stays on the grid |
| GlassBridge.Opposite | reinforcement_learning/glass_bridge.py:78 | the slip action `(a+3)%2` is the other action |
| GlassBridge.Outcome | reinforcement_learning/glass_bridge.py:60-66 | the next state is `to_s(inc(...))` and is a valid state; reward is 0 or 1, and 1 exactly when the cell reached is `G`; done exactly when that cell is `G` or `-` |
| GlassBridge.FillOne | reinforcement_learning/glass_bridge.py:72-78 | appending the entries of (s, a) completes that list and leaves all others as they were |
| GlassBridge.BuildTransitions | reinforcement_learning/glass_bridge.py:68-78 | the nested row/col/action loops produce, for every state and action, exactly the entries the cell prescribes |
| GlassBridge.CellTransitions | reinforcement_learning/glass_bridge.py:68-78 | the entry list of one cell and action has one entry exactly on `G`/`-` cells and two otherwise, and its probabilities sum to 1 |
| GlassBridge.TableEntries | reinforcement_learning/glass_bridge.py:68-78 | `T[s][a]` is the entry list of the cell of s, with one or two entries |
| GlassBridge.ProbabilitiesSumToOne | reinforcement_learning/glass_bridge.py:74-78 | the probabilities of every `T[s][a]` sum to 1 |
| GlassBridge.TerminalCellsLoop | reinforcement_learning/glass_bridge.py:74-75 | on `G` and `-` cells `T[s][a]` is exactly `[(1.0, s, 0, True)]` |
| GlassBridge.OtherCellsSlip | reinforcement_learning/glass_bridge.py:76-78 | elsewhere `T[s][a]` is exactly the 0.8 outcome of a followed by the 0.2 outcome of the opposite action |
| GlassBridge.EntriesAreSound | reinforcement_learning/glass_bridge.py:60-66 | every entry's next state is valid, reward is 0 or 1, and reward 1 implies done; from a non-terminal cell, reward 1 iff the target is `G` and done iff the target is `G` or `-` |
| GlassBridge.ShippedMapsAreBridges | reinforcement_learning/glass_bridge.py:10-15 | all four shipped maps are rectangular, contain a start and have only `G`/`-` in their last column |
| GlassBridge.NonTerminalMovesAdvance | reinforcement_learning/glass_bridge.py:50-51 | on such maps every entry from a non-terminal cell moves exactly one column right |
| GlassBridge.InitialStates | reinforcement_learning/glass_bridge.py:37-38 | the indicator of `S` cells divided in place by its sum is uniform over the start cells; with no start cell (numpy's 0/0) the result is None |
| GlassBridge.PrefixSumCountsStarts | reinforcement_learning/glass_bridge.py:37-38 | each prefix of the initial-state vector sums to (starts in the prefix) / (all starts) |
| GlassBridge.InitialStatesSumToOne | reinforcement_learning/glass_bridge.py:38 | the initial-state vector sums to 1 |
| GlassBridge.StartIsNotTerminal | reinforcement_learning/glass_bridge.py:74 | a start cell is not `G` or `-` |
| GlassBridge.StartsAreEquallyLikely | reinforcement_learning/glass_bridge.py:37-38 | the vector is zero off start cells and equal and positive on all of them |
| GlassBridge.NewEnv | reinforcement_learning/glass_bridge.py:28-80 | the constructor yields a valid environment over the map: its table as above and its initial-state vector uniform over starts |
| Episode.Step | reinforcement_learning/q_learning.py:22 | `step` returns an entry of `T[s][a]`: a valid next state, reward 0 or 1, reward 1 implies done, and from a non-terminal state done iff the next state is terminal |
| Episode.StepFromTerminal | reinforcement_learning/glass_bridge.py:74-75 | from `G` or `-` a step stays put, pays 0 and reports done |
| Episode.StepPaysOnGoal | reinforcement_learning/glass_bridge.py:63-65 | from any other state a step pays 1 exactly when it lands on `G` |
| Episode.StepAdvances | reinforcement_learning/glass_bridge.py:50-51 | on maps with a terminal last column a step from a non-terminal state moves one column right |
| Episode.StepIsRecorded | reinforcement_learning/glass_bridge.py:80 | the step's result is one of the recorded entries of `T[s][a]`, with positive probability |
| Episode.Rollout | reinforcement_learning/experiments.py:19-26 | an episode from a non-terminal state ends within n_cols - col steps; its first move is the policy's action and the step's entry |
| Episode.RolloutFollowsPolicy | reinforcement_learning/experiments.py:19-26 | every move of the trajectory starts non-terminal, takes the policy's action and records the step's entry |
| Episode.RolloutActionAt | reinforcement_learning/experiments.py:20-24 | move k takes the action the policy chooses at step i + k in its state |
| Episode.RolloutChains | reinforcement_learning/experiments.py:19-26 | each move starts where the previous one ended, no move before the last is done, and the last one is |
| QTable.Zeros | reinforcement_learning/q_learning.py:34 | an n_states x n_actions table of zeros |
| QTable.Argmax | reinforcement_learning/sarsa.py:21 | the index of a maximum, and the first such index |
| QTable.RowMax | reinforcement_learning/q_learning.py:23 | `np.max` of a row bounds every entry and is one of them |
| QTable.Greedy | reinforcement_learning/experiments.py:23 | `np.argmax(Q[s, :])` has the largest value and is 1 only when Q[s, 1] is strictly larger |
| QTable.GreedyPrefersFirstOnTie | reinforcement_learning/sarsa.py:21 | on a tie the greedy action is 0 |
| QTable.Blend | reinforcement_learning/q_learning.py:23 | `Q += alpha * (target - Q)` equals (1 - alpha) * Q + alpha * target |
| QTable.BlendBetween | reinforcement_learning/q_learning.py:23 | for alpha in [0, 1] the new value lies between the old value and the target |
| QTable.BlendEndpoints | reinforcement_learning/q_learning.py:23 | alpha = 0 leaves the value; alpha = 1 sets it to the target |
| QTable.ZerosAreBounded | reinforcement_learning/q_learning.py:34 | the zero table lies in [0, 1] and has zero rows on terminal cells |
| QTable.UpdateKeepsBounds | reinforcement_learning/q_learning.py:23 | blending a non-terminal entry towards a target in [0, 1] keeps both invariants |
| QLearning.QLearnStep | reinforcement_learning/q_learning.py:23 | the new Q[s, a] is (1 - alpha) * old + alpha * (r + gamma * max Q[s', :]) |
| QLearning.UpdateFromRow | reinforcement_learning/q_learning.py:23 | the update computed from the array row of s' is the update of the table's value |
| QLearning.QLearnStepTouchesOneEntry | reinforcement_learning/q_learning.py:23 | every entry other than Q[s, a] is unchanged; for alpha in [0, 1] the new value lies between the old value and the target |
| QLearning.QEpisode | reinforcement_learning/q_learning.py:18-24 | the table left by one episode keeps its shape |
| QLearning.RunQLearning | reinforcement_learning/q_learning.py:12-25 | the in-place loop leaves in Q exactly the table of the episode its draws determine |
| QLearning.LearnStep | reinforcement_learning/q_learning.py:23 | one in-place update leaves the array holding the updated table |
| QLearning.QTrain | reinforcement_learning/q_learning.py:28-39 | training keeps the table's shape |
| QLearning.TrainQLearning | reinforcement_learning/q_learning.py:28-39 | a fresh zero array, then one episode per iteration, holds the table of the training fold |
| QLearning.TargetInUnit | reinforcement_learning/q_learning.py:23 | from a non-terminal state the target r + gamma * max Q[s', :] lies in [0, 1] |
| QLearning.QEpisodeKeepsBounds | reinforcement_learning/q_learning.py:18-24 | an episode keeps all values in [0, 1] and the rows of terminal cells zero |
| QLearning.QTrainKeepsBounds | reinforcement_learning/q_learning.py:34-37 | so does any number of episodes |
| QLearning.TrainedTableIsBounded | reinforcement_learning/q_learning.py:34-37 | the trained table lies in [0, 1] with zero terminal rows, whatever the draws |
| QLearning.QEpisodeIsFold | reinforcement_learning/q_learning.py:20-24 | an episode applies exactly the updates along the trajectory of the uniform samples, independent of Q |
| QLearning.TableMax | reinforcement_learning/q_learning.py:43 | `np.max(Q)` bounds every entry and is one of them |
| QLearning.Normalize | reinforcement_learning/q_learning.py:42-46 | the result has the table's shape |
| QLearning.NormalizeMaxIsOne | reinforcement_learning/q_learning.py:43-45 | with a positive maximum the normalized maximum is 1 |
| QLearning.NormalizeKeepsOrder | reinforcement_learning/q_learning.py:45 | any two entries compare the same before and after |
| QLearning.NormalizeKeepsNonPositive | reinforcement_learning/q_learning.py:44-46 | with a maximum at most 0 the table is returned unchanged |
| QLearning.NormalizeIdempotent | reinforcement_learning/q_learning.py:42-46 | normalizing twice is normalizing once |
| Sarsa.ChooseAction | reinforcement_learning/sarsa.py:9-28 | epsilon-greedy: the sample when the coin is below epsilon, otherwise the first maximal action; softmax and posterior sampling: their oracle; any other string: the sample |
| Sarsa.NoExplorationIsGreedy | reinforcement_learning/sarsa.py:17-21 | with epsilon <= 0 and a coin in [0, 1) the choice is always greedy |
| Sarsa.FullExplorationIsUniform | reinforcement_learning/sarsa.py:17-19 | with epsilon >= 1 (the starting 1.0) the choice is always the sample |
| Sarsa.SarsaStep | reinforcement_learning/sarsa.py:45 | the new Q[s, a] is (1 - alpha) * old + alpha * (r + gamma * Q[s', a']) |
| Sarsa.SarsaStepTouchesOneEntry | reinforcement_learning/sarsa.py:45 | every other entry is unchanged; for alpha in [0, 1] the new value lies between the old value and the target |
| Sarsa.SarsaEpisode | reinforcement_learning/sarsa.py:39-47 | the table left by one episode keeps its shape |
| Sarsa.FirstAction | reinforcement_learning/sarsa.py:40 | the episode's first action under epsilon-greedy is the uniform sample when the coin falls below epsilon and otherwise numpy's argmax of the start row |
| Sarsa.RunSarsa | reinforcement_learning/sarsa.py:31-48 | the in-place loop leaves in Q exactly the table of the episode started with choose_action on the start row |
| Sarsa.SarsaLearnStep | reinforcement_learning/sarsa.py:45 | one in-place update leaves the array holding the updated table |
| Sarsa.Decay | reinforcement_learning/sarsa.py:62-63 | a rate above 0.05 strictly drops but stays above 0.049; a rate at most 0.05 is left as it is |
| Sarsa.EpsilonAt | reinforcement_learning/sarsa.py:59-63 | the rate of every episode lies in [0.049, 1] |
| Sarsa.EpsilonBounds | reinforcement_learning/sarsa.py:59-63 | epsilon never rises, never exceeds 1 and never goes below 0.049 |
| Sarsa.EpsilonIsGeometric | reinforcement_learning/sarsa.py:62-63 | while above 0.05, epsilon after k episodes is 0.98^k |
| Sarsa.EpsilonFreezes | reinforcement_learning/sarsa.py:62-63 | once at most 0.05, epsilon never changes again |
| Sarsa.DecayUndershoots | reinforcement_learning/sarsa.py:62-63 | a decay from just above 0.05 lands strictly below 0.05 |
| Sarsa.SarsaTrain | reinforcement_learning/sarsa.py:51-65 | training keeps the table's shape |
| Sarsa.TrainSarsa | reinforcement_learning/sarsa.py:51-65 | a fresh zero array and epsilon starting at 1.0 and decaying after each episode hold the table of the training fold |
| Sarsa.TrainEpisode | reinforcement_learning/sarsa.py:60-61 | one run_sarsa with episode e's rate takes the array from the table of e episodes to that of e + 1 |
| Sarsa.SarsaTargetInUnit | reinforcement_learning/sarsa.py:45 | from a non-terminal state the target r + gamma * Q[s', a'] lies in [0, 1] |
| Sarsa.SarsaEpisodeKeepsBounds | reinforcement_learning/sarsa.py:42-47 | an episode keeps all values in [0, 1] and terminal rows zero |
| Sarsa.SarsaTrainKeepsBounds | reinforcement_learning/sarsa.py:58-61 | so does any number of episodes, for any strategy |
| Sarsa.SarsaTrainedTableIsBounded | reinforcement_learning/sarsa.py:58-61 | the trained table lies in [0, 1] with zero terminal rows |
| Sarsa.SarsaEpisodeIsFold | reinforcement_learning/sarsa.py:39-47 | an episode applies exactly the updates along the trajectory whose first action is the strategy's choice and whose later actions are the samples |
| Sarsa.BootstrapIsNextAction | reinforcement_learning/sarsa.py:44-47 | the a' that move k bootstraps from is the action move k + 1 takes |
| Experiments.Contains | reinforcement_learning/experiments.py:20 | the substring test holds for the empty pattern and for the string itself, and only for patterns no longer than the string |
| Experiments.ContainsIffOccurs | reinforcement_learning/experiments.py:20 | `'baseline' in policy` holds exactly when the pattern occurs at some offset |
| Experiments.BaselinePolicies | reinforcement_learning/experiments.py:20 | "q_baseline" and "baseline" act at random; "q_random" and "sarsa_random" do not |
| Experiments.EvalAct | reinforcement_learning/experiments.py:20-23 | a policy spelt with "baseline" takes the uniform sample at every step; any other takes numpy's argmax of the state's row |
| Experiments.EpisodeReturn | reinforcement_learning/experiments.py:15-27 | the return of an episode is 0 or 1 |
| Experiments.RunEpisode | reinforcement_learning/experiments.py:15-27 | the loop returns the episode return of the baseline or greedy policy on the table Q holds |
| Experiments.ReturnIsSumOfRewards | reinforcement_learning/experiments.py:18-27 | the return is the sum of the rewards along the trajectory |
| Experiments.WinIffGoal | reinforcement_learning/experiments.py:15-27 | the return is 1 exactly when the last step lands on `G` |
| Experiments.Record | reinforcement_learning/experiments.py:94-102 | curr_pos stays below the number of players; a win adds one to the current player and resets to player 0; a loss moves to (pos + 1) mod players; the total grows by the reward |
| Experiments.TallyOf | reinforcement_learning/experiments.py:72-102 | over any outcomes curr_pos stays in range and there is one count per player |
| Experiments.TallyCounts | reinforcement_learning/experiments.py:94-102 | the wins per player add up to the number of winning episodes and the total is the sum of rewards |
| Experiments.ZeroOneSumCounts | reinforcement_learning/experiments.py:102 | with 0/1 rewards the sum is the number of wins, at most the number of trials |
| Experiments.WinsMatchTotal | reinforcement_learning/experiments.py:94-102 | the wins per player add up to total_reward, which lies between 0 and the number of trials |
| Experiments.Percentage | reinforcement_learning/experiments.py:103 | total_reward / trial_episodes * 100 lies in [0, 100] for a total in [0, trials], is 0 with no win and 100 with a win every trial |
| Experiments.Returns | reinforcement_learning/experiments.py:78-92 | every trial episode returns 0 or 1 |
| Experiments.Evaluate | reinforcement_learning/experiments.py:72-102 | the trial loop ends with the tally of the episode returns, in order |
| Experiments.RecordTrial | reinforcement_learning/optimize.py:66-74 | the in-place bookkeeping of one trial is `Record` |
| Optimize.PointOf | reinforcement_learning/optimize.py:76 | a grid point keeps its alpha, gamma and wins per player, and a total in [0, trials] gives a ratio in [0, 100] |
| Optimize.Consider | reinforcement_learning/optimize.py:77-81 | the best ratio becomes the larger one; the entries are replaced by the point's only when its ratio is strictly larger |
| Optimize.BestOver | reinforcement_learning/optimize.py:77-81 | the entries after any points have a ratio of at least 0, and they are either still at 0 or hold a positive ratio with recorded wins |
| Optimize.BestIsMaximum | reinforcement_learning/optimize.py:77-78 | success_ratio ends at least 0, at least every ratio seen, and equal to 0 or to one of them |
| Optimize.BestIsFirst | reinforcement_learning/optimize.py:77-81 | the entries stay at 0 exactly when no ratio is positive; otherwise they hold the alpha, gamma and wins of the first point reaching the best ratio |
| Optimize.BestNeverDecreases | reinforcement_learning/optimize.py:77-78 | success_ratio never decreases over the sweep |
| Optimize.BestRatioInRange | reinforcement_learning/optimize.py:76-78 | with every ratio in [0, 100] so is the best |
| Optimize.PointRatioInRange | reinforcement_learning/optimize.py:76 | the ratio of an evaluation with 0/1 rewards lies in [0, 100] |
| Optimize.Sweep | reinforcement_learning/optimize.py:21-81 | after initialising every policy to 0 and looping over alpha, gamma and policy, each policy's four entries are the best over its points in sweep order, and each dictionary has exactly the policies as keys |
| Optimize.Unsets | reinforcement_learning/optimize.py:21-25 | every policy's four entries start at 0, and the dictionaries have exactly the policies as keys |
| Optimize.SweepRow | reinforcement_learning/optimize.py:30-81 | the loop over gamma extends each policy's best by the points of one alpha; the key sets are unchanged and keys that are not policies keep their values |
| Optimize.ConsiderAll | reinforcement_learning/optimize.py:40-81 | the loop over policies applies `Consider` to each policy's entries; the key sets are unchanged and keys that are not policies keep their values |
| Optimize.ConsiderOne | reinforcement_learning/optimize.py:76-81 | one policy's entries become `Consider` of its old entries and its point, and every other key is unchanged |

## Left out

- Console and notebook output is not modelled: `render`, the printing in every `main`, tqdm progress bars and `clear_output`.
- gym's `DiscreteEnv` is a foreign library and is not part of this model. `reset`, `step` and `action_space.sample` are draws supplied per episode (`Episode.Draws`):
  - `reset` is any start cell;
  - `sample` is any action;
  - `step` takes any recorded entry of `T[s][a]`, chosen by an index; an index past the end selects the last entry.
  Their probabilities are not modelled, so no statistical claim (convergence, win rates) is stated.
- `np.random.random()` is the draw `coin`, assumed to lie in [0, 1).
- `softmax_exploration` and `posterior_sampling_exploration` are oracles in `Draws`. They are imported at sarsa.py:6 from q_learning.py, which does not define them, so their behaviour cannot be modelled.
- Floating point is modelled as exact reals: 0.8, 0.2, 0.98 and the divisions are exact, and there is no rounding.
- The environment's constructor always loads the 8x2 map. The model takes any map that satisfies all three of:
  - it is rectangular;
  - it has at least one column;
  - it has at least two rows. On a one-row map, a diagonal move from row 0 goes to row 1, which does not exist, and numpy raises IndexError.
- Any letter other than `S`, `O`, `-` and `G` behaves like a safe panel, as in the code. The grid is not validated.
- The learning loops and the evaluation are stated for maps whose last column holds only `G` and `-` (`LastColumnTerminal`). All four shipped maps satisfy this (`GlassBridge.ShippedMapsAreBridges`). On other maps `inc` keeps a player on a safe last-column panel, and the source's `while not done` loop need not end.
- The initial-state vector on a map without a start cell is NaN in numpy (0/0). It is modelled as None, and `reset` is then undefined.
- The sweep's `np.linspace` values and the training calls at optimize.py:28-38 are not modelled. So is the dispatch from policy name to trained table at experiments.py:30-92 and optimize.py:47-64. Those calls pass `exploration_strategy=` to `train_q_learning_agent`, whose signature at q_learning.py:28-33 does not accept it. `Optimize.Sweep` therefore takes the evaluation's tally per (alpha, gamma, policy) as a given function.
- The player count is a parameter of `Experiments.Evaluate`. experiments.py uses six players and the literal test `curr_pos >= 5`; optimize.py uses `num_players - 1` with num_players = 6. Both are `Record` with six players.
- `positions[policy]` holds the integer 0 until a ratio improves on it. It is modelled as None.
- Sarsa.DecayUndershoots: shows that a single decay from just above 0.05 ends below 0.05. It does not compute the episode at which the shipped schedule first does so.
- QLearning.QEpisode, QLearning.QTrain, Sarsa.SarsaEpisode, Sarsa.SarsaTrain and QLearning.Normalize state only that the shape is kept. What they compute is stated by the fold, bound and normalize lemmas listed above.
- `total_reward / trial_episodes` is stated for trial_episodes > 0 (the source uses 1000). Zero trials would raise ZeroDivisionError.
