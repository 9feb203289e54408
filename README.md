# sc2rl bookkeeping, modelled in Dafny

This project models the parts of the sc2rl reinforcement-learning code base that can be stated
without the neural networks. Each source file has one module:

- **Trajectory buffers.** There are two replay memories:
  - `PpoMemory` models `PPO/memory.py`.
  - `BaseMemory` models `interface/base_agent/memory.py`.

  Each is a bounded deque of 8-field transition rows with a shuffled index permutation. A cursor
  (`access_num`) hands out fixed-size chunks of that permutation, and a backward pass computes
  Generalized Advantage Estimation (GAE).
- **Action translation and environment stepping.**
  - `ActionInterface`: the minigame actuator, a two-state machine over `units_selected`. It
    produces clamped move targets and the weakest or closest attack targets.
  - `MinigameEnv`: the minigame wrapper with its frame combiner.
  - `BuildMarinesEnv`: the BuildMarines wrapper. It has reward accumulation, a latched terminal
    flag, the `in_progress` loop and the scripted helpers.
- **PPO agent bookkeeping** (`AgentPpo`): the training schedule, counters, the hidden-state
  reset, the spatial masks and the clipped surrogate.
- **Small algorithms.**
  - `MctsAgent`: MCTS node statistics, the discounted trajectory memory, the backup and the
    rollout averages.
  - `RelGraphAgent`: the Pommerman channel encoder, adjacent flames and the ground-truth graph
    update.
  - `TestAgent`: the scripted build-order agent.
  - `Sc2EnvUtils`: feature and argument bookkeeping.
  - `Network`: argument splitting, sampling placement and the unroll reset schedule.
  - `Models`: prefix-sum/bisect sampling.

Stateful source objects are classes whose methods change their fields. Loops are methods with
invariants, each proved against a specification function. The game is a finite script of
responses, consumed one per step. Random choices are parameters. A Python exception or a failed
assertion is a `Fail` result, with the state left as the source leaves it.

Behaviours the model keeps as written:

- The PPO memory's masking block (PPO/memory.py:61-67) indexes the lists it is building at
  `i + k` for `k < j`. Since every index is at least 1, the last `k` is always past their end, so
  a window whose later rows include a step of 0 raises. `PpoMemory.ReplayMemory.SampleMiniBatch`
  returns `Fail` there, after the earlier windows of the chunk have been written into the buffer.
- The base memory's flag test (interface/base_agent/memory.py:74) reads the step field of row
  i+1, not a done flag. The PPO agent raises `step` in `sample` before each push, so rows it
  pushes after a `sample` carry a nonzero step, and the test then zeroes every earlier flag.
- `_run_helpers` does not recheck `terminal` between the helpers of one pass. If the rally step
  reaches a last frame and a later helper still wants to run, `_run_to_next` fails its entry
  assertion. `BuildMarinesEnv.BuildMarinesEnvironment.HelperPass` returns `Fail` there.
- Both memories accept a batch size above the capacity, which makes `reset_num` 0, and a history
  size of 0. Sampling then raises: an empty window has no row at position h - 1, and the cursor
  update divides by `reset_num` after the chunk is read (in `PPO/memory.py`, after the windows
  were written into the buffer).
- Sampling in `PPO/memory.py` aliases the stored row, so the buffer's state field is overwritten
  in place. `interface/base_agent/memory.py` deep-copies the row and leaves the buffer unchanged.
- The last row of `PPO/memory.py`'s GAE pass bootstraps from `frame_next_val`. The base memory
  skips the newest row and keeps its pushed return and advantage.
- `push_memory` in `agent_ppo.py` assigns `step` and `value` to locals on `done`, so neither
  field is reset.

## Model

| member | source | states |
|---|---|---|
| PpoMemory.ReplayMemory.constructor | PPO/memory.py:9-19 | an empty buffer with cursor 0, the given capacity, history size and batch size, reset_num = capacity / batch_size, and the first shuffled permutation; a batch size above the capacity (reset_num 0) and a history size of 0 are accepted, as the source accepts them |
| PpoMemory.ReplayMemory.Push | PPO/memory.py:21-23 | the buffer becomes the last capacity rows of the old rows plus the new one, so exactly one 8-field row is appended at the back and the oldest is dropped when the buffer was full; the length becomes min(old + 1, capacity) |
| PpoMemory.ReplayMemory.UpdateIndices | PPO/memory.py:26-28 | the indices become the given permutation of 1 .. capacity - history_size, and the invariant is kept |
| PpoMemory.WindowStaysBelowCapacity | PPO/memory.py:26-28 | every index of the permutation starts a window i .. i + history_size - 1 that stays below the capacity, so it lies inside a full buffer |
| PpoMemory.ReplayMemory.Length | PPO/memory.py:120-121 | the length never exceeds the capacity |
| PpoMemory.SampleRange | PPO/memory.py:34-37 | the sample range is the frame count capped at the capacity |
| PpoMemory.Chunk | PPO/memory.py:44-47 | the chunk holds at most batch_size indices, taken in order from position batch_size * access_num |
| PpoMemory.ChunksDisjoint | PPO/memory.py:44-47 | two different cursor values read disjoint chunks of one permutation |
| PpoMemory.ChunksCoverPrefix | PPO/memory.py:44-47 | n consecutive chunks, concatenated, are exactly the first batch_size * n indices of the permutation |
| PpoMemory.Window | PPO/memory.py:58-83 | the stacked state of a window holds exactly the states and actions of memory[i .. i + history_size - 1], in order |
| PpoMemory.GatherWindow | PPO/memory.py:58-83 | the gathering loop builds exactly that stacked window |
| PpoMemory.SampleRowsBatch | PPO/memory.py:86-90 | each sampled row is the stored row at i + history_size - 1 with only its state replaced by the stacked window |
| PpoMemory.SampleRowsKeepsFields | PPO/memory.py:86-90 | sampling changes only the state field of stored rows |
| PpoMemory.SampleRowsKeepsOthers | PPO/memory.py:86-90 | a stored row that ends no sampled window is left untouched |
| PpoMemory.SampleRowsAlias | PPO/memory.py:86-90 | for distinct indices, each returned row equals the stored row after sampling: the row aliases the buffer |
| PpoMemory.SampleChunk | PPO/memory.py:49-90 | succeeds exactly when every window goes through (all its rows stored, no step 0 after its first row); on success the rows and overwritten buffer are those of the row-by-row specification; on failure the buffer holds the windows written before the failing index |
| PpoMemory.ReplayMemory.SampleMiniBatch | PPO/memory.py:30-97 | fails exactly when a window of the current chunk is empty (history size 0), runs past the stored rows or holds a restart (the IndexError of `sample[h-1]`, of the deque or of the masking block), or when every window goes through but reset_num is 0 (the ZeroDivisionError of the modulo); in every case the buffer holds the windows written before the failing point, all of them in the last case; on success at most batch_size rows, batch and new buffer per the specification, cursor advanced modulo reset_num and the permutation replaced exactly when it wraps to 0; on failure cursor and permutation unchanged |
| PpoMemory.GoodPrefix | PPO/memory.py:56-67 | the number of chunk indices whose windows go through before the first one that raises: all before it go through, the one at it does not |
| PpoMemory.SampleRowsSnoc | PPO/memory.py:49-90 | sampling one more index reads its window from the buffer as the earlier indices left it, appends its row to the batch and writes it at the window's last row |
| PpoMemory.Finalized | PPO/memory.py:105-117 | every row gets ret == adv + value, the advantage is the GAE recurrence, and all other fields and the length are unchanged |
| PpoMemory.GaeLambdaZeroIsTdError | PPO/memory.py:107-114 | with lambda 0 the advantage is the one-step TD error, bootstrapped from frame_next_val at the newest row |
| PpoMemory.GaeLambdaOneIsDiscountedReturn | PPO/memory.py:105-117 | with lambda 1, advantage plus value is the discounted return cut at the next done |
| PpoMemory.ReplayMemory.ComputeVTargetsAdv | PPO/memory.py:99-117 | the reverse loop leaves the buffer equal to the finalized rows |
| BaseMemory.ReplayMemory.constructor | interface/base_agent/memory.py:8-18 | an empty buffer with cursor 0, the given capacity, batch and history sizes, reset_num = capacity / batch_size, and the first permutation; a batch size above the capacity (reset_num 0) and a history size of 0 are accepted, as the source accepts them |
| BaseMemory.ReplayMemory.Push | interface/base_agent/memory.py:20-22 | the buffer becomes the last capacity rows of the old rows plus the new one; the length is min(old + 1, capacity) |
| BaseMemory.ReplayMemory.UpdateIndices | interface/base_agent/memory.py:25-27 | the indices become the given permutation of 1 .. capacity - history_size - 1 |
| BaseMemory.FullMemoryStoresEveryWindow | interface/base_agent/memory.py:25-27 | in a full buffer every permuted index starts a window, including its previous action and the done flag of memory[i + 1], that lies inside the buffer |
| BaseMemory.FullMemoryStoresChunk | interface/base_agent/memory.py:41-44 | every index of any chunk of a full buffer starts a stored window |
| BaseMemory.ReplayMemory.Length | interface/base_agent/memory.py:142-143 | the length never exceeds the capacity |
| BaseMemory.SampleRange | interface/base_agent/memory.py:31-34 | the sample range is capacity - 1 once the frame count reaches capacity, else the frame count |
| BaseMemory.Chunk | interface/base_agent/memory.py:41-44 | the chunk holds at most batch_size indices, taken in order from position batch_size * access_num |
| BaseMemory.RelevantFlags | interface/base_agent/memory.py:70-86 | history_size flags: the last is 1, and every earlier one is 0 when the step field of row i+1 (`memory[i+1][-1]`) is nonzero and 1 when it is 0 |
| BaseMemory.GatherFlags | interface/base_agent/memory.py:70-86 | the zeroing-and-appending loop produces exactly those flags |
| BaseMemory.SampleAtContents | interface/base_agent/memory.py:70-100 | a sample copies every non-state field of memory[i + h - 1], stacks the h whole states of memory[i ..] (see Left out for the source's split of them), takes frame j's previous action from memory[i + j - 1] and ends its flags with 1 |
| BaseMemory.GatherSample | interface/base_agent/memory.py:60-100 | the per-window loop builds exactly that sample |
| BaseMemory.SampleChunk | interface/base_agent/memory.py:60-100 | succeeds exactly when every index's window, its previous row and row i+1 are stored (otherwise the deque's IndexError); then one sample per chunk index, in order |
| BaseMemory.ReplayMemory.SampleMiniBatch | interface/base_agent/memory.py:29-108 | fails exactly when a window of the current chunk is empty (history size 0) or not stored, or when reset_num is 0 (the ZeroDivisionError of the modulo), with cursor and permutation unchanged; otherwise one sample per chunk index (at most batch_size), the buffer untouched (deep copy), the cursor advanced modulo reset_num and the permutation replaced exactly on wrap-around |
| BaseMemory.Finalized | interface/base_agent/memory.py:110-124 | the newest row is unchanged; every earlier row gets ret == adv + value; only return and advantage change |
| BaseMemory.GaePass | interface/base_agent/memory.py:116-124 | the reverse loop over range(N - 1) computes exactly the finalized rows |
| BaseMemory.AdvantageIsBootstrappedFromNewest | interface/base_agent/memory.py:116-121 | the base memory's advantage is the PPO memory's advantage over all rows but the newest, bootstrapped from the newest row's value (0 when it is done) |
| BaseMemory.ReplayMemory.ComputeVTargetsAdv | interface/base_agent/memory.py:110-124 | the buffer becomes the finalized rows |
| ActionInterface.Clamp | PPO/action_interface.py:157-164 | a coordinate is clamped into [0, size - 1]; in-range values are unchanged |
| ActionInterface.ClampIdempotent | PPO/action_interface.py:157-164 | clamping twice equals clamping once |
| ActionInterface.ScreenNormalize | PPO/action_interface.py:157-164 | both coordinates of the array are clamped in place |
| ActionInterface.Direction | PPO/action_interface.py:65-96 | exactly the eight compass actions have a move vector, each a nonzero unit step |
| ActionInterface.DirectionsDistinct | PPO/action_interface.py:65-96 | no two compass actions share a move vector |
| ActionInterface.MoveTarget | PPO/action_interface.py:167-171 | the target is centroid + 20 * (dy, dx), clamped to 0 .. 83, and is unchanged when already on screen |
| ActionInterface.ComputeMove | PPO/action_interface.py:167-171 | the move command carries that target |
| ActionInterface.MovementMultiplier | PPO/action_interface.py:119-125 | infinite exactly for a zero direction; otherwise position + m * direction lands exactly on 0 or size - 1 |
| ActionInterface.FirstArgmin | PPO/action_interface.py:153 | the index of the first minimum in row-major order |
| ActionInterface.FindFirstArgmin | PPO/action_interface.py:153 | the argmin loop returns that index |
| ActionInterface.FlippedCell | PPO/action_interface.py:153 | unravelling a flat index and flipping gives (x, y) with y * width + x == index |
| ActionInterface.Masked | PPO/action_interface.py:152 | zero-density cells get the dtype maximum and every other cell keeps its hit points |
| ActionInterface.MaskDead | PPO/action_interface.py:152 | the hit-point array is overwritten in place by that masking |
| ActionInterface.WeakestIsLive | PPO/action_interface.py:151-154 | while some live cell has hit points below the dtype maximum, a dead cell is never chosen, and the choice is no stronger than that cell |
| ActionInterface.WeakestIsFirstLeastLive | PPO/action_interface.py:151-154 | a live choice is the first live cell with the fewest hit points |
| ActionInterface.ComputeAttackWeakest | PPO/action_interface.py:151-154 | masks the hit points in place and attacks the flipped first argmin of the masked array |
| ActionInterface.LiveCells | PPO/action_interface.py:145 | exactly the nonzero cells of the enemy density, in increasing order |
| ActionInterface.Distances | PPO/action_interface.py:146 | one distance per live cell, in order |
| ActionInterface.ClosestIsNearest | PPO/action_interface.py:143-148 | when an enemy exists, the chosen cell is live, no farther than any live cell, and strictly nearer than every earlier one |
| ActionInterface.ComputeAttackClosest | PPO/action_interface.py:143-148 | fails exactly when there is no enemy (argmin of an empty array); otherwise attacks the flipped closest cell |
| ActionInterface.IsAllZero | PPO/action_interface.py:55 | true exactly when every cell of the selection channel is zero |
| ActionInterface.Actuator.constructor | PPO/action_interface.py:33-35 | a new actuator has no selection |
| ActionInterface.Actuator.Reset | PPO/action_interface.py:37-38 | reset clears the selection |
| ActionInterface.Actuator.ComputeAction | PPO/action_interface.py:40-103 | NO_OP returns a no-op with the flag untouched; without a live selection only SELECT succeeds and sets the flag; with one, SELECT fails, compass actions move, the attack actions target the closest or weakest enemy, and only ATTACK_WEAKEST writes the hit points |
| MinigameEnv.CombineFrames | PPO/custom_env.py:101-111 | the result is prev[1:] followed by curr[1:] and then curr[0], of length len(prev) - 1 + len(curr) |
| MinigameEnv.CombinedKeepsOneSelection | PPO/custom_env.py:107-110 | with both frames present, the combined channels are the previous non-selection channels, then the current ones, then only the current selection channel |
| MinigameEnv.MinigameEnvironment.constructor | PPO/custom_env.py:32-35 | no frames, no selection, terminal |
| MinigameEnv.MinigameEnvironment.ResetEnv | PPO/custom_env.py:113-116 | the current frame moves into prev_frame before the reset frame replaces it |
| MinigameEnv.MinigameEnvironment.StepEnv | PPO/custom_env.py:118-121 | the command is sent and the current frame moves into prev_frame before the next frame replaces it |
| MinigameEnv.MinigameEnvironment.Actuate | PPO/custom_env.py:82-83 | the command and the new selection flag are exactly what the actuator computes on the frame's channels: NO_OP as is; SELECT without a live selection; with one, the clamped move for a direction, the flipped closest or weakest enemy cell for an attack; a failure otherwise |
| MinigameEnv.MinigameEnvironment.RunToNext | PPO/custom_env.py:73-99 | sends the agent's command first (the actuator's, which must exist), then one SELECT exactly when the frame reached is not last and the selection flag is off or the selection channel is all zero; one frame is consumed per command, so the script loses its first one or two frames; the frame returned is the last one consumed and becomes current, and prev_frame is the first consumed frame when two were, else the old current frame; a frame that is not last with no marines left fails; afterwards the army is selected unless the frame is last |
| MinigameEnv.MinigameEnvironment.SelectIfNeeded | PPO/custom_env.py:88-98 | on a current frame that is not last: fails when no marine is left; otherwise, when the flag is off or the selection channel is all zero, sends one SELECT consuming one frame which becomes current with the old one as prev_frame; otherwise nothing changes; the army is selected afterwards |
| MinigameEnv.MinigameEnvironment.Observation | PPO/custom_env.py:101-111 | defined exactly when both frames exist, with len(prev) - 1 + len(curr) channels |
| MinigameEnv.MinigameEnvironment.Reset | PPO/custom_env.py:41-52 | consumes the reset frame and possibly one SELECT frame from the script; the last frame consumed becomes current, prev_frame as in run_to_next, and only that SELECT is sent; terminal equals that frame's last flag, and the observation, reward and flag come from it |
| MinigameEnv.MinigameEnvironment.Step | PPO/custom_env.py:54-71 | a terminal environment fails and is unchanged; otherwise the actuator's command for the action on the old current frame is sent, then possibly one SELECT, consuming one frame each; frames, prev_frame, terminal and the result are as in reset |
| BuildMarinesEnv.ShouldMakeScv | experiments/build_marines/custom_env.py:139-152 | false whenever minerals, supply or the worker count forbid an SCV; true only when they allow one; when they allow one, false only with a command center selected whose queue is nonempty; a failure only with an empty selection panel |
| BuildMarinesEnv.ShouldKillMarine | experiments/build_marines/custom_env.py:154-168 | holds iff food_army - rax_pixels // 110 >= 2 and minerals are below the marine cost or supply is capped |
| BuildMarinesEnv.MoreBarracksNeverKillMore | experiments/build_marines/custom_env.py:159-168 | more barracks pixels never make the kill helper fire where it did not |
| BuildMarinesEnv.RunLength | experiments/build_marines/custom_env.py:108-118 | the responses _run_to_next consumes: at least one and no more than there are, failing when the game has none left for a send |
| BuildMarinesEnv.RunLengthStops | experiments/build_marines/custom_env.py:108-118 | a run of n responses is exactly that count iff every earlier response was not last and every frame read kept the order in progress, and the n-th is last or was reached from a frame that did not |
| BuildMarinesEnv.HelperTurn | experiments/build_marines/custom_env.py:97-106 | one helper's turn consumes nothing when the helper is not wanted and at least one response when it is; a wanted helper after a last frame fails on the assertion of _run_to_next |
| BuildMarinesEnv.Wants | experiments/build_marines/custom_env.py:97-106 | a helper wants to run exactly when: for the rally, workers are idle; for the SCV helper, it is enabled and the SCV check holds; for the kill helper, it is enabled and the kill check holds; only an enabled SCV check can fail |
| BuildMarinesEnv.Turns | experiments/build_marines/custom_env.py:97-106 | the helpers of a pass from a given position on, each decided on the frame reached by then, consume no fewer responses than were already consumed and no more than there are |
| BuildMarinesEnv.QuietTurns | experiments/build_marines/custom_env.py:97-106 | turns that consume nothing from a position on leave every helper from that position on unwanted on the frame reached |
| BuildMarinesEnv.QuietFrame | experiments/build_marines/custom_env.py:97-106 | a frame on which the rally, SCV and kill helpers all decline is one on which no enabled helper is wanted |
| BuildMarinesEnv.HelpersFrom | experiments/build_marines/custom_env.py:95-106 | the helper loop resumed after a given count of responses stops no earlier than that count and no later than the end of the script; passes repeat until one fires nothing or a last frame was consumed |
| BuildMarinesEnv.Helpers | experiments/build_marines/custom_env.py:94-106 | _run_helpers never consumes more responses than there are; it is the helper loop from its start |
| BuildMarinesEnv.HelpersEndQuiet | experiments/build_marines/custom_env.py:94-106 | wherever the helper loop is resumed, when it succeeds it stops on a last frame or on a frame where no enabled helper is wanted |
| BuildMarinesEnv.HelpersDone | experiments/build_marines/custom_env.py:94-106 | where _run_helpers stops after consuming its count, the wrapper is terminal or no enabled helper is wanted |
| BuildMarinesEnv.RoundStep | experiments/build_marines/custom_env.py:95-106 | one pass keeps the loop's total: a failed pass fails the loop, a pass that fires nothing or reaches a last frame ends it exactly at the total, and otherwise the same total remains from the offset reached |
| BuildMarinesEnv.HelperTurnRun | experiments/build_marines/custom_env.py:98-106 | a wanted helper's _run_to_next from the middle of a pass succeeds exactly when HelperTurn does and stops on the frame its count reaches |
| BuildMarinesEnv.ThenHelpers | experiments/build_marines/custom_env.py:50-51 | after a first stage the helpers run unless it reached a last frame, consuming no fewer responses and no more than there are |
| BuildMarinesEnv.StepCount | experiments/build_marines/custom_env.py:55-71 | the responses step consumes: the agent's run, then the helpers; at least one and no more than there are |
| BuildMarinesEnv.ResetCount | experiments/build_marines/custom_env.py:39-53 | the responses reset consumes: the reset frame, then the helpers; fails without a usable reset frame |
| BuildMarinesEnv.StepCountThen | experiments/build_marines/custom_env.py:55-71 | after a successful run, step succeeds exactly when the helpers do (or are skipped at a last frame), leaves exactly the script StepCount predicts, and ends on the frame of the last response StepCount counts |
| BuildMarinesEnv.ResetCountThen | experiments/build_marines/custom_env.py:39-53 | after the reset frame, reset succeeds exactly when the helpers do (or are skipped at a last frame) and leaves exactly the script ResetCount predicts |
| BuildMarinesEnv.BuildMarinesEnvironment.constructor | experiments/build_marines/custom_env.py:15-37 | no frames, terminal, zero accumulated reward, the given helper switches |
| BuildMarinesEnv.BuildMarinesEnvironment.ComputeAction | experiments/build_marines/custom_env.py:110 | the command for the action, with in_progress read from the current frame |
| BuildMarinesEnv.BuildMarinesEnvironment.StepEnv | experiments/build_marines/custom_env.py:128-137 | the next frame, or the reset frame after a lost connection, becomes current; its reward is added; terminal is latched and never cleared |
| BuildMarinesEnv.BuildMarinesEnvironment.ResetEnv | experiments/build_marines/custom_env.py:120-126 | the reset frame becomes current, its reward is added and terminal is latched |
| BuildMarinesEnv.BuildMarinesEnvironment.RunToNext | experiments/build_marines/custom_env.py:108-118 | fails unchanged at terminal; otherwise succeeds exactly when RunLength does, and then the script loses exactly RunLength responses and the last one is the current frame; only this action is sent, once per response consumed; the reward added and the terminal flag are exactly those of the frames consumed; on success terminal or no longer in progress |
| BuildMarinesEnv.BuildMarinesEnvironment.KeepIssuing | experiments/build_marines/custom_env.py:113-118 | the in-progress loop sends only this action, stops at a terminal frame, and keeps the remaining RunLength count: on exit the responses consumed are exactly RunLength's and it ends terminal or not in progress |
| BuildMarinesEnv.BuildMarinesEnvironment.IssueAgain | experiments/build_marines/custom_env.py:117-118 | one more send of the same action on a frame that is not terminal consumes one response, which becomes current, and keeps the RunLength count and the accounting |
| BuildMarinesEnv.BuildMarinesEnvironment.RunHelper | experiments/build_marines/custom_env.py:98-106 | one helper's turn succeeds exactly when HelperTurn does, consumes exactly its count with the last response current, sends only helper commands and accounts every frame's reward and last flag |
| BuildMarinesEnv.BuildMarinesEnvironment.RunTurns | experiments/build_marines/custom_env.py:97-106 | the helpers from a position of the pass on succeed exactly when Turns does and consume exactly its count; it fired iff something was consumed; when nothing was, every helper from that position declined on the current frame |
| BuildMarinesEnv.BuildMarinesEnvironment.TryHelper | experiments/build_marines/custom_env.py:98-106 | one helper asked on the current frame fails only when Turns from this helper on fails; otherwise what Turns counts from this helper equals what it counts from the next one at the offset reached; it ran iff it consumed something, and when it did not the helper declined on the unchanged frame; every frame is accounted |
| BuildMarinesEnv.BuildMarinesEnvironment.HelperPass | experiments/build_marines/custom_env.py:97-106 | one pass from wherever the loop has got to succeeds exactly when Turns does and then consumes exactly its count, rally then SCV then kill; it fired iff it consumed something; a pass that fires nothing leaves the frame unchanged and no enabled helper wanted; every frame consumed since the loop began is accounted |
| BuildMarinesEnv.BuildMarinesEnvironment.HelpersLoop | experiments/build_marines/custom_env.py:95-106 | the while loop of _run_helpers fails only when Helpers does and otherwise consumes exactly Helpers' count, stopping on the frame that count reaches; every frame consumed is accounted and only helper commands are sent |
| BuildMarinesEnv.BuildMarinesEnvironment.HelperRound | experiments/build_marines/custom_env.py:95-106 | one round of the helper loop keeps the loop's HelpersFrom total: it fails only when the total does, ends the loop exactly when the total is reached, and otherwise consumes something and leaves the same total from the offset reached |
| BuildMarinesEnv.BuildMarinesEnvironment.RunHelpers | experiments/build_marines/custom_env.py:94-106 | does nothing at terminal; otherwise succeeds exactly when Helpers does, and then the script loses exactly Helpers' count with the frame reached current; the wrapper is then terminal or no enabled helper is wanted; every frame consumed is accounted |
| BuildMarinesEnv.BuildMarinesEnvironment.Step | experiments/build_marines/custom_env.py:55-71 | a terminal wrapper fails unchanged; otherwise it succeeds exactly when the action list is nonempty and StepCount succeeds, and then consumes exactly StepCount's responses; the observation returned, the current frame, is that of the last response consumed; the commands sent are the agent's action once per response of its run (RunLength), then only helper commands; the reward reported is exactly that of the frames stepped through, terminal is set iff one of them was last, and on success no enabled helper is wanted unless terminal |
| BuildMarinesEnv.BuildMarinesEnvironment.ActThenHelp | experiments/build_marines/custom_env.py:68-71 | the agent's run then the helpers: succeeds exactly when StepCount does, consumes exactly its count and ends on the frame of the last response counted, accounting every frame; the commands sent are the action once per response of the run, then only helper commands |
| BuildMarinesEnv.BuildMarinesEnvironment.HelpAfterRun | experiments/build_marines/custom_env.py:68-71 | the helpers after the agent's run: step's outcome is exactly StepCount's, the script left is the one it predicts and the current frame that of the last response it counts, every frame since the start is accounted, only helper commands are appended, and afterwards the wrapper is terminal or no helper is wanted |
| BuildMarinesEnv.StepAfterHelpers | experiments/build_marines/custom_env.py:68-71 | from what _run_helpers promises after the agent's run (or its skipping at a last frame): step's outcome, the script left and the frame reached are StepCount's, and the accounting covers every response since the run began |
| BuildMarinesEnv.BuildMarinesEnvironment.Reset | experiments/build_marines/custom_env.py:39-53 | succeeds exactly when ResetCount does on the new script and then consumes exactly its count; the observation returned, the current frame, is that of the last response counted; only helper commands are sent; the reward is that of the frames since the reset, terminal iff one was last, and afterwards no helper is wanted unless terminal |
| BuildMarinesEnv.BuildMarinesEnvironment.HelpAfterReset | experiments/build_marines/custom_env.py:50-53 | the helpers after the reset frame: together with it they consume exactly ResetCount's responses, end on the frame of the last one, send only helper commands and account every frame since the reset |
| AgentPpo.FirstSpatialMask | experiments/agent_ppo/agent_ppo.py:168 | the first spatial mask is 1 iff the nonspatial action is below 3, else 0 |
| AgentPpo.SecondSpatialMask | experiments/agent_ppo/agent_ppo.py:169 | the second spatial mask is 1 iff the nonspatial action is 0, else 0 |
| AgentPpo.ActionLogProb | experiments/agent_ppo/agent_ppo.py:168-177 | the log-probability of the chosen action is the nonspatial one, plus the first coordinate's for actions below 3, plus the second coordinate's for action 0 |
| AgentPpo.SpatialChoicesIgnoredFromThree | experiments/agent_ppo/agent_ppo.py:171-180 | from action 3 on, the log-ratio depends only on the nonspatial probabilities |
| AgentPpo.ClampReal | experiments/agent_ppo/agent_ppo.py:182 | the clamp stays within the bounds and leaves in-range ratios unchanged |
| AgentPpo.Surrogate | experiments/agent_ppo/agent_ppo.py:180-185 | the clipped surrogate never exceeds r * A |
| AgentPpo.SurrogateInsideClip | experiments/agent_ppo/agent_ppo.py:180-185 | inside [1 - eps, 1 + eps] the surrogate is r * A |
| AgentPpo.SurrogateClipsOneSide | experiments/agent_ppo/agent_ppo.py:180-185 | for a nonnegative advantage only the upper clip acts; for a negative one only the lower clip acts |
| AgentPpo.PolicyLoss | experiments/agent_ppo/agent_ppo.py:180-185 | the policy loss, the negated mean clipped surrogate, is at least the negated mean of r * A |
| AgentPpo.PPOAgent.constructor | experiments/agent_ppo/agent_ppo.py:20-33 | counters zero, value zero, initial hidden state, no previous hidden state, the zero action, target equal to live |
| AgentPpo.PPOAgent.Sample | experiments/agent_ppo/agent_ppo.py:35-54 | stores the forward outputs, keeps the pre-forward hidden state, and increments frame_count and step by exactly 1 |
| AgentPpo.PPOAgent.PushMemory | experiments/agent_ppo/agent_ppo.py:207-213 | pushes the state with the previous hidden state, ret = adv = 0 and the current step; on done only the hidden state is reset; step and value are kept |
| AgentPpo.PPOAgent.UpdateTargetNet | experiments/agent_ppo/agent_ppo.py:218-219 | the target parameters equal the live ones, logged as one sync |
| AgentPpo.PPOAgent.TrainStepOnce | experiments/agent_ppo/agent_ppo.py:99-113 | one train step keeps the memory full and valid; it succeeds exactly when the draw at the cursor Trains: the sampler returns (reset_num > 0, and windows of at least one row unless nothing is read) and the mini-batch is not empty, since an empty one raises IndexError when its first column is indexed; the cursor becomes (access_num + 1) % reset_num, with the new shuffle when it wraps to 0, exactly when the sampler returns, so also before that IndexError; on success the live network moves on by one version and one train step is logged, on failure neither |
| AgentPpo.PPOAgent.RunEpoch | experiments/agent_ppo/agent_ppo.py:77-82 | the steps taken, the train steps logged and the cursor left are exactly Draws of num_iters from the cursor, offered shuffles[used..]; it succeeds iff all num_iters trained |
| AgentPpo.PPOAgent.TrainEpoch | experiments/agent_ppo/agent_ppo.py:71-87 | one epoch: the steps, log and cursor of Draws of num_iters; epochs_trained grows by one exactly when all of them trained; it succeeds iff num_iters > 0 and all trained, since the loss mean divides by num_iters |
| AgentPpo.PPOAgent.RunEpochs | experiments/agent_ppo/agent_ppo.py:71-93 | the steps taken, the train steps logged and the cursor left are exactly Draws of epochs * num_iters from the cursor; it succeeds iff every one of them trained (and num_iters > 0 unless epochs is 0); epochs_trained grows by the full epochs completed, and with num_iters 0 by one, the division failing after the first epoch |
| AgentPpo.PPOAgent.Train | experiments/agent_ppo/agent_ppo.py:63-96 | the memory holds the finalized GAE rows; targets are logged first, then the train steps, then exactly one target sync on success only; a zero batch size fails as the division does, with nothing drawn; otherwise the steps, the log and the cursor are those of Draws of epochs * (len / batch_size), it succeeds iff all of them trained and the iteration count is positive, and epochs_trained counts the completed epochs |
| AgentPpo.CursorCount | interface/base_agent/memory.py:104-106 | from a cursor below reset_num, n draws leave it at (access_num + n) % reset_num, and the indices unchanged when it never wrapped |
| AgentPpo.CursorIndicesOffered | interface/base_agent/memory.py:104-106 | after any number of draws the indices are the starting permutation or one of the shuffles offered to those draws |
| AgentPpo.CursorThen | interface/base_agent/memory.py:104-106 | m draws followed by n more are m + n draws |
| AgentPpo.Draws | experiments/agent_ppo/agent_ppo.py:77-79 | the train steps of a run of draws up to the first that does not train: never more than asked |
| AgentPpo.DrawsThen | experiments/agent_ppo/agent_ppo.py:71-79 | m draws then n more, when all m trained, are m + n draws; once one failed the later ones do not happen |
| AgentPpo.DrawsStopAt | experiments/agent_ppo/agent_ppo.py:77-79 | when fewer draws trained than were asked, the draw at the cursor after them does not train |
| AgentPpo.DrawsLeave | interface/base_agent/memory.py:104-108 | the cursor a run of draws leaves is that of the draws that trained, plus the failing one when the sampler returned on it (its IndexError comes after the cursor moved) |
| AgentPpo.DrawsTrain | experiments/agent_ppo/agent_ppo.py:77-79 | every draw counted trains at its own cursor |
| AgentPpo.EpochThen | experiments/agent_ppo/agent_ppo.py:71-79 | an epoch after draws that all trained extends them; an epoch that stops short is where all later draws stop |
| AgentPpo.EpochsThen | experiments/agent_ppo/agent_ppo.py:71-87 | epoch i after i full epochs: a full one extends the run to i + 1 epochs; a short one is where the run of all epochs stops, short of epochs * num_iters, with i epochs completed |
| AgentPpo.FullBufferDrawTrains | interface/base_agent/memory.py:75-108 | on a full buffer with windows of at least one row, the draw at cursor a trains exactly when batch_size * a is below capacity - history_size - 1, the count of sampling indices |
| AgentPpo.ShortIndexListRaises | experiments/agent_ppo/agent_ppo.py:111-113 | capacity 10, batch size 1, history size 1: the draw at cursor 7 trains, the one at cursor 8 is returned but empty, so the train step raises after the cursor moved |
| MctsAgent.MaxOf | pommerman/mcts_agent.py:33 | `np.max`: no entry exceeds the result and some entry equals it |
| MctsAgent.IndicesOf | pommerman/mcts_agent.py:33 | exactly the positions holding the value, increasing |
| MctsAgent.ArgmaxTiebreaking | pommerman/mcts_agent.py:31-35 | fails exactly on an empty array; otherwise an index holding the maximum |
| MctsAgent.EveryTieCanBePicked | pommerman/mcts_agent.py:31-35 | every maximal index is returned for some random pick |
| MctsAgent.Discounted | pommerman/mcts_agent.py:44-60 | step k of n is stored with reward * discount^(n-1-k), in order |
| MctsAgent.DiscountedSteps | pommerman/mcts_agent.py:48-54 | the last step keeps the reward and each earlier step has one more factor of discount |
| MctsAgent.DiscountedRewards | pommerman/mcts_agent.py:48-54 | the append-then-reverse loop yields reward * discount^(n-1-k) at position k |
| MctsAgent.PolicyNetMemory.constructor | pommerman/mcts_agent.py:39-42 | empty experiences and trajectory |
| MctsAgent.PolicyNetMemory.Push | pommerman/mcts_agent.py:44-60 | without done only the trajectory grows; with done the discounted trajectory is appended to the bounded experiences and the trajectory is emptied |
| MctsAgent.PolicyNetMemory.GetData | pommerman/mcts_agent.py:62-63 | the stored experiences in insertion order, never more than buffer_len |
| MctsAgent.MCTSNode.constructor | pommerman/mcts_agent.py:67-74 | Q, W and N all zero over the six actions, P of length six |
| MctsAgent.MCTSNode.Update | pommerman/mcts_agent.py:80-83 | W[a] += r, N[a] += 1, Q[a] = W[a] / N[a], other actions untouched, and Q * N == W kept for visited actions |
| MctsAgent.MCTSNode.ProbsGreedy | pommerman/mcts_agent.py:85-89 | temperature 0: one-hot at an action of maximal visit count, summing to 1 |
| MctsAgent.MCTSNode.ProbsProportional | pommerman/mcts_agent.py:90-92 | temperature 1: N / sum(N), summing to 1; undefined exactly when no action was visited |
| MctsAgent.BackupRewards | pommerman/mcts_agent.py:221-223 | the last trace node gets the leaf reward and each earlier node one more factor of discount |
| MctsAgent.FirstSeen | pommerman/mcts_agent.py:315-322 | the dictionary's keys: exactly the first actions of the rollouts, each once |
| MctsAgent.RunningMeanIsMean | pommerman/mcts_agent.py:315-318 | the running-mean update of a mean of f values is the mean of f + 1 values |
| MctsAgent.AddRollout | pommerman/mcts_agent.py:315-322 | one rollout keeps the frequencies the counts and the averages the arithmetic means per first action |
| MctsAgent.RolloutAverages | pommerman/mcts_agent.py:304-322 | after all rollouts, frequency[a] counts the rollouts starting with a and avg_reward[a], avg_length[a] are their means |
| MctsAgent.FirstArgmax | pommerman/mcts_agent.py:324 | the first index of the maximum |
| MctsAgent.BestAction | pommerman/mcts_agent.py:324 | fails with no rollout; otherwise a key whose average reward is maximal, and the first such key in insertion order (every earlier key has a strictly lower average) |
| RelGraphAgent.RelGraphAgent.constructor | pommerman/relgraph_agent.py:25-37 | no previous state or action; the graph is the given noise plus init_eps |
| RelGraphAgent.RelGraphAgent.Reset | pommerman/relgraph_agent.py:39-42 | clears previous state and action and redraws the graph as noise plus init_eps |
| RelGraphAgent.Indicator | pommerman/relgraph_agent.py:51 | 1 exactly where the board holds the item, 0 elsewhere |
| RelGraphAgent.ItemPlanesAreBinary | pommerman/relgraph_agent.py:51 | item planes are 0/1 |
| RelGraphAgent.FillItemPlanes | pommerman/relgraph_agent.py:49-52 | channel k in 0..9 is the indicator of the k-th board value; later channels untouched |
| RelGraphAgent.FillFieldPlanes | pommerman/relgraph_agent.py:54-65 | channels 10..16 copy the seven fields in order (scalars broadcast); a missing or misshaped field fails |
| RelGraphAgent.RelGraphAgent.StateSpaceConverter | pommerman/relgraph_agent.py:44-73 | exactly 23 channels: item indicators, the seven fields, and six action planes of which only 17 + prev_action is 1; fails exactly on a bad field or action |
| RelGraphAgent.Nonzero | pommerman/relgraph_agent.py:100 | exactly the nonzero cells, increasing |
| RelGraphAgent.MarkNeighbours | pommerman/relgraph_agent.py:101-108 | the cells of Written are set to 1 and every other cell keeps its value |
| RelGraphAgent.NearIsWritten | pommerman/relgraph_agent.py:101-108 | every in-bounds 4-neighbour of the agent cell is written |
| RelGraphAgent.WrittenIsNear | pommerman/relgraph_agent.py:101-108 | every written cell is a 4-neighbour of the agent cell, so nothing off the board or wrapped around a row edge is written |
| RelGraphAgent.GetAdjacentFlames | pommerman/relgraph_agent.py:96-110 | fails when the agent frame has several cells; otherwise 1 exactly at flames on the agent cell or its 4-neighbours, so a subset of the flames |
| RelGraphAgent.MarkPowerup | pommerman/relgraph_agent.py:116-120 | when ammo, blast strength or can-kick grew in every cell, entry [agent, its one cell in the next state] becomes POWERUP_RELEVANCE and all else is kept; fails exactly when that happens and the agent is not on exactly one cell (`.item()`) |
| RelGraphAgent.MarkFlames | pommerman/relgraph_agent.py:122-128 | for agents 0 and 1, when the agent is on no cell of the next state, every flame on or next to its former cell becomes FLAME_RELEVANCE in its row and all else is kept; fails exactly when such an agent was on several cells |
| RelGraphAgent.GroundTruthUpdate | pommerman/relgraph_agent.py:112-132 | a fresh graph: flame relevance 100 over powerup relevance 10 over the previous entries, which the input keeps |
| TestAgent.TestAgent.constructor | experiments/mcts_ac/test_agent.py:8-14 | 0 depots, 0 barracks, 0 marines, 12 SCVs, wait 0 |
| TestAgent.Step | experiments/mcts_ac/test_agent.py:16-34 | bounds kept, at most one counter raised by 1; NO_OP iff waiting or minerals < 150; strict priority depots, barracks, marines, then KILL_MARINE; waits of 80 and 120 |
| TestAgent.TestAgent.Sample | experiments/mcts_ac/test_agent.py:16-34 | the new counters and the order are those of the step function |
| TestAgent.Waiting | experiments/mcts_ac/test_agent.py:17-19 | while waiting each call returns NO_OP and only decrements wait |
| TestAgent.Round | experiments/mcts_ac/test_agent.py:23-30 | a building order followed by its wait of NO_OPs ends with wait 0 and that order's counter raised |
| TestAgent.BuildOrderCompletes | experiments/mcts_ac/test_agent.py:16-34 | with enough minerals the agent finishes 2 depots, 7 barracks and 50 marines in exactly the calls the waits need |
| TestAgent.FromTheStart | experiments/mcts_ac/test_agent.py:8-34 | from the initial state, after 2 * 81 + 7 * 121 + 50 rich calls the build order is complete and the next rich call is KILL_MARINE |
| Sc2EnvUtils.IsSpatialArg | interface/base_agent/sc2env_utils.py:25-26 | among nonnegative argument types, exactly 0, 1 and 2 (screen, minimap, second screen) are spatial |
| Sc2EnvUtils.CategoricalMask | interface/base_agent/sc2env_utils.py:28-36 | in increasing order, the indices of exactly the categorical features, with their scales; equal lengths |
| Sc2EnvUtils.EmbedLayout | interface/base_agent/sc2env_utils.py:98-119 | input i occupies the output span from Offset(i) to Offset(i + 1); fails exactly when there are no embeddings or more categorical inputs than embeddings |
| Sc2EnvUtils.OffsetClosedForm | interface/base_agent/sc2env_utils.py:106-117 | the offset of input i is i plus (embedding_size - 1) for every embedded input before it |
| Sc2EnvUtils.EmbedWidth | interface/base_agent/sc2env_utils.py:103-122 | when every embedding has the same width and each one is used by exactly one embedded input, the last span ends at output_dim, which is processed_feature_dim |
| Sc2EnvUtils.ProcessedFeatureDim | interface/base_agent/sc2env_utils.py:121-122 | each embedding widens its one channel, so with every embedding at least 1 wide the processed width is at least the feature size |
| Sc2EnvUtils.ValidArgs | interface/base_agent/sc2env_utils.py:73-77 | row i is 1 on its first sizes[i] positions and 0 elsewhere |
| Network.SpatialArgs | interface/base_agent/Network.py:192-195 | only ids below 3, no more than given |
| Network.NonspatialArgs | interface/base_agent/Network.py:187-190 | only ids from 3 on, no more than given |
| Network.SplitPartitions | interface/base_agent/Network.py:187-195 | the two lists together are the action's ids as a multiset, split by id < 3 |
| Network.SplitKeepsOrder | interface/base_agent/Network.py:187-195 | both splits keep the order of the ids |
| Network.SampleArg | interface/base_agent/Network.py:157-162 | arg_depth zeros except the draw at slot i - 3 of each nonspatial type; a type past the last slot fails |
| Network.DecodeRecovers | interface/base_agent/Network.py:170-171 | a flat index below size² decodes to a row and column below size with row * size + col == index |
| Network.EncodeDecode | interface/base_agent/Network.py:170-171 | decoding row * size + col gives back (row, col) |
| Network.SampleSpatial | interface/base_agent/Network.py:164-173 | zero rows except the decoded draw at each spatial type of the action |
| Network.ResetIrrelevant | interface/base_agent/Network.py:75-76 | hidden rows with relevance flag 0 become the initial state, all others are kept |
| Network.UnrollForward | interface/base_agent/Network.py:63-77 | hist_size - 1 forward steps, each followed by the reset of irrelevant rows; an empty history fails |
| Network.LastResetHolds | interface/base_agent/Network.py:66-76 | a row irrelevant at the last unrolled step ends in the initial state |
| Network.AllRelevantNoReset | interface/base_agent/Network.py:66-76 | with every frame relevant, unrolling is plain iteration of forward |
| Models.CumSum | PPO/models.py:244 | entry k is the sum of the first k + 1 probabilities |
| Models.CumSumSorted | PPO/models.py:244-245 | prefix sums of nonnegative probabilities are sorted, as bisect needs |
| Models.Bisect | PPO/models.py:245 | `bisect`: a position from 0 to len(a); BisectSplits and BisectFinds say which |
| Models.BisectSplits | PPO/models.py:245 | on a sorted array every entry before the result is <= x and every entry from it on is > x |
| Models.BisectMonotone | PPO/models.py:245 | a larger key never gives a smaller position |
| Models.BisectFinds | PPO/models.py:245 | the position j with a[j - 1] <= x < a[j] is the result |
| Models.ChooseAction | PPO/models.py:244-246 | the 1-D draw is a position from 0 to len(probs); ChooseActionIsInverseCdf and ChooseActionMonotone state what it means |
| Models.ChooseActionIsInverseCdf | PPO/models.py:232-246 | the 1-D draw is the inverse CDF: the prefix before it is <= choice and the prefix through it is > choice; it is in range iff choice is below the total |
| Models.ChooseActionMonotone | PPO/models.py:244-246 | a larger choice never yields a smaller index |
| Models.CumSums2D | PPO/models.py:248-253 | entry (r, c) is the sum of all rows before r plus row r up to c |
| Models.RowMajorPrefix | PPO/models.py:248-253 | that entry is the row-major prefix sum of the flattened grid through r * w + c |
| Models.RowTotals | PPO/models.py:249 | the cumulative row totals |
| Models.RowCumSums | PPO/models.py:250 | a fresh array of per-row cumulative sums |
| Models.AddRowTotals | PPO/models.py:251 | rows from 1 on get the total of all earlier rows added |
| Models.CumSum2D | PPO/models.py:248-253 | fails exactly when the grid's height is not spatial_width (the reshape) or the grid is empty (the write at [-1, -1]), leaving the input as it was; otherwise the returned array holds the 2-D prefix sums of the old input, and the input's last cell becomes 1.0 with nothing else in it changed |
| Models.LastAtMost | PPO/models.py:236-240 | the last row-major cell whose value is <= choice, or none |
| Models.ChooseCellAsWritten | PPO/models.py:236-242 | the written 2-D draw: a cell on the grid whose 2-D prefix sum is at most the draw with every later cell's above it, or (0, 0) when no cell qualifies |
| Models.ChooseAction2D | PPO/models.py:232-242 | the 2-D draw as written: fails exactly as cumsum2D does; otherwise the last cell whose prefix is <= choice, else (0, 0), with the input's last cell set to 1.0 |
| Models.LastCellNeverChosen | PPO/models.py:236-242 | on the 2 x 2 grid [[0.5, 0.0], [0.0, 0.5]] the written rule never draws (1, 1), and for every choice in [0.5, 1) draws (1, 0), a cell of probability 0, where the corrected draw gives (1, 1) |
| Models.AsWrittenIsPredecessor | PPO/models.py:232-246 | on every grid with no negative entry, for a choice below the total mass the written rule draws the row-major predecessor of the inverse-CDF cell (the first cell when that one is first); for a choice at or above the total both rules give the last cell |
| Models.BelowTotalIsPredecessor | PPO/models.py:232-246 | for a choice below the total mass the written 2-D rule draws the row-major predecessor of the inverse-CDF cell, or the first cell when that one is first |
| Models.DrawAtTotalIsLastCell | PPO/models.py:232-246 | for a choice at or above the total mass the written and corrected 2-D rules both give the last cell |
| Models.FirstAbove | PPO/models.py:232-246 | the first row-major cell whose value exceeds choice, or none |
| Models.ChooseCell | PPO/models.py:232-246 | the corrected 2-D draw always lies on the grid |
| Models.ChooseCellAgreesWithFlat | PPO/models.py:232-246 | the corrected 2-D draw is the 1-D draw on the row-major flattening, so cell (r, c) is drawn with its own probability |
| Models.Choose | PPO/models.py:213-230 | one draw per spatial channel, swapped from [y, x] to [x, y], plus the nonspatial index |
| Models.MultiAgentChooseActionAsWritten | PPO/models.py:258-266 | one index per row, bisecting the raw row |
| Models.RawRowOverruns | PPO/models.py:258-266 | on row [0.8, 0.2] with value 0.5 the raw-row bisect gives 2, out of range, where the prefix-sum draw gives 0 |
| Models.MultiAgentChooseAction | PPO/models.py:258-266 | corrected: each row's index is the 1-D prefix-sum draw, always a valid action when the value is below the row's total |

## Left out

- The neural networks are not part of this model: forward passes, convolutions, LSTMs, softmax
  and logit generation. `Network.UnrollForward` takes the recurrent step as a function
  parameter, and the final forward call's outputs are not modelled.
- `unroll_forward_sequential` in interface/base_agent/Network.py is not modelled. It is a
  batched variant of the same reset schedule.
- Floating point: rewards, values, probabilities and hit points are `real`. The following are
  left out: advantage normalisation by the standard deviation, `exp`/`log` of probabilities, the
  entropy and value losses, and `backward()`.
- AgentPpo.PPOAgent.Train: requires a full memory, because the sampling of
  interface/base_agent/memory.py reads windows only a full buffer is sure to store.
- PpoMemory.ReplayMemory.constructor: requires a positive batch size. With 0 the source's
  `int(mem_cap / batch_size)` raises ZeroDivisionError while constructing, which a Dafny
  constructor cannot return.
- BaseMemory.ReplayMemory.constructor: requires a positive batch size, for the same reason.
- AgentPpo.PPOAgent.TrainStepOnce: the loss and the optimizer step are reduced to one new
  version of the live network. The mini-batch drawn, the buffer's cursor and indices, and the
  version count are stated; the network's parameters are not modelled. A raising step is a
  `Fail`, after which no later step runs; the exception itself is not modelled.
- The `sqrt`-based PUCT selection `MCTSNode.action` has no real square root here and is left
  out. So are the search and rollout loops that drive the Pommerman simulator. Their backup and
  averaging steps are modelled.
- MctsAgent.MCTSNode.ProbsProportional: only temperature 1 is modelled, because
  `N ** (1 / temperature)` needs real powers. Temperature 0 is ProbsGreedy.
- ActionInterface.ComputeAttackClosest: the selection's centre of mass is an input. Squared
  distance replaces `cdist`'s Euclidean distance; both have the same first argmin.
- ActionInterface.ComputeMove: the centre of mass is an input, as above.
- `_compute_retreat` in PPO/action_interface.py is unreachable from `compute_action`. Only its
  movement multiplier is modelled.
- The game simulators (pysc2, Pommerman) are a finite script of responses. Environment creation
  and rendering are left out.
- `get_action_args` is given as the action's list of argument ids. The pysc2 feature and
  argument-type tables are inputs.
- pysc2 commands are a datatype.
- `BuildMarinesActuator` is not part of this model. Its `in_progress` flag is a field of the
  frame it reads, and its command carries only the action.
- MinigameEnv.MinigameEnvironment.Step: `step` in PPO/custom_env.py maps 0 and 1 to enum members
  that do not exist. The model takes the abstract action directly. `state_modifier_func` is
  given as each frame's custom channels.
- Randomness is a parameter:
  - shuffles: `random.shuffle`;
  - the choice values: `random.random` and `np.random.random`;
  - the per-slot draws: `sample_func`;
  - tie-breaking picks: `np.random.choice`;
  - the graph noise: `np.random.random`.
- Network.SampleArg: one draw is given per argument slot.
- Network.SampleSpatial: one flat draw is given per spatial type.
- BaseMemory.SampleAt: a sample keeps all h whole states, hidden states included. The source's
  row (interface/base_agent/memory.py:97) keeps the stacked minimap, screen and player parts but
  only the last available-actions entry and the first and last hidden states.
- BuildMarinesEnv.BuildMarinesEnvironment.Step: accepts any integer action code. The
  `BuildMarinesAction` enum lives in experiments/build_marines/action_interface.py, which is not
  part of this model, so the `ValueError` for a code outside it is not modelled.
- Only one memory is modelled behind the PPO agent. The agent calls `compute_vtargets_adv` with
  two arguments, which matches interface/base_agent/memory.py, so `AgentPpo` uses
  `BaseMemory`.
- `RelGraphMemory` (pommerman/relgraph_agent.py:14-21) is left out. Its `push` does nothing and
  its constructor uses an unimported module.
- `random_transform` (interface/base_agent/memory.py:133-138) is unfinished and left out.
- RelGraphAgent.GroundTruthUpdate: requires at least two graph rows and binary agent and flame
  planes. The unused `prev_state` parameter is omitted.
- RelGraphAgent.RelGraphAgent.StateSpaceConverter: the observation is given as flat planes and
  a field map. JSON parsing is left out.
- TestAgent.TestAgent.Sample: the observation is reduced to its minerals.
- Sc2EnvUtils.EmbedLayout: only the channel layout is modelled. The log transform, the embedding
  values and torch's shape errors are left out.
- Models.Choose: works on values. It does not write the caller's tensor as `cumsum2D` does, nor
  fail on a grid whose height is not `spatial_width`, and it uses the corrected 2-D draw
  Models.ChooseCell.
- BuildMarinesEnv.BuildMarinesEnvironment.Step: does not state where `_prev_frame` ends up. It is
  written by `_step_env` and `_reset_env` (StepEnv and ResetEnv state it) and never read in
  experiments/build_marines/custom_env.py. The same holds for
  BuildMarinesEnv.BuildMarinesEnvironment.Reset.
- BuildMarinesEnv.BuildMarinesEnvironment.RunHelpers: returns at once when already terminal,
  which is the source's loop not running.
- Save/load, printing and timing dictionaries are left out.

## Findings

| source | as written | input that shows it | evidently intended | confidence | as-written member | corrected member |
|---|---|---|---|---|---|---|
| PPO/models.py:258-266 | `multi_agent_choose_action` computes `cums` but bisects the raw probability row | row [0.8, 0.2], value 0.5: bisect gives 2, which is not an action | bisect the row's prefix sums, as the 1-D `choose_action` does, giving 0 | high; not executed | Models.MultiAgentChooseActionAsWritten, Models.RawRowOverruns | Models.MultiAgentChooseAction |
| PPO/models.py:232-242 | the 2-D `choose_action` takes the last cell whose prefix sum is <= choice, or (0, 0), which is one cell before the inverse-CDF cell | grid [[0.5, 0.0], [0.0, 0.5]]: cell (1, 1) is never drawn for any choice in [0, 1), and every choice in [0.5, 1) draws (1, 0), a cell of probability 0 | the first cell whose prefix sum exceeds choice, which is the 1-D rule on the flattened grid | moderate; not executed | Models.ChooseAction2D, Models.LastCellNeverChosen, Models.AsWrittenIsPredecessor | Models.ChooseCell, Models.ChooseCellAgreesWithFlat |
