# linedd reduction engine in Dafny

linedd shrinks a text file line by line and keeps the verdict (exit code) of a
user command on the file. It holds one `enabled` flag per original line, inside
a window `[first, last)`. The flags start out all true. It reduces them with
hierarchical, batched delta debugging:

- The **outer loop** repeats rounds while the previous round removed something.
- A **round** runs one stride pass per stride. The first stride is `num_left`,
  the number of enabled window lines, or 1 in linear mode. Each later stride is
  the previous one halved by floor division, and the stride-1 pass is the last.
- A **stride pass** walks the window upwards, or downwards with `--reverse`. It
  disables each enabled line it meets tentatively and collects it in the
  current batch (`disabledSet`). When the batch has `stride` members, the
  candidate file is written and judged. Any smaller batch left at the end is
  judged once.
- An **accepted batch** has the expected verdict. It stays removed, the output
  file is rewritten, and `num_enabled`, `num_left` and `nremoved` move by the
  batch size. Every member of a rejected batch is enabled again.

The project has four modules:

- `Materializer` (`materializer.dfy`) covers `writeTo` as a pure function,
  `WriteTo`, from the flags to the lines it writes. It also covers counting
  enabled lines and `Disable`, the tentative removal of a batch.
- `Engine` (`engine.dfy`) covers the accept/revert rule, the revert loop, the
  stride pass, the stride schedule, a round and the outer fixed-point loop. It
  also covers the counters and the output-file history. Each level has a
  reference definition computed from the oracle alone: `PassResult` and
  `PassWrites` for a pass, `RoundResult` and `RoundWrites` for a round,
  `Rounds` and `RoundsWrites` for the outer loop. The methods are proved to
  end where these say.
- `Driver` (`driver.dfy`) covers the run around the engine. This is resolving
  the expected verdict, the sanity check on the untouched file, defaulting
  `last` to the end of the file and the final rewrite of the output file. It
  also holds two lemmas about the end result on simple commands.
- `Rerun` (`rerun.dfy`) covers linedd run a second time on its own output.
  With the window up to the end of the file and the same first line,
  expected verdict, direction and mode, the second run removes nothing.

The external command is a parameter `oracle: seq<string> -> int`. It is a
deterministic function from the written file content, a sequence of lines, to
a verdict. The output file is modelled as the history `written` of every
content written to it: one entry per accepted batch, then the final rewrite.

The batch (`disabledSet`, a Python set) is modelled as a sequence in visiting
order with no repeated index. The engine only adds to it, iterates over it and
empties it, so the order does not affect the outcome. The sequence lets the
proofs say which indices each batch holds.

## Model

| member | source | states |
|---|---|---|
| Materializer.WriteToSelects | src/linedd.py:173-178 | The written content has one entry per enabled index. Entry `j` is the original line at the `j`-th enabled index. Those indices are strictly increasing. An index is among them exactly when its flag is set. |
| Materializer.WriteTo | src/linedd.py:173-178 | The content `writeTo` writes has exactly one line per enabled flag. |
| Materializer.EnabledIndices | src/linedd.py:175-176 | The enabled indices below `n` are in range, enabled and strictly increasing. Every enabled index below `n` is included, and the count matches `CountIn`. |
| Materializer.WriteToAll | src/linedd.py:171-178 | With every flag set, the written content is the original file unchanged. |
| Materializer.CountAllTrue | src/linedd.py:170-171 | The count of an all-true selection over a range is the range's length. So `num_enabled` starts at the line count and `num_left` at `last - first`. |
| Materializer.CountZero | src/linedd.py:208-211 | A range whose enabled count is zero has every flag in it cleared. |
| Materializer.CountClear | src/linedd.py:220-229 | Clearing one enabled flag lowers the count of every range holding it by one. Other ranges keep their count. |
| Materializer.CountDisable | src/linedd.py:228-249 | Disabling a batch of distinct enabled indices inside a range lowers that range's count by exactly the batch size. |
| Materializer.WriteToCompose | src/linedd.py:173-178 | Writing out a selection `f` of an already written file gives the same content as writing the original through the combined selection: the lines enabled in `e` whose output position is enabled in `f`. |
| Materializer.ComposeDisable | src/linedd.py:219-220 | Disabling the output positions of some kept lines in an untouched written file is, combined with `e`, the same selection as disabling those lines in `e`. |
| Engine.VisitOrderFacts | src/linedd.py:214-215 | A pass meets exactly the enabled window indices, each once. The order is ascending, or descending when `backward` is set. |
| Engine.RevertBatch | src/linedd.py:233-236 | After the revert loop a flag is set exactly when it was set before or its index is in the batch. No other flag changes. |
| Engine.TestBatch | src/linedd.py:221-254 | A batch is accepted exactly when the candidate's verdict is the expected one. On acceptance the candidate is written to the output file, and `num_enabled`, `num_left` and `nremoved` move by the batch size. On rejection the selection is identical to the one before the batch, and the counters and output file are unchanged. Either way the counters match the selection and every output write has the expected verdict. |
| Engine.ScheduleShape | src/linedd.py:210-263 | The stride schedule starts at its start value and ends with 1. Every stride is at least 1, and each is the previous one floor-halved and strictly smaller. It is empty when the start is below 1. It has at most as many strides as the start value. |
| Engine.SinglesMinimal | src/linedd.py:211-254 | A stride-1 pass in which every singleton batch was rejected against the starting selection shows that selection is 1-minimal. |
| Engine.ChunksOf | src/linedd.py:213-254 | Batches that lay the visit order out end to end, each with `stride` members except a last one with between 1 and `stride`, are exactly the visit order cut into consecutive chunks of `stride`. |
| Engine.ReplayRejected | src/linedd.py:233-254 | When every batch is rejected against the starting selection itself, every verdict of the pass is a rejection and the committed selection never moves from the start. |
| Engine.ReplayPass | src/linedd.py:219-254 | Replaying a pass's recorded verdicts gives the same selection as `PassResult`, which asks the oracle about each batch against the selection left by the earlier batches. So the recorded verdicts are exactly the oracle's. |
| Engine.AcceptedPass | src/linedd.py:223-227 | What a pass wrote to the output file, one content after each accepted batch, is what `PassWrites` computes from the oracle alone: for each batch whose candidate gets the expected verdict, that candidate, in batch order. |
| Engine.KeptNothing | src/linedd.py:221-254 | A pass over the chunks of the visit order kept nothing exactly when every chunk is rejected against the starting selection. |
| Engine.Gather | src/linedd.py:214-220 | Visiting one more index extends the visit order laid out by the tested batches and the current batch. An enabled index joins the batch and is tentatively disabled; a disabled one is skipped. The batch grows by at most one, and the counters, output file and tested batches are unchanged. |
| Engine.Flush | src/linedd.py:221-254 | Testing a non-empty batch appends it to the tested batches and empties it. The committed selection is the replay of the verdicts, the counters and output file follow it, and the output file gained the candidate exactly when the batch was accepted. |
| Engine.Traverse | src/linedd.py:214-237 | After the loop over the whole window, the tested batches and the pending batch lay out the visit order. Every tested batch is full, the pending batch has fewer than `stride` members, and the output file holds one candidate per accepted batch. |
| Engine.Finish | src/linedd.py:239-258 | The leftover batch is tested once when non-empty, and then no batch is pending. The tested batches are the visit order in chunks of `stride`, with at most the last one short. The verdicts are the oracle's, and the output file gained one candidate per accepted batch. Counters stay consistent, and a pass that kept nothing leaves everything as it was. |
| Engine.PassOutcome | src/linedd.py:211-258 | A finished pass tested exactly the chunks of the visit order. It kept nothing exactly when every chunk is rejected against the starting selection. A stride-1 pass that kept nothing shows the start is 1-minimal. |
| Engine.StridePass | src/linedd.py:211-258 | The pass ends at `PassResult` of the chunks, and the output file gains exactly the candidates `PassWrites` lists, so the batches are judged one after another, each against what the earlier ones left. The tested batches are the enabled window indices of the starting selection in visiting order, cut into chunks of `stride`. Every chunk but the last is full, and the last is tested once, so nothing stays pending. Each batch's verdict is the oracle on the selection committed before it with that batch disabled. The result is the start with exactly the accepted batches disabled. The pass keeps nothing exactly when every chunk is rejected against the start, and then everything is as it was. Flags only go from true to false, counters stay consistent and every output write has the expected verdict. A stride-1 pass that keeps nothing shows 1-minimality. |
| Engine.RoundPass | src/linedd.py:211-260 | One more pass carries the round's selection and output file to `RoundResult` and `RoundWrites` of the strides run so far plus this one. The round has kept something exactly when it had before or some chunk of this stride is accepted against the round's starting selection. |
| Engine.RoundPasses | src/linedd.py:210-263 | The loop of a round runs exactly the passes of the schedule, ending with stride 1, and ends at `RoundResult` and `RoundWrites` of that schedule. |
| Engine.Round | src/linedd.py:203-263 | The selection and output file after the round are `RoundResult` and `RoundWrites` of its schedule: every stride's pass runs, each from where the previous one left off. The strides run are exactly the schedule from `num_left`, or from 1 in linear mode. A round removes something exactly when its starting selection is not stable, that is, some chunk of some stride of its schedule is accepted against it. A round that removes something lowers `num_enabled`. A round that removes nothing leaves the selection, counters and output file unchanged and shows the selection is 1-minimal. |
| Engine.RoundsNext | src/linedd.py:202-263 | A round that starts after `k` rounds and runs its full schedule ends at round `k + 1` of `Rounds` and `RoundsWrites`. It changed something exactly when it moved the selection. |
| Engine.Reduce | src/linedd.py:195-265 | The outer loop terminates, because every changing round lowers the enabled count. On exit, lines outside the window are all kept. `num_enabled`, `num_left` and `nremoved` match the final selection. Every content written to the output file had the expected verdict, and the last write is the final selection. The final selection is stable and 1-minimal, and at least one round ran. A file that is stable as it stands is kept whole after exactly one round, with nothing written. The final selection and output history are those after `rounds` rounds as `Rounds` and `RoundsWrites` compute them. Every round but the last changed the selection, and the last left it as it was. |
| Driver.Run | src/linedd.py:158-268 | Without a given verdict, the expected verdict is the input file's verdict. The run fails exactly when no verdict was given and the untouched file gets another verdict. Otherwise the report's output is the final selection written out, and lines outside the window are kept. The output file's history is the accepted candidates, each with the expected verdict, followed by the final rewrite. That rewrite is the output and repeats the last accepted candidate, or is the untouched file when none was accepted. The output has the expected verdict whenever the untouched file has it. The result is 1-minimal, and the kept and removed counts add up to the line count. A negative `last` means the end of the file. The result is the selection `Rounds` reaches after the reported number of rounds, each round but the last changing it. The history before the final rewrite is what `RoundsWrites` lists for those rounds. A reversed window runs one round that writes nothing. |
| Driver.SoleNeededLine | src/linedd.py:202-265 | If the verdict is the expected one exactly when one window line `k` is kept, a 1-minimal selection with that verdict keeps `k` and no other window line. |
| Driver.NothingNeeded | src/linedd.py:202-265 | If the verdict never depends on the content, a 1-minimal selection keeps no window line. |
| Rerun.VisitOrderRank | src/linedd.py:214-215 | A pass of the second run over its untouched file meets the output positions of the lines a pass of the first run meets, in the same order and with the window up to the end of the file. |
| Rerun.ChunksMap | src/linedd.py:213-221 | Cutting the output positions of a visit order into chunks gives the output positions of its chunks, chunk by chunk. |
| Rerun.RerunCandidate | src/linedd.py:219-223 | The candidate the second run writes for a batch of output positions has the same content as the candidate the first run writes for the matching lines. |
| Rerun.RerunPassRejects | src/linedd.py:211-258 | If every chunk of a stride is rejected against the first run's result, every chunk of that stride is rejected in the second run's untouched file. |
| Rerun.RerunStable | src/linedd.py:202-263 | A first run's stable result gives a second run whose untouched file is stable, with the same start stride. |
| Rerun.ReduceTwice | src/linedd.py:192-265 | Running the engine again on its own output, with the window to the end of the file and the same first line, expected verdict, direction and mode, keeps every line. It ends after one round, writes nothing, and its output is the first run's output. |

## Left out

- Command-line parsing (src/linedd.py:60-103, 112-122): the settings arrive as the parameters of `Driver.Run` or as a `Config`.
- Backup renaming of an existing output file (src/linedd.py:126-144): filesystem probes and moves, not part of the reduction.
- `run` (src/linedd.py:148-153): the shell call becomes the `oracle` parameter. Its `>>8` exit-status decoding and the signal display (line 165) are process semantics that the abstract verdict stands in for.
- The verdict on the input file itself: the driver takes it as the separate parameter `inputVerdict`. Python's text-mode newline handling means the input file need not equal its rewritten copy byte for byte, so `oracle(lines)` and `inputVerdict` are kept apart.
- Temporary-file creation and removal and the file I/O itself (src/linedd.py:181-185, 269): `WriteTo` returns the content instead of writing it.
- Progress printing, `round`'s display, `cur_removed` and `ntried` (src/linedd.py:156, 165-167, 204-207, 231, 237, 256, 265, 270): reporting only.
- Driver.Run: requires `0 <= first` and a resolved `last` of at most the line count. Python would wrap a negative index around to the end of the list or raise `IndexError` past the end, and that behaviour is not modelled. A window with `first` past the resolved `last` is modelled: no line is tested and one round runs.
- Engine.Reduce: rerun idempotence is stated by `Rerun.ReduceTwice` only for a window up to the end of the file with the same first line, expected verdict, direction and mode. With an explicit `last`, the rerun's window would cover other lines of the shorter file.
- Engine.Reduce: does not state that linear and hierarchical modes give the same result. That does not hold for every command: one that accepts "both of two lines kept" and "neither kept" keeps both in linear mode but can drop both in a hierarchical round. `Driver.SoleNeededLine` and `Driver.NothingNeeded` state the mode-independent outcome for two simple kinds of command instead.
- Rerun.ReduceTwice: starts from the engine, not from `Driver.Run`. The rerun's own sanity check and its resolution of the expected verdict from `inputVerdict` are outside it, because the verdict on a file read back from disk is a separate parameter.
- The oracle is deterministic. A command whose verdict varies between runs on the same content is outside the model.
