# LiDAR indoor mapping and navigation: a Dafny model of the core

This project models the parts of the LiDAR mapping and navigation web
application that carry checkable logic, and proves properties of them:

- **Segmentation stream, server side** (`backend/api.py`). The point
  features are cropped or padded to 7 columns. The points are cut into
  batches of 50 000 rows. The streaming generator writes a header frame,
  one numbered frame per batch and a final frame.
- **Segmentation stream, client side** (`frontend/src/api.js`,
  `segmentStream`). The reader buffers chunks of text and splits the
  buffer on blank lines. It keeps the incomplete tail as the new buffer.
  It classifies every complete `data:` segment as a header, a batch or the
  final result, using JavaScript truthiness.
- **Both ends together** (module `Wire`). Take the server's frames, write
  them as `data: <json>\n\n` and cut the text into chunks in any way. The
  client then makes exactly the expected callbacks, in order, and resolves.
- **Episode statistics** of the navigation page
  (`frontend/src/components/RLView.jsx`). These are a class whose methods
  take the server's step reply as input. The same transitions are pure
  functions on a `View` value, and the run lemmas are stated over those.
- **Grid navigation environment** `MapEnv` (`backend/rl_nav.py`). It is a
  class over an `array2<int>` that is updated in place. The obstacle draws
  and the occupancy map are inputs.
- **Smaller pieces**:
  - the offline converter to 7 features (`backend/convert_npy_to_npz.py`);
  - the batch upload panel (`BatchView.jsx`);
  - the occupancy map panel (`MapView.jsx`);
  - the login page (`LoginPage.jsx`).

Modules:

| module | file |
|---|---|
| `Wrappers` | `wrappers.dfy` |
| `JsText` | `js_text.dfy`: JavaScript `trim`, `toUpperCase`, `startsWith`, `endsWith`, `indexOf`, `replace` |
| `StreamClient` | `stream_client.dfy` |
| `ServerStream` | `server_stream.dfy` |
| `Wire` | `wire.dfy` |
| `EpisodeView` | `episode_view.dfy` |
| `Navigation` | `map_env.dfy` |
| `Fixed7` | `fixed7.dfy` |
| `BatchView` | `batch_view.dfy` |
| `MapView` | `map_view.dfy` |
| `LoginPage` | `login_page.dfy` |

These become parameters of the model:

- `JSON.parse` is `parse: string -> Fields`, which maps text to a record of
  optional properties.
- `json.dumps` is `dumps: Frame -> string`.
- The network's predictions are `predict: seq<Row> -> seq<int>`.
- Every server reply (`rlStep`, `rlResetRandom`, `buildMap`,
  `segmentPointCloud`) is an input value.
- `np.random.randint` draws are an input sequence of `(x, y)` pairs.

Three behaviours of the code differ from what a caller might expect:

- `onComplete` can fire more than once.
- A manual step is not guarded by `episodeDone`.
- A header announcing 0 batches is not reported, because 0 is falsy.

## Model

| member | source | states |
|---|---|---|
| JsText.Trim | frontend/src/api.js:97 | `String.prototype.trim`, used at frontend/src/pages/LoginPage.jsx:28-29 as well; its own contract is only that the trim is no longer than the input, and JsText.TrimSpec states what it is |
| JsText.LeadingSpace | frontend/src/api.js:97 | the count of leading white-space characters: they are all white space, and the next character is not |
| JsText.TrailingSpace | frontend/src/api.js:97 | the count of trailing white-space characters: they are all white space, and the character before them is not |
| JsText.TrimSpec | frontend/src/api.js:97 | `trim` leaves no white space at either end and cuts only white space from each end of the input |
| JsText.TrimOfTrimmed | frontend/src/pages/LoginPage.jsx:28-29 | a string with no white space at its ends is its own trim |
| JsText.TrimPadded | frontend/src/api.js:97 | trimming white space ⧺ core ⧺ white space gives the core back |
| JsText.ToUpper | frontend/src/pages/LoginPage.jsx:28-29 | upper-casing keeps the length and maps every character through the ASCII upper-case map |
| JsText.TrimOfUpper | frontend/src/pages/LoginPage.jsx:28-29 | trimming and upper-casing commute |
| JsText.UpperIdempotent | frontend/src/pages/LoginPage.jsx:28-29 | upper-casing twice is upper-casing once |
| JsText.IndexOf | frontend/src/api.js:97 | `indexOf` returns the first occurrence at or after `from`, or -1 when there is none |
| JsText.ReplaceFirst | frontend/src/api.js:97 | a string-pattern `replace` changes nothing when the pattern does not occur |
| JsText.ReplacePrefix | frontend/src/api.js:97 | for a string that starts with the pattern, replacing its first occurrence by "" drops that prefix |
| StreamClient.Split | frontend/src/api.js:91 | `split("\n\n")` always returns at least one piece |
| StreamClient.SplitJoin | frontend/src/api.js:91 | joining the pieces with "\n\n" gives the text back, and the pieces are well formed: no delimiter inside, and none but the last ends in a newline |
| StreamClient.JoinSplit | frontend/src/api.js:91 | the other half of the round trip: well-formed pieces survive joining and splitting |
| StreamClient.SplitOfClean | frontend/src/api.js:91 | a text with no delimiter is one piece |
| StreamClient.SplitPiece | frontend/src/api.js:91 | a clean first piece followed by the delimiter splits off on its own |
| StreamClient.SplitAppend | frontend/src/api.js:88-92 | splitting s ⧺ t equals splitting s, keeping its complete pieces, and splitting its last piece ⧺ t |
| StreamClient.ChunkBoundary | frontend/src/api.js:88-92 | processing a chunk after the buffer gives the same complete segments and remainder as processing all the text received: the chunking does not matter |
| StreamClient.ReceiveStep | frontend/src/api.js:88-117 | the calls after one more chunk are the earlier calls followed by those of the segments the chunk completes, and a final frame among either settles the promise |
| StreamClient.RemainderIsTail | frontend/src/api.js:92 | the buffer that is kept is a suffix of the text with no delimiter in it, and the delimiter comes right before it |
| StreamClient.JoinLast | frontend/src/api.js:91-92 | the joined text ends with the last piece, preceded by the delimiter when there are several pieces |
| StreamClient.Classify | frontend/src/api.js:100-116 | the order of the checks: a truthy `total_batches` gives the header callback even when other keys are present; otherwise a truthy `batch` and `preds` give the batch callback with those two values; otherwise a truthy `done` and `final` give `onComplete` with `final`; otherwise nothing (an if-and-only-if) |
| StreamClient.Truthy | frontend/src/api.js:101-113 | JS truthiness of a parsed value: false exactly for `null`, `false`, 0 and the empty string; empty arrays and objects are truthy |
| StreamClient.Payload | frontend/src/api.js:97 | the JSON text of a segment, the first "data:" removed and the rest trimmed; StreamClient.PayloadOfDataSegment states it for a data segment |
| StreamClient.Remainder | frontend/src/api.js:91-92 | `parts.pop()`: what stays in the buffer; StreamClient.RemainderIsTail states that it is the delimiter-free tail after the last delimiter |
| StreamClient.CompleteSegments | frontend/src/api.js:91-94 | the parts the loop handles, all but the last; StreamClient.SplitJoin and StreamClient.ChunkBoundary state how they relate to the text received |
| StreamClient.CallFor | frontend/src/api.js:95 | a segment that does not start with "data:" gives no callback |
| StreamClient.PayloadOfDataSegment | frontend/src/api.js:97 | the JSON text of a "data:" segment is the rest of the segment, trimmed |
| StreamClient.CallsFor | frontend/src/api.js:94-117 | each segment gives at most one callback |
| StreamClient.CallsForAppend | frontend/src/api.js:94-117 | the callbacks of two runs of segments are the callbacks of each run, in order |
| StreamClient.CallsForSnoc | frontend/src/api.js:94-117 | one more segment appends its own callback, if any |
| StreamClient.ZeroIsNotReported | frontend/src/api.js:101-107 | a header of 0 batches and batch number 0 are falsy and give no callback; batch 1 with an empty array is reported |
| StreamClient.CompletesSnoc | frontend/src/api.js:113-116 | the promise resolves once a final callback has occurred |
| StreamClient.CompletesAppend | frontend/src/api.js:113-116 | a run resolves when either part of it does |
| StreamClient.ConcatSnoc | frontend/src/api.js:88 | the text received after one more chunk is the earlier text followed by that chunk |
| StreamClient.StreamSession.Open | frontend/src/api.js:72-80 | without a body the promise is rejected with "No response body received" and nothing is read; otherwise the buffer is empty and reading starts |
| StreamClient.StreamSession.Receive | frontend/src/api.js:88-117 | after a chunk, the buffer is the text after the last delimiter, and the callbacks of the complete segments are appended in order |
| StreamClient.StreamSession.Finish | frontend/src/api.js:83-86 | when the reader is done, reading stops and the incomplete tail in the buffer gives no callback |
| StreamClient.HandleSegment | frontend/src/api.js:94-117 | one pass of the loop body gives exactly the callback the segment calls for: none without the `data:` prefix, else header, batch or final, tried in that order |
| StreamClient.Run | frontend/src/api.js:61-126 | for any chunking, the callbacks are those of the complete segments of the whole text, the buffer is its remainder, and the settlement follows from the callbacks; without a body the promise is rejected |
| StreamClient.ResolvedStaysResolved | frontend/src/api.js:113-119 | once the promise is resolved, later frames, including further final frames, do not change that |
| ServerStream.Zeros | backend/api.py:132 | a row of n zeros |
| ServerStream.PadRow | backend/api.py:130-133 | padding keeps the row and appends zeros up to the new width |
| ServerStream.NormalizePointFeatures | backend/api.py:116-135 | always 7 columns and the same number of rows; for F > 7 the first 7 columns; for F < 7 the F columns followed by zeros; for F = 7 the input itself |
| ServerStream.Batches | backend/api.py:161-163 | the slices `points[i:i+batch_size]` of the loop; ServerStream.BatchesPartition and ServerStream.BatchAt state their number, sizes and positions |
| ServerStream.BatchFrames | backend/api.py:161-174 | the batch frames the loop yields, batch k + 1 carrying the predictions of the k-th slice; ServerStream.BatchFramesNumbered states it per frame |
| ServerStream.BatchPreds | backend/api.py:170-176 | the predictions the batch frames carry, in order, which `np.concatenate` joins into the final list; ServerStream.BatchPredsSnoc and ServerStream.FinalCoversAllPoints state them |
| ServerStream.TotalBatches | backend/api.py:152 | the ceiling of N / 50000: enough batches to cover N, with the last one non-empty, and 0 exactly when N is 0 |
| ServerStream.FlattenAppend | backend/api.py:176 | concatenating two lists of batches concatenates their contents |
| ServerStream.BatchesPartition | backend/api.py:162-163 | there are `total_batches` slices; together, in order, they are the points; each holds 1 to 50000 rows, and all but the last hold exactly 50000 |
| ServerStream.BatchAt | backend/api.py:162-163 | batch k is the slice `points[k*50000 : (k+1)*50000]`, clipped at N |
| ServerStream.BatchesFrom | backend/api.py:162-163 | the batches from position i on are the slice of up to 50000 points starting at i, followed by the batches after it |
| ServerStream.BatchPredsSnoc | backend/api.py:170 | one more frame appends its predictions when it is a batch frame |
| ServerStream.EventGenerator | backend/api.py:154-179 | the loop writes the header, then the batch frames numbered from 1, then the final frame holding all batch predictions in order; for N = 0 it stops after the header, where the source's concatenation fails |
| ServerStream.BatchFramesNumbered | backend/api.py:161-174 | there are `total_batches` batch frames, and frame k is numbered k and holds the predictions of batch k |
| ServerStream.BatchPredsLength | backend/api.py:170 | when the network keeps the length, the collected predictions are as long as the batches together |
| ServerStream.FinalCoversAllPoints | backend/api.py:176-179 | the final predictions have one entry per point |
| ServerStream.SegmentStream | backend/api.py:137-181 | when `points` is missing, exactly one error frame "points missing"; otherwise the frames of the generator for the normalised points |
| Wire.CallOf | frontend/src/api.js:100-116 | for each kind of server frame, the callback it gets: none for an error frame, the header callback with the count exactly when the batch count is non-zero, the batch callback with the number and predictions exactly when the number is non-zero, `onComplete` with the predictions for the final frame |
| Wire.EventText | backend/api.py:156-179 | one event as the server writes it, `data: <json>` followed by a blank line: exactly 8 characters longer than the JSON text; Wire.SplitStream states that the client splits it back off |
| Wire.SplitStream | frontend/src/api.js:91-92 | the server's body splits into one "data:" segment per frame, and the buffer ends empty |
| Wire.CallOfSegment | frontend/src/api.js:95-98 | a frame's segment gives that frame's callback |
| Wire.CallsOfSegments | frontend/src/api.js:94-117 | the segments of a run of frames give the callbacks of those frames, in order |
| Wire.ExpectedCallsAppend | frontend/src/api.js:94-117 | the callbacks of two runs of frames are the callbacks of each run, in order |
| Wire.ClientSeesFrames | frontend/src/api.js:88-117 | the client's callbacks for the server's body are those of its frames, in order, and nothing is left in the buffer |
| Wire.BatchFramesCalls | backend/api.py:173 | numbered batch frames each give one batch callback with their number and predictions |
| Wire.EndToEnd | backend/api.py:154-179 | for a non-empty point set the client reports the header with ⌈N/50000⌉, then every batch numbered from 1 in order, then the final predictions, and the promise resolves |
| Wire.ReceiveServerStream | frontend/src/api.js:61-126 | the same for any cutting of the body into chunks, with an empty buffer at the end |
| Wire.EmptyStreamIsSilent | frontend/src/api.js:101-104 | the header of an empty point set (0 batches) gives no callback |
| Wire.ErrorStreamIsSilent | backend/api.py:142-146 | the missing-points error frame gives no callback, and the promise stays pending |
| EpisodeView.ResetKeepsEpisodes | frontend/src/components/RLView.jsx:109-125 | a reset zeroes steps and reward, keeps episodes, clears `episodeDone`, sets `lastAction` to -1 and `auto` to false, and shows the new grid |
| EpisodeView.InitialLoadClearsEpisodes | frontend/src/components/RLView.jsx:45-52 | the initial load resets with the episode count set to 0 |
| EpisodeView.ResetStats | frontend/src/components/RLView.jsx:32-40 | `resetStatsForNewEpisode`: steps and reward 0, episodes kept or zeroed, `episodeDone` false, `lastAction` -1; EpisodeView.RLView.ResetStatsForNewEpisode states it on the component |
| EpisodeView.InitialLoad | frontend/src/components/RLView.jsx:45-52 | the initial load; EpisodeView.InitialLoadClearsEpisodes states its effect |
| EpisodeView.Reset | frontend/src/components/RLView.jsx:109-125 | both reset handlers; EpisodeView.ResetKeepsEpisodes states their effect |
| EpisodeView.Step | frontend/src/components/RLView.jsx:127-157 | `handleStep` once the reply arrives; EpisodeView.StepEffect states its effect |
| EpisodeView.Tick | frontend/src/components/RLView.jsx:60-100 | one auto-run tick; EpisodeView.TickWhenDone and EpisodeView.EnabledTickSteps state its two branches |
| EpisodeView.StartAuto | frontend/src/components/RLView.jsx:159-164 | `handleStartAuto`; EpisodeView.StartAutoEffect states its effect |
| EpisodeView.StopAuto | frontend/src/components/RLView.jsx:166-169 | `handleStopAuto`; EpisodeView.StopAutoEffect states its effect |
| EpisodeView.StepEffect | frontend/src/components/RLView.jsx:127-157 | a step adds exactly 1 step and the reward, and records the action; a finished episode adds exactly 1 episode, sets `episodeDone` and turns `auto` off |
| EpisodeView.TickWhenDone | frontend/src/components/RLView.jsx:62-66 | a tick after the episode finished only turns auto-run off: no step, stats unchanged |
| EpisodeView.StartAutoEffect | frontend/src/components/RLView.jsx:159-164 | start does nothing without a grid; otherwise it clears `episodeDone` and turns auto-run on |
| EpisodeView.StopAutoEffect | frontend/src/components/RLView.jsx:166-169 | stop only turns auto-run off |
| EpisodeView.ApplyConsistent | frontend/src/components/RLView.jsx:109-169 | every handler keeps the invariant: auto-run is never on after a finished episode, and is on only with a grid |
| EpisodeView.RunConsistent | frontend/src/components/RLView.jsx:109-169 | every sequence of events keeps that invariant |
| EpisodeView.EnabledTickSteps | frontend/src/components/RLView.jsx:57-99 | a tick that can fire (auto-run on), from any reachable state, always calls the step endpoint |
| EpisodeView.EpisodesNeverDecrease | frontend/src/components/RLView.jsx:109-169 | without a fresh mount, the episode count never goes down |
| EpisodeView.Replies | frontend/src/components/RLView.jsx:127-128 | one Step press per reply, in order |
| EpisodeView.ManualSteps | frontend/src/components/RLView.jsx:127-157 | k manual steps give k steps, the sum of the rewards, one episode per finished reply, and the last reply's action |
| EpisodeView.RLView.constructor | frontend/src/components/RLView.jsx:15-27 | the state on mount: no grid, zero stats, no action, auto-run off |
| EpisodeView.RLView.ResetStatsForNewEpisode | frontend/src/components/RLView.jsx:32-40 | steps and reward become 0, `episodeDone` false, `lastAction` -1, and episodes are kept exactly when `keepEpisodes` holds |
| EpisodeView.RLView.Mount | frontend/src/components/RLView.jsx:45-52 | the state becomes that of the initial load |
| EpisodeView.RLView.HandleReset | frontend/src/components/RLView.jsx:109-125 | the state becomes that of a reset |
| EpisodeView.RLView.ApplyReply | frontend/src/components/RLView.jsx:68-99 | the state becomes that of one step with the reply |
| EpisodeView.RLView.HandleStep | frontend/src/components/RLView.jsx:127-157 | the state becomes that of one step with the reply |
| EpisodeView.RLView.AutoTick | frontend/src/components/RLView.jsx:60-99 | the endpoint is called exactly when the episode is not done; the state becomes that of one tick |
| EpisodeView.RLView.HandleStartAuto | frontend/src/components/RLView.jsx:159-164 | the state becomes that of start |
| EpisodeView.RLView.HandleStopAuto | frontend/src/components/RLView.jsx:166-169 | the state becomes that of stop |
| Navigation.Contents | backend/rl_nav.py:35 | the cells of the grid array, row by row |
| Navigation.Set | backend/rl_nav.py:64 | a single cell write: that cell gets the new value and every other cell keeps its value |
| Navigation.Move | backend/rl_nav.py:65-72 | the bounded move for an action; Navigation.MoveStaysInside states that it stays inside the area, that each action moves its one coordinate exactly when the border allows, and that any other action leaves the agent in place |
| Navigation.Reward | backend/rl_nav.py:74-82 | -1.0 for an obstacle, 1.0 for the goal, -0.01 otherwise; Navigation.StepReward states it for a step |
| Navigation.Terminal | backend/rl_nav.py:75-82 | an obstacle or the goal ends the episode; Navigation.StepReward states that `done` is that or the step limit of backend/rl_nav.py:86-87 |
| Navigation.StepSpec | backend/rl_nav.py:60-88 | the step as written keeps the agent inside the n x n area |
| Navigation.StepCounts | backend/rl_nav.py:62 | each step adds exactly 1 to the step counter |
| Navigation.MoveStaysInside | backend/rl_nav.py:65-72 | a move happens exactly when it stays inside [0, n-1]; an unknown action or a move into a border leaves the position as it is; one coordinate at most changes |
| Navigation.StepReward | backend/rl_nav.py:74-87 | entering 1 gives -1.0 and done, entering 2 gives +1.0 and done, anything else gives -0.01; done is also forced once steps reach n·n |
| Navigation.StepFrame | backend/rl_nav.py:63-85 | the cell at the read position is cleared, the entered cell holds 3, and no other cell changes |
| Navigation.TwoStepsLeaveTwoAgents | backend/rl_nav.py:63-85 | as written, two moves right from the corner of a 3 x 3 board leave two cells holding the agent |
| Navigation.StepIntended | backend/rl_nav.py:60-88 | the step with the position read in its stored order keeps the agent inside the area |
| Navigation.IntendedKeepsOneAgent | backend/rl_nav.py:63-85 | that step keeps exactly one agent cell, at the stored position |
| Navigation.ResetBoard | backend/rl_nav.py:34-46 | the reset board is n x n |
| Navigation.ResetLayout | backend/rl_nav.py:34-46 | after `reset_random` cell (0,0) is 3 and (n-1,n-1) is 2, overriding any obstacle; every other cell is 1 exactly when it was drawn, and 0 otherwise |
| Navigation.ResetOneAgent | backend/rl_nav.py:41-44 | after a reset there is exactly one agent cell, at the agent's position |
| Navigation.Marked | backend/rl_nav.py:49-50 | marking keeps the shape of the map |
| Navigation.OccLayout | backend/rl_nav.py:48-58 | after `load_from_occ` a cell is an obstacle exactly when the map holds 1, every other label is free, and the corners hold the agent and the goal |
| Navigation.MapEnv.constructor | backend/rl_nav.py:30-32 | a new environment is the random reset of an n x n grid |
| Navigation.MapEnv.ResetRandom | backend/rl_nav.py:34-46 | the grid becomes the reset board for the draws; agent at (0,0), goal at (n-1,n-1), steps 0; the returned copy equals the grid |
| Navigation.MapEnv.LoadFromOcc | backend/rl_nav.py:48-58 | the grid becomes the marked map with goal and agent; `grid_size` is the row count; steps 0; the returned copy equals the grid |
| Navigation.ResetGrid | backend/rl_nav.py:35-44 | the fresh n x n array holds the drawn obstacles, then the goal at (n-1, n-1), then the agent at (0, 0) |
| Navigation.OccGrid | backend/rl_nav.py:49-56 | the fresh array has the map's shape and holds an obstacle exactly where the map holds 1, then the goal and the agent |
| Navigation.MapEnv.Step | backend/rl_nav.py:60-88 | the grid is updated in place to the board of the step as written; the position, counter, reward and `done` are those of the step; the returned copy equals the grid |
| Navigation.Moved | backend/rl_nav.py:65-72 | the branch chain computes the move |
| Navigation.Score | backend/rl_nav.py:74-82 | the branch chain computes the reward and the terminal flag |
| Navigation.DrawObstacles | backend/rl_nav.py:35-40 | the obstacle loop marks a cell exactly when some draw hit it |
| Navigation.Copy | backend/rl_nav.py:46 | `grid.copy()`: a fresh array with the same cells |
| Navigation.MarkOccupied | backend/rl_nav.py:49-50 | `g[occ == 1] = 1` on a zero array of the map's shape |
| Navigation.Put | backend/rl_nav.py:64 | one cell assignment, in place |
| Fixed7.Fixed7Rows | backend/convert_npy_to_npz.py:21-34 | the output is N x 7; a cell is copied exactly when its column group fits in the input width, and is 0 otherwise |
| Fixed7.Rows | backend/convert_npy_to_npz.py:22 | the rows of a 2-D array |
| Fixed7.CopyColumns | backend/convert_npy_to_npz.py:26 | a column-slice assignment copies those columns and leaves every other cell as it was |
| Fixed7.ConvertToFixed7 | backend/convert_npy_to_npz.py:21-34 | a fresh N x 7 array whose rows are the converted rows of the input |
| Fixed7.NarrowIsZero | backend/convert_npy_to_npz.py:25-26 | for D < 3 the output is all zeros |
| Fixed7.ColumnGroups | backend/convert_npy_to_npz.py:25-32 | columns 0–2 are copied from D ≥ 3; columns 3–6 are zero for D < 6; columns 3–5 are copied from D ≥ 6; column 6 is copied from D ≥ 7 and is 0 for D = 6; nothing past column 6 is read |
| Fixed7.AgreesWithNormalize | backend/convert_npy_to_npz.py:21-34 | for widths 0, 3 and at least 6 the converter and the server's normalisation agree |
| Fixed7.DiffersFromNormalize | backend/convert_npy_to_npz.py:21-34 | for widths 1, 2, 4 and 5 they differ whenever the last column is non-zero: the converter zeroes it and the server keeps it |
| Fixed7.ProcessFile | backend/convert_npy_to_npz.py:39-47 | input that is not 2-D is rejected before conversion; a 2-D table is converted |
| BatchView.NpzOnly | frontend/src/components/BatchView.jsx:17-19 | the filter keeps exactly the files whose names end in ".npz" |
| BatchView.NpzOnlyAppend | frontend/src/components/BatchView.jsx:17-19 | the filter keeps the order: filtering a concatenation filters each part |
| BatchView.NpzOnlyKeepsAll | frontend/src/components/BatchView.jsx:17-19 | a list of ".npz" files passes the filter unchanged |
| BatchView.EntryFor | frontend/src/components/BatchView.jsx:37-42 | the entry carries the file's name; a reply gives `Counted(name, num_points)` and a thrown call `Failed(name, message)`, so it is an error entry exactly when the call threw |
| BatchView.Entries | frontend/src/components/BatchView.jsx:34-45 | exactly one entry per file, in file order |
| BatchView.FailureDoesNotStop | frontend/src/components/BatchView.jsx:37-42 | a failing file records its error, and every later file still gets its own entry |
| BatchView.Progress | frontend/src/components/BatchView.jsx:48 | `Math.round(((i + 1) / total) * 100)` in exact arithmetic; BatchView.ProgressMonotone and BatchView.ProgressEnds state its range, monotonicity and final value |
| BatchView.ProgressMonotone | frontend/src/components/BatchView.jsx:48 | progress stays within 0..100 and never decreases |
| BatchView.ProgressEnds | frontend/src/components/BatchView.jsx:48 | after the last file the progress is exactly 100 |
| BatchView.BatchPanel.HandleDrop | frontend/src/components/BatchView.jsx:13-22 | the dropped ".npz" files are appended, in order, after the existing ones |
| BatchView.BatchPanel.ChooseFiles | frontend/src/components/BatchView.jsx:191-195 | the chosen files replace the list, unfiltered |
| BatchView.BatchPanel.RunBatch | frontend/src/components/BatchView.jsx:24-52 | with no files nothing changes; otherwise the results are one entry per file in order, the progress ends at 100 and loading ends false |
| MapView.RowCount | frontend/src/components/MapView.jsx:71 | the inner `reduce`: at most the row's length; MapView.RowCountIsNonZero states that it is the number of non-zero cells |
| MapView.GridCount | frontend/src/components/MapView.jsx:69-73 | the outer `reduce`; MapView.GridCountIsNonZero states that it is the number of non-zero cells of the grid |
| MapView.RowCountIsNonZero | frontend/src/components/MapView.jsx:71 | a row's count is its length less its zeros |
| MapView.GridCountIsNonZero | frontend/src/components/MapView.jsx:69-73 | `occupiedCount` is the number of non-zero cells |
| MapView.OccupiedCount | frontend/src/components/MapView.jsx:69-73 | 0 when there is no grid |
| MapView.CellsOfRect | frontend/src/components/MapView.jsx:70-72 | a grid of `rows` rows of `cols` cells has rows × cols cells |
| MapView.OccupiedBounds | frontend/src/components/MapView.jsx:70-72 | the count is at most rows × columns, and 0 for an all-free grid |
| MapView.MapPanel.OnBuild | frontend/src/components/MapView.jsx:41-57 | without a file the error message is set and no request is made; with one the error is cleared, the grid or the error message of the reply is kept, and loading is false afterwards either way |
| LoginPage.Normalize | frontend/src/pages/LoginPage.jsx:28-29 | trimmed and upper-cased |
| LoginPage.IsValid | frontend/src/pages/LoginPage.jsx:28-33 | `isValid` for the two typed fields; LoginPage.ValidExactly states which inputs it accepts |
| LoginPage.AnyMatch | frontend/src/pages/LoginPage.jsx:31-33 | `some` holds exactly when some stored pair matches both fields |
| LoginPage.ValidExactly | frontend/src/pages/LoginPage.jsx:22-33 | login succeeds exactly for ADMIN/ADMIN and M24DE3076/M24DE3076, after normalising |
| LoginPage.ValidNeedsSameFields | frontend/src/pages/LoginPage.jsx:22-33 | a successful login has both fields normalising to the same stored id |
| LoginPage.MixedPairRejected | frontend/src/pages/LoginPage.jsx:31-33 | a valid id paired with another id's password is rejected |
| LoginPage.CaseIgnored | frontend/src/pages/LoginPage.jsx:28-29 | typing a field in upper case changes nothing |
| LoginPage.PaddingIgnored | frontend/src/pages/LoginPage.jsx:28-29 | white space around the id and around the password never changes the outcome |
| LoginPage.StartTarget | frontend/src/pages/LoginPage.jsx:45 | the saved origin path, or "/check-backend" when it is missing or empty |
| LoginPage.LoginForm.HandleLogin | frontend/src/pages/LoginPage.jsx:27-42 | on success the auth flag is stored, step becomes 1 and error false; on failure error becomes true and nothing else changes |
| LoginPage.LoginForm.HandleStart | frontend/src/pages/LoginPage.jsx:44-46 | it navigates to the start target |

## Left out

- Transport and asynchrony: `fetch`, `TextDecoder`, the reader's recursive `read()` and the Promise machinery are modelled as a sequence of text chunks and a `Settlement` value. A fetch failure or malformed JSON has no handling path in the source, so none is modelled. In the source a throwing `JSON.parse`, or a `null` payload (a TypeError at `frontend/src/api.js:101`), aborts the chunk handler before it calls `read()` again (`frontend/src/api.js:119`): later segments and chunks go unprocessed and the promise stays pending. The model's `parse` is total, so the model keeps reading.
- Streaming decoding of multi-byte UTF-8 characters split across chunks is not modelled: chunks are already text.
- `JSON.parse` and `json.dumps` are abstract functions. The end-to-end lemmas assume only two things: `dumps` writes one line with no white space at its ends, and `parse` reads back the keys it wrote.
- The segmentation network, the DQN policy and the epsilon-greedy agent (`backend/models/pointnet.py`, `backend/rl_nav.py:10-22`, `backend/rl_nav.py:105-115`) are inputs: the predictions, and the chosen action inside each step reply.
- The obstacle draws are an input (`obstacles`). The point subsampling of `/segment` (`np.random.choice`, `backend/api.py:198-201`) and the dummy labels written by `process_file` (`backend/convert_npy_to_npz.py:50-64`) are not modelled.
- The float-based projection to an occupancy map (`points_to_occupancy`) is not part of this model.
- Floating point: rewards, totals and point features are exact `real`s. `float32` rounding and `toFixed` are not modelled. `Math.round` of the progress is exact rounding half up.
- JsText.ToUpper: only the ASCII letters are upper-cased, because full Unicode case mapping is out of scope here. This reaches the login check: JS `toUpperCase` maps 'ı' (U+0131) to 'I', so the source accepts the id and password "admın", which LoginPage.IsValid rejects. JsText.Trim treats a fixed set of white-space code points as white space.
- JsText.ReplaceFirst: its contract states only the no-occurrence case. The case of a leading occurrence is ReplacePrefix, the only one the client uses.
- Timers and React effects: `setInterval` and the re-arming of the effect on every `stats.totalReward` change (`frontend/src/components/RLView.jsx:103`) are not modelled; one auto-run tick is the method `AutoTick`. An `rlStep` reply still in flight when its interval is cleared, or one slower than 350 ms that overlaps the next tick, is still applied; in the model it lands as `EpisodeView.Step`, which EpisodeView.ApplyConsistent and EpisodeView.RunConsistent cover for any order of events.
- Display text (`setInfo` messages, action labels), rendering, routing and `localStorage` apart from the login flag are not modelled.
- MapView's `onRefresh` (`frontend/src/components/MapView.jsx:59-67`) only re-requests the map and is not modelled.
- ServerStream.NormalizePointFeatures, ServerStream.SegmentStream: `points` is a 2-D table (`seq<Row>` with a common width); a 0-D or 1-D array raises at `pts.shape[1]` (`backend/api.py:126`), and a higher-dimensional one whose second axis is below 7 raises in the padding `np.concatenate` (`backend/api.py:133`), both before any frame is sent; any other higher-dimensional array is cropped to 7 on its second axis (or left as it is), its header frame `{"total_batches": ...}` is sent (`backend/api.py:156`), and what follows depends on the network call (`backend/api.py:166`).
- Navigation.MapEnv: every reset and the constructor require a grid of at least one row, because the source indexes cell (0,0) and raises on an empty grid. `load_from_occ` also requires at least as many columns as rows, because it places the goal at (rows-1, rows-1).
- Navigation.MapEnv.Step: the class follows the code as written (`StepSpec`), not the corrected `StepIntended`. Nothing else in the model depends on the environment's step: the view takes step replies as inputs.
- Integer widths: `int32` cells and counters are unbounded integers. No value in the modelled paths comes near the 32-bit limits.

## Findings

| source | as written | input that shows it | evidently intended | confidence | as-written member | corrected member |
|---|---|---|---|---|---|---|
| backend/rl_nav.py:63-84 | `step` reads the position as `y, x = self.agent_pos` but stores it as `[x, y]` and clears `grid[y, x]`; the resets use `grid[pos[1], pos[0]]` | a 3 x 3 free board, agent at (0,0), two steps with action 3 (right): after the second step cells [0][1] and [1][1] both hold 3 | the position is read as `x, y`, so the agent stays a single cell and moves where the action says | high (proved, not executed) | Navigation.TwoStepsLeaveTwoAgents | Navigation.IntendedKeepsOneAgent |
