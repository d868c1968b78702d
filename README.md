# Fish-cutting frame alignment and preprocessing, modelled in Dafny

This project models the integer core of two Python files.

- `fish_cutting_analysis/app.py`:
  - `VideoData`, one camera stream: the sorted frame timestamps, taken from the names in its frame folder, and the mean frame interval `df`;
  - `get_index`, which turns a query time into a frame index. It makes a first estimate `time // df`, then runs a two-sided local search that keeps a best error, a best index, a growing offset and two direction flags;
  - the state logic of `DataProcessServer`: the shared `frame_idx` moved by the slider and the next/prev buttons, the four per-stream hammer points, the per-stream queries at `frame_idx + hammer`, the mocap row slice of `update_plots`, and `sync_hammer`.
- `data_preprocess.py`:
  - `sync_timestamp`, which renames every timestamp-named frame to `f'{t - min_t + offset:08}.jpg'`;
  - `color_correction`, which swaps channels 0 and 2 of every frame whose name the search finds.

## Modules

- `py_builtins.dfy` (`PyBuiltins`) holds the Python semantics the code relies on:
  - list indexing with negative indices, and slicing;
  - `int(x / d)`, which truncates toward zero;
  - `int()` on strings, `format(v, '08')` and `str` ordering;
  - `sorted` and `min`.
- `frame_names.dfy` (`FrameNames`) models the frame-name pattern `-*[0-9]+(?=\.jpg)`:
  - the anchored `re.match` and the unanchored `re.search` with `group(0)`;
  - `name[:-4]`;
  - the `"jpg" in name` filter and the `*.jpg` glob.
- `video.dfy` (`Video`):
  - `VideoData.__init__` as a `Result`-valued function;
  - `get_index` as an imperative method with its loop, proved equal to a recursive specification function that does one round per call;
  - the lemmas about the search.
- `dashboard.dfy` (`Dashboard`): `DataProcessServer` as a class whose methods update `frameIdx` and the hammer fields.
- `preprocess.dfy` (`Preprocess`):
  - the frame folder is a `map<string, Image>` held by the class `Folder`;
  - `sync_timestamp` and `color_correction` are methods whose loops update that map, and the global `min_t` is a field of the class;
  - each method is proved equal to a specification function, and the source's promises are lemmas about those functions;
  - a frame is an `array<Pixel>` while it is corrected in place;
  - the module-level `offset` is the constant `OFFSET` (0, as in the source), but the operations and lemmas take the offset as a parameter, so they hold for any setting of it.

The float `df = (t[-1] - t[1]) / (len(frames) - 1)` is replaced by the exact fraction with that numerator and denominator. The estimate is then `floor(time * (n - 1) / (t[-1] - t[1]))`. It is a `ZeroDivisionError` when `t[-1] == t[1]`, for example with two frames.

## Model

| member | source | states |
|---|---|---|
| PyBuiltins.Normalize | fish_cutting_analysis/app.py:60 | an index is valid exactly on [-n, n); a non-negative index is itself, a negative one counts from the end |
| PyBuiltins.At | fish_cutting_analysis/app.py:69 | `s[i]` succeeds exactly on [-n, n) and yields the element at the normalised position |
| PyBuiltins.SliceBound | fish_cutting_analysis/app.py:255 | a slice bound lands in [0, n]: min(i, n) for i >= 0, max(i + n, 0) for i < 0 |
| PyBuiltins.Slice | fish_cutting_analysis/app.py:255 | `s[a:b]` never fails: it is the run between the clipped bounds, or empty when they cross |
| PyBuiltins.TruncDiv | fish_cutting_analysis/app.py:255 | `int(x / d)` rounds toward zero: r*d <= x < r*d + d for x >= 0, and r*d - d < x <= r*d for x < 0 |
| PyBuiltins.ParseInt | data_preprocess.py:29 | `int()` succeeds only on a non-empty string; a leading `-` gives a value <= 0, anything else a value >= 0 |
| PyBuiltins.ParseUnsigned | data_preprocess.py:43 | `int()` of a digit string is its decimal value |
| PyBuiltins.ParseNegative | data_preprocess.py:43 | `int()` of `-` followed by digits is minus their value |
| PyBuiltins.ParseIntDoubleMinus | data_preprocess.py:43 | two leading dashes are a ValueError |
| PyBuiltins.DecimalDigits | data_preprocess.py:46 | `str(n)` is a non-empty digit string with value n and no leading zero unless n is 0 |
| PyBuiltins.ZeroPadded | data_preprocess.py:46 | `format(v, '0w')` is at least w characters and never empty; what it holds is stated by the three lemmas below |
| PyBuiltins.ZeroPaddedRoundTrip | data_preprocess.py:46 | `int()` reads v back from `format(v, '0w')` for every v and width |
| PyBuiltins.ZeroPaddedShape | data_preprocess.py:46 | the padded form is all digits for v >= 0, and `-` followed by digits for v < 0 |
| PyBuiltins.ZeroPaddedEightDigits | data_preprocess.py:46 | for 0 <= v < 10^8 the 8-wide form is exactly eight digits |
| PyBuiltins.ZeroPaddedNegativeExample | data_preprocess.py:46 | the sign counts toward the width: -5 becomes `-0000005` |
| PyBuiltins.DigitsLexOrder | data_preprocess.py:40 | for digit strings of one length, `str` order and numeric order agree in both directions |
| PyBuiltins.LexLeTotal | data_preprocess.py:40 | any two names are comparable under `str` ordering |
| PyBuiltins.LexLeAntisymmetric | data_preprocess.py:40 | two names each at most the other are equal |
| PyBuiltins.LexLeTransitive | data_preprocess.py:40 | `str` ordering is transitive |
| PyBuiltins.SortedNames | data_preprocess.py:40 | `sorted(os.listdir())` lists every name of the folder once and nothing else |
| PyBuiltins.SortedNamesSorted | data_preprocess.py:40 | that listing is strictly ascending in code-point order |
| PyBuiltins.SortedNamesUnique | data_preprocess.py:40 | any strictly ascending listing of the folder's names is the one `sorted(os.listdir())` gives |
| PyBuiltins.Sort | fish_cutting_analysis/app.py:41-42 | `sorted()` of integers is an ascending permutation of its input |
| PyBuiltins.MinOf | data_preprocess.py:31 | `min()` of a non-empty list is an element no larger than any other |
| FrameNames.DashRunIsRun | data_preprocess.py:30 | the greedy `-*` ends exactly where the run of dashes from i ends |
| FrameNames.DigitRunIsRun | data_preprocess.py:30 | the greedy `[0-9]+` ends exactly where the run of digits ends |
| FrameNames.MatchEnd | data_preprocess.py:30 | a reported match from i ends after i, right before `.jpg`; MatchEndSound and MatchEndComplete say it is the only match |
| FrameNames.MatchEndSound | data_preprocess.py:30 | a reported match is dashes, then at least one digit, then `.jpg` |
| FrameNames.MatchEndComplete | data_preprocess.py:30 | every occurrence of the pattern at i is the one reported; backtracking finds nothing else |
| FrameNames.MatchesSpec | data_preprocess.py:30 | `re.match` succeeds iff the name starts with dashes, digits and `.jpg`; the search then finds it at 0 |
| FrameNames.SearchFrom | data_preprocess.py:41 | a position the search reports is at or after its start and holds a match |
| FrameNames.SearchFromLeftmost | data_preprocess.py:41 | no match starts before the reported position |
| FrameNames.SearchFromNone | data_preprocess.py:41 | when the search reports nothing, no match starts anywhere |
| FrameNames.SearchStart | data_preprocess.py:41 | a reported start lies in the name and a match begins there; SearchSpec gives the converse |
| FrameNames.Group | data_preprocess.py:43 | `m.group(0)` is non-empty and ends in a digit |
| FrameNames.GroupParses | data_preprocess.py:41-43 | `int(m.group(0))` raises exactly when the group starts with two dashes |
| FrameNames.SearchSpec | data_preprocess.py:41 | `re.search` succeeds iff the pattern occurs somewhere in the name |
| FrameNames.SearchWithoutMatchExample | data_preprocess.py:29-43 | `x12.jpg` is not counted by the anchored match, but the search finds `12` at position 1 |
| FrameNames.Stem | data_preprocess.py:29 | `name[:-4]` drops the last four characters, and is empty for shorter names |
| FrameNames.CountedStemParse | data_preprocess.py:29-30 | for a counted name, `int(name[:-4])` succeeds iff `.jpg` ends the name and there is at most one dash; the stem is then the match |
| FrameNames.ParseStems | data_preprocess.py:29 | a successful comprehension has one value per name |
| FrameNames.ParseStemsSpec | data_preprocess.py:29 | the comprehension raises iff some `int()` does, and otherwise holds the values in order |
| FrameNames.StemIsMatch | data_preprocess.py:29-30 | when `.jpg` ends a counted name, its stem is the match and parses iff it has at most one dash |
| FrameNames.ParseIntRejects | data_preprocess.py:29 | a stem with a character that is neither a digit nor a sign is a ValueError |
| FrameNames.NumberNameMatches | data_preprocess.py:41-46 | an integer's digits followed by `.jpg` are matched at 0, with the digits as the group and the stem |
| Video.JpgNames | fish_cutting_analysis/app.py:41-42 | the filter keeps at most the names it is given |
| Video.JpgNamesSpec | fish_cutting_analysis/app.py:41-42 | the `"jpg" in name` filter keeps exactly the names containing `jpg` |
| Video.FolderStamps | fish_cutting_analysis/app.py:41-42 | the comprehension yields at most one timestamp per name; BuildSucceeds ties it to construction |
| Video.FrameCount | fish_cutting_analysis/app.py:40 | the image reader finds at most as many frames as the folder has names |
| Video.Build | fish_cutting_analysis/app.py:39-48 | a constructed stream has sorted timestamps, one per frame, and the df fraction built from t[1] and t[-1] |
| Video.BuildSucceeds | fish_cutting_analysis/app.py:41-48 | construction succeeds iff every name parses, there are >= 2 timestamps and as many as frames; the timestamps are then a permutation of the parsed ones |
| Video.BuildFailures | fish_cutting_analysis/app.py:41-45 | failures come in source order: ValueError from `int()`, then IndexError from t[-1]/t[1], then ZeroDivisionError for one frame |
| Video.Estimate | fish_cutting_analysis/app.py:57 | the estimate fails, with ZeroDivisionError, exactly when t[-1] == t[1] |
| Video.EstimateIsFloor | fish_cutting_analysis/app.py:57 | the estimate k is floor(time / df): k*df <= time < (k+1)*df |
| Video.TwoFramesDivideByZero | fish_cutting_analysis/app.py:44-57 | with two frames, every lookup divides by zero |
| Video.ErrorAt | fish_cutting_analysis/app.py:60 | `abs(timestamp[i] - time)` exists exactly on [-n, n), reading from the end for negative i |
| Video.Search | fish_cutting_analysis/app.py:64-84 | the loop can only fail with IndexError; SearchNeverWorse and the phase lemmas below state what it returns |
| Video.Lookup | fish_cutting_analysis/app.py:57-84 | `get_index` fails with ZeroDivisionError when df is 0 and otherwise only with IndexError; LookupNeverWorse and LookupFindsNearest state what it returns |
| Video.GetIndex | fish_cutting_analysis/app.py:50-84 | the method as written returns what the round-by-round specification `Lookup` returns, errors included |
| Video.SearchLoop | fish_cutting_analysis/app.py:64-84 | the `while` loop as written returns what `Search` returns from the estimate and its error |
| Video.SearchNeverWorse | fish_cutting_analysis/app.py:64-84 | the search returns a readable index whose error is at most the error it started from |
| Video.LookupNeverWorse | fish_cutting_analysis/app.py:57-84 | the returned index's error is never larger than the error at the estimate |
| Video.LookupIsFrameIndex | fish_cutting_analysis/app.py:247 | a returned index always names a frame under Python indexing |
| Video.EstimatePastEndFails | fish_cutting_analysis/app.py:60-69 | an estimate >= n - 1 is an IndexError, so the clamp at line 62 is never reached |
| Video.NegativeEstimate | fish_cutting_analysis/app.py:60 | an estimate below -n is an IndexError, and one in [-n, 0) reads a frame from the end |
| Video.RoundTieFavoursForward | fish_cutting_analysis/app.py:68-79 | when both sides improve equally in one round, the forward candidate is kept and the backward side switches off |
| Video.NoImprovementKeepsBest | fish_cutting_analysis/app.py:68-83 | when no active side improves strictly, the loop stops at the current best |
| Video.ForwardOffStaysOff | fish_cutting_analysis/app.py:68-83 | once `next` is off, the result is the current best or lies at est - offset or below |
| Video.BackwardOffStaysOff | fish_cutting_analysis/app.py:68-83 | once `prev` is off, the result is the current best or lies at est + offset or above |
| Video.LocalMinIsNearest | fish_cutting_analysis/app.py:52 | on strictly increasing timestamps, a local minimum of the error is the global one |
| Video.ForwardPhaseFindsNearest | fish_cutting_analysis/app.py:64-84 | a search walking forward alone ends at the nearest frame |
| Video.BackwardPhaseFindsNearest | fish_cutting_analysis/app.py:64-84 | a search walking backward alone ends at the nearest frame |
| Video.FirstRound | fish_cutting_analysis/app.py:64-83 | from a neighbour-flanked estimate the first round moves right (switching the backward side off), moves left, or stops |
| Video.FirstRoundFindsNearest | fish_cutting_analysis/app.py:64-84 | from an estimate in [1, n) a successful search ends at the nearest frame |
| Video.LookupFindsNearest | fish_cutting_analysis/app.py:50-84 | for strictly increasing timestamps and estimate >= 1, a successful lookup returns the index nearest to the query, as the docstring promises |
| Video.NegativeQueryExample | fish_cutting_analysis/app.py:57-84 | a query just before the first frame gives estimate -1, reads the last frame, and still returns frame 0 |
| Video.RepeatedStampsExample | fish_cutting_analysis/app.py:57-84 | with timestamps `[0, 100, 105, 105, 110, 400]` and time 110 the estimate is 1 and the lookup returns index 2 at error 5, while frame 4 has error 0: the tie at index 3 stops the search |
| Video.ExactMultipleExample | fish_cutting_analysis/app.py:57-84 | at time 200 with df = 200/6 the exact estimate is 6 and the lookup is an IndexError, while from the float's estimate 5 the search returns 5 |
| Dashboard.StepFrame | fish_cutting_analysis/app.py:237-243 | the slider sets the index; next goes up by one, capped at n - 1; prev goes down by one, floored at 0 |
| Dashboard.ButtonsStayInStream | fish_cutting_analysis/app.py:239-243 | the buttons keep an index inside the hololens stream inside it |
| Dashboard.ButtonsUndoEachOther | fish_cutting_analysis/app.py:239-243 | away from the ends, prev undoes next and next undoes prev |
| Dashboard.FrameAt | fish_cutting_analysis/app.py:246-251 | a stream is queried at frame_idx + its hammer point; the frame shown is that lookup's index when it is 0 or more, that index plus the frame count when it is negative (Python indexing from the end), or the lookup's exception |
| Dashboard.Figures | fish_cutting_analysis/app.py:246-252 | the figures appear iff all three lookups succeed; otherwise the first failing one in hololens, camera 1, camera 2 order raises |
| Dashboard.DataProcessServer.constructor | fish_cutting_analysis/app.py:88-104 | a new server starts at frame 0 with all four hammer points 0 |
| Dashboard.DataProcessServer.UpdateFrames | fish_cutting_analysis/app.py:236-252 | only `frame_idx` changes, as the trigger says; the result is the three per-stream lookups at the new index |
| Dashboard.DataProcessServer.ShowAll | fish_cutting_analysis/app.py:246-252 | the three imperative lookups, in order, give `Figures` of the three `FrameAt` values |
| Dashboard.DataProcessServer.Show | fish_cutting_analysis/app.py:247 | one imperative `get_index` plus indexing gives `FrameAt` |
| Dashboard.DataProcessServer.UpdatePlots | fish_cutting_analysis/app.py:254-257 | at most the whole table; for non-negative bounds, rows h/10 up to (slider + h)/10, clipped to the table |
| Dashboard.DataProcessServer.SyncHammer | fish_cutting_analysis/app.py:259-268 | exactly the four hammer fields are overwritten, and 0 is returned |
| Dashboard.PlotBoundTruncatesTowardZero | fish_cutting_analysis/app.py:255 | a hammer point of -5 gives bound 0 (truncation), not -1, so the plot starts at the first row |
| Preprocess.CountedNames | data_preprocess.py:29-30 | the counting filter keeps at most the names it is given |
| Preprocess.CountedNamesSpec | data_preprocess.py:29-30 | the counting filter keeps exactly the names the anchored match accepts |
| Preprocess.CountedStamps | data_preprocess.py:29-30 | a successful comprehension has at most one timestamp per name |
| Preprocess.CountedStampsSpec | data_preprocess.py:29-30 | the comprehension raises iff some counted stem is not an integer; otherwise it holds one timestamp per counted name, every one of them included |
| Preprocess.CountedStampsFromNames | data_preprocess.py:29-30 | every timestamp in the list is that of a counted name |
| Preprocess.SyncMinimum | data_preprocess.py:29-31 | no counted frame, or a bad stem, is a ValueError that changes nothing; otherwise `min_t` becomes the least counted timestamp |
| Preprocess.Target | data_preprocess.py:46 | a new name is at least 12 characters; TargetRoundTrip, TargetInjective and TargetOrder state what it holds |
| Preprocess.TargetRoundTrip | data_preprocess.py:41-46 | a renamed frame is found again: counted, matched at 0, and both parses read its value back |
| Preprocess.TargetInjective | data_preprocess.py:46 | distinct shifted timestamps get distinct names |
| Preprocess.TargetOrder | data_preprocess.py:46 | for shifted values in [0, 10^8) the new names sort as the values do, in both directions |
| Preprocess.CountedPlan | data_preprocess.py:29-46 | with m the least counted timestamp, each counted name is planned to move to Target(v - m + offset) for its own timestamp v, and that shifted value is at least `offset` |
| Preprocess.LeastCountedName | data_preprocess.py:29-46 | some counted name, one with the least timestamp, is planned to move to Target(offset) |
| Preprocess.CountedOrder | data_preprocess.py:29-46 | while the shifted timestamps fit in eight digits, two counted names' new names sort as their timestamps do |
| Preprocess.MinimumName | data_preprocess.py:23-46 | with the module's offset of 0, Target(offset) (the new name of the least counted frame, by LeastCountedName) is `00000000.jpg` |
| Preprocess.Rename | data_preprocess.py:45-46 | `os.rename` as a map update; RenameEffect states its effect |
| Preprocess.RenameEffect | data_preprocess.py:45-46 | `os.rename` removes the source name, adds the target with the moved contents, and changes nothing else |
| Preprocess.RenameOverwrites | data_preprocess.py:45-46 | renaming onto an existing name loses that file: the folder shrinks by one |
| Preprocess.SortedListing | data_preprocess.py:40 | the sorted listing names each file of the folder once |
| Preprocess.Plan | data_preprocess.py:41-46 | one iteration skips exactly the names the search misses, and the only exception it raises is ValueError |
| Preprocess.PlanMoves | data_preprocess.py:41-46 | a found name whose group `int()` reads is renamed to Target(int(group) - min_t + offset) |
| Preprocess.PlanRaises | data_preprocess.py:41-43 | an iteration raises exactly when the search finds the name and its group starts with two dashes |
| Preprocess.PlanTargetFound | data_preprocess.py:41-46 | every new name is one the search finds |
| Preprocess.RenamePass | data_preprocess.py:40-47 | the loop ticks at most once per name; the lemmas below state the folder it leaves |
| Preprocess.RenamePassRaises | data_preprocess.py:40-47 | the loop raises exactly when some listed name raises, and then with ValueError |
| Preprocess.RenamePassKeeps | data_preprocess.py:40-47 | a file that no iteration touches (not found, and no new name equal to it) keeps its name and contents |
| Preprocess.RenamePassMoves | data_preprocess.py:40-47 | without raises or collisions, each found name's contents end up under its new name |
| Preprocess.RenamePassNoOtherNames | data_preprocess.py:40-47 | every name after the loop is an untouched old name or the new name of a listed file |
| Preprocess.RenamePassResult | data_preprocess.py:40-47 | without raises or collisions, the loop ends without error and the folder is exactly the untouched files plus each found file under its new name |
| Preprocess.SortedCollisionless | data_preprocess.py:40-46 | distinct new names that hit no other file give a collision-free sorted listing |
| Preprocess.SortedPassMoves | data_preprocess.py:40-47 | over the sorted listing of such a folder, with no raise, each found file's contents are under Target(int(group) - m + offset) |
| Preprocess.SortedPassKeeps | data_preprocess.py:40-47 | in the same run every file the search misses is kept |
| Preprocess.SortedPassNames | data_preprocess.py:40-47 | in the same run the folder holds exactly the unfound files and the new names of the found ones |
| Preprocess.SyncResult | data_preprocess.py:26-49 | a cancelled run changes no file and ticks nothing; a completed one has the marker and has set `min_t` |
| Preprocess.Finish | data_preprocess.py:38-49 | the confirmed part sets `min_t` to m, keeps the total, and a completed one has the marker |
| Preprocess.Ended | data_preprocess.py:47-49 | the run completes exactly when the loop did not raise, and keeps its ticks |
| Preprocess.FinishDone | data_preprocess.py:38-49 | a completed confirmed run over distinct new names leaves exactly: unfound files unchanged, each found file's contents under Target(int(group) - m + offset), and the marker |
| Preprocess.SyncDone | data_preprocess.py:26-49 | the same for a whole `sync_timestamp` run that completes, with m the `min_t` it set |
| Preprocess.CollisionExample | data_preprocess.py:40-47 | for `00000001.jpg`, `1.jpg`, `2.jpg`, which is their `sorted()` order, with min_t 1 and offset 0, the loop ends without error after three ticks holding only `00000000.jpg` (the contents of `1.jpg`) and `00000001.jpg` (those of `2.jpg`): the first file is lost |
| Preprocess.CancelKeepsFolder | data_preprocess.py:33-37 | unless the answer is y or Y, no file is renamed or created |
| Preprocess.RenamePassKeepsUnfound | data_preprocess.py:40-47 | the renaming loop leaves files the search misses in place, unchanged |
| Preprocess.SyncKeepsUnfound | data_preprocess.py:26-49 | `sync_timestamp` leaves files the search misses untouched, however it ends |
| Preprocess.FinishKeepsUnfound | data_preprocess.py:40-49 | the confirmed part of a run, marker included, keeps unfound files |
| Preprocess.Touch | data_preprocess.py:49 | `touch` adds the name if it is missing, as an empty file, and never changes an existing file |
| Preprocess.FoundCount | data_preprocess.py:47 | at most one tick per listed name |
| Preprocess.RenamePassTicks | data_preprocess.py:40-47 | a loop that finishes ticks once per name the search finds |
| Preprocess.SyncProgress | data_preprocess.py:39-47 | a completed run ticks once per found name, while its total is the number of counted names |
| Preprocess.FinishTicks | data_preprocess.py:39-47 | the confirmed part keeps the total and ticks once per found name |
| Preprocess.SwapImageSpec | data_preprocess.py:62-64 | correction keeps the shape and channel 1, and exchanges channels 0 and 2; applied twice it restores the frame |
| Preprocess.ColorCorrected | data_preprocess.py:52-66 | correction keeps every name; ColorCorrectedSpec states the rest |
| Preprocess.ColorCorrectedSpec | data_preprocess.py:57-66 | correction keeps every name, leaves unfound files as they were, and, on the pixel values it writes, undoes itself when run twice |
| Preprocess.CorrectPass | data_preprocess.py:57-66 | the loop keeps every name; CorrectPassSpec states what it corrects |
| Preprocess.CorrectPassSpec | data_preprocess.py:57-66 | the loop over a listing corrects exactly the found frames it lists |
| Preprocess.CorrectedOnAll | data_preprocess.py:57 | over the whole sorted listing, the loop corrects the folder |
| Preprocess.NoDigitNotFound | data_preprocess.py:58 | a name without digits is never found |
| Preprocess.ExampleNamesFound | data_preprocess.py:58 | `1.jpg` is found and the marker `.synced` is not |
| Preprocess.ColorProgressExample | data_preprocess.py:53-66 | for a folder holding `1.jpg` and `.synced`, the total is 2 but only 1 tick is made |
| Preprocess.Folder.constructor | data_preprocess.py:21 | a new folder has `min_t` None |
| Preprocess.Folder.SyncTimestamp | data_preprocess.py:26-49 | the method's outcome, folder, `min_t`, total and ticks are those of the specification `SyncResult`, which SyncMinimum, SyncDone, SyncKeepsUnfound and SyncProgress characterise |
| Preprocess.Folder.RenameFrames | data_preprocess.py:38-49 | the loop as written leaves the state `Finish` describes, which FinishDone characterises |
| Preprocess.Folder.RenameFirst | data_preprocess.py:40-47 | one iteration of the loop as written: skip, or the found-name branch, matching one step of `RenamePass` |
| Preprocess.Folder.RenameFound | data_preprocess.py:41-47 | the found-name branch as written: ValueError from `int()`, or the rename and a tick, matching one step of `RenamePass` |
| Preprocess.Folder.ColorCorrection | data_preprocess.py:52-66 | the folder becomes its color-corrected form, `min_t` is kept, the total counts all files, and there is one tick per found name |
| Preprocess.Folder.CorrectFile | data_preprocess.py:60-65 | read, swap and save change exactly one file, into its corrected form |
| Preprocess.SwapChannels | data_preprocess.py:62-64 | the in-place swap through a copy of channel 0 leaves the corrected frame |

## Left out

- Dash, plotly and dbc layout, callback registration, `px.imshow`/`px.line` and `run_server`: UI plumbing. The callback's trigger is a `Trigger` value, and a figure is the frame position or row slice it would draw.
- File I/O:
  - `os.listdir` is the key set of the folder map, and `os.rename` and `touch` are map updates;
  - `imread`/`imsave` read and write a map entry;
  - `imread_collection` is represented only by its frame count, the number of `*.jpg` names that are not hidden.
- Only RGB frames are modelled: a frame is a flat row-major sequence of three-channel pixels. Greyscale frames (where `frame[:, :, 0]` raises) and four-channel frames are not.
- `scipy.io.loadmat`, label extraction and the pandas frame: the mocap table is a given `seq<MocapRow>`.
- `read_frames` and `load_mocap_mat` are not modelled: the server's constructor takes streams already built by `Video.Build` and the table.
- Float arithmetic: `df` is an exact fraction, and the model follows the exact floor. The two differ whenever the query is an exact multiple of the exact `df` and the float `df` rounds up. Then Python's `time // df` is one less than the exact floor. This happens on ordinary input: with timestamps `[0, 10, 50, 100, 150, 195, 210]` and time 200, df is 200/6, the float gives 33.333333333333336 and `200 // df` = 5.0, so `get_index` returns 5, while the model's estimate is 6 and its lookup is an IndexError (Video.ExactMultipleExample). More generally, the two floors can differ by one whenever time / df is an integer or very close to one.
- `Prompt.ask(..., choices=["y", "n"])` re-asks until it gets one of its choices. The model takes any answer string, so `Y` and other answers are possible in the model but not in the program.
- `sys.exit` on cancel is the `Cancelled` outcome; printed messages and the progress bar's display are left out, and the bar is its total and tick count.
- `touch` on an existing marker only updates its modification time, which is not modelled.
- Preprocess.ColorCorrectedSpec: the frame is stored exactly as written. `imsave` writes `.jpg` files, and JPEG encoding is lossy, so running `color_correction` twice restores the pixel values the model stores, not the bytes of the files on disk.
- `int()` is modelled for an optional sign and ASCII digits only. In data_preprocess.py this covers every string that reaches it: a stem of a matched name is either the match itself or contains a `.`, and a search group is dashes and ASCII digits.
- Video.Build: `VideoData.__init__` (fish_cutting_analysis/app.py:41-42) filters names with `"jpg" in name`, so names such as `1_000.jpg`, ` 7.jpg` or ones with non-ASCII digits reach `int()`. Python reads their stems (underscores between digits, surrounding whitespace, Unicode digits), but ParseInt rejects them, so Build returns Err(ValueError) where the constructor succeeds.
- Concurrency: the code has none. Dash may run callbacks concurrently; this is not modelled.
- Dashboard.DataProcessServer.UpdatePlots: its ensures gives the row range only for a non-negative hammer point and slider. For negative bounds it gives only a length bound, and the exact slice follows from `PyBuiltins.Slice` and `PyBuiltins.TruncDiv`.
- Video.LookupFindsNearest: the nearest-frame guarantee is proved only for strictly increasing timestamps and an estimate of at least 1. An estimate below 1 is not a failure in itself: with an estimate of -1 the source still returns the nearest frame (Video.NegativeQueryExample). With repeated timestamps the source returns a farther frame. For timestamps `[0, 100, 105, 105, 110, 400]` and time 110 the estimate is 1 and `get_index` returns 2, whose error is 5, although frame 4 is exact (Video.RepeatedStampsExample).
