# ipro_aiinspect collector, modelled in Dafny

`saltyster/ipro_aiinspect.py` is a custom collector for the SpeeDBee Hive data
platform. It polls an AI visual-inspection system's result tree, laid out as
`root/model/camera/result/date/judge/file.json`. On each poll it picks the first
judgement file it has not yet seen and inserts one row into five output columns:
`cam`, `date`, `lot`, `overallresult` and `result`.

What the collector has already seen is kept per model in a checkpoint file,
`infoPath/aiinspect/aiinspect_info_NN.txt`. The file holds ten last-visited
date-folder names, then ten last-seen file names, one per camera slot and one
per line.

The project models that logic:

- **checkpoint codec** (`getInspectDate`, `setInspectDate`);
- **incremental scan** (`searchInspectResult`): models, cameras, date folders and
  files, each in sorted order, with the eligibility rules and the early returns;
- **row construction**: the OK/NG-to-"0"/"1" mapping and the per-area string.

The filesystem is an immutable value (`FileTree.FileSystem`). The checkpoint
directory is a value too (`Checkpoints.InfoStore`).

Modules:

- `StringOrder`: Python's lexicographic `<`/`<=` on `str`, and `list.sort()`.
- `Checkpoints`: the checkpoint file's text format, its name, and the load and save
  operations.
- `FileTree`: the result tree, with sorted listings and decoded judgements. Paths are
  lists of components: `ModelPath`, `ResultPath` and `JudgePath` are the joins
  `root/model`, `model/camDir/result` and `result/dateDir/judge`
  (saltyster/ipro_aiinspect.py:217, :223, :234), and `Cycles.FoundFilePath` adds
  the file name (:243).
- `Rows`: one judgement becomes one row, or an exception part-way through.
- `Walker`: the camera / date-folder / file loops as functions.
- `Cycles`: a model's scan (`ModelStep`), the model loop (`ScanModels`), a whole
  poll (`Cycle`), what is inserted into the columns, and properties across polls.
- `Collector`: class `HiveCollector`. Its fields are the checkpoint store and the
  five columns. Its methods keep the source's loops and its in-place updates of the
  `folder_dates`/`file_dates` lists, here arrays. Each method is proved to do what
  the functions above state.

Behaviour of the code worth noting:

- **One row per poll.** A poll emits at most one row in total, because the scan
  returns from `searchInspectResult` after the first emission
  (saltyster/ipro_aiinspect.py:275).
- **Any exception ends the poll.** A missing directory, a malformed judgement, a
  missing key or an index error all end the whole poll through the single outer
  handler (:195, :282). No walked checkpoint is saved in that case. A checkpoint
  file that was missing is still bootstrapped, because `getInspectDate` writes it
  (:150-152) when the model is reached (:214), before the camera listing (:218).
- **Eleventh camera.** A camera folder past the tenth that has at least one date
  folder raises `IndexError` at `folder_dates[camidx]` (:229), which ends the poll.
  One whose `result` folder is empty passes, because the comparison is never
  evaluated.
- **Reserved names.** The entries `default` and `log` are skipped but still use up
  an enumeration index. The limit of ten models (:202) is checked before the skip.
- **Long checkpoint files.** A checkpoint file of more than twenty lines raises
  `IndexError` at the 21st line. `getInspectDate`'s own handler catches it, so the
  first twenty slots stay filled.
- **Missing date.** A judgement without `camDate.DATE` raises after
  `clm0.insert(camDir)` (:267-268). Only the `cam` column gets a value in that poll.

## Model

| member | source | states |
|---|---|---|
| StringOrder.SortNames | saltyster/ipro_aiinspect.py:197-198 | `list.sort()`: the result is sorted by Python's string order and is a permutation of the listing |
| StringOrder.SortIgnoresListingOrder | saltyster/ipro_aiinspect.py:218-219 | two listings with the same entries in any order sort to the same sequence, so the scan does not depend on `os.listdir` order |
| StringOrder.SortedUnique | saltyster/ipro_aiinspect.py:224-225 | two sorted sequences that are permutations of each other are equal |
| StringOrder.LessTransitive | saltyster/ipro_aiinspect.py:229 | the string order used by the folder comparison is transitive |
| StringOrder.LessTotal | saltyster/ipro_aiinspect.py:240 | any two distinct names compare one way or the other |
| StringOrder.LessIsLexicographic | saltyster/ipro_aiinspect.py:240 | Python's `<` on `str`: `a < b` exactly when `a` is a proper prefix of `b`, or `a` has the smaller character at the first position where they differ |
| StringOrder.LessEqIsNotGreater | saltyster/ipro_aiinspect.py:229 | `a <= b` holds exactly when `b < a` does not |
| Checkpoints.Empty | saltyster/ipro_aiinspect.py:210-211 | the fresh lists hold ten empty strings each |
| Checkpoints.RoundTrip | saltyster/ipro_aiinspect.py:139-148 | reading back what `setInspectDate` wrote (lines 170-176) gives the same checkpoint, whatever the lists held before, when no entry holds a newline |
| Checkpoints.ShortFile | saltyster/ipro_aiinspect.py:142-148 | a file of up to twenty lines fills the slots it has lines for, by position, and leaves the others empty |
| Checkpoints.StrippedLinesOfSerialize | saltyster/ipro_aiinspect.py:141-145 | `readlines` then `rstrip('\n')` recovers lines written as `line + "\n"` |
| Checkpoints.SerializeAppend | saltyster/ipro_aiinspect.py:172-176 | writing the folder dates and then the file dates produces the two blocks back to back |
| Checkpoints.SerializeSnoc | saltyster/ipro_aiinspect.py:172-173 | each pass of a write loop appends exactly that entry and one newline to the text |
| Checkpoints.RenderedLines | saltyster/ipro_aiinspect.py:170-176 | the text `setInspectDate` writes, split into lines and stripped, is the ten folder dates followed by the ten file dates, when no entry holds a newline |
| Checkpoints.StripLine | saltyster/ipro_aiinspect.py:145 | `rstrip('\n')` on a line from `readlines()` removes at most its one trailing newline and leaves no newline |
| Checkpoints.StrippedLinesHoldNoNewline | saltyster/ipro_aiinspect.py:141-145 | one stripped entry per line of the file, none holding a newline, each its line or its line minus the trailing newline |
| Checkpoints.FillExtend | saltyster/ipro_aiinspect.py:142-148 | one more line fills the next slot: folder slot k for the first ten lines, file slot k - 10 for the next ten; nothing else changes |
| Checkpoints.FillIgnoresExtra | saltyster/ipro_aiinspect.py:142-155 | lines past the twentieth fill nothing: the 21st raises `IndexError`, caught by the handler at :154, so the slots are those of the first twenty lines |
| Checkpoints.Lines | saltyster/ipro_aiinspect.py:141 | `readlines()` yields no empty line, and no line holds a newline before its last character |
| Checkpoints.LinesSplitText | saltyster/ipro_aiinspect.py:141 | `readlines()` splits the text: the lines join back into it, and every line but the last ends with its newline |
| Checkpoints.LineLength | saltyster/ipro_aiinspect.py:141 | a line runs up to and including the first newline; only the last line may lack one |
| Checkpoints.RStripNewlines | saltyster/ipro_aiinspect.py:145 | `rstrip('\n')` leaves a prefix that does not end in a newline, and removes only newlines |
| Checkpoints.ZFill | saltyster/ipro_aiinspect.py:135 | `zfill(2)` left-pads with '0' up to width two and keeps the digits as its suffix |
| Checkpoints.DecimalDigits | saltyster/ipro_aiinspect.py:135 | `str(modelidx)` is decimal digits with no leading zero, and one digit exactly when the index is below ten |
| Checkpoints.InfoFileNameBelowTen | saltyster/ipro_aiinspect.py:135 | for every index the scan reaches, the checkpoint file is `infoPath/aiinspect/aiinspect_info_0d.txt` |
| Checkpoints.InfoFileNamesDistinct | saltyster/ipro_aiinspect.py:166 | two different model indices below ten never share a checkpoint file |
| Checkpoints.WriteText | saltyster/ipro_aiinspect.py:168-179 | opening for writing replaces the file's text when the directory exists; otherwise the error is logged and nothing changes |
| Checkpoints.SaveWritesOneFile | saltyster/ipro_aiinspect.py:164-179 | `setInspectDate` keeps whether the directory exists; when it exists, the model's file holds the written text; otherwise no file changes; no other file changes |
| Checkpoints.LoadOutcome | saltyster/ipro_aiinspect.py:133-155 | `getInspectDate` changes the store only when the file is missing, and then writes exactly the lists it was given, which it leaves as they were; what it reads holds no newline |
| Checkpoints.LoadMissing | saltyster/ipro_aiinspect.py:150-152 | a missing checkpoint file leaves the lists all empty and writes exactly the all-empty checkpoint, when the directory exists |
| Checkpoints.LoadAfterSave | saltyster/ipro_aiinspect.py:133-179 | loading a checkpoint right after saving it yields that checkpoint and changes nothing |
| FileTree.SortedListing | saltyster/ipro_aiinspect.py:224-225 | a listing exists exactly when the directory does; the result is sorted and is a permutation of `os.listdir` |
| FileTree.ReadJudgement | saltyster/ipro_aiinspect.py:244-246 | a judgement is obtained exactly when the file exists and decodes |
| Rows.JudgeChar | saltyster/ipro_aiinspect.py:260-263 | a judge maps to '0' or '1', and to '0' exactly when it is "OK" |
| Rows.AreaCodesUpTo | saltyster/ipro_aiinspect.py:256-263 | the first n areas give a string of length n whose character i is '0' exactly when area i's judge is "OK", else '1'; it fails exactly when one of them lacks `judge` |
| Rows.AreaCodes | saltyster/ipro_aiinspect.py:256-263 | the area string has length min(len(detect), 10); it is absent exactly when `detect` or one of the first ten `judge` keys is missing |
| Rows.ReadAreas | saltyster/ipro_aiinspect.py:256-263 | the area loop with its `break` computes `AreaCodes`, and character i is '0' exactly when `detect[i].judge == "OK"` |
| Rows.BuildRow | saltyster/ipro_aiinspect.py:248-271 | a row is built exactly when `overallResult`, the areas and `camDate.DATE` are all present; overall is "0" exactly for "OK"; cam, date and lot are `camDir`, `camDate.DATE` and `modelDir`; an exception after the cam insert is told apart from one before it |
| Walker.FirstNewFrom | saltyster/ipro_aiinspect.py:238-241 | the first file whose name is strictly above the stored file date, and no earlier file is |
| Walker.FirstNewIsLeast | saltyster/ipro_aiinspect.py:235-241 | over the sorted listing, the file found is the least name above the stored file date in the whole folder |
| Walker.NoneNewInListing | saltyster/ipro_aiinspect.py:235-241 | finding nothing means no file of the folder is above the stored file date |
| Walker.ScanDates | saltyster/ipro_aiinspect.py:227-241 | the date loop: the folder slot never decreases, and after a find or a failed listing it ends on a folder of the listing; a found file is the least new file of its folder and becomes the file slot; a failed listing is a missing folder; without a find the file slot is unchanged |
| Walker.ScanDatesNothingNew | saltyster/ipro_aiinspect.py:227-241 | the converse of `Walker.ScanDatesVisitsEligible`: when every folder at or above the stored folder date holds nothing new, the date loop ends with `NoNewFile` |
| Walker.ScanDatesVisitsEligible | saltyster/ipro_aiinspect.py:227-231 | over sorted folders, every folder at or above the stored folder date is visited: when the loop ends with `NoNewFile`, each held nothing new and the slot ends on the greatest of them; with a find, every earlier eligible folder held nothing new |
| Walker.ScanCams | saltyster/ipro_aiinspect.py:221-241 | the camera loop: no folder date decreases; a find is in a slot below ten, stores its file in that slot only and its folder in that slot (earlier cameras' folder dates may have advanced), and is the least new file of its folder; when the loop runs out (`Exhausted`), every camera at slot ten or above had an empty result folder |
| Walker.ScanCamsFailsOnRaise | saltyster/ipro_aiinspect.py:221-241 | the camera loop ends with a failure only where some camera raises: its `result` folder cannot be listed, it is past the tenth and has a date folder, or an eligible date folder has no listable `judge` folder |
| Walker.CamTurn | saltyster/ipro_aiinspect.py:221-241 | one camera's pass of the loop: going on keeps the file dates, moves no folder date back, and past slot ten happens only after an empty `result` folder; a find stops the loop in that camera's slot, stores its folder there and its file there only, and is the least new file of its folder; a stop with no find keeps the file dates |
| Walker.CamTurnFailsOnRaise | saltyster/ipro_aiinspect.py:221-241 | one camera's pass ends the loop with a failure only when that camera raises; going on past it changes no later slot |
| Walker.CamScanNothingNew | saltyster/ipro_aiinspect.py:227-241 | one camera's date loop ends with `NoNewFile` exactly when every date folder at or above its stored folder date holds nothing new |
| Walker.ScanCamsExhaustedIff | saltyster/ipro_aiinspect.py:221-241 | the camera loop runs out (`Exhausted`) exactly when every camera below ten had nothing new and every camera from ten on had an empty result folder |
| Walker.ScanCamsFoundIsFirst | saltyster/ipro_aiinspect.py:221-241 | a find is in the first camera with something new: every earlier camera had nothing new, and so had every visited date folder before the find's folder |
| Cycles.EmitStep | saltyster/ipro_aiinspect.py:243-275 | after a find the scan stops; an emission names the model, camera and file of the find, has the model's name as lot and saves the walked checkpoint; otherwise the scan aborts and saves nothing |
| Cycles.EmitStepOutcome | saltyster/ipro_aiinspect.py:243-275 | after a find, a row is emitted exactly when the file's judgement decodes and its row builds, and it is the row built from that judgement; otherwise the camera value is inserted exactly when building raised after the `cam` insert |
| Cycles.WalkModel | saltyster/ipro_aiinspect.py:216-241 | the camera walk of one model fails to start exactly when the model directory cannot be listed |
| Cycles.ModelStep | saltyster/ipro_aiinspect.py:209-275 | one model's body: whether the checkpoint directory exists is unchanged; an emission belongs to this model and names it as lot; a stop is never idle |
| Cycles.ModelStepWritesOnly | saltyster/ipro_aiinspect.py:209-275 | one model's scan writes no file but its own checkpoint |
| Cycles.ModelStepEmitsFind | saltyster/ipro_aiinspect.py:241-275 | when a model's walk finds a file, its scan stops and emits exactly when the file's judgement decodes and its row builds, with that row; otherwise it aborts |
| Cycles.ScanModels | saltyster/ipro_aiinspect.py:200-214 | the model loop emits only for a model at an index below ten that is not `default` or `log`, and names it as lot |
| Cycles.ModelStepContinues | saltyster/ipro_aiinspect.py:209-275 | one model's scan goes on to the next model exactly when that model has nothing new for its stored checkpoint; an emission is the find of its camera walk and saves the walk's checkpoint |
| Cycles.ScanModelsIdleIff | saltyster/ipro_aiinspect.py:200-214 | the model loop ends idle (neither emits nor aborts) exactly when every model it scans has nothing new for its stored checkpoint |
| Cycles.ScanModelsEmitsFirst | saltyster/ipro_aiinspect.py:200-214 | an emission comes from the first scanned model with something new: every model scanned before it had nothing new |
| Cycles.CycleIdleIff | saltyster/ipro_aiinspect.py:187-283 | a poll ends idle (neither emits nor aborts) exactly when the root can be listed and every scanned model has nothing new |
| Cycles.CycleEmitsFirstNewFile | saltyster/ipro_aiinspect.py:187-275 | an emitted row is for the first new file in walk order: earlier models, earlier cameras and earlier visited date folders had nothing new, the file is the least name in its folder above the stored file date; the row is the one built from that file's judgement |
| Cycles.ScanModelsStopsAtFirst | saltyster/ipro_aiinspect.py:200-275 | the model loop ends as the scan of the first scanned model with something new ends |
| Cycles.CycleStopsAtFirst | saltyster/ipro_aiinspect.py:187-283 | a poll whose root can be listed ends as the scan of the first model with something new ends |
| Cycles.CycleEmitsUnlessRaised | saltyster/ipro_aiinspect.py:187-275 | a poll misses no new file: when model `j` is the first with something new and none of its cameras raises, its walk finds a file, and the poll emits exactly when that file's judgement decodes and its row builds, for that model, camera and file, with the row built from it |
| Cycles.Cycle | saltyster/ipro_aiinspect.py:187-283 | after the poll the checkpoint directory exists exactly when it did before or `os.mkdir` left it in place (`infoDirReady`); an unlistable root aborts and writes nothing; an emission is from a model below index ten that is not reserved |
| Cycles.Appended | saltyster/ipro_aiinspect.py:265-271 | inserting into the five columns keeps every value already there, in order, and adds exactly the new ones |
| Cycles.Inserted | saltyster/ipro_aiinspect.py:265-271 | a poll inserts at most one value per column; `date` gets one exactly when a row is emitted; `cam` gets one exactly then or when the date lookup raised |
| Cycles.ScanModelsWritesOnlyCheckpoints | saltyster/ipro_aiinspect.py:200-214 | a poll writes no file but the checkpoints of models it may scan: none for an index of ten or more, and none for `default` or `log` |
| Cycles.NoEmissionKeepsCheckpoints | saltyster/ipro_aiinspect.py:273-283 | a poll that emits nothing leaves every checkpoint as it loaded, so it saves nothing new |
| Cycles.ScanModelsCongruent | saltyster/ipro_aiinspect.py:200-214 | the model loop depends on the checkpoint store only through what each checkpoint file loads as |
| Cycles.RerunRepeats | saltyster/ipro_aiinspect.py:273-283 | a poll that emits no row is repeated exactly by the next poll over the same tree: nothing new stays nothing new, and a file whose judgement failed is tried again |
| Cycles.EmissionAdvancesCheckpoint | saltyster/ipro_aiinspect.py:229-274 | an emission advances the emitting model's checkpoint: no folder date moves back; only the emitting camera's file date changes, to the emitted file, which is strictly above the old one; that checkpoint is what is saved |
| Cycles.NextEmissionIsLater | saltyster/ipro_aiinspect.py:240-274 | the next poll after an emission emits for the same model slot and camera slot only a file that sorts after the first one, even when files are added in between |
| Cycles.EmissionKeepsOtherCheckpoints | saltyster/ipro_aiinspect.py:200-275 | when the model loop emits, loading any path other than the emitting model's checkpoint file gives the same checkpoint as before the loop |
| Cycles.CycleAdvancesCheckpoints | saltyster/ipro_aiinspect.py:187-283 | over one poll, every model's stored checkpoint advances: no folder date moves back, the emitting slot's file date becomes the emitted file, strictly above the old one, and every other file date stays |
| Cycles.PollKeepsSlotOrder | saltyster/ipro_aiinspect.py:229-274 | in a run of polls, no poll moves a stored folder date or file date back |
| Cycles.PollStoresEmittedFile | saltyster/ipro_aiinspect.py:240-274 | in a run of polls, a poll that emits stores the emitted file in its slot, above the file stored there before |
| Cycles.CheckpointsNeverMoveBack | saltyster/ipro_aiinspect.py:229-274 | across any stretch of polls, no stored folder date or file date moves back |
| Cycles.SaveToSaveIncreases | saltyster/ipro_aiinspect.py:240-274 | from save to save, the files emitted for one model slot and camera slot strictly increase, whatever the polls in between emitted and however the tree grew |
| Cycles.FirstPollExample | saltyster/ipro_aiinspect.py:187-275 | first poll over one model, camera, date folder and OK judgement with areas OK and NG: row ("cam1", date, "m1", "0", "01"), with slot 0 saved |
| Collector.HiveCollector.constructor | saltyster/ipro_aiinspect.py:85-101 | the collector starts with the given paths and checkpoint state, and all five columns empty |
| Collector.HiveCollector.SetInspectDate | saltyster/ipro_aiinspect.py:164-179 | the two write loops leave exactly `Save` of the current lists in the store |
| Collector.HiveCollector.GetInspectDate | saltyster/ipro_aiinspect.py:133-155 | the read loop fills the lists in place, and the store ends as `Load` says: filled by line, bootstrapped when the file is missing, untouched on any other failure |
| Collector.HiveCollector.FillSlots | saltyster/ipro_aiinspect.py:141-148 | the read loop fills the arrays in place exactly as `Fill` says: line k, with its trailing newlines stripped, goes into folder slot k and then file slot k - 10, and the 21st line stops the loop |
| Collector.HiveCollector.FindNewFile | saltyster/ipro_aiinspect.py:238-240 | the file loop returns the position `FirstNewFrom` names: the first file strictly above the stored file date |
| Collector.HiveCollector.ScanDateFolders | saltyster/ipro_aiinspect.py:227-241 | the nested date and file loops compute `ScanDates` and change only the camera's two slots |
| Collector.HiveCollector.ScanCameras | saltyster/ipro_aiinspect.py:216-241 | the camera loop computes `ScanCams`, with the arrays ending as its checkpoint |
| Collector.HiveCollector.WalkCameras | saltyster/ipro_aiinspect.py:217-241 | the camera listing and loop end as `WalkModel` states, with the arrays ending as the walk's checkpoint |
| Collector.HiveCollector.EmitRow | saltyster/ipro_aiinspect.py:243-275 | the judgement read, the five inserts in source order and `setInspectDate` end as `EmitStep` and `Inserted` state |
| Collector.HiveCollector.ScanModel | saltyster/ipro_aiinspect.py:209-275 | one model's loop body ends as `ModelStep` states, appending to the columns only when it stops the poll |
| Collector.HiveCollector.SearchInspectResult | saltyster/ipro_aiinspect.py:187-283 | one poll leaves the store as `Cycle` states and appends `Inserted` of its outcome to the columns |

## Left out

- The SpeeDBee Hive framework is not part of this model: `HiveCollectorBase`, `makeOutputColumn`, `HiveColumn`, `getTimestamp`, `intervalCall`, the `mainloop`/`proc` timer and `self.logger`. Column inserts are modelled as appending to five sequences, with no timestamps. Logging is a no-op.
- Constructor argument splitting (`param.split(" ")`, lines 87-89) is configuration plumbing. The constructor takes the two paths directly.
- Real I/O is replaced by values. `os.listdir` is a map from paths to entry names. `open` with `json.load` is a map from paths to already-decoded judgements or `Malformed`. `os.mkdir` is modelled by the flag `infoDirReady`: after the call, `infoPath/aiinspect` is a directory, because `mkdir` succeeded or the directory was already there. It is false when `mkdir` failed for another reason, such as a permission error or a plain file of that name.
- JSON text decoding is left out. Only the keys `overallResult`, `camDate.DATE` and `detect[].judge` are modelled, each present or missing. They are compared as strings, so non-string JSON values are not modelled.
- Text-mode newline translation (`\r\n`, `\r`) and character encoding of the checkpoint files are left out. The text is exactly what was written.
- Checkpoint write failures other than a missing `aiinspect` directory are left out, for example a full disk or a file that opens but fails while being written. Read failures other than a missing file are one outcome, `Unreadable`.
- Checkpoints.RoundTrip: holds only for names without a newline character. A directory or file name containing '\n' would split into two lines; that case is not modelled.
- Cycles.NextEmissionIsLater: assumes the checkpoint directory exists or can be created, and that the saved names contain no newline. Otherwise nothing is saved and the next poll may emit the same file again.
- Cycles.SaveToSaveIncreases: makes the same two assumptions, for every poll of the run.
- Cycles.CheckpointsNeverMoveBack: makes the same two assumptions, for every poll of the run.
- `Checkpoints.InfoStore` does not tie its files to `dirExists`: a store may list files in a directory marked missing. The collector's starting store is taken to be consistent, and every operation keeps `dirExists` as stated.
- The timing of polls and concurrent changes to the tree during a poll are left out. A poll sees one fixed tree.
