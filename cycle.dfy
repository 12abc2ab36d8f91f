/**
  One poll cycle of the collector (`searchInspectResult`): create the checkpoint
  directory, then walk the sorted model directories, loading each model's
  checkpoint, until the first new result file is found. That file becomes the
  cycle's only row, that model's checkpoint is saved, and the cycle ends. Any
  exception ends the cycle without saving.
 */
module Cycles {
  import opened Wrappers
  import opened StringOrder
  import opened FileTree
  import opened Checkpoints
  import opened Rows
  import opened Walker

  /** `_max_modelnum`: the model loop returns at this enumeration index. */
  const ModelLimit: nat := 10

  /** Directory entries under the root that are not models. */
  predicate Reserved(name: string)
  {
    name == "default" || name == "log"
  }

  /** The model at sorted position `j` is one the cycle may load, walk and checkpoint. */
  predicate Scanned(models: seq<string>, j: nat)
  {
    j < |models| && j < ModelLimit && !Reserved(models[j])
  }

  /** The checkpoint files a cycle over `models` may write. */
  function CheckpointPaths(infoPath: string, models: seq<string>): set<string>
  {
    set j | 0 <= j < |models| && Scanned(models, j) :: InfoFileName(infoPath, j)
  }

  datatype CycleResult =
    | Idle
      /** A row was emitted for `file` of camera slot `camIdx` of model `modelIdx`, and `saved` was saved. */
    | Emitted(modelIdx: nat, camIdx: nat, file: string, row: Row, saved: Checkpoint)
      /** An exception ended the cycle; `camInserted` is the camera value inserted before it, if any. */
    | Aborted(camInserted: Option<string>)

  /** How the scan of one model ends: the cycle goes on to the next model, or it stops. */
  datatype Step = Continue(store: InfoStore) | Stop(result: CycleResult, store: InfoStore)

  /**
    The end of a model's scan once the walk has found `file`: read its judgement,
    build the row (which may raise part-way), and save `saved` under `path`.
   */
  function EmitStep(fs: FileSystem, filePath: Path, i: nat, model: string, camIdx: nat, camDir: string,
                    file: string, saved: Checkpoint, path: string, loaded: InfoStore): (s: Step)
    ensures s.Stop? && s.store.dirExists == loaded.dirExists
    ensures s.result.Emitted? ==> && s.result.modelIdx == i && s.result.row.lot == model
                                  && s.result.saved == saved && s.result.camIdx == camIdx && s.result.file == file
                                  && s.store == Save(loaded, path, saved)
    ensures !s.result.Emitted? ==> s.result.Aborted? && s.store == loaded
  {
    match ReadJudgement(fs, filePath)
    case None => Stop(Aborted(None), loaded)
    case Some(rec) =>
      match BuildRow(rec, camDir, model)
      case Raised(camInserted) => Stop(Aborted(if camInserted then Some(camDir) else None), loaded)
      case Built(row) => Stop(Emitted(i, camIdx, file, row, saved), Save(loaded, path, saved))
  }

  /**
    A row is emitted exactly when the found file's judgement decodes and the row
    builds, and it is the row built from that judgement; otherwise the scan
    aborts, with the camera value inserted exactly when building raised after
    inserting it.
   */
  lemma EmitStepOutcome(fs: FileSystem, filePath: Path, i: nat, model: string, camIdx: nat, camDir: string,
                        file: string, saved: Checkpoint, path: string, loaded: InfoStore)
    ensures var s := EmitStep(fs, filePath, i, model, camIdx, camDir, file, saved, path, loaded);
      var j := ReadJudgement(fs, filePath);
      && (s.result.Emitted? <==> j.Some? && BuildRow(j.value, camDir, model).Built?)
      && (s.result.Emitted? ==> s.result.row == BuildRow(j.value, camDir, model).row)
      && (s.result.Aborted? ==>
            && (s.result.camInserted.Some? <==> j.Some? && BuildRow(j.value, camDir, model).Raised?
                                                && BuildRow(j.value, camDir, model).camInserted)
            && (s.result.camInserted.Some? ==> s.result.camInserted.value == camDir))
  {
  }

  /**
    The camera walk of model `model` from the checkpoint `cp`: `None` when the
    model directory cannot be listed.
   */
  function WalkModel(fs: FileSystem, root: string, model: string, cp: Checkpoint): (r: Option<Walk>)
    requires cp.Valid()
    ensures r.None? <==> ModelPath(root, model) !in fs.listings
    ensures r.Some? ==> r.value.cp.Valid()
  {
    var modelPath := ModelPath(root, model);
    match SortedListing(fs, modelPath)
    case None => None
    case Some(cams) => Some(ScanCams(fs, modelPath, cams, 0, cp))
  }

  /**
    The scan of the model `model` at sorted position `i`: load its checkpoint,
    walk its cameras, and on the first new file emit it.
   */
  function ModelStep(fs: FileSystem, root: string, infoPath: string, i: nat, model: string,
                     store: InfoStore): (s: Step)
    ensures s.store.dirExists == store.dirExists
    ensures s.Stop? && s.result.Emitted? ==> s.result.modelIdx == i && s.result.row.lot == model
    ensures s.Stop? ==> !s.result.Idle?
  {
    var path := InfoFileName(infoPath, i);
    var (cp, loaded) := Load(store, path, Empty());
    match WalkModel(fs, root, model, cp)
    case None => Stop(Aborted(None), loaded)
    case Some(w) =>
      match w.status
      case WalkFailed => Stop(Aborted(None), loaded)
      case Exhausted => Continue(loaded)
      case Found(c, camDir, dateDir, file) =>
        EmitStep(fs, FoundFilePath(root, model, w.status), i, model, c, camDir, file, w.cp, path, loaded)
  }

  /** The result file a find names: `root/model/camDir/result/dateDir/judge/file`. */
  function FoundFilePath(root: string, model: string, st: WalkStatus): Path
    requires st.Found?
  {
    JudgePath(ResultPath(ModelPath(root, model), st.camDir), st.dateDir) + [st.file]
  }

  /**
    What one model's scan does to the store: it loads the model's checkpoint and,
    only when it emits, saves the walk's checkpoint over it.
   */
  lemma ModelStepStore(fs: FileSystem, root: string, infoPath: string, i: nat, model: string, store: InfoStore)
    ensures var s := ModelStep(fs, root, infoPath, i, model, store);
      var path := InfoFileName(infoPath, i);
      var loaded := Load(store, path, Empty()).1;
      && (s.Stop? && s.result.Emitted? ==> s.store == Save(loaded, path, s.result.saved))
      && (!(s.Stop? && s.result.Emitted?) ==> s.store == loaded)
  {
  }

  /** One model's scan depends on the store only through what its checkpoint loads as. */
  lemma ModelStepCongruent(fs: FileSystem, root: string, infoPath: string, i: nat, model: string,
                           s: InfoStore, t: InfoStore)
    requires Load(s, InfoFileName(infoPath, i), Empty()).0 == Load(t, InfoFileName(infoPath, i), Empty()).0
    ensures var a := ModelStep(fs, root, infoPath, i, model, s);
      var b := ModelStep(fs, root, infoPath, i, model, t);
      a.Stop? == b.Stop? && (a.Stop? ==> a.result == b.result)
  {
    var path := InfoFileName(infoPath, i);
    var w := WalkModel(fs, root, model, Load(s, path, Empty()).0);
    assert w == WalkModel(fs, root, model, Load(t, path, Empty()).0);
    if w.Some? && w.value.status.Found? {
      var st := w.value.status;
      EmitStepIgnoresStore(fs, FoundFilePath(root, model, st), i, model, st.camIdx, st.camDir, st.file, w.value.cp,
                           path, Load(s, path, Empty()).1, Load(t, path, Empty()).1);
    }
  }

  /** What a find emits does not depend on the store it is saved into. */
  lemma EmitStepIgnoresStore(fs: FileSystem, filePath: Path, i: nat, model: string, camIdx: nat, camDir: string,
                             file: string, saved: Checkpoint, path: string, s: InfoStore, t: InfoStore)
    ensures EmitStep(fs, filePath, i, model, camIdx, camDir, file, saved, path, s).result
         == EmitStep(fs, filePath, i, model, camIdx, camDir, file, saved, path, t).result
  {
  }

  /**
    The model loop from sorted position `i`. Entries named "default" or "log" are
    skipped but keep their index; the loop returns at index ten.
   */
  function ScanModels(fs: FileSystem, root: string, infoPath: string, models: seq<string>, i: nat,
                      store: InfoStore): (r: (CycleResult, InfoStore))
    requires i <= |models|
    ensures r.1.dirExists == store.dirExists
    ensures r.0.Emitted? ==> i <= r.0.modelIdx && Scanned(models, r.0.modelIdx) && r.0.row.lot == models[r.0.modelIdx]
    decreases |models| - i
  {
    if i == |models| || i >= ModelLimit then (Idle, store)
    else if Reserved(models[i]) then ScanModels(fs, root, infoPath, models, i + 1, store)
    else
      match ModelStep(fs, root, infoPath, i, models[i], store)
      case Continue(next) => ScanModels(fs, root, infoPath, models, i + 1, next)
      case Stop(result, next) => (result, next)
  }

  /**
    A whole cycle: `os.mkdir` of the checkpoint directory, with any error ignored,
    then the model loop over the sorted listing of `root`. `infoDirReady` says
    that the directory is there after the call: `mkdir` created it or found it
    already there. It is false when `mkdir` failed otherwise (no permission, or a
    plain file of that name).
   */
  function Cycle(fs: FileSystem, root: string, infoPath: string, infoDirReady: bool, store: InfoStore): (r: (CycleResult, InfoStore))
    ensures r.1.dirExists == (store.dirExists || infoDirReady)
    ensures [root] !in fs.listings ==> r.0 == Aborted(None) && r.1.files == store.files
    ensures r.0.Emitted? ==> r.0.modelIdx < ModelLimit && !Reserved(r.0.row.lot)
  {
    var ready := store.(dirExists := store.dirExists || infoDirReady);
    match SortedListing(fs, [root])
    case None => (Aborted(None), ready)
    case Some(models) => ScanModels(fs, root, infoPath, models, 0, ready)
  }

  // ---------------------------------------------------------------------------
  // Output: the five columns the collector inserts into.
  // ---------------------------------------------------------------------------

  datatype Columns = Columns(cam: seq<string>, date: seq<string>, lot: seq<string>,
                             overallResult: seq<string>, result: seq<string>)

  /**
    What one cycle inserts into each column: nothing, the five values of one row,
    or only the camera value when `camDate.DATE` raised after it was inserted.
   */
  function Inserted(r: CycleResult): (o: Columns)
    ensures |o.cam| <= 1 && |o.date| <= 1 && |o.lot| <= 1 && |o.overallResult| <= 1 && |o.result| <= 1
    ensures o.date != [] <==> r.Emitted?
    ensures o.cam != [] <==> r.Emitted? || (r.Aborted? && r.camInserted.Some?)
  {
    match r
    case Idle => Columns([], [], [], [], [])
    case Aborted(None) => Columns([], [], [], [], [])
    case Aborted(Some(cam)) => Columns([cam], [], [], [], [])
    case Emitted(_, _, _, row, _) => Columns([row.cam], [row.date], [row.lot], [row.overallResult], [row.result])
  }

  /** Each column of `out` followed by the same column of `added`: inserted values are kept, in order. */
  function Appended(out: Columns, added: Columns): (r: Columns)
    ensures && |r.cam| == |out.cam| + |added.cam| && |r.date| == |out.date| + |added.date|
            && |r.lot| == |out.lot| + |added.lot| && |r.overallResult| == |out.overallResult| + |added.overallResult|
            && |r.result| == |out.result| + |added.result|
    ensures && r.cam[..|out.cam|] == out.cam && r.date[..|out.date|] == out.date && r.lot[..|out.lot|] == out.lot
            && r.overallResult[..|out.overallResult|] == out.overallResult && r.result[..|out.result|] == out.result
  {
    Columns(out.cam + added.cam, out.date + added.date, out.lot + added.lot,
            out.overallResult + added.overallResult, out.result + added.result)
  }

  /** An outcome that inserts nothing leaves the columns as they were. */
  lemma AppendedNothing(out: Columns, r: CycleResult)
    requires r.Idle? || r == Aborted(None)
    ensures Appended(out, Inserted(r)) == out
  {
    assert out.cam + [] == out.cam && out.date + [] == out.date && out.lot + [] == out.lot;
    assert out.overallResult + [] == out.overallResult && out.result + [] == out.result;
  }

  // ---------------------------------------------------------------------------
  // Properties of a cycle.
  // ---------------------------------------------------------------------------

  lemma UpdateOutside<V>(m: map<string, V>, k: string, v: V, s: set<string>)
    requires k in s
    ensures m[k := v] - s == m - s
  {
  }

  /**
    A cycle writes no file but the checkpoints of the models it may scan: never
    one for an index of ten or more, nor for "default" or "log".
   */
  lemma ScanModelsWritesOnlyCheckpoints(fs: FileSystem, root: string, infoPath: string,
                                        models: seq<string>, store: InfoStore)
    ensures var paths := CheckpointPaths(infoPath, models);
      ScanModels(fs, root, infoPath, models, 0, store).1.files - paths == store.files - paths
  {
    var paths := CheckpointPaths(infoPath, models);
    forall j | Scanned(models, j)
      ensures InfoFileName(infoPath, j) in paths
    {
    }
    ScanModelsWritesOnly(fs, root, infoPath, models, 0, store, paths);
  }

  /** The model loop from position `i` writes nothing outside `paths`, which holds every checkpoint it may save. */
  lemma {:induction false} ScanModelsWritesOnly(fs: FileSystem, root: string, infoPath: string,
                                               models: seq<string>, i: nat, store: InfoStore, paths: set<string>)
    requires i <= |models|
    requires forall j :: Scanned(models, j) ==> InfoFileName(infoPath, j) in paths
    ensures ScanModels(fs, root, infoPath, models, i, store).1.files - paths == store.files - paths
    decreases |models| - i
  {
    if i < |models| && i < ModelLimit {
      if Reserved(models[i]) {
        ScanModelsWritesOnly(fs, root, infoPath, models, i + 1, store, paths);
      } else {
        assert Scanned(models, i);
        var s := ModelStep(fs, root, infoPath, i, models[i], store);
        if s.Continue? {
          ScanModelsWritesOnly(fs, root, infoPath, models, i + 1, s.store, paths);
        }
        WritesOnlyStep(fs, root, infoPath, models, i, store, paths);
      }
    }
  }

  /** One step of `ScanModelsWritesOnly`: the model at `i` writes only its checkpoint, and the rest of the loop only theirs. */
  lemma WritesOnlyStep(fs: FileSystem, root: string, infoPath: string,
                       models: seq<string>, i: nat, store: InfoStore, paths: set<string>)
    requires i < |models| && i < ModelLimit && !Reserved(models[i])
    requires InfoFileName(infoPath, i) in paths
    requires var s := ModelStep(fs, root, infoPath, i, models[i], store);
      s.Continue? ==> ScanModels(fs, root, infoPath, models, i + 1, s.store).1.files - paths == s.store.files - paths
    ensures ScanModels(fs, root, infoPath, models, i, store).1.files - paths == store.files - paths
  {
    ModelStepWritesOnly(fs, root, infoPath, i, models[i], store, paths);
  }

  /** One model's scan writes no file but its own checkpoint. */
  lemma ModelStepWritesOnly(fs: FileSystem, root: string, infoPath: string, i: nat, model: string,
                            store: InfoStore, paths: set<string>)
    requires InfoFileName(infoPath, i) in paths
    ensures ModelStep(fs, root, infoPath, i, model, store).store.files - paths == store.files - paths
  {
    var path := InfoFileName(infoPath, i);
    var loaded := Load(store, path, Empty()).1;
    if path !in store.files && store.dirExists {
      UpdateOutside(store.files, path, Text(Render(Empty())), paths);
    }
    var s := ModelStep(fs, root, infoPath, i, model, store);
    ModelStepStore(fs, root, infoPath, i, model, store);
    if s.Stop? && s.result.Emitted? && loaded.dirExists {
      UpdateOutside(loaded.files, path, Text(Render(s.result.saved)), paths);
    }
  }

  /** Two stores from which every checkpoint file loads the same way. */
  ghost predicate SameCheckpoints(s: InfoStore, t: InfoStore)
  {
    && s.dirExists == t.dirExists
    && forall p :: Load(s, p, Empty()).0 == Load(t, p, Empty()).0
  }

  /** Loading a checkpoint, even when that writes the all-empty one, does not change what any later load reads. */
  lemma LoadKeepsCheckpoints(s: InfoStore, path: string)
    ensures SameCheckpoints(s, Load(s, path, Empty()).1)
  {
    var t := Load(s, path, Empty()).1;
    if path !in s.files && s.dirExists {
      var e := Empty();
      assert AllNoNewline(e.folderDates) && AllNoNewline(e.fileDates);
      RoundTrip(e, e);
      forall p ensures Load(s, p, e).0 == Load(t, p, e).0 {
        if p != path {
          assert (p in s.files <==> p in t.files) && (p in s.files ==> s.files[p] == t.files[p]);
        }
      }
    }
  }

  /** A cycle that emits nothing leaves every checkpoint as it loaded it. */
  lemma {:induction false} NoEmissionKeepsCheckpoints(fs: FileSystem, root: string, infoPath: string,
                                                     models: seq<string>, i: nat, s: InfoStore)
    requires i <= |models|
    requires !ScanModels(fs, root, infoPath, models, i, s).0.Emitted?
    ensures SameCheckpoints(s, ScanModels(fs, root, infoPath, models, i, s).1)
    decreases |models| - i
  {
    if i < |models| && i < ModelLimit {
      if Reserved(models[i]) {
        NoEmissionKeepsCheckpoints(fs, root, infoPath, models, i + 1, s);
      } else {
        var path := InfoFileName(infoPath, i);
        var loaded := Load(s, path, Empty()).1;
        LoadKeepsCheckpoints(s, path);
        var step := ModelStep(fs, root, infoPath, i, models[i], s);
        ModelStepStore(fs, root, infoPath, i, models[i], s);
        if step.Continue? {
          NoEmissionKeepsCheckpoints(fs, root, infoPath, models, i + 1, loaded);
        }
      }
    }
  }

  /** The cycle depends on the store only through what its checkpoint files load as. */
  lemma {:induction false} ScanModelsCongruent(fs: FileSystem, root: string, infoPath: string,
                                              models: seq<string>, i: nat, s: InfoStore, t: InfoStore)
    requires i <= |models|
    requires SameCheckpoints(s, t)
    ensures ScanModels(fs, root, infoPath, models, i, s).0 == ScanModels(fs, root, infoPath, models, i, t).0
    decreases |models| - i
  {
    if i < |models| && i < ModelLimit {
      if Reserved(models[i]) {
        ScanModelsCongruent(fs, root, infoPath, models, i + 1, s, t);
        assert ScanModels(fs, root, infoPath, models, i, s) == ScanModels(fs, root, infoPath, models, i + 1, s);
        assert ScanModels(fs, root, infoPath, models, i, t) == ScanModels(fs, root, infoPath, models, i + 1, t);
      } else {
        var a := ModelStep(fs, root, infoPath, i, models[i], s);
        var b := ModelStep(fs, root, infoPath, i, models[i], t);
        if a.Continue? {
          ContinueAlike(fs, root, infoPath, i, models[i], s, t);
          ScanModelsCongruent(fs, root, infoPath, models, i + 1, a.store, b.store);
        }
        CongruentStep(fs, root, infoPath, models, i, s, t);
      }
    } else {
      ScanModelsAtEnd(fs, root, infoPath, models, i, s);
      ScanModelsAtEnd(fs, root, infoPath, models, i, t);
    }
  }

  /** When one model's scan goes on from two equivalent stores, it goes on from both, to equivalent stores. */
  lemma ContinueAlike(fs: FileSystem, root: string, infoPath: string, i: nat, model: string, s: InfoStore, t: InfoStore)
    requires SameCheckpoints(s, t)
    requires ModelStep(fs, root, infoPath, i, model, s).Continue?
    ensures ModelStep(fs, root, infoPath, i, model, t).Continue?
    ensures SameCheckpoints(ModelStep(fs, root, infoPath, i, model, s).store, ModelStep(fs, root, infoPath, i, model, t).store)
  {
    var path := InfoFileName(infoPath, i);
    assert Load(s, path, Empty()).0 == Load(t, path, Empty()).0;
    ModelStepCongruent(fs, root, infoPath, i, model, s, t);
    ModelStepStore(fs, root, infoPath, i, model, s);
    ModelStepStore(fs, root, infoPath, i, model, t);
    LoadKeepsCheckpoints(s, path);
    LoadKeepsCheckpoints(t, path);
  }

  /** One step of `ScanModelsCongruent`: equivalent stores give the same outcome at model `i` when they do after it. */
  lemma CongruentStep(fs: FileSystem, root: string, infoPath: string,
                      models: seq<string>, i: nat, s: InfoStore, t: InfoStore)
    requires i < |models| && i < ModelLimit && !Reserved(models[i])
    requires SameCheckpoints(s, t)
    requires var a := ModelStep(fs, root, infoPath, i, models[i], s);
      var b := ModelStep(fs, root, infoPath, i, models[i], t);
      a.Continue? && b.Continue? ==>
        ScanModels(fs, root, infoPath, models, i + 1, a.store).0 == ScanModels(fs, root, infoPath, models, i + 1, b.store).0
    ensures ScanModels(fs, root, infoPath, models, i, s).0 == ScanModels(fs, root, infoPath, models, i, t).0
  {
    var path := InfoFileName(infoPath, i);
    assert Load(s, path, Empty()).0 == Load(t, path, Empty()).0;
    ModelStepCongruent(fs, root, infoPath, i, models[i], s, t);
  }

  // ---------------------------------------------------------------------------
  // The scan misses no new file: the first one in (model, camera, date folder,
  // file) order is the one emitted.
  // ---------------------------------------------------------------------------

  /** What the checkpoint of the model at index `j` loads as from `store`. */
  function Loaded(store: InfoStore, infoPath: string, j: nat): (cp: Checkpoint)
    ensures cp.Valid()
  {
    Load(store, InfoFileName(infoPath, j), Empty()).0
  }

  /** Model `model` has nothing new for `cp`: it can be listed and none of its cameras has anything new. */
  predicate ModelNothingNew(fs: FileSystem, root: string, model: string, cp: Checkpoint)
    requires cp.Valid()
  {
    var modelPath := ModelPath(root, model);
    && modelPath in fs.listings
    && var cams := SortedListing(fs, modelPath).value;
       CamsNothingNew(fs, modelPath, cams, 0, |cams|, cp)
  }

  /** Every model the loop scans at sorted positions `i` to `e` has nothing new for its stored checkpoint. */
  predicate ModelsNothingNew(fs: FileSystem, root: string, infoPath: string, models: seq<string>, i: nat, e: nat,
                             store: InfoStore)
  {
    forall j :: i <= j < e && Scanned(models, j) ==> ModelNothingNew(fs, root, models[j], Loaded(store, infoPath, j))
  }

  /**
    One model's scan goes on to the next model exactly when that model has
    nothing new; when it emits, the emission is the walk's find and the saved
    checkpoint is the walk's.
   */
  lemma ModelStepContinues(fs: FileSystem, root: string, infoPath: string, i: nat, model: string, store: InfoStore)
    ensures var s := ModelStep(fs, root, infoPath, i, model, store);
      && (s.Continue? <==> ModelNothingNew(fs, root, model, Loaded(store, infoPath, i)))
      && (s.Stop? && s.result.Emitted? ==>
            var w := WalkModel(fs, root, model, Loaded(store, infoPath, i));
            && w.Some? && w.value.status.Found?
            && w.value.status.camIdx == s.result.camIdx && w.value.status.file == s.result.file
            && w.value.cp == s.result.saved)
  {
    var cp := Loaded(store, infoPath, i);
    var modelPath := ModelPath(root, model);
    if modelPath in fs.listings {
      var cams := SortedListing(fs, modelPath).value;
      ScanCamsExhaustedIff(fs, modelPath, cams, 0, cp);
    }
  }

  /** `row` is the row built from the judgement in the file the find `st` names. */
  predicate EmitsJudgement(fs: FileSystem, root: string, model: string, st: WalkStatus, row: Row)
    requires st.Found?
  {
    var j := ReadJudgement(fs, FoundFilePath(root, model, st));
    j.Some? && BuildRow(j.value, st.camDir, model) == Built(row)
  }

  /**
    When model `model`'s walk finds a file, its scan stops: it emits exactly when
    that file's judgement decodes and its row builds, and then the row is the one
    built; otherwise it aborts.
   */
  lemma ModelStepEmitsFind(fs: FileSystem, root: string, infoPath: string, i: nat, model: string, store: InfoStore)
    requires var w := WalkModel(fs, root, model, Loaded(store, infoPath, i)); w.Some? && w.value.status.Found?
    ensures var st := WalkModel(fs, root, model, Loaded(store, infoPath, i)).value.status;
      var j := ReadJudgement(fs, FoundFilePath(root, model, st));
      var s := ModelStep(fs, root, infoPath, i, model, store);
      && s.Stop?
      && (s.result.Emitted? <==> j.Some? && BuildRow(j.value, st.camDir, model).Built?)
      && (s.result.Emitted? ==> EmitsJudgement(fs, root, model, st, s.result.row))
      && (!s.result.Emitted? ==> s.result.Aborted?)
  {
    var st := WalkModel(fs, root, model, Loaded(store, infoPath, i)).value.status;
    var w := WalkModel(fs, root, model, Loaded(store, infoPath, i)).value;
    EmitStepOutcome(fs, FoundFilePath(root, model, st), i, model, st.camIdx, st.camDir, st.file, w.cp,
                    InfoFileName(infoPath, i), Load(store, InfoFileName(infoPath, i), Empty()).1);
  }

  /** Loading model `i`'s checkpoint does not change what any other model below the limit loads. */
  lemma LoadedAfterLoad(store: InfoStore, infoPath: string, i: nat)
    requires i < ModelLimit
    ensures forall j: nat :: j < ModelLimit && j != i ==>
      Loaded(Load(store, InfoFileName(infoPath, i), Empty()).1, infoPath, j) == Loaded(store, infoPath, j)
  {
    forall j: nat | j < ModelLimit && j != i
      ensures Loaded(Load(store, InfoFileName(infoPath, i), Empty()).1, infoPath, j) == Loaded(store, infoPath, j)
    {
      InfoFileNamesDistinct(infoPath, i, j);
      LoadElsewhere(store, InfoFileName(infoPath, i), InfoFileName(infoPath, j));
    }
  }

  /** After model `i`'s scan goes on, the later models load their checkpoints as before it. */
  lemma ModelsNothingNewAfterLoad(fs: FileSystem, root: string, infoPath: string, models: seq<string>, i: nat,
                                  store: InfoStore, e: nat)
    requires i < ModelLimit
    ensures var loaded := Load(store, InfoFileName(infoPath, i), Empty()).1;
      ModelsNothingNew(fs, root, infoPath, models, i + 1, e, loaded) <==> ModelsNothingNew(fs, root, infoPath, models, i + 1, e, store)
  {
    LoadedAfterLoad(store, infoPath, i);
  }

  /**
    The model loop ends idle, neither emitting nor aborting, exactly when every
    model it scans has nothing new: it never passes over a new file.
   */
  lemma {:induction false} ScanModelsIdleIff(fs: FileSystem, root: string, infoPath: string,
                                            models: seq<string>, i: nat, store: InfoStore)
    requires i <= |models|
    ensures ScanModels(fs, root, infoPath, models, i, store).0.Idle? <==> ModelsNothingNew(fs, root, infoPath, models, i, |models|, store)
    decreases |models| - i
  {
    if i < |models| && i < ModelLimit {
      if Reserved(models[i]) {
        ScanModelsIdleIff(fs, root, infoPath, models, i + 1, store);
        IdleIffAtSkip(fs, root, infoPath, models, i, store);
      } else {
        ScanModelsIdleIff(fs, root, infoPath, models, i + 1, ModelStep(fs, root, infoPath, i, models[i], store).store);
        IdleIffAtModel(fs, root, infoPath, models, i, store);
      }
    } else {
      IdleIffAtEnd(fs, root, infoPath, models, i, store);
    }
  }

  /** `ScanModelsIdleIff` where the loop stops: past the last model or the tenth. */
  lemma IdleIffAtEnd(fs: FileSystem, root: string, infoPath: string, models: seq<string>, i: nat, store: InfoStore)
    requires i <= |models| && (i == |models| || i >= ModelLimit)
    ensures ScanModels(fs, root, infoPath, models, i, store).0.Idle?
    ensures ModelsNothingNew(fs, root, infoPath, models, i, |models|, store)
  {
    ScanModelsAtEnd(fs, root, infoPath, models, i, store);
  }

  /** The step of `ScanModelsIdleIff` over a "default" or "log" entry. */
  lemma IdleIffAtSkip(fs: FileSystem, root: string, infoPath: string, models: seq<string>, i: nat, store: InfoStore)
    requires i < |models| && i < ModelLimit && Reserved(models[i])
    requires ScanModels(fs, root, infoPath, models, i + 1, store).0.Idle? <==>
             ModelsNothingNew(fs, root, infoPath, models, i + 1, |models|, store)
    ensures ScanModels(fs, root, infoPath, models, i, store).0.Idle? <==> ModelsNothingNew(fs, root, infoPath, models, i, |models|, store)
  {
    assert ScanModels(fs, root, infoPath, models, i, store) == ScanModels(fs, root, infoPath, models, i + 1, store);
    assert !Scanned(models, i);
  }

  /** The step of `ScanModelsIdleIff` at a model the loop scans. */
  lemma IdleIffAtModel(fs: FileSystem, root: string, infoPath: string, models: seq<string>, i: nat, store: InfoStore)
    requires i < |models| && i < ModelLimit && !Reserved(models[i])
    requires var step := ModelStep(fs, root, infoPath, i, models[i], store);
      step.Continue? ==>
        (ScanModels(fs, root, infoPath, models, i + 1, step.store).0.Idle? <==>
         ModelsNothingNew(fs, root, infoPath, models, i + 1, |models|, step.store))
    ensures ScanModels(fs, root, infoPath, models, i, store).0.Idle? <==> ModelsNothingNew(fs, root, infoPath, models, i, |models|, store)
  {
    ModelStepContinues(fs, root, infoPath, i, models[i], store);
    if ModelStep(fs, root, infoPath, i, models[i], store).Continue? {
      IdleIffAfterContinue(fs, root, infoPath, models, i, store);
    } else {
      IdleIffAtStop(fs, root, infoPath, models, i, store);
    }
  }

  /** `IdleIffAtModel` when model `i` has nothing new: the loop goes on with the same checkpoints for the later models. */
  lemma IdleIffAfterContinue(fs: FileSystem, root: string, infoPath: string, models: seq<string>, i: nat, store: InfoStore)
    requires i < |models| && i < ModelLimit && !Reserved(models[i])
    requires ModelNothingNew(fs, root, models[i], Loaded(store, infoPath, i))
    requires var step := ModelStep(fs, root, infoPath, i, models[i], store);
      && step.Continue?
      && (ScanModels(fs, root, infoPath, models, i + 1, step.store).0.Idle? <==>
          ModelsNothingNew(fs, root, infoPath, models, i + 1, |models|, step.store))
    ensures ScanModels(fs, root, infoPath, models, i, store).0.Idle? <==> ModelsNothingNew(fs, root, infoPath, models, i, |models|, store)
  {
    var step := ModelStep(fs, root, infoPath, i, models[i], store);
    ModelStepStore(fs, root, infoPath, i, models[i], store);
    ModelsNothingNewAfterLoad(fs, root, infoPath, models, i, store, |models|);
    assert ScanModels(fs, root, infoPath, models, i, store) == ScanModels(fs, root, infoPath, models, i + 1, step.store);
    assert Scanned(models, i);
  }

  /** `IdleIffAtModel` when model `i`'s scan stops the loop: then it is not idle, and model `i` had something new. */
  lemma IdleIffAtStop(fs: FileSystem, root: string, infoPath: string, models: seq<string>, i: nat, store: InfoStore)
    requires i < |models| && i < ModelLimit && !Reserved(models[i])
    requires !ModelNothingNew(fs, root, models[i], Loaded(store, infoPath, i))
    requires ModelStep(fs, root, infoPath, i, models[i], store).Stop?
    ensures !ScanModels(fs, root, infoPath, models, i, store).0.Idle?
    ensures !ModelsNothingNew(fs, root, infoPath, models, i, |models|, store)
  {
    var step := ModelStep(fs, root, infoPath, i, models[i], store);
    assert ScanModels(fs, root, infoPath, models, i, store) == (step.result, step.store);
    assert Scanned(models, i);
  }


  /**
    An emission is from the first scanned model with something new: every model
    the loop scanned before it had nothing new, and the emitted file is the find
    of the emitting model's camera walk.
   */
  lemma {:induction false} ScanModelsEmitsFirst(fs: FileSystem, root: string, infoPath: string,
                                               models: seq<string>, i: nat, store: InfoStore)
    requires i <= |models|
    ensures EmitsFirstFrom(fs, root, infoPath, models, i, store)
    decreases |models| - i
  {
    if i < |models| && i < ModelLimit {
      ScanModelsEmitsFirst(fs, root, infoPath, models, i + 1, StoreAfter(fs, root, infoPath, models, i, store));
      if Reserved(models[i]) {
        EmitsFirstAtSkip(fs, root, infoPath, models, i, store);
      } else {
        EmitsFirstAtModel(fs, root, infoPath, models, i, store);
      }
    } else {
      ScanModelsAtEnd(fs, root, infoPath, models, i, store);
    }
  }

  /** The step of `ScanModelsEmitsFirst` over a "default" or "log" entry. */
  lemma EmitsFirstAtSkip(fs: FileSystem, root: string, infoPath: string, models: seq<string>, i: nat, store: InfoStore)
    requires i < |models| && i < ModelLimit && Reserved(models[i])
    requires EmitsFirstFrom(fs, root, infoPath, models, i + 1, store)
    ensures EmitsFirstFrom(fs, root, infoPath, models, i, store)
  {
    var r := ScanModels(fs, root, infoPath, models, i + 1, store);
    assert ScanModels(fs, root, infoPath, models, i, store) == r;
    if r.0.Emitted? {
      ModelsNothingNewPastSkip(fs, root, infoPath, models, i, r.0.modelIdx, store);
    }
  }

  /** A "default" or "log" entry at position `i` adds nothing to what `ModelsNothingNew` asks. */
  lemma ModelsNothingNewPastSkip(fs: FileSystem, root: string, infoPath: string, models: seq<string>, i: nat, e: nat,
                                 store: InfoStore)
    requires i < |models| && Reserved(models[i])
    requires ModelsNothingNew(fs, root, infoPath, models, i + 1, e, store)
    ensures ModelsNothingNew(fs, root, infoPath, models, i, e, store)
  {
    assert !Scanned(models, i);
  }

  /** What `ScanModelsEmitsFirst` states of the model loop from position `i`. */
  predicate EmitsFirstFrom(fs: FileSystem, root: string, infoPath: string, models: seq<string>, i: nat, store: InfoStore)
    requires i <= |models|
  {
    var r := ScanModels(fs, root, infoPath, models, i, store);
    r.0.Emitted? ==>
      && ModelsNothingNew(fs, root, infoPath, models, i, r.0.modelIdx, store)
      && var w := WalkModel(fs, root, models[r.0.modelIdx], Loaded(store, infoPath, r.0.modelIdx));
         && w.Some? && w.value.status.Found?
         && w.value.status.camIdx == r.0.camIdx && w.value.status.file == r.0.file && w.value.cp == r.0.saved
         && EmitsJudgement(fs, root, models[r.0.modelIdx], w.value.status, r.0.row)
  }

  /** The step of `ScanModelsEmitsFirst` at a model the loop scans. */
  lemma EmitsFirstAtModel(fs: FileSystem, root: string, infoPath: string, models: seq<string>, i: nat, store: InfoStore)
    requires i < |models| && i < ModelLimit && !Reserved(models[i])
    requires EmitsFirstFrom(fs, root, infoPath, models, i + 1, ModelStep(fs, root, infoPath, i, models[i], store).store)
    ensures EmitsFirstFrom(fs, root, infoPath, models, i, store)
  {
    var r := ScanModels(fs, root, infoPath, models, i, store);
    var step := ModelStep(fs, root, infoPath, i, models[i], store);
    ModelStepContinues(fs, root, infoPath, i, models[i], store);
    if step.Continue? {
      assert r == ScanModels(fs, root, infoPath, models, i + 1, step.store);
      if r.0.Emitted? {
        ModelStepStore(fs, root, infoPath, i, models[i], store);
        ModelsNothingNewAfterLoad(fs, root, infoPath, models, i, store, r.0.modelIdx);
        LoadedAfterLoad(store, infoPath, i);
        assert Scanned(models, i);
      }
    } else {
      assert r == (step.result, step.store);
      if r.0.Emitted? {
        ModelStepEmitsFind(fs, root, infoPath, i, models[i], store);
      }
    }
  }

  /** The store the model loop carries past position `i`. */
  function StoreAfter(fs: FileSystem, root: string, infoPath: string, models: seq<string>, i: nat, store: InfoStore): InfoStore
    requires i < |models| && i < ModelLimit
  {
    if Reserved(models[i]) then store else ModelStep(fs, root, infoPath, i, models[i], store).store
  }

  /** Past the last model or the tenth, the model loop stops idle with the store as it is. */
  lemma ScanModelsAtEnd(fs: FileSystem, root: string, infoPath: string, models: seq<string>, i: nat, store: InfoStore)
    requires i <= |models| && (i == |models| || i >= ModelLimit)
    ensures ScanModels(fs, root, infoPath, models, i, store) == (Idle, store)
  {
  }

  /**
    The model loop ends as the scan of the first model with something new ends:
    when every scanned model from `i` to before `j` has nothing new and model `j`
    has something new, the loop's outcome is that of model `j`'s scan, from the
    checkpoint the loop started with.
   */
  lemma {:induction false} ScanModelsStopsAtFirst(fs: FileSystem, root: string, infoPath: string,
                                                 models: seq<string>, i: nat, store: InfoStore, j: nat)
    requires i <= j && Scanned(models, j)
    requires ModelsNothingNew(fs, root, infoPath, models, i, j, store)
    requires !ModelNothingNew(fs, root, models[j], Loaded(store, infoPath, j))
    ensures var s := ModelStep(fs, root, infoPath, j, models[j], store);
      s.Stop? && ScanModels(fs, root, infoPath, models, i, store).0 == s.result
    decreases j - i
  {
    ModelStepContinues(fs, root, infoPath, j, models[j], store);
    if i < j {
      StopsAtFirstCarry(fs, root, infoPath, models, i, store, j);
      ScanModelsStopsAtFirst(fs, root, infoPath, models, i + 1, StoreAfter(fs, root, infoPath, models, i, store), j);
      StopsAtFirstStep(fs, root, infoPath, models, i, store, j);
    } else {
      assert ScanModels(fs, root, infoPath, models, i, store).0 == ModelStep(fs, root, infoPath, j, models[j], store).result;
    }
  }

  /** Past a model with nothing new, model `j` loads the same checkpoint, and the earlier ones still have nothing new. */
  lemma StopsAtFirstCarry(fs: FileSystem, root: string, infoPath: string, models: seq<string>, i: nat,
                          store: InfoStore, j: nat)
    requires i < j && Scanned(models, j)
    requires ModelsNothingNew(fs, root, infoPath, models, i, j, store)
    ensures var next := StoreAfter(fs, root, infoPath, models, i, store);
      && ModelsNothingNew(fs, root, infoPath, models, i + 1, j, next)
      && Loaded(next, infoPath, j) == Loaded(store, infoPath, j)
  {
    if !Reserved(models[i]) {
      assert Scanned(models, i);
      ModelStepContinues(fs, root, infoPath, i, models[i], store);
      ModelStepStore(fs, root, infoPath, i, models[i], store);
      ModelsNothingNewAfterLoad(fs, root, infoPath, models, i, store, j);
      LoadedAfterLoad(store, infoPath, i);
    }
  }

  /** The step of `ScanModelsStopsAtFirst` at a position `i` before `j`. */
  lemma StopsAtFirstStep(fs: FileSystem, root: string, infoPath: string, models: seq<string>, i: nat,
                         store: InfoStore, j: nat)
    requires i < j && Scanned(models, j)
    requires ModelsNothingNew(fs, root, infoPath, models, i, j, store)
    requires var next := StoreAfter(fs, root, infoPath, models, i, store);
      && Loaded(next, infoPath, j) == Loaded(store, infoPath, j)
      && var s := ModelStep(fs, root, infoPath, j, models[j], next);
         s.Stop? && ScanModels(fs, root, infoPath, models, i + 1, next).0 == s.result
    ensures var s := ModelStep(fs, root, infoPath, j, models[j], store);
      s.Stop? && ScanModels(fs, root, infoPath, models, i, store).0 == s.result
  {
    var next := StoreAfter(fs, root, infoPath, models, i, store);
    ModelStepCongruent(fs, root, infoPath, j, models[j], next, store);
    if !Reserved(models[i]) {
      assert Scanned(models, i);
      ModelStepContinues(fs, root, infoPath, i, models[i], store);
    }
    assert ScanModels(fs, root, infoPath, models, i, store) == ScanModels(fs, root, infoPath, models, i + 1, next);
  }

  /** The stored checkpoints do not depend on whether the checkpoint directory exists. */
  lemma LoadedIgnoresDir(store: InfoStore, infoPath: string, dirExists: bool)
    ensures forall j: nat :: Loaded(store.(dirExists := dirExists), infoPath, j) == Loaded(store, infoPath, j)
  {
  }

  /**
    A poll ends idle, neither emitting nor aborting, exactly when the root can be
    listed and every model it scans has nothing new for its stored checkpoint.
   */
  lemma CycleIdleIff(fs: FileSystem, root: string, infoPath: string, infoDirReady: bool, store: InfoStore)
    ensures Cycle(fs, root, infoPath, infoDirReady, store).0.Idle? <==>
      && [root] in fs.listings
      && var models := SortedListing(fs, [root]).value;
         ModelsNothingNew(fs, root, infoPath, models, 0, |models|, store)
  {
    var ready := store.(dirExists := store.dirExists || infoDirReady);
    LoadedIgnoresDir(store, infoPath, ready.dirExists);
    if [root] in fs.listings {
      var models := SortedListing(fs, [root]).value;
      ScanModelsIdleIff(fs, root, infoPath, models, 0, ready);
    }
  }

  /**
    The row a poll emits is for the first new result file in the order of the
    walk: every model scanned before the emitting one had nothing new; in the
    emitting model every camera before the emitting one had nothing new; in the
    emitting camera every date folder visited before the file's folder held
    nothing new; the file is the least name in its folder above the stored file
    date; and the row is the one built from that file's judgement.
   */
  lemma CycleEmitsFirstNewFile(fs: FileSystem, root: string, infoPath: string, infoDirReady: bool, store: InfoStore)
    requires Cycle(fs, root, infoPath, infoDirReady, store).0.Emitted?
    ensures var e := Cycle(fs, root, infoPath, infoDirReady, store).0;
      && [root] in fs.listings
      && var models := SortedListing(fs, [root]).value;
         && Scanned(models, e.modelIdx)
         && ModelsNothingNew(fs, root, infoPath, models, 0, e.modelIdx, store)
         && var modelPath := ModelPath(root, models[e.modelIdx]);
            var cp := Loaded(store, infoPath, e.modelIdx);
            && modelPath in fs.listings
            && var cams := SortedListing(fs, modelPath).value;
               var found := ScanCams(fs, modelPath, cams, 0, cp).status;
               && found.Found? && found.camIdx == e.camIdx && found.file == e.file
               && CamsNothingNew(fs, modelPath, cams, 0, e.camIdx, cp)
               && EarlierFoldersNothingNew(fs, ResultPath(modelPath, found.camDir), cp.folderDates[e.camIdx],
                                           found.dateDir, cp.fileDates[e.camIdx])
               && LessEq(cp.folderDates[e.camIdx], found.dateDir)
               && FirstNewIn(fs, JudgePath(ResultPath(modelPath, found.camDir), found.dateDir), cp.fileDates[e.camIdx], e.file)
               && EmitsJudgement(fs, root, models[e.modelIdx], found, e.row)
  {
    var ready := store.(dirExists := store.dirExists || infoDirReady);
    LoadedIgnoresDir(store, infoPath, ready.dirExists);
    var models := SortedListing(fs, [root]).value;
    var e := ScanModels(fs, root, infoPath, models, 0, ready).0;
    ScanModelsEmitsFirst(fs, root, infoPath, models, 0, ready);
    var modelPath := ModelPath(root, models[e.modelIdx]);
    var cp := Loaded(store, infoPath, e.modelIdx);
    var cams := SortedListing(fs, modelPath).value;
    ScanCamsFoundIsFirst(fs, modelPath, cams, 0, cp);
  }

  /**
    A poll whose root can be listed ends as the scan of the first model with
    something new ends.
   */
  lemma CycleStopsAtFirst(fs: FileSystem, root: string, infoPath: string, infoDirReady: bool, store: InfoStore, j: nat)
    requires [root] in fs.listings
    requires var models := SortedListing(fs, [root]).value;
      && Scanned(models, j)
      && ModelsNothingNew(fs, root, infoPath, models, 0, j, store)
      && !ModelNothingNew(fs, root, models[j], Loaded(store, infoPath, j))
    ensures var models := SortedListing(fs, [root]).value;
      var s := ModelStep(fs, root, infoPath, j, models[j], store);
      s.Stop? && Cycle(fs, root, infoPath, infoDirReady, store).0 == s.result
  {
    var ready := store.(dirExists := store.dirExists || infoDirReady);
    LoadedIgnoresDir(store, infoPath, ready.dirExists);
    var models := SortedListing(fs, [root]).value;
    assert ModelsNothingNew(fs, root, infoPath, models, 0, j, ready);
    ScanModelsStopsAtFirst(fs, root, infoPath, models, 0, ready, j);
    ModelStepCongruent(fs, root, infoPath, j, models[j], ready, store);
  }

  /**
    A poll misses no new file: when model `j` is the first scanned model with
    something new and none of its cameras raises, its walk finds a file, and the
    poll emits exactly when that file's judgement decodes and its row builds,
    naming that model, camera and file, with the row built from the judgement.
   */
  lemma CycleEmitsUnlessRaised(fs: FileSystem, root: string, infoPath: string, infoDirReady: bool, store: InfoStore,
                               j: nat)
    requires [root] in fs.listings
    requires var models := SortedListing(fs, [root]).value;
      && Scanned(models, j)
      && ModelsNothingNew(fs, root, infoPath, models, 0, j, store)
      && !ModelNothingNew(fs, root, models[j], Loaded(store, infoPath, j))
      && ModelPath(root, models[j]) in fs.listings
      && var cams := SortedListing(fs, ModelPath(root, models[j])).value;
         forall c :: 0 <= c < |cams| ==> !CamRaises(fs, ModelPath(root, models[j]), cams, c, Loaded(store, infoPath, j))
    ensures var models := SortedListing(fs, [root]).value;
      var w := WalkModel(fs, root, models[j], Loaded(store, infoPath, j));
      && w.Some? && w.value.status.Found?
      && var st := w.value.status;
         var judgement := ReadJudgement(fs, FoundFilePath(root, models[j], st));
         var e := Cycle(fs, root, infoPath, infoDirReady, store).0;
         && (e.Emitted? <==> judgement.Some? && BuildRow(judgement.value, st.camDir, models[j]).Built?)
         && (e.Emitted? ==>
               && e.modelIdx == j && e.camIdx == st.camIdx && e.file == st.file
               && EmitsJudgement(fs, root, models[j], st, e.row))
  {
    var models := SortedListing(fs, [root]).value;
    var modelPath := ModelPath(root, models[j]);
    var cp := Loaded(store, infoPath, j);
    var cams := SortedListing(fs, modelPath).value;
    ScanCamsExhaustedIff(fs, modelPath, cams, 0, cp);
    ScanCamsFailsOnRaise(fs, modelPath, cams, 0, cp);
    CycleStopsAtFirst(fs, root, infoPath, infoDirReady, store, j);
    ModelStepEmitsFind(fs, root, infoPath, j, models[j], store);
  }

  /**
    A cycle that emits no row (nothing new, or an exception) is repeated exactly
    by the next cycle over the same tree: nothing new stays nothing new, and a
    file whose judgement cannot be read is tried again.
   */
  lemma RerunRepeats(fs: FileSystem, root: string, infoPath: string, infoDirReady: bool, store: InfoStore)
    requires !Cycle(fs, root, infoPath, infoDirReady, store).0.Emitted?
    ensures var after := Cycle(fs, root, infoPath, infoDirReady, store).1;
      Cycle(fs, root, infoPath, infoDirReady, after).0 == Cycle(fs, root, infoPath, infoDirReady, store).0
  {
    var ready := store.(dirExists := store.dirExists || infoDirReady);
    var after := Cycle(fs, root, infoPath, infoDirReady, store).1;
    var ready2 := after.(dirExists := after.dirExists || infoDirReady);
    match SortedListing(fs, [root])
    case None =>
    case Some(models) =>
      NoEmissionKeepsCheckpoints(fs, root, infoPath, models, 0, ready);
      assert ready2 == after;
      ScanModelsCongruent(fs, root, infoPath, models, 0, ready, ready2);
  }

  /** What `EmissionAdvancesCheckpoint` states of one emission, relative to the checkpoint loaded for it. */
  predicate Advances(before: Checkpoint, e: CycleResult, store: InfoStore, after: InfoStore, path: string)
    requires e.Emitted?
  {
    && before.Valid() && e.saved.Valid() && e.camIdx < CamSlots
    && FolderDatesGrow(before, e.saved)
    && e.saved.fileDates == before.fileDates[e.camIdx := e.file]
    && Less(before.fileDates[e.camIdx], e.file)
    && (store.dirExists ==> path in after.files && after.files[path] == Text(Render(e.saved)))
  }

  /** The model loop from position `i`, if it emits, advances the emitting model's checkpoint. */
  predicate EmissionAdvancesFrom(fs: FileSystem, root: string, infoPath: string, models: seq<string>, i: nat,
                                 store: InfoStore)
    requires i <= |models|
  {
    var r := ScanModels(fs, root, infoPath, models, i, store);
    r.0.Emitted? ==> var path := InfoFileName(infoPath, r.0.modelIdx);
      Advances(Load(store, path, Empty()).0, r.0, store, r.1, path)
  }

  /**
    An emitted row advances the emitting model's checkpoint: relative to what was
    loaded for it, no folder date moves back, and only the emitting camera's file
    date changes, to the emitted file, which is above the old one; that checkpoint
    is what is saved.
   */
  lemma {:induction false} EmissionAdvancesCheckpoint(fs: FileSystem, root: string, infoPath: string,
                                                     models: seq<string>, i: nat, store: InfoStore)
    requires i <= |models|
    ensures EmissionAdvancesFrom(fs, root, infoPath, models, i, store)
    decreases |models| - i
  {
    if i < |models| && i < ModelLimit {
      EmissionAdvancesCheckpoint(fs, root, infoPath, models, i + 1, StoreAfter(fs, root, infoPath, models, i, store));
      AdvancesStep(fs, root, infoPath, models, i, store);
    } else {
      ScanModelsAtEnd(fs, root, infoPath, models, i, store);
    }
  }

  /** The step of `EmissionAdvancesCheckpoint` at position `i`. */
  lemma AdvancesStep(fs: FileSystem, root: string, infoPath: string, models: seq<string>, i: nat, store: InfoStore)
    requires i < |models| && i < ModelLimit
    requires EmissionAdvancesFrom(fs, root, infoPath, models, i + 1, StoreAfter(fs, root, infoPath, models, i, store))
    ensures EmissionAdvancesFrom(fs, root, infoPath, models, i, store)
  {
    if Reserved(models[i]) {
      AdvancesAfterSkip(fs, root, infoPath, models, i, store);
    } else if ModelStep(fs, root, infoPath, i, models[i], store).Continue? {
      AdvancesAfterContinue(fs, root, infoPath, models, i, store);
    } else {
      AdvancesAtStop(fs, root, infoPath, models, i, store);
    }
  }

  /** The step of `EmissionAdvancesCheckpoint` over a "default" or "log" entry. */
  lemma AdvancesAfterSkip(fs: FileSystem, root: string, infoPath: string,
                          models: seq<string>, i: nat, store: InfoStore)
    requires i < |models| && i < ModelLimit && Reserved(models[i])
    requires EmissionAdvancesFrom(fs, root, infoPath, models, i + 1, store)
    ensures EmissionAdvancesFrom(fs, root, infoPath, models, i, store)
  {
    assert ScanModels(fs, root, infoPath, models, i, store) == ScanModels(fs, root, infoPath, models, i + 1, store);
  }

  /** The step of `EmissionAdvancesCheckpoint` at a model whose scan stops the cycle. */
  lemma AdvancesAtStop(fs: FileSystem, root: string, infoPath: string,
                       models: seq<string>, i: nat, store: InfoStore)
    requires i < |models| && i < ModelLimit && !Reserved(models[i])
    requires ModelStep(fs, root, infoPath, i, models[i], store).Stop?
    ensures EmissionAdvancesFrom(fs, root, infoPath, models, i, store)
  {
    var a := ModelStep(fs, root, infoPath, i, models[i], store);
    assert ScanModels(fs, root, infoPath, models, i, store) == (a.result, a.store);
    if a.result.Emitted? {
      EmissionAtModel(fs, root, infoPath, models, i, store);
    }
  }

  /** The step of `EmissionAdvancesCheckpoint` at a model that emits nothing: a later emission's advance carries back. */
  lemma AdvancesAfterContinue(fs: FileSystem, root: string, infoPath: string,
                              models: seq<string>, i: nat, store: InfoStore)
    requires i < |models| && i < ModelLimit && !Reserved(models[i])
    requires ModelStep(fs, root, infoPath, i, models[i], store).Continue?
    requires EmissionAdvancesFrom(fs, root, infoPath, models, i + 1, ModelStep(fs, root, infoPath, i, models[i], store).store)
    ensures EmissionAdvancesFrom(fs, root, infoPath, models, i, store)
  {
    var path := InfoFileName(infoPath, i);
    ModelStepStore(fs, root, infoPath, i, models[i], store);
    var next := ModelStep(fs, root, infoPath, i, models[i], store).store;
    assert ScanModels(fs, root, infoPath, models, i, store) == ScanModels(fs, root, infoPath, models, i + 1, next);
    var r := ScanModels(fs, root, infoPath, models, i, store);
    if r.0.Emitted? {
      var j := r.0.modelIdx;
      InfoFileNamesDistinct(infoPath, i, j);
      AdvancesCarriesOver(store, path, InfoFileName(infoPath, j), r.0, r.1);
    }
  }

  /** Loading another model's checkpoint first does not change what an emission advances from. */
  lemma AdvancesCarriesOver(store: InfoStore, path: string, other: string, e: CycleResult, after: InfoStore)
    requires other != path && e.Emitted?
    requires var loaded := Load(store, path, Empty()).1;
      Advances(Load(loaded, other, Empty()).0, e, loaded, after, other)
    ensures Advances(Load(store, other, Empty()).0, e, store, after, other)
  {
    LoadElsewhere(store, path, other);
  }

  /**
    The next poll after an emission for model slot `m` and camera slot `c` (over
    the same tree or one with more files) emits for that same slot pair only a
    file that sorts after the first one. The saved names must be writable as lines.
   */
  lemma NextEmissionIsLater(fs: FileSystem, fs2: FileSystem, root: string, infoPath: string,
                            infoDirReady: bool, store: InfoStore)
    requires store.dirExists || infoDirReady
    requires var e := Cycle(fs, root, infoPath, infoDirReady, store).0;
      e.Emitted? && AllNoNewline(e.saved.folderDates) && AllNoNewline(e.saved.fileDates)
    requires var first := Cycle(fs, root, infoPath, infoDirReady, store);
      var next := Cycle(fs2, root, infoPath, infoDirReady, first.1).0;
      next.Emitted? && next.modelIdx == first.0.modelIdx && next.camIdx == first.0.camIdx
    ensures var first := Cycle(fs, root, infoPath, infoDirReady, store);
      Less(first.0.file, Cycle(fs2, root, infoPath, infoDirReady, first.1).0.file)
  {
    var ready := store.(dirExists := true);
    var models := SortedListing(fs, [root]).value;
    var first := Cycle(fs, root, infoPath, infoDirReady, store);
    var e := first.0;
    var after := first.1;
    var path := InfoFileName(infoPath, e.modelIdx);
    EmissionAdvancesCheckpoint(fs, root, infoPath, models, 0, ready);
    assert after.files[path] == Text(Render(e.saved));
    RoundTrip(e.saved, Empty());
    assert Load(after, path, Empty()).0 == e.saved;
    var models2 := SortedListing(fs2, [root]).value;
    assert after.(dirExists := after.dirExists || infoDirReady) == after;
    EmissionAdvancesCheckpoint(fs2, root, infoPath, models2, 0, after);
  }

  /** A save to one checkpoint file does not change what another one loads as. */
  lemma SaveElsewhere(store: InfoStore, path: string, cp: Checkpoint, other: string)
    requires other != path
    ensures Load(Save(store, path, cp), other, Empty()).0 == Load(store, other, Empty()).0
  {
  }

  /** An emitting cycle leaves every checkpoint but the emitting model's loading as before. */
  lemma {:induction false} EmissionKeepsOtherCheckpoints(fs: FileSystem, root: string, infoPath: string,
                                                        models: seq<string>, i: nat, s: InfoStore)
    requires i <= |models|
    requires ScanModels(fs, root, infoPath, models, i, s).0.Emitted?
    ensures var r := ScanModels(fs, root, infoPath, models, i, s);
      forall p :: p != InfoFileName(infoPath, r.0.modelIdx) ==> Load(r.1, p, Empty()).0 == Load(s, p, Empty()).0
    decreases |models| - i
  {
    var r := ScanModels(fs, root, infoPath, models, i, s);
    if Reserved(models[i]) {
      EmissionKeepsOtherCheckpoints(fs, root, infoPath, models, i + 1, s);
    } else {
      var path := InfoFileName(infoPath, i);
      var loaded := Load(s, path, Empty()).1;
      LoadKeepsCheckpoints(s, path);
      var step := ModelStep(fs, root, infoPath, i, models[i], s);
      ModelStepStore(fs, root, infoPath, i, models[i], s);
      if step.Continue? {
        EmissionKeepsOtherCheckpoints(fs, root, infoPath, models, i + 1, loaded);
      } else {
        forall p | p != path
          ensures Load(r.1, p, Empty()).0 == Load(s, p, Empty()).0
        {
          SaveElsewhere(loaded, path, step.result.saved, p);
        }
      }
    }
  }

  /**
    How one checkpoint moves in a poll, for the model at index `m`: no folder
    date moves back; the file date of the slot the poll emitted for becomes the
    emitted file, which is above the old one; every other file date stays.
   */
  predicate CheckpointAdvance(before: Checkpoint, after: Checkpoint, e: CycleResult, m: nat)
    requires before.Valid() && after.Valid()
  {
    && FolderDatesGrow(before, after)
    && forall c :: 0 <= c < CamSlots ==>
         if e.Emitted? && e.modelIdx == m && e.camIdx == c then after.fileDates[c] == e.file && Less(before.fileDates[c], e.file)
         else after.fileDates[c] == before.fileDates[c]
  }

  /**
    Over one poll, every model's stored checkpoint advances: only the emitting
    slot's file date changes, strictly upwards, and no folder date moves back.
    The checkpoint directory must exist or be creatable, and the saved names must
    be writable as lines.
   */
  lemma CycleAdvancesCheckpoints(fs: FileSystem, root: string, infoPath: string, infoDirReady: bool, store: InfoStore)
    requires store.dirExists || infoDirReady
    requires var e := Cycle(fs, root, infoPath, infoDirReady, store).0;
      e.Emitted? ==> AllNoNewline(e.saved.folderDates) && AllNoNewline(e.saved.fileDates)
    ensures var r := Cycle(fs, root, infoPath, infoDirReady, store);
      forall m: nat :: m < ModelLimit ==> CheckpointAdvance(Loaded(store, infoPath, m), Loaded(r.1, infoPath, m), r.0, m)
  {
    var ready := store.(dirExists := true);
    LoadedIgnoresDir(store, infoPath, true);
    if [root] in fs.listings {
      var models := SortedListing(fs, [root]).value;
      assert Cycle(fs, root, infoPath, infoDirReady, store) == ScanModels(fs, root, infoPath, models, 0, ready);
      if ScanModels(fs, root, infoPath, models, 0, ready).0.Emitted? {
        EmittingScanAdvances(fs, root, infoPath, models, ready);
      } else {
        QuietScanKeeps(fs, root, infoPath, models, ready);
      }
    }
  }

  /** `CycleAdvancesCheckpoints` for a model loop that emits, over a store whose directory exists. */
  lemma EmittingScanAdvances(fs: FileSystem, root: string, infoPath: string, models: seq<string>, ready: InfoStore)
    requires ready.dirExists
    requires var e := ScanModels(fs, root, infoPath, models, 0, ready).0;
      e.Emitted? && AllNoNewline(e.saved.folderDates) && AllNoNewline(e.saved.fileDates)
    ensures var r := ScanModels(fs, root, infoPath, models, 0, ready);
      forall m: nat :: m < ModelLimit ==> CheckpointAdvance(Loaded(ready, infoPath, m), Loaded(r.1, infoPath, m), r.0, m)
  {
    var r := ScanModels(fs, root, infoPath, models, 0, ready);
    var k := r.0.modelIdx;
    EmissionKeepsOtherCheckpoints(fs, root, infoPath, models, 0, ready);
    EmissionAdvancesCheckpoint(fs, root, infoPath, models, 0, ready);
    RoundTrip(r.0.saved, Empty());
    assert Loaded(r.1, infoPath, k) == r.0.saved;
    forall m: nat | m < ModelLimit
      ensures CheckpointAdvance(Loaded(ready, infoPath, m), Loaded(r.1, infoPath, m), r.0, m)
    {
      if m != k {
        InfoFileNamesDistinct(infoPath, m, k);
        assert Loaded(r.1, infoPath, m) == Loaded(ready, infoPath, m);
      }
    }
  }

  /** `CycleAdvancesCheckpoints` for a model loop that emits nothing. */
  lemma QuietScanKeeps(fs: FileSystem, root: string, infoPath: string, models: seq<string>, ready: InfoStore)
    requires !ScanModels(fs, root, infoPath, models, 0, ready).0.Emitted?
    ensures var r := ScanModels(fs, root, infoPath, models, 0, ready);
      forall m: nat :: m < ModelLimit ==> CheckpointAdvance(Loaded(ready, infoPath, m), Loaded(r.1, infoPath, m), r.0, m)
  {
    NoEmissionKeepsCheckpoints(fs, root, infoPath, models, 0, ready);
  }

  // ---------------------------------------------------------------------------
  // A sequence of polls: the collector's state carries over from one poll to
  // the next, and the tree may gain files in between.
  // ---------------------------------------------------------------------------

  /** The store before poll `k`, when poll j runs over `trees[j]`. */
  function StoreBefore(trees: seq<FileSystem>, root: string, infoPath: string, infoDirReady: bool,
                       store: InfoStore, k: nat): (s: InfoStore)
    requires k <= |trees|
    ensures s.dirExists == (store.dirExists || (k > 0 && infoDirReady))
  {
    if k == 0 then store
    else Cycle(trees[k - 1], root, infoPath, infoDirReady, StoreBefore(trees, root, infoPath, infoDirReady, store, k - 1)).1
  }

  /** What poll `k` emits. */
  function PollResult(trees: seq<FileSystem>, root: string, infoPath: string, infoDirReady: bool,
                      store: InfoStore, k: nat): CycleResult
    requires k < |trees|
  {
    Cycle(trees[k], root, infoPath, infoDirReady, StoreBefore(trees, root, infoPath, infoDirReady, store, k)).0
  }

  /** Every checkpoint any of the polls saves holds names writable as lines. */
  predicate SavesWritable(trees: seq<FileSystem>, root: string, infoPath: string, infoDirReady: bool, store: InfoStore)
  {
    forall k :: 0 <= k < |trees| ==>
      var e := PollResult(trees, root, infoPath, infoDirReady, store, k);
      e.Emitted? ==> AllNoNewline(e.saved.folderDates) && AllNoNewline(e.saved.fileDates)
  }

  /** Poll `k` of a run moves no slot of any stored checkpoint back. */
  lemma PollKeepsSlotOrder(trees: seq<FileSystem>, root: string, infoPath: string, infoDirReady: bool,
                           store: InfoStore, k: nat, m: nat, c: nat)
    requires store.dirExists || infoDirReady
    requires SavesWritable(trees, root, infoPath, infoDirReady, store)
    requires k < |trees| && m < ModelLimit && c < CamSlots
    ensures SlotAtMost(Loaded(StoreBefore(trees, root, infoPath, infoDirReady, store, k), infoPath, m),
                       Loaded(StoreBefore(trees, root, infoPath, infoDirReady, store, k + 1), infoPath, m), c)
  {
    var prev := StoreBefore(trees, root, infoPath, infoDirReady, store, k);
    var r := Cycle(trees[k], root, infoPath, infoDirReady, prev);
    assert StoreBefore(trees, root, infoPath, infoDirReady, store, k + 1) == r.1;
    assert PollResult(trees, root, infoPath, infoDirReady, store, k) == r.0;
    CycleAdvancesCheckpoints(trees[k], root, infoPath, infoDirReady, prev);
    assert CheckpointAdvance(Loaded(prev, infoPath, m), Loaded(r.1, infoPath, m), r.0, m);
  }

  /** A poll of a run that emits for a slot stores the emitted file there, above the file stored before. */
  lemma PollStoresEmittedFile(trees: seq<FileSystem>, root: string, infoPath: string, infoDirReady: bool,
                              store: InfoStore, k: nat)
    requires store.dirExists || infoDirReady
    requires SavesWritable(trees, root, infoPath, infoDirReady, store)
    requires k < |trees| && PollResult(trees, root, infoPath, infoDirReady, store, k).Emitted?
    ensures var e := PollResult(trees, root, infoPath, infoDirReady, store, k);
      && e.modelIdx < ModelLimit && e.camIdx < CamSlots
      && var before := Loaded(StoreBefore(trees, root, infoPath, infoDirReady, store, k), infoPath, e.modelIdx);
         var after := Loaded(StoreBefore(trees, root, infoPath, infoDirReady, store, k + 1), infoPath, e.modelIdx);
         after.fileDates[e.camIdx] == e.file && Less(before.fileDates[e.camIdx], e.file)
  {
    var prev := StoreBefore(trees, root, infoPath, infoDirReady, store, k);
    var r := Cycle(trees[k], root, infoPath, infoDirReady, prev);
    assert StoreBefore(trees, root, infoPath, infoDirReady, store, k + 1) == r.1;
    assert PollResult(trees, root, infoPath, infoDirReady, store, k) == r.0;
    EmittedSlotBelowLimits(trees, root, infoPath, infoDirReady, store, k);
    CycleAdvancesCheckpoints(trees[k], root, infoPath, infoDirReady, prev);
    assert CheckpointAdvance(Loaded(prev, infoPath, r.0.modelIdx), Loaded(r.1, infoPath, r.0.modelIdx), r.0, r.0.modelIdx);
  }

  /** Slot `c` of checkpoint `b` is at least slot `c` of checkpoint `a`, in both its folder date and its file date. */
  predicate SlotAtMost(a: Checkpoint, b: Checkpoint, c: nat)
    requires a.Valid() && b.Valid() && c < CamSlots
  {
    LessEq(a.folderDates[c], b.folderDates[c]) && LessEq(a.fileDates[c], b.fileDates[c])
  }

  lemma SlotAtMostTransitive(a: Checkpoint, b: Checkpoint, d: Checkpoint, c: nat)
    requires a.Valid() && b.Valid() && d.Valid() && c < CamSlots
    requires SlotAtMost(a, b, c) && SlotAtMost(b, d, c)
    ensures SlotAtMost(a, d, c)
  {
    LessEqTransitive(a.folderDates[c], b.folderDates[c], d.folderDates[c]);
    LessEqTransitive(a.fileDates[c], b.fileDates[c], d.fileDates[c]);
  }

  /** Slot order carries along a chain of checkpoints: if each one is at least the one before, the last is at least the first. */
  lemma {:induction false} SlotChain(cps: seq<Checkpoint>, k1: nat, k2: nat, c: nat)
    requires c < CamSlots && k1 <= k2 < |cps|
    requires forall k :: 0 <= k < |cps| ==> cps[k].Valid()
    requires forall k :: 0 <= k < |cps| - 1 ==> SlotAtMost(cps[k], cps[k + 1], c)
    ensures SlotAtMost(cps[k1], cps[k2], c)
    decreases k2 - k1
  {
    if k1 < k2 {
      SlotChain(cps, k1 + 1, k2, c);
      SlotAtMostTransitive(cps[k1], cps[k1 + 1], cps[k2], c);
    }
  }

  /** What model slot `m`'s checkpoint loads as before each poll of a run, and after the last. */
  function RunCheckpoints(trees: seq<FileSystem>, root: string, infoPath: string, infoDirReady: bool,
                          store: InfoStore, m: nat): (cps: seq<Checkpoint>)
    ensures |cps| == |trees| + 1
    ensures forall k :: 0 <= k < |cps| ==> cps[k].Valid()
  {
    seq(|trees| + 1, k requires 0 <= k <= |trees| => Loaded(StoreBefore(trees, root, infoPath, infoDirReady, store, k), infoPath, m))
  }

  /** Each poll of a run moves no slot of model slot `m`'s checkpoint back. */
  lemma RunSlotsInOrder(trees: seq<FileSystem>, root: string, infoPath: string, infoDirReady: bool,
                        store: InfoStore, m: nat, c: nat)
    requires store.dirExists || infoDirReady
    requires SavesWritable(trees, root, infoPath, infoDirReady, store)
    requires m < ModelLimit && c < CamSlots
    ensures var cps := RunCheckpoints(trees, root, infoPath, infoDirReady, store, m);
      forall k :: 0 <= k < |cps| - 1 ==> SlotAtMost(cps[k], cps[k + 1], c)
  {
    var cps := RunCheckpoints(trees, root, infoPath, infoDirReady, store, m);
    forall k | 0 <= k < |cps| - 1
      ensures SlotAtMost(cps[k], cps[k + 1], c)
    {
      PollKeepsSlotOrder(trees, root, infoPath, infoDirReady, store, k, m, c);
    }
  }

  /** Across any run of polls, no stored folder date or file date ever moves back. */
  lemma CheckpointsNeverMoveBack(trees: seq<FileSystem>, root: string, infoPath: string, infoDirReady: bool,
                                 store: InfoStore, k1: nat, k2: nat, m: nat, c: nat)
    requires store.dirExists || infoDirReady
    requires SavesWritable(trees, root, infoPath, infoDirReady, store)
    requires k1 <= k2 <= |trees| && m < ModelLimit && c < CamSlots
    ensures SlotAtMost(Loaded(StoreBefore(trees, root, infoPath, infoDirReady, store, k1), infoPath, m),
                       Loaded(StoreBefore(trees, root, infoPath, infoDirReady, store, k2), infoPath, m), c)
  {
    var cps := RunCheckpoints(trees, root, infoPath, infoDirReady, store, m);
    RunSlotsInOrder(trees, root, infoPath, infoDirReady, store, m, c);
    SlotChain(cps, k1, k2, c);
    assert cps[k1] == Loaded(StoreBefore(trees, root, infoPath, infoDirReady, store, k1), infoPath, m);
    assert cps[k2] == Loaded(StoreBefore(trees, root, infoPath, infoDirReady, store, k2), infoPath, m);
  }

  /**
    Save to save, a camera's emitted file names strictly increase: when polls
    `k1 < k2` both emit for model slot `m` and camera slot `c`, whatever the polls
    in between emitted (for other cameras, other models, or nothing) and however
    the tree grew, the later file sorts after the earlier one.
   */
  lemma SaveToSaveIncreases(trees: seq<FileSystem>, root: string, infoPath: string, infoDirReady: bool,
                            store: InfoStore, k1: nat, k2: nat)
    requires store.dirExists || infoDirReady
    requires SavesWritable(trees, root, infoPath, infoDirReady, store)
    requires k1 < k2 < |trees|
    requires var e1 := PollResult(trees, root, infoPath, infoDirReady, store, k1);
      var e2 := PollResult(trees, root, infoPath, infoDirReady, store, k2);
      e1.Emitted? && e2.Emitted? && e1.modelIdx == e2.modelIdx && e1.camIdx == e2.camIdx
    ensures Less(PollResult(trees, root, infoPath, infoDirReady, store, k1).file,
                 PollResult(trees, root, infoPath, infoDirReady, store, k2).file)
  {
    var e1 := PollResult(trees, root, infoPath, infoDirReady, store, k1);
    PollStoresEmittedFile(trees, root, infoPath, infoDirReady, store, k1);
    StoredBelowLaterEmission(trees, root, infoPath, infoDirReady, store, k1 + 1, k2, e1.modelIdx, e1.camIdx, e1.file);
  }

  /** A file stored in a slot before poll `k` sorts before any file a poll from `k` on emits for that slot. */
  lemma StoredBelowLaterEmission(trees: seq<FileSystem>, root: string, infoPath: string, infoDirReady: bool,
                                 store: InfoStore, k: nat, k2: nat, m: nat, c: nat, stored: string)
    requires store.dirExists || infoDirReady
    requires SavesWritable(trees, root, infoPath, infoDirReady, store)
    requires k <= k2 < |trees| && m < ModelLimit && c < CamSlots
    requires Loaded(StoreBefore(trees, root, infoPath, infoDirReady, store, k), infoPath, m).fileDates[c] == stored
    requires var e := PollResult(trees, root, infoPath, infoDirReady, store, k2);
      e.Emitted? && e.modelIdx == m && e.camIdx == c
    ensures Less(stored, PollResult(trees, root, infoPath, infoDirReady, store, k2).file)
  {
    PollStoresEmittedFile(trees, root, infoPath, infoDirReady, store, k2);
    CheckpointsNeverMoveBack(trees, root, infoPath, infoDirReady, store, k, k2, m, c);
    SavedBelowNext(Loaded(StoreBefore(trees, root, infoPath, infoDirReady, store, k), infoPath, m),
                   Loaded(StoreBefore(trees, root, infoPath, infoDirReady, store, k2), infoPath, m),
                   c, stored, PollResult(trees, root, infoPath, infoDirReady, store, k2).file);
  }

  /** A file saved in slot `c` of `a` sorts before any file above what slot `c` holds in a later `b`. */
  lemma SavedBelowNext(a: Checkpoint, b: Checkpoint, c: nat, saved: string, next: string)
    requires a.Valid() && b.Valid() && c < CamSlots
    requires a.fileDates[c] == saved && SlotAtMost(a, b, c) && Less(b.fileDates[c], next)
    ensures Less(saved, next)
  {
    if saved != b.fileDates[c] {
      LessTransitive(saved, b.fileDates[c], next);
    }
  }

  /** A poll of a run emits only for a model slot and a camera slot below ten. */
  lemma EmittedSlotBelowLimits(trees: seq<FileSystem>, root: string, infoPath: string, infoDirReady: bool,
                               store: InfoStore, k: nat)
    requires store.dirExists || infoDirReady
    requires SavesWritable(trees, root, infoPath, infoDirReady, store)
    requires k < |trees| && PollResult(trees, root, infoPath, infoDirReady, store, k).Emitted?
    ensures var e := PollResult(trees, root, infoPath, infoDirReady, store, k);
      e.modelIdx < ModelLimit && e.camIdx < CamSlots
  {
    var prev := StoreBefore(trees, root, infoPath, infoDirReady, store, k);
    var r := Cycle(trees[k], root, infoPath, infoDirReady, prev);
    var models := SortedListing(trees[k], [root]).value;
    EmissionAdvancesCheckpoint(trees[k], root, infoPath, models, 0, prev.(dirExists := true));
  }

  /** Loading one checkpoint file does not change what another one loads as. */
  lemma LoadElsewhere(store: InfoStore, path: string, other: string)
    requires other != path
    ensures Load(Load(store, path, Empty()).1, other, Empty()).0 == Load(store, other, Empty()).0
  {
  }

  /** The emission at model `i` itself: the walk's checkpoint is the one saved. */
  lemma EmissionAtModel(fs: FileSystem, root: string, infoPath: string,
                        models: seq<string>, i: nat, store: InfoStore)
    requires i < |models| && !Reserved(models[i])
    requires ScanModels(fs, root, infoPath, models, i, store).0.Emitted?
    requires ScanModels(fs, root, infoPath, models, i, store).0.modelIdx == i
    ensures var r := ScanModels(fs, root, infoPath, models, i, store);
      var path := InfoFileName(infoPath, i);
      Advances(Load(store, path, Empty()).0, r.0, store, r.1, path)
  {
    var path := InfoFileName(infoPath, i);
    var (cp, loaded) := Load(store, path, Empty());
    var modelPath := ModelPath(root, models[i]);
    var cams := SortedListing(fs, modelPath).value;
    var w := ScanCams(fs, modelPath, cams, 0, cp);
    assert w.status.Found?;
  }

  // ---------------------------------------------------------------------------
  // A worked example.
  // ---------------------------------------------------------------------------

  /** The judge folder of the example tree. */
  function ExampleJudgePath(): Path
  {
    ["/data", "m1", "cam1", ResultDir, "20240101", JudgeDir]
  }

  /** One model "m1" with one camera "cam1", one date folder and one judgement (overall OK, areas OK and NG). */
  function ExampleTree(): FileSystem
  {
    FileSystem(
      map[["/data"] := ["m1"], ["/data", "m1"] := ["cam1"],
          ["/data", "m1", "cam1", ResultDir] := ["20240101"], ExampleJudgePath() := ["001.json"]],
      map[ExampleJudgePath() + ["001.json"] := Decoded(Judgement(Some("OK"), Some("2024-01-01"),
                                                                 Some([Detect(Some("OK")), Detect(Some("NG"))])))])
  }

  /**
    The first poll over the example tree, with no checkpoint yet: the row is camera
    "cam1", lot "m1", overall "0", areas "01", and the saved checkpoint holds the
    date folder and the file name in camera slot 0.
   */
  lemma FirstPollExample()
    ensures var r := Cycle(ExampleTree(), "/data", "/info", true, InfoStore(false, map[]));
      && r.0.Emitted? && r.0.modelIdx == 0 && r.0.camIdx == 0 && r.0.file == "001.json"
      && r.0.row == Row("cam1", "2024-01-01", "m1", "0", "01")
      && r.0.saved.folderDates[0] == "20240101" && r.0.saved.fileDates[0] == "001.json"
  {
    var fs := ExampleTree();
    var ready := InfoStore(true, map[]);
    assert SortedListing(fs, ["/data"]) == Some(["m1"]);
    assert !Reserved("m1") by { assert "m1"[0] != "log"[0] && "m1"[0] != "default"[0]; }
    var step := ExampleModelStep();
    assert ScanModels(fs, "/data", "/info", ["m1"], 0, ready) == (step.result, step.store);
  }

  /** The scan of the example model, from an existing but empty checkpoint directory. */
  lemma ExampleModelStep() returns (step: Step)
    ensures step == ModelStep(ExampleTree(), "/data", "/info", 0, "m1", InfoStore(true, map[]))
    ensures step.Stop? && step.result.Emitted? && step.result.camIdx == 0 && step.result.file == "001.json"
    ensures step.result.row == Row("cam1", "2024-01-01", "m1", "0", "01")
    ensures step.result.saved.folderDates[0] == "20240101" && step.result.saved.fileDates[0] == "001.json"
  {
    var ready := InfoStore(true, map[]);
    var path := InfoFileName("/info", 0);
    var loaded := Save(ready, path, Empty());
    assert Load(ready, path, Empty()) == (Empty(), loaded);
    var next := ExampleWalk();
    var filePath := JudgePath(ResultPath(ModelPath("/data", "m1"), "cam1"), "20240101") + ["001.json"];
    ExampleEmit(filePath, next, path, loaded);
    step := ModelStep(ExampleTree(), "/data", "/info", 0, "m1", ready);
    assert step == EmitStep(ExampleTree(), filePath, 0, "m1", 0, "cam1", "001.json", next, path, loaded);
  }

  /** Emitting the example file: the row, and the walked checkpoint as the one saved. */
  lemma ExampleEmit(filePath: Path, next: Checkpoint, path: string, loaded: InfoStore)
    requires filePath == JudgePath(ResultPath(ModelPath("/data", "m1"), "cam1"), "20240101") + ["001.json"]
    ensures EmitStep(ExampleTree(), filePath, 0, "m1", 0, "cam1", "001.json", next, path, loaded)
         == Stop(Emitted(0, 0, "001.json", Row("cam1", "2024-01-01", "m1", "0", "01"), next), Save(loaded, path, next))
  {
    assert filePath == ExampleJudgePath() + ["001.json"];
    ExampleRow();
  }

  /** The camera walk of the example model from the all-empty checkpoint finds 001.json in slot 0. */
  lemma ExampleWalk() returns (next: Checkpoint)
    ensures next.Valid() && next.folderDates[0] == "20240101" && next.fileDates[0] == "001.json"
    ensures var modelPath := ModelPath("/data", "m1");
      && SortedListing(ExampleTree(), modelPath) == Some(["cam1"])
      && ScanCams(ExampleTree(), modelPath, ["cam1"], 0, Empty()) == Walk(Found(0, "cam1", "20240101", "001.json"), next)
  {
    var fs := ExampleTree();
    var modelPath := ModelPath("/data", "m1");
    assert SortedListing(fs, modelPath) == Some(["cam1"]);
    var resultPath := ResultPath(modelPath, "cam1");
    assert resultPath == ["/data", "m1", "cam1", ResultDir];
    assert SortedListing(fs, resultPath) == Some(["20240101"]);
    assert JudgePath(resultPath, "20240101") == ExampleJudgePath();
    assert SortedListing(fs, ExampleJudgePath()) == Some(["001.json"]);
    assert Less("", "20240101");
    assert Less("", "001.json");
    assert FirstNewFrom(["001.json"], "", 0) == Some(0);
    assert ScanDates(fs, resultPath, ["20240101"], 0, "", "") == CamScan(NewFile("20240101", "001.json"), "20240101", "001.json");
    var cp := Empty();
    next := Checkpoint(cp.folderDates[0 := "20240101"], cp.fileDates[0 := "001.json"]);
  }

  /** The example judgement becomes the row "cam1", "2024-01-01", "m1", "0", "01". */
  lemma ExampleRow()
    ensures var rec := Judgement(Some("OK"), Some("2024-01-01"), Some([Detect(Some("OK")), Detect(Some("NG"))]));
      && ReadJudgement(ExampleTree(), ExampleJudgePath() + ["001.json"]) == Some(rec)
      && BuildRow(rec, "cam1", "m1") == Built(Row("cam1", "2024-01-01", "m1", "0", "01"))
  {
    var areas := [Detect(Some("OK")), Detect(Some("NG"))];
    assert AreaCodesUpTo(areas, 0) == Some("");
    assert JudgeChar("OK") == '0' && JudgeChar("NG") == '1' by { assert "NG"[0] != "OK"[0]; }
    assert "" + ['0'] == "0" && "0" + ['1'] == "01";
    assert AreaCodesUpTo(areas, 1) == Some("0");
    assert AreaCodesUpTo(areas, 2) == Some("01");
  }
}
