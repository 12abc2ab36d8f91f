/**
  The collector object. It holds the two configured paths, the checkpoint files
  it reads and writes, and the five output columns it inserts into; each poll
  runs `SearchInspectResult`. The methods follow the source's loops and in-place
  updates of the `folder_dates`/`file_dates` lists, and each is proved to do what
  the functions of `Checkpoints`, `Walker` and `Cycles` state.
 */
module Collector {
  import opened Wrappers
  import opened StringOrder
  import opened FileTree
  import opened Checkpoints
  import opened Rows
  import opened Walker
  import opened Cycles

  class HiveCollector {
    const rootPath: string
    const infoPath: string

    /** Whether `infoPath/aiinspect` exists, and the checkpoint files by full path. */
    var infoDirExists: bool
    var infoFiles: map<string, InfoFile>

    /** The output columns `cam`, `date`, `lot`, `overallresult`, `result`, in insertion order. */
    var camColumn: seq<string>
    var dateColumn: seq<string>
    var lotColumn: seq<string>
    var overallColumn: seq<string>
    var resultColumn: seq<string>

    function Store(): InfoStore
      reads this
    {
      InfoStore(infoDirExists, infoFiles)
    }

    function Output(): Columns
      reads this
    {
      Columns(camColumn, dateColumn, lotColumn, overallColumn, resultColumn)
    }

    /** Takes the two paths and whatever checkpoint state persists from earlier runs; the columns start empty. */
    constructor (rootPath: string, infoPath: string, store: InfoStore)
      ensures this.rootPath == rootPath && this.infoPath == infoPath
      ensures Store() == store
      ensures Output() == Columns([], [], [], [], [])
    {
      this.rootPath := rootPath;
      this.infoPath := infoPath;
      infoDirExists := store.dirExists;
      infoFiles := store.files;
      camColumn, dateColumn, lotColumn, overallColumn, resultColumn := [], [], [], [], [];
    }

    /** setInspectDate: one line per folder date, then one per file date, into the model's file. */
    method SetInspectDate(modelidx: nat, folderDates: array<string>, fileDates: array<string>)
      modifies this`infoFiles
      ensures Store() == Save(old(Store()), InfoFileName(infoPath, modelidx), Checkpoint(folderDates[..], fileDates[..]))
    {
      var infoFile := InfoFileName(infoPath, modelidx);
      var text := "";
      for k := 0 to folderDates.Length
        invariant text == Serialize(folderDates[..k])
        invariant infoFiles == old(infoFiles)
      {
        SerializeSnoc(folderDates[..k], folderDates[k]);
        assert folderDates[..k + 1] == folderDates[..k] + [folderDates[k]];
        text := text + folderDates[k] + "\n";
      }
      assert folderDates[..folderDates.Length] == folderDates[..];
      for k := 0 to fileDates.Length
        invariant text == Serialize(folderDates[..]) + Serialize(fileDates[..k])
        invariant infoFiles == old(infoFiles)
      {
        SerializeSnoc(fileDates[..k], fileDates[k]);
        assert fileDates[..k + 1] == fileDates[..k] + [fileDates[k]];
        text := text + fileDates[k] + "\n";
      }
      assert fileDates[..fileDates.Length] == fileDates[..];
      if infoDirExists {
        infoFiles := infoFiles[infoFile := Text(text)];
      }
    }

    /**
      getInspectDate: fill the lists from the model's file line by line; when the
      file is missing, write the lists as they are; on any other failure, log only.
     */
    method GetInspectDate(modelidx: nat, folderDates: array<string>, fileDates: array<string>)
      requires folderDates.Length == CamSlots && fileDates.Length == CamSlots && folderDates != fileDates
      modifies folderDates, fileDates, this`infoFiles
      ensures var r := Load(old(Store()), InfoFileName(infoPath, modelidx),
                            Checkpoint(old(folderDates[..]), old(fileDates[..])));
        Checkpoint(folderDates[..], fileDates[..]) == r.0 && Store() == r.1
    {
      var infoFile := InfoFileName(infoPath, modelidx);
      if infoFile !in infoFiles {
        SetInspectDate(modelidx, folderDates, fileDates);
        return;
      }
      match infoFiles[infoFile]
      case Unreadable =>
        return;
      case Text(t) =>
        FillSlots(t, folderDates, fileDates);
    }

    /**
      The read loop of getInspectDate: line k, stripped of its trailing newlines,
      goes into folder slot k, then file slot k - 10; the 21st line raises and the
      handler keeps what was filled.
     */
    static method FillSlots(t: string, folderDates: array<string>, fileDates: array<string>)
      requires folderDates.Length == CamSlots && fileDates.Length == CamSlots && folderDates != fileDates
      modifies folderDates, fileDates
      ensures Checkpoint(folderDates[..], fileDates[..])
           == Fill(Checkpoint(old(folderDates[..]), old(fileDates[..])), StrippedLines(t))
    {
      var dates := Lines(t);
      ghost var before := Checkpoint(folderDates[..], fileDates[..]);
      ghost var stripped := StrippedLines(t);
      var idx := 0;
      while idx < |dates|
        invariant idx <= |dates| && idx <= 2 * CamSlots
        invariant Checkpoint(folderDates[..], fileDates[..]) == Fill(before, stripped[..idx])
      {
        assert stripped[idx] == RStripNewlines(dates[idx]);
        assert stripped[..idx + 1] == stripped[..idx] + [stripped[idx]];
        if CamSlots > idx {
          FillExtend(before, stripped[..idx], stripped[idx]);
          folderDates[idx] := RStripNewlines(dates[idx]);
        } else if idx - CamSlots < fileDates.Length {
          FillExtend(before, stripped[..idx], stripped[idx]);
          fileDates[idx - CamSlots] := RStripNewlines(dates[idx]);
        } else {
          // `file_dates[idx - _max_camnum]` raises; the handler only logs.
          FillIgnoresExtra(before, stripped);
          break;
        }
        idx := idx + 1;
      }
      assert idx == |dates| ==> stripped[..idx] == stripped;
    }

    /**
      The date-folder loop of camera slot `cam`, with the file loop inside it.
      It stops at the first new file, leaving that file's name in the slot.
     */
    static method ScanDateFolders(fs: FileSystem, resultPath: Path, dateDirs: seq<string>, cam: nat,
                           folderDates: array<string>, fileDates: array<string>) returns (status: DateStatus)
      requires cam < folderDates.Length && cam < fileDates.Length && folderDates != fileDates
      modifies folderDates, fileDates
      ensures var s := ScanDates(fs, resultPath, dateDirs, 0, old(folderDates[cam]), old(fileDates[cam]));
        && status == s.status
        && folderDates[..] == old(folderDates[..])[cam := s.folderDate]
        && fileDates[..] == old(fileDates[..])[cam := s.fileDate]
    {
      var dateidx := 0;
      while dateidx < |dateDirs|
        invariant dateidx <= |dateDirs|
        invariant ScanDates(fs, resultPath, dateDirs, dateidx, folderDates[cam], fileDates[cam])
               == ScanDates(fs, resultPath, dateDirs, 0, old(folderDates[cam]), old(fileDates[cam]))
        invariant folderDates[..] == old(folderDates[..])[cam := folderDates[cam]]
        invariant fileDates[..] == old(fileDates[..])
      {
        var dateDir := dateDirs[dateidx];
        if LessEq(folderDates[cam], dateDir) {
          folderDates[cam] := dateDir;
          var judgePath := JudgePath(resultPath, dateDir);
          var listing := SortedListing(fs, judgePath);
          if listing.None? {
            return ListFailed;
          }
          var found := FindNewFile(listing.value, fileDates[cam]);
          if found.Some? {
            fileDates[cam] := listing.value[found.value];
            return NewFile(dateDir, listing.value[found.value]);
          }
        }
        dateidx := dateidx + 1;
      }
      return NoNewFile;
    }

    /** The file loop: the position of the first file whose name is above `last`, the stored file date. */
    static method FindNewFile(jsonFiles: seq<string>, last: string) returns (found: Option<nat>)
      ensures found == FirstNewFrom(jsonFiles, last, 0)
    {
      var j := 0;
      while j < |jsonFiles|
        invariant j <= |jsonFiles|
        invariant FirstNewFrom(jsonFiles, last, j) == FirstNewFrom(jsonFiles, last, 0)
      {
        if Less(last, jsonFiles[j]) {
          return Some(j);
        }
        j := j + 1;
      }
      return None;
    }

    /**
      The camera loop of one model. It has no bound: a camera past the last slot
      raises at `folder_dates[camidx]` once it has a date folder to compare.
     */
    static method ScanCameras(fs: FileSystem, modelPath: Path, camDirs: seq<string>,
                       folderDates: array<string>, fileDates: array<string>) returns (status: WalkStatus)
      requires folderDates.Length == CamSlots && fileDates.Length == CamSlots && folderDates != fileDates
      modifies folderDates, fileDates
      ensures var w := ScanCams(fs, modelPath, camDirs, 0, Checkpoint(old(folderDates[..]), old(fileDates[..])));
        status == w.status && Checkpoint(folderDates[..], fileDates[..]) == w.cp
    {
      var camidx := 0;
      while camidx < |camDirs|
        invariant camidx <= |camDirs|
        invariant ScanCams(fs, modelPath, camDirs, camidx, Checkpoint(folderDates[..], fileDates[..]))
               == ScanCams(fs, modelPath, camDirs, 0, Checkpoint(old(folderDates[..]), old(fileDates[..])))
      {
        var camDir := camDirs[camidx];
        var resultPath := ResultPath(modelPath, camDir);
        var listing := SortedListing(fs, resultPath);
        if listing.None? {
          return WalkFailed;
        }
        var dateDirs := listing.value;
        if dateDirs != [] {
          if camidx >= folderDates.Length {
            // IndexError at the first comparison with `folder_dates[camidx]`.
            return WalkFailed;
          }
          var s := ScanDateFolders(fs, resultPath, dateDirs, camidx, folderDates, fileDates);
          match s
          case NewFile(dateDir, jsonFile) =>
            return Found(camidx, camDir, dateDir, jsonFile);
          case ListFailed =>
            return WalkFailed;
          case NoNewFile =>
        }
        camidx := camidx + 1;
      }
      return Exhausted;
    }

    /**
      The body of the model loop for the model `modelDir` at index `modelidx`:
      fresh all-empty lists, getInspectDate, the camera loop, and on a new file
      the judgement, the five inserts and setInspectDate. `stop` is whether the
      cycle ends here (a row was emitted or something raised).
     */
    method ScanModel(fs: FileSystem, modelidx: nat, modelDir: string) returns (stop: bool)
      modifies this
      ensures var s := ModelStep(fs, rootPath, infoPath, modelidx, modelDir, old(Store()));
        && stop == s.Stop?
        && Store() == s.store
        && Output() == if s.Stop? then Appended(old(Output()), Inserted(s.result)) else old(Output())
    {
      ghost var out := Output();
      var folderDates := new string[CamSlots](_ => "");
      var fileDates := new string[CamSlots](_ => "");
      assert folderDates[..] == Empty().folderDates && fileDates[..] == Empty().fileDates;
      GetInspectDate(modelidx, folderDates, fileDates);
      AppendedNothing(out, Aborted(None));
      ghost var path := InfoFileName(infoPath, modelidx);
      ghost var loaded := Load(old(Store()), path, Empty());
      assert Checkpoint(folderDates[..], fileDates[..]) == loaded.0 && Store() == loaded.1;
      ghost var step := ModelStep(fs, rootPath, infoPath, modelidx, modelDir, old(Store()));
      ghost var w := WalkModel(fs, rootPath, modelDir, loaded.0);
      var status := WalkCameras(fs, rootPath, modelDir, folderDates, fileDates);
      assert Output() == out;
      match status
      case None =>
        assert step == Stop(Aborted(None), loaded.1);
        return true;
      case Some(WalkFailed) =>
        assert step == Stop(Aborted(None), loaded.1);
        return true;
      case Some(Exhausted) =>
        assert step == Continue(loaded.1);
        return false;
      case Some(Found(camidx, camDir, dateDir, jsonFile)) =>
        var filePath := JudgePath(ResultPath(ModelPath(rootPath, modelDir), camDir), dateDir) + [jsonFile];
        assert step == EmitStep(fs, filePath, modelidx, modelDir, camidx, camDir, jsonFile, w.value.cp, path, loaded.1);
        EmitRow(fs, filePath, modelidx, modelDir, camidx, camDir, jsonFile, folderDates, fileDates);
        return true;
    }

    /** The camera listing of model `modelDir` and the camera loop over it; `None` when the listing raises. */
    static method WalkCameras(fs: FileSystem, rootPath: string, modelDir: string,
                              folderDates: array<string>, fileDates: array<string>) returns (status: Option<WalkStatus>)
      requires folderDates.Length == CamSlots && fileDates.Length == CamSlots && folderDates != fileDates
      modifies folderDates, fileDates
      ensures var w := WalkModel(fs, rootPath, modelDir, Checkpoint(old(folderDates[..]), old(fileDates[..])));
        && (status.None? <==> w.None?)
        && (w.Some? ==> status.value == w.value.status && Checkpoint(folderDates[..], fileDates[..]) == w.value.cp)
    {
      var modelPath := ModelPath(rootPath, modelDir);
      var camListing := SortedListing(fs, modelPath);
      if camListing.None? {
        return None;
      }
      var s := ScanCameras(fs, modelPath, camListing.value, folderDates, fileDates);
      return Some(s);
    }

    /**
      The end of the model loop's body once `jsonFile` is found: read its
      judgement, insert the five values in source order (the camera first, so a
      missing `camDate.DATE` leaves only it inserted), then setInspectDate.
     */
    method EmitRow(fs: FileSystem, filePath: Path, modelidx: nat, modelDir: string, camidx: nat,
                   camDir: string, jsonFile: string, folderDates: array<string>, fileDates: array<string>)
      modifies this
      ensures var s := EmitStep(fs, filePath, modelidx, modelDir, camidx, camDir, jsonFile,
                                Checkpoint(folderDates[..], fileDates[..]), InfoFileName(infoPath, modelidx), old(Store()));
        Store() == s.store && Output() == Appended(old(Output()), Inserted(s.result))
    {
      var judgement := ReadJudgement(fs, filePath);
      if judgement.None? {
        return;
      }
      var rec := judgement.value;
      if rec.overallResult.None? {
        return;
      }
      var overallresult := if rec.overallResult.value == "OK" then "0" else "1";
      var result := ReadAreas(rec.detect);
      if result.None? {
        return;
      }
      camColumn := camColumn + [camDir];
      if rec.date.None? {
        return;
      }
      dateColumn := dateColumn + [rec.date.value];
      lotColumn := lotColumn + [modelDir];
      overallColumn := overallColumn + [overallresult];
      resultColumn := resultColumn + [result.value];
      SetInspectDate(modelidx, folderDates, fileDates);
    }

    /**
      searchInspectResult: one poll. Creates the checkpoint directory, then scans
      models in sorted order until one stops the cycle; the store and the columns
      end as `Cycle` and `Inserted` say, so at most one row is inserted.
     */
    method SearchInspectResult(fs: FileSystem, infoDirReady: bool)
      modifies this
      ensures var (result, store) := Cycle(fs, rootPath, infoPath, infoDirReady, old(Store()));
        Store() == store && Output() == Appended(old(Output()), Inserted(result))
    {
      // os.mkdir(infoPath + "/aiinspect"); an error (it exists, or infoPath does not) is ignored.
      infoDirExists := infoDirExists || infoDirReady;
      var listing := SortedListing(fs, [rootPath]);
      if listing.None? {
        AppendedNothing(Output(), Aborted(None));
        return;
      }
      var modelDirs := listing.value;
      ghost var ready := Store();
      var modelidx := 0;
      while modelidx < |modelDirs|
        invariant modelidx <= |modelDirs|
        invariant ScanModels(fs, rootPath, infoPath, modelDirs, modelidx, Store())
               == ScanModels(fs, rootPath, infoPath, modelDirs, 0, ready)
        invariant Output() == old(Output())
      {
        if modelidx >= ModelLimit {
          AppendedNothing(Output(), Idle);
          return;
        }
        var modelDir := modelDirs[modelidx];
        if modelDir == "default" || modelDir == "log" {
          modelidx := modelidx + 1;
          continue;
        }
        var stop := ScanModel(fs, modelidx, modelDir);
        if stop {
          return;
        }
        modelidx := modelidx + 1;
      }
      AppendedNothing(Output(), Idle);
    }
  }
}
