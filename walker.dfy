/**
  The search below one model directory for the first result file not yet seen:
  cameras in sorted order, under each camera the date folders of `result` in sorted
  order, under each date folder the files of `judge` in sorted order. These
  functions state what the nested loops of the collector compute, including the
  checkpoint slots they overwrite on the way.
 */
module Walker {
  import opened Wrappers
  import opened StringOrder
  import opened FileTree
  import opened Checkpoints

  // ---------------------------------------------------------------------------
  // The file loop inside one date folder.
  // ---------------------------------------------------------------------------

  /** Index of the first file at or after `j` whose name is above `last`: `last < jsonFile`. */
  function FirstNewFrom(files: seq<string>, last: string, j: nat): (r: Option<nat>)
    requires j <= |files|
    ensures r.Some? ==> j <= r.value < |files| && Less(last, files[r.value])
    ensures r.Some? ==> forall k :: j <= k < r.value ==> !Less(last, files[k])
    ensures r.None? ==> forall k :: j <= k < |files| ==> !Less(last, files[k])
    decreases |files| - j
  {
    if j == |files| then None
    else if Less(last, files[j]) then Some(j)
    else FirstNewFrom(files, last, j + 1)
  }

  /**
    `f` is a file of the judge folder `p` whose name is above `last`, and no other
    such file sorts before it.
   */
  predicate FirstNewIn(fs: FileSystem, p: Path, last: string, f: string)
  {
    && p in fs.listings
    && f in fs.listings[p]
    && Less(last, f)
    && forall g :: g in fs.listings[p] && Less(last, g) ==> LessEq(f, g)
  }

  /** The judge folder `p` can be listed and none of its files is above `last`. */
  predicate NothingNewIn(fs: FileSystem, p: Path, last: string)
  {
    && p in fs.listings
    && forall g :: g in fs.listings[p] ==> !Less(last, g)
  }

  lemma FirstNewIsLeast(fs: FileSystem, p: Path, files: seq<string>, last: string, j: nat)
    requires SortedListing(fs, p) == Some(files)
    requires FirstNewFrom(files, last, 0) == Some(j)
    ensures FirstNewIn(fs, p, last, files[j])
  {
    assert multiset(files) == multiset(fs.listings[p]);
    assert files[j] in multiset(files);
    forall g | g in fs.listings[p] && Less(last, g)
      ensures LessEq(files[j], g)
    {
      assert g in multiset(files);
      var k :| 0 <= k < |files| && files[k] == g;
      if k < j {
        assert !Less(last, files[k]);
      }
    }
  }

  lemma NoneNewInListing(fs: FileSystem, p: Path, files: seq<string>, last: string)
    requires SortedListing(fs, p) == Some(files)
    requires FirstNewFrom(files, last, 0) == None
    ensures NothingNewIn(fs, p, last)
  {
    forall g | g in fs.listings[p]
      ensures !Less(last, g)
    {
      assert g in multiset(fs.listings[p]);
      assert g in multiset(files);
    }
  }

  // ---------------------------------------------------------------------------
  // The date-folder loop of one camera.
  // ---------------------------------------------------------------------------

  datatype DateStatus =
    | NoNewFile
    | NewFile(dateDir: string, file: string)
      /** `os.listdir` of a judge folder raised. */
    | ListFailed

  /** How the date loop ends, with the camera's folder-date and file-date slots as it leaves them. */
  datatype CamScan = CamScan(status: DateStatus, folderDate: string, fileDate: string)

  /**
    The date loop from position `k` of the sorted date folders, with the camera's
    slots holding `folderDate` and `fileDate`. A folder is visited when
    `folderDate <= dateDir`, and visiting it stores its name in the slot.
   */
  function ScanDates(fs: FileSystem, resultPath: Path, dates: seq<string>, k: nat,
                     folderDate: string, fileDate: string): (r: CamScan)
    requires k <= |dates|
    ensures LessEq(folderDate, r.folderDate)
    ensures r.status.NoNewFile? || r.folderDate in dates[k..]
    ensures r.status.NewFile? ==> && r.folderDate == r.status.dateDir
                                  && r.fileDate == r.status.file
                                  && FirstNewIn(fs, JudgePath(resultPath, r.status.dateDir), fileDate, r.status.file)
    ensures !r.status.NewFile? ==> r.fileDate == fileDate
    ensures r.status.ListFailed? ==> JudgePath(resultPath, r.folderDate) !in fs.listings
    decreases |dates| - k
  {
    if k == |dates| then CamScan(NoNewFile, folderDate, fileDate)
    else if !LessEq(folderDate, dates[k]) then ScanDates(fs, resultPath, dates, k + 1, folderDate, fileDate)
    else
      var judgePath := JudgePath(resultPath, dates[k]);
      match SortedListing(fs, judgePath)
      case None => CamScan(ListFailed, dates[k], fileDate)
      case Some(files) =>
        match FirstNewFrom(files, fileDate, 0)
        case Some(j) =>
          FirstNewIsLeast(fs, judgePath, files, fileDate, j);
          CamScan(NewFile(dates[k], files[j]), dates[k], files[j])
        case None =>
          var r := ScanDates(fs, resultPath, dates, k + 1, dates[k], fileDate);
          LessEqTransitive(folderDate, dates[k], r.folderDate);
          r
  }

  /** `d` is at or after position `k` and not below the stored folder date: the loop will visit it. */
  predicate Eligible(dates: seq<string>, k: nat, folderDate: string, d: string)
    requires k <= |dates|
  {
    d in dates[k..] && LessEq(folderDate, d)
  }

  /**
    Over sorted date folders the loop visits exactly the folders not below the
    stored folder date. When it ends with `NoNewFile`, every such folder was listed
    and holds nothing above the stored file date, and the slot ends on the
    greatest of them. When it finds a file, every such folder before the file's
    folder held nothing new.
   */
  lemma {:induction false} ScanDatesVisitsEligible(fs: FileSystem, resultPath: Path, dates: seq<string>, k: nat,
                                                   folderDate: string, fileDate: string)
    requires k <= |dates| && Sorted(dates)
    ensures var r := ScanDates(fs, resultPath, dates, k, folderDate, fileDate);
      && (r.status.NoNewFile? ==>
            && (forall d :: Eligible(dates, k, folderDate, d) ==> NothingNewIn(fs, JudgePath(resultPath, d), fileDate))
            && (forall d :: Eligible(dates, k, folderDate, d) ==> LessEq(d, r.folderDate)))
      && (r.status.NewFile? ==>
            forall d :: Eligible(dates, k, folderDate, d) && Less(d, r.status.dateDir) ==>
              NothingNewIn(fs, JudgePath(resultPath, d), fileDate))
    decreases |dates| - k
  {
    var r := ScanDates(fs, resultPath, dates, k, folderDate, fileDate);
    if k < |dates| {
      assert dates[k..] == [dates[k]] + dates[k + 1..];
      if !LessEq(folderDate, dates[k]) {
        ScanDatesVisitsEligible(fs, resultPath, dates, k + 1, folderDate, fileDate);
      } else {
        var judgePath := JudgePath(resultPath, dates[k]);
        match SortedListing(fs, judgePath)
        case None =>
        case Some(files) =>
          match FirstNewFrom(files, fileDate, 0)
          case Some(j) =>
            forall d | Eligible(dates, k, folderDate, d) && Less(d, r.status.dateDir)
              ensures false
            {
              LessIrreflexive(d);
              if d != dates[k] {
                var i :| k + 1 <= i < |dates| && dates[i] == d;
                LessEqIsNotGreater(dates[k], d);
              }
            }
          case None =>
            NoneNewInListing(fs, judgePath, files, fileDate);
            ScanDatesVisitsEligible(fs, resultPath, dates, k + 1, dates[k], fileDate);
            forall d | Eligible(dates, k, folderDate, d) && d != dates[k]
              ensures Eligible(dates, k + 1, dates[k], d)
            {
              var i :| k + 1 <= i < |dates| && dates[i] == d;
            }
      }
    }
  }


  /**
    The converse of `ScanDatesVisitsEligible`: when every folder the loop will
    visit can be listed and holds nothing above the stored file date, the loop
    ends with `NoNewFile`.
   */
  lemma {:induction false} ScanDatesNothingNew(fs: FileSystem, resultPath: Path, dates: seq<string>, k: nat,
                                               folderDate: string, fileDate: string)
    requires k <= |dates|
    requires forall d :: Eligible(dates, k, folderDate, d) ==> NothingNewIn(fs, JudgePath(resultPath, d), fileDate)
    ensures ScanDates(fs, resultPath, dates, k, folderDate, fileDate).status.NoNewFile?
    decreases |dates| - k
  {
    if k < |dates| {
      assert dates[k..] == [dates[k]] + dates[k + 1..];
      if !LessEq(folderDate, dates[k]) {
        ScanDatesNothingNew(fs, resultPath, dates, k + 1, folderDate, fileDate);
      } else {
        var judgePath := JudgePath(resultPath, dates[k]);
        assert Eligible(dates, k, folderDate, dates[k]);
        var files := SortedListing(fs, judgePath).value;
        if FirstNewFrom(files, fileDate, 0).None? {
          forall d | Eligible(dates, k + 1, dates[k], d)
            ensures Eligible(dates, k, folderDate, d)
          {
            LessEqTransitive(folderDate, dates[k], d);
          }
          ScanDatesNothingNew(fs, resultPath, dates, k + 1, dates[k], fileDate);
        }
      }
    }
  }

  // ---------------------------------------------------------------------------
  // The camera loop of one model.
  // ---------------------------------------------------------------------------

  datatype WalkStatus =
    | Exhausted
    | Found(camIdx: nat, camDir: string, dateDir: string, file: string)
      /** A listing raised, or `folder_dates[camidx]` was indexed past the last slot. */
    | WalkFailed

  /** How the camera loop ends, with the checkpoint lists as it leaves them. */
  datatype Walk = Walk(status: WalkStatus, cp: Checkpoint)

  /** Each folder-date slot of `after` is at or above the same slot of `before`. */
  predicate FolderDatesGrow(before: Checkpoint, after: Checkpoint)
    requires before.Valid() && after.Valid()
  {
    forall i :: 0 <= i < CamSlots ==> LessEq(before.folderDates[i], after.folderDates[i])
  }

  lemma FolderDatesGrowTransitive(a: Checkpoint, b: Checkpoint, d: Checkpoint)
    requires a.Valid() && b.Valid() && d.Valid()
    requires FolderDatesGrow(a, b) && FolderDatesGrow(b, d)
    ensures FolderDatesGrow(a, d)
  {
    forall i | 0 <= i < CamSlots ensures LessEq(a.folderDates[i], d.folderDates[i]) {
      LessEqTransitive(a.folderDates[i], b.folderDates[i], d.folderDates[i]);
    }
  }

  /**
    The camera loop from position `c` of the sorted camera folders. The loop has
    no bound of its own: a camera past the tenth raises as soon as its first date
    folder is compared with `folder_dates[camidx]`; one with no date folders
    passes without indexing.
   */
  function ScanCams(fs: FileSystem, modelPath: Path, cams: seq<string>, c: nat, cp: Checkpoint): (r: Walk)
    requires c <= |cams| && cp.Valid()
    ensures r.cp.Valid()
    ensures FolderDatesGrow(cp, r.cp)
    ensures r.status.Found? ==>
      && c <= r.status.camIdx < |cams| && r.status.camIdx < CamSlots
      && r.status.camDir == cams[r.status.camIdx]
      && r.cp.folderDates[r.status.camIdx] == r.status.dateDir
      && r.cp.fileDates == cp.fileDates[r.status.camIdx := r.status.file]
      && FirstNewIn(fs, JudgePath(ResultPath(modelPath, r.status.camDir), r.status.dateDir),
                    cp.fileDates[r.status.camIdx], r.status.file)
    ensures !r.status.Found? ==> r.cp.fileDates == cp.fileDates
    ensures r.status.Exhausted? ==>
      forall i :: c <= i < |cams| && CamSlots <= i ==> SortedListing(fs, ResultPath(modelPath, cams[i])) == Some([])
    decreases |cams| - c
  {
    if c == |cams| then Walk(Exhausted, cp)
    else
      match CamTurn(fs, modelPath, cams, c, cp)
      case EndAt(w) => w
      case NextCam(next) =>
        var r := ScanCams(fs, modelPath, cams, c + 1, next);
        FolderDatesGrowTransitive(cp, next, r.cp);
        r
  }

  /** Camera `c`'s turn in the camera loop: the loop goes on with the checkpoint `next`, or stops with `w`. */
  datatype Turn = NextCam(next: Checkpoint) | EndAt(w: Walk)

  /**
    Camera `c`'s turn in the camera loop. The loop goes on past an empty `result`
    folder, and past date folders with nothing new, after storing the last visited
    folder in the camera's slot; otherwise it stops at this camera.
   */
  function CamTurn(fs: FileSystem, modelPath: Path, cams: seq<string>, c: nat, cp: Checkpoint): (r: Turn)
    requires c < |cams| && cp.Valid()
    ensures r.NextCam? ==>
      && r.next.Valid() && FolderDatesGrow(cp, r.next) && r.next.fileDates == cp.fileDates
      && (CamSlots <= c ==> SortedListing(fs, ResultPath(modelPath, cams[c])) == Some([]))
    ensures r.EndAt? ==>
      && r.w.cp.Valid() && FolderDatesGrow(cp, r.w.cp) && !r.w.status.Exhausted?
      && (r.w.status.Found? ==>
            && r.w.status.camIdx == c && c < CamSlots && r.w.status.camDir == cams[c]
            && r.w.cp.folderDates[c] == r.w.status.dateDir
            && r.w.cp.fileDates == cp.fileDates[c := r.w.status.file]
            && FirstNewIn(fs, JudgePath(ResultPath(modelPath, cams[c]), r.w.status.dateDir),
                          cp.fileDates[c], r.w.status.file))
      && (!r.w.status.Found? ==> r.w.cp.fileDates == cp.fileDates)
  {
    var resultPath := ResultPath(modelPath, cams[c]);
    match SortedListing(fs, resultPath)
    case None => EndAt(Walk(WalkFailed, cp))
    case Some(dates) =>
      if dates == [] then NextCam(cp)
      else if c >= CamSlots then EndAt(Walk(WalkFailed, cp))
      else
        var s := ScanDates(fs, resultPath, dates, 0, cp.folderDates[c], cp.fileDates[c]);
        var next := Checkpoint(cp.folderDates[c := s.folderDate], cp.fileDates[c := s.fileDate]);
        assert FolderDatesGrow(cp, next);
        match s.status
        case NoNewFile => NextCam(next)
        case NewFile(d, f) => EndAt(Walk(Found(c, cams[c], d, f), next))
        case ListFailed => EndAt(Walk(WalkFailed, next))
  }

  /**
    Camera `c`'s turn stops the loop with a failure only when that camera raises,
    and going on past it changes no slot after it.
   */
  lemma CamTurnFailsOnRaise(fs: FileSystem, modelPath: Path, cams: seq<string>, c: nat, cp: Checkpoint)
    requires c < |cams| && cp.Valid()
    ensures var r := CamTurn(fs, modelPath, cams, c, cp);
      && (r.NextCam? ==> AgreeFrom(cp, r.next, c + 1))
      && (r.EndAt? && r.w.status.WalkFailed? ==> CamRaises(fs, modelPath, cams, c, cp))
  {
    var resultPath := ResultPath(modelPath, cams[c]);
    match SortedListing(fs, resultPath)
    case None =>
    case Some(dates) =>
      if dates == [] {
      } else if c >= CamSlots {
        assert dates[0] in multiset(fs.listings[resultPath]);
      } else {
        var s := ScanDates(fs, resultPath, dates, 0, cp.folderDates[c], cp.fileDates[c]);
        if s.status.ListFailed? {
          assert s.folderDate in multiset(fs.listings[resultPath]);
        }
      }
  }

  /**
    The camera loop from position `c` ends with a failure only when some camera
    from position `c` on raises for its slot of `cp`.
   */
  lemma {:induction false} ScanCamsFailsOnRaise(fs: FileSystem, modelPath: Path, cams: seq<string>, c: nat, cp: Checkpoint)
    requires c <= |cams| && cp.Valid()
    ensures ScanCams(fs, modelPath, cams, c, cp).status.WalkFailed? ==>
      exists i :: c <= i < |cams| && CamRaises(fs, modelPath, cams, i, cp)
    decreases |cams| - c
  {
    if c < |cams| {
      CamTurnFailsOnRaise(fs, modelPath, cams, c, cp);
      match CamTurn(fs, modelPath, cams, c, cp)
      case EndAt(w) =>
        assert ScanCams(fs, modelPath, cams, c, cp) == w;
        RaisesAt(fs, modelPath, cams, c, cp, w.status.WalkFailed?);
      case NextCam(next) =>
        ScanCamsFailsOnRaise(fs, modelPath, cams, c + 1, next);
        assert ScanCams(fs, modelPath, cams, c, cp) == ScanCams(fs, modelPath, cams, c + 1, next);
        RaisesCarryBack(fs, modelPath, cams, c, cp, next, ScanCams(fs, modelPath, cams, c + 1, next).status.WalkFailed?);
    }
  }

  /** A camera that raises at position `c` is one from position `c` on that raises. */
  lemma RaisesAt(fs: FileSystem, modelPath: Path, cams: seq<string>, c: nat, cp: Checkpoint, failed: bool)
    requires c < |cams| && cp.Valid()
    requires failed ==> CamRaises(fs, modelPath, cams, c, cp)
    ensures failed ==> exists i :: c <= i < |cams| && CamRaises(fs, modelPath, cams, i, cp)
  {
  }

  /** A later camera that raises from the slots of `next` raises from those of `cp`, which agree with them there. */
  lemma RaisesCarryBack(fs: FileSystem, modelPath: Path, cams: seq<string>, c: nat, cp: Checkpoint, next: Checkpoint,
                        failed: bool)
    requires c < |cams| && cp.Valid() && next.Valid() && AgreeFrom(cp, next, c + 1)
    requires failed ==> exists i :: c + 1 <= i < |cams| && CamRaises(fs, modelPath, cams, i, next)
    ensures failed ==> exists i :: c <= i < |cams| && CamRaises(fs, modelPath, cams, i, cp)
  {
    if failed {
      var i :| c + 1 <= i < |cams| && CamRaises(fs, modelPath, cams, i, next);
      assert i < CamSlots ==> next.folderDates[i] == cp.folderDates[i];
      assert CamRaises(fs, modelPath, cams, i, cp);
    }
  }

  /**
    Camera `c` raises in the camera loop from the slots of `cp`: its `result`
    folder cannot be listed; or it is past the tenth and has a date folder, so
    indexing `folder_dates` with it is out of range; or one of its date folders
    not below the stored folder date has no `judge` folder that can be listed.
   */
  predicate CamRaises(fs: FileSystem, modelPath: Path, cams: seq<string>, c: nat, cp: Checkpoint)
    requires c < |cams| && cp.Valid()
  {
    var resultPath := ResultPath(modelPath, cams[c]);
    || resultPath !in fs.listings
    || (CamSlots <= c && fs.listings[resultPath] != [])
    || (c < CamSlots && exists d :: d in fs.listings[resultPath] && LessEq(cp.folderDates[c], d)
                                    && JudgePath(resultPath, d) !in fs.listings)
  }

  /**
    Camera `cam` has nothing new for the slot values `folderDate` and `fileDate`:
    its `result` folder can be listed, and every date folder in it not below
    `folderDate` can be listed and holds no file above `fileDate`.
   */
  predicate CamNothingNew(fs: FileSystem, modelPath: Path, cam: string, folderDate: string, fileDate: string)
  {
    var resultPath := ResultPath(modelPath, cam);
    && resultPath in fs.listings
    && forall d :: d in fs.listings[resultPath] && LessEq(folderDate, d) ==>
         NothingNewIn(fs, JudgePath(resultPath, d), fileDate)
  }

  /**
    Every camera at sorted positions `c` to `e` has nothing new for its slot of
    `cp`; a camera past the tenth must have an empty `result` folder, since one
    with a date folder raises.
   */
  predicate CamsNothingNew(fs: FileSystem, modelPath: Path, cams: seq<string>, c: nat, e: nat, cp: Checkpoint)
    requires e <= |cams| && cp.Valid()
  {
    forall i :: c <= i < e ==>
      if i < CamSlots then CamNothingNew(fs, modelPath, cams[i], cp.folderDates[i], cp.fileDates[i])
      else SortedListing(fs, ResultPath(modelPath, cams[i])) == Some([])
  }

  /** Two checkpoints that agree on every slot from `c` on. */
  predicate AgreeFrom(cp: Checkpoint, next: Checkpoint, c: nat)
    requires cp.Valid() && next.Valid()
  {
    forall i :: c <= i < CamSlots ==> next.folderDates[i] == cp.folderDates[i] && next.fileDates[i] == cp.fileDates[i]
  }

  lemma CamsNothingNewAgree(fs: FileSystem, modelPath: Path, cams: seq<string>, c: nat, e: nat, cp: Checkpoint, next: Checkpoint)
    requires e <= |cams| && cp.Valid() && next.Valid() && AgreeFrom(cp, next, c)
    ensures CamsNothingNew(fs, modelPath, cams, c, e, cp) <==> CamsNothingNew(fs, modelPath, cams, c, e, next)
  {
  }

  /** One camera with date folders: its date loop ends with `NoNewFile` exactly when it has nothing new. */
  lemma CamScanNothingNew(fs: FileSystem, modelPath: Path, cam: string, dates: seq<string>,
                          folderDate: string, fileDate: string)
    requires SortedListing(fs, ResultPath(modelPath, cam)) == Some(dates)
    ensures ScanDates(fs, ResultPath(modelPath, cam), dates, 0, folderDate, fileDate).status.NoNewFile?
            <==> CamNothingNew(fs, modelPath, cam, folderDate, fileDate)
  {
    var resultPath := ResultPath(modelPath, cam);
    var s := ScanDates(fs, resultPath, dates, 0, folderDate, fileDate);
    assert dates[0..] == dates;
    ScanDatesVisitsEligible(fs, resultPath, dates, 0, folderDate, fileDate);
    if CamNothingNew(fs, modelPath, cam, folderDate, fileDate) {
      forall d | Eligible(dates, 0, folderDate, d)
        ensures NothingNewIn(fs, JudgePath(resultPath, d), fileDate)
      {
        assert d in multiset(dates);
      }
      ScanDatesNothingNew(fs, resultPath, dates, 0, folderDate, fileDate);
    }
    if s.status.NoNewFile? {
      forall d | d in fs.listings[resultPath] && LessEq(folderDate, d)
        ensures NothingNewIn(fs, JudgePath(resultPath, d), fileDate)
      {
        assert d in multiset(fs.listings[resultPath]);
        assert Eligible(dates, 0, folderDate, d);
      }
    }
  }

  /**
    The camera loop runs out (`Exhausted`) exactly when every camera from
    position `c` on has nothing new for its slot: no new file is ever missed.
   */
  lemma {:induction false} ScanCamsExhaustedIff(fs: FileSystem, modelPath: Path, cams: seq<string>, c: nat, cp: Checkpoint)
    requires c <= |cams| && cp.Valid()
    ensures ScanCams(fs, modelPath, cams, c, cp).status.Exhausted? <==> CamsNothingNew(fs, modelPath, cams, c, |cams|, cp)
    decreases |cams| - c
  {
    if c < |cams| {
      ScanCamsExhaustedIff(fs, modelPath, cams, c + 1, TurnCheckpoint(fs, modelPath, cams, c, cp));
      ExhaustedIffStep(fs, modelPath, cams, c, cp);
    } else {
      ExhaustedIffAtEnd(fs, modelPath, cams, c, cp);
    }
  }

  /** The checkpoint the camera loop carries past camera `c` when it goes on; `cp` itself when it stops there. */
  function TurnCheckpoint(fs: FileSystem, modelPath: Path, cams: seq<string>, c: nat, cp: Checkpoint): (r: Checkpoint)
    requires c < |cams| && cp.Valid()
    ensures r.Valid()
  {
    match CamTurn(fs, modelPath, cams, c, cp)
    case NextCam(next) => next
    case EndAt(_) => cp
  }

  /** `ScanCamsExhaustedIff` past the last camera: the loop ends exhausted, and no camera is left to have anything new. */
  lemma ExhaustedIffAtEnd(fs: FileSystem, modelPath: Path, cams: seq<string>, c: nat, cp: Checkpoint)
    requires c == |cams| && cp.Valid()
    ensures ScanCams(fs, modelPath, cams, c, cp).status.Exhausted?
    ensures CamsNothingNew(fs, modelPath, cams, c, |cams|, cp)
  {
  }

  /** The step of `ScanCamsExhaustedIff` at position `c`. */
  lemma ExhaustedIffStep(fs: FileSystem, modelPath: Path, cams: seq<string>, c: nat, cp: Checkpoint)
    requires c < |cams| && cp.Valid()
    requires var next := TurnCheckpoint(fs, modelPath, cams, c, cp);
      ScanCams(fs, modelPath, cams, c + 1, next).status.Exhausted? <==> CamsNothingNew(fs, modelPath, cams, c + 1, |cams|, next)
    ensures ScanCams(fs, modelPath, cams, c, cp).status.Exhausted? <==> CamsNothingNew(fs, modelPath, cams, c, |cams|, cp)
  {
    var resultPath := ResultPath(modelPath, cams[c]);
    match SortedListing(fs, resultPath)
    case None =>
      assert !(if c < CamSlots then CamNothingNew(fs, modelPath, cams[c], cp.folderDates[c], cp.fileDates[c])
               else SortedListing(fs, resultPath) == Some([]));
    case Some(dates) =>
      if dates == [] {
        EmptyResultNothingNew(fs, modelPath, cams[c], cp);
      } else if c >= CamSlots {
        assert SortedListing(fs, resultPath) != Some([]);
      } else {
        ExhaustedStep(fs, modelPath, cams, c, cp, dates);
      }
  }

  /** A camera whose result folder is empty has nothing new, whatever its checkpoint. */
  lemma EmptyResultNothingNew(fs: FileSystem, modelPath: Path, cam: string, cp: Checkpoint)
    requires SortedListing(fs, ResultPath(modelPath, cam)) == Some([]) && cp.Valid()
    ensures forall i :: 0 <= i < CamSlots ==> CamNothingNew(fs, modelPath, cam, cp.folderDates[i], cp.fileDates[i])
  {
    var resultPath := ResultPath(modelPath, cam);
    assert |fs.listings[resultPath]| == |multiset(fs.listings[resultPath])| == 0;
  }

  /** The step of `ScanCamsExhaustedIff` at a camera below the tenth with date folders. */
  lemma ExhaustedStep(fs: FileSystem, modelPath: Path, cams: seq<string>, c: nat, cp: Checkpoint, dates: seq<string>)
    requires c < |cams| && c < CamSlots && cp.Valid()
    requires SortedListing(fs, ResultPath(modelPath, cams[c])) == Some(dates) && dates != []
    requires var s := ScanDates(fs, ResultPath(modelPath, cams[c]), dates, 0, cp.folderDates[c], cp.fileDates[c]);
      var next := Checkpoint(cp.folderDates[c := s.folderDate], cp.fileDates[c := s.fileDate]);
      s.status.NoNewFile? ==>
        (ScanCams(fs, modelPath, cams, c + 1, next).status.Exhausted? <==> CamsNothingNew(fs, modelPath, cams, c + 1, |cams|, next))
    ensures ScanCams(fs, modelPath, cams, c, cp).status.Exhausted? <==> CamsNothingNew(fs, modelPath, cams, c, |cams|, cp)
  {
    var resultPath := ResultPath(modelPath, cams[c]);
    var s := ScanDates(fs, resultPath, dates, 0, cp.folderDates[c], cp.fileDates[c]);
    var next := Checkpoint(cp.folderDates[c := s.folderDate], cp.fileDates[c := s.fileDate]);
    CamsNothingNewAgree(fs, modelPath, cams, c + 1, |cams|, cp, next);
    CamScanNothingNew(fs, modelPath, cams[c], dates, cp.folderDates[c], cp.fileDates[c]);
    assert s.status.NoNewFile? ==> ScanCams(fs, modelPath, cams, c, cp) == ScanCams(fs, modelPath, cams, c + 1, next);
  }

  /** Every date folder of `resultPath` not below `folderDate` and before `dateDir` holds nothing above `fileDate`. */
  predicate EarlierFoldersNothingNew(fs: FileSystem, resultPath: Path, folderDate: string, dateDir: string, fileDate: string)
  {
    && resultPath in fs.listings
    && forall d :: d in fs.listings[resultPath] && LessEq(folderDate, d) && Less(d, dateDir) ==>
         NothingNewIn(fs, JudgePath(resultPath, d), fileDate)
  }

  /**
    A find is the first new file in camera order: every camera before it had
    nothing new, and in its own camera every date folder the loop visited before
    the file's folder held nothing new.
   */
  lemma {:induction false} ScanCamsFoundIsFirst(fs: FileSystem, modelPath: Path, cams: seq<string>, c: nat, cp: Checkpoint)
    requires c <= |cams| && cp.Valid()
    ensures var r := ScanCams(fs, modelPath, cams, c, cp);
      r.status.Found? ==>
        && CamsNothingNew(fs, modelPath, cams, c, r.status.camIdx, cp)
        && EarlierFoldersNothingNew(fs, ResultPath(modelPath, r.status.camDir), cp.folderDates[r.status.camIdx],
                                    r.status.dateDir, cp.fileDates[r.status.camIdx])
    decreases |cams| - c
  {
    var r := ScanCams(fs, modelPath, cams, c, cp);
    if c < |cams| && r.status.Found? {
      var resultPath := ResultPath(modelPath, cams[c]);
      var dates := SortedListing(fs, resultPath).value;
      if dates == [] {
        ScanCamsFoundIsFirst(fs, modelPath, cams, c + 1, cp);
        EmptyResultNothingNew(fs, modelPath, cams[c], cp);
      } else {
        var s := ScanDates(fs, resultPath, dates, 0, cp.folderDates[c], cp.fileDates[c]);
        var next := Checkpoint(cp.folderDates[c := s.folderDate], cp.fileDates[c := s.fileDate]);
        CamScanNothingNew(fs, modelPath, cams[c], dates, cp.folderDates[c], cp.fileDates[c]);
        if s.status.NoNewFile? {
          ScanCamsFoundIsFirst(fs, modelPath, cams, c + 1, next);
          CamsNothingNewAgree(fs, modelPath, cams, c + 1, r.status.camIdx, cp, next);
        } else {
          FoundInFirstCamera(fs, resultPath, dates, cp.folderDates[c], cp.fileDates[c]);
        }
      }
    }
  }

  /** A find in the camera the loop is at: the visited folders before the file's folder held nothing new. */
  lemma FoundInFirstCamera(fs: FileSystem, resultPath: Path, dates: seq<string>, folderDate: string, fileDate: string)
    requires SortedListing(fs, resultPath) == Some(dates)
    requires ScanDates(fs, resultPath, dates, 0, folderDate, fileDate).status.NewFile?
    ensures EarlierFoldersNothingNew(fs, resultPath, folderDate,
                                     ScanDates(fs, resultPath, dates, 0, folderDate, fileDate).status.dateDir, fileDate)
  {
    assert dates[0..] == dates;
    ScanDatesVisitsEligible(fs, resultPath, dates, 0, folderDate, fileDate);
    var s := ScanDates(fs, resultPath, dates, 0, folderDate, fileDate);
    forall d | d in fs.listings[resultPath] && LessEq(folderDate, d) && Less(d, s.status.dateDir)
      ensures NothingNewIn(fs, JudgePath(resultPath, d), fileDate)
    {
      assert d in multiset(fs.listings[resultPath]);
      assert Eligible(dates, 0, folderDate, d);
    }
  }
}
