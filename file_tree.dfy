/**
  The inspection results the collector reads, as an immutable value:
  `root/model/camera/result/date/judge/file`. Directory listings are what
  `os.listdir` would return (in no particular order); judgement files are
  already decoded from JSON, with a missing key kept as `None`.
 */
module FileTree {
  import opened Wrappers
  import opened StringOrder

  /** A path as its components: the root path, then one directory entry name per level. */
  type Path = seq<string>

  /** `_resultDir` and `_judgeDir`. */
  const ResultDir := "result"
  const JudgeDir := "judge"

  /** One entry of a judgement's `detect` list; `judge` is `None` when the key is missing. */
  datatype Detect = Detect(judge: Option<string>)

  /**
    The three keys the collector reads from a judgement file:
    `overallResult`, `camDate.DATE` and `detect`.
   */
  datatype Judgement = Judgement(overallResult: Option<string>, date: Option<string>, detect: Option<seq<Detect>>)

  /** A judgement file that `json.load` decodes, or one it rejects. */
  datatype JudgeFile = Decoded(record: Judgement) | Malformed

  /**
    `listings[p]` is `os.listdir(p)` for every directory p; `judgeFiles[p]` is the
    content of every readable file. A path in neither raises when listed or opened.
   */
  datatype FileSystem = FileSystem(listings: map<Path, seq<string>>, judgeFiles: map<Path, JudgeFile>)

  /** `os.listdir(p)` followed by `.sort()`; `None` where `listdir` raises. */
  function SortedListing(fs: FileSystem, p: Path): (r: Option<seq<string>>)
    ensures r.Some? <==> p in fs.listings
    ensures r.Some? ==> Sorted(r.value) && multiset(r.value) == multiset(fs.listings[p])
  {
    if p in fs.listings then Some(SortNames(fs.listings[p])) else None
  }

  /** `open` then `json.load`; `None` where either raises. */
  function ReadJudgement(fs: FileSystem, p: Path): (r: Option<Judgement>)
    ensures r.Some? <==> p in fs.judgeFiles && fs.judgeFiles[p].Decoded?
  {
    if p in fs.judgeFiles && fs.judgeFiles[p].Decoded? then Some(fs.judgeFiles[p].record) else None
  }

  function ModelPath(root: string, model: string): Path
  {
    [root, model]
  }

  /** `modelPath + "/" + camDir + "/" + _resultDir` */
  function ResultPath(modelPath: Path, cam: string): Path
  {
    modelPath + [cam, ResultDir]
  }

  /** `resultPath + "/" + dateDir + "/" + _judgeDir` */
  function JudgePath(resultPath: Path, date: string): Path
  {
    resultPath + [date, JudgeDir]
  }
}
