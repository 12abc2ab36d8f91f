/**
  Turning one decoded judgement into the five values the collector inserts into
  its output columns `cam`, `date`, `lot`, `overallresult` and `result`.
 */
module Rows {
  import opened Wrappers
  import opened FileTree

  /** `_max_areanum`: inspection areas taken from a judgement. */
  const MaxAreas: nat := 10

  datatype Row = Row(cam: string, date: string, lot: string, overallResult: string, result: string)

  function Min(a: nat, b: nat): nat
  {
    if a < b then a else b
  }

  /** OK = 0, anything else = 1. */
  function JudgeChar(judge: string): (c: char)
    ensures c == '0' || c == '1'
    ensures c == '0' <==> judge == "OK"
  {
    if judge == "OK" then '0' else '1'
  }

  /** The per-area string of the first `n` entries, or `None` when one of them has no `judge`. */
  function AreaCodesUpTo(detect: seq<Detect>, n: nat): (r: Option<string>)
    requires n <= |detect|
    ensures r.Some? <==> forall i :: 0 <= i < n ==> detect[i].judge.Some?
    ensures r.Some? ==> |r.value| == n
    ensures r.Some? ==> forall i :: 0 <= i < n ==>
      (r.value[i] == '0' <==> detect[i].judge == Some("OK")) && (r.value[i] == '0' || r.value[i] == '1')
    decreases n
  {
    if n == 0 then Some("")
    else match AreaCodesUpTo(detect, n - 1)
      case None => None
      case Some(s) =>
        match detect[n - 1].judge
        case None => None
        case Some(j) => Some(s + [JudgeChar(j)])
  }

  /**
    The area string of a judgement: one character per `detect` entry, for at most
    ten entries; `None` when `detect` or a needed `judge` is missing.
   */
  function AreaCodes(detect: Option<seq<Detect>>): (r: Option<string>)
    ensures r.Some? <==> detect.Some? && forall i :: 0 <= i < Min(|detect.value|, MaxAreas) ==> detect.value[i].judge.Some?
    ensures r.Some? ==> |r.value| == Min(|detect.value|, MaxAreas)
  {
    match detect
    case None => None
    case Some(d) => AreaCodesUpTo(d, Min(|d|, MaxAreas))
  }

  /**
    The area loop: for each of the first ten area numbers, stop at the end of
    `detect`, otherwise append "0" for an OK judge and "1" for any other.
    Looking up a missing `detect` or `judge` raises (`None`).
   */
  method ReadAreas(detect: Option<seq<Detect>>) returns (r: Option<string>)
    ensures r == AreaCodes(detect)
    ensures r.Some? ==> forall i :: 0 <= i < |r.value| ==>
      (r.value[i] == '0' <==> detect.value[i].judge == Some("OK"))
  {
    if detect.None? {
      return None;
    }
    var d := detect.value;
    var result := "";
    var areano := 0;
    while areano < MaxAreas
      invariant areano <= MaxAreas && areano <= |d|
      invariant AreaCodesUpTo(d, areano) == Some(result)
    {
      if areano >= |d| {
        break;
      }
      match d[areano].judge
      case None =>
        return None;
      case Some(j) =>
        result := result + [JudgeChar(j)];
      areano := areano + 1;
    }
    r := Some(result);
  }

  /** How building a row ends: with all five values, or with an exception. */
  datatype RowOutcome =
    | Built(row: Row)
      /** `camInserted`: the exception came after `clm0.insert(camDir)`. */
    | Raised(camInserted: bool)

  /**
    The row for a judgement found under camera `camDir` of model `modelDir`. The
    lookups happen in source order: `overallResult`, then `detect`, then (after the
    camera value has been inserted) `camDate.DATE`.
   */
  function BuildRow(rec: Judgement, camDir: string, modelDir: string): (r: RowOutcome)
    ensures r.Built? <==> rec.overallResult.Some? && AreaCodes(rec.detect).Some? && rec.date.Some?
    ensures r.Raised? ==> (r.camInserted <==> rec.overallResult.Some? && AreaCodes(rec.detect).Some?)
    ensures r.Built? ==> r.row.cam == camDir && r.row.lot == modelDir && r.row.date == rec.date.value
    ensures r.Built? ==> (r.row.overallResult == "0" <==> rec.overallResult == Some("OK"))
    ensures r.Built? ==> r.row.overallResult in {"0", "1"}
    ensures r.Built? ==> r.row.result == AreaCodes(rec.detect).value
  {
    if rec.overallResult.None? then Raised(false)
    else
      var overall := if rec.overallResult.value == "OK" then "0" else "1";
      match AreaCodes(rec.detect)
      case None => Raised(false)
      case Some(areas) =>
        if rec.date.None? then Raised(true)
        else Built(Row(camDir, rec.date.value, modelDir, overall, areas))
  }
}
