/**
  The per-model checkpoint: for each of the ten camera slots, the last date folder
  visited and the last result file emitted. It is persisted as a text file of twenty
  lines (the folder dates, then the file dates) named after the model's index.
 */
module Checkpoints {

  /** `_max_camnum`: camera slots per model. */
  const CamSlots: nat := 10

  /** `_infoDir` and the two halves of `_infoFile`. */
  const InfoDir := "aiinspect"
  const InfoFilePrefix := "aiinspect_info_"
  const InfoFileSuffix := ".txt"

  datatype Checkpoint = Checkpoint(folderDates: seq<string>, fileDates: seq<string>)
  {
    predicate Valid()
    {
      |folderDates| == CamSlots && |fileDates| == CamSlots
    }
  }

  /** The lists the scan builds before reading a model's checkpoint: ten empty strings each. */
  function Empty(): (cp: Checkpoint)
    ensures cp.Valid()
    ensures forall i :: 0 <= i < CamSlots ==> cp.folderDates[i] == "" && cp.fileDates[i] == ""
  {
    Checkpoint(seq(CamSlots, _ => ""), seq(CamSlots, _ => ""))
  }

  predicate NoNewline(s: string)
  {
    '\n' !in s
  }

  predicate AllNoNewline(lines: seq<string>)
  {
    forall k :: 0 <= k < |lines| ==> NoNewline(lines[k])
  }

  // ---------------------------------------------------------------------------
  // Writing: setInspectDate writes `date + "\n"` for every folder date, then for
  // every file date.
  // ---------------------------------------------------------------------------

  function Serialize(lines: seq<string>): string
  {
    if lines == [] then "" else lines[0] + "\n" + Serialize(lines[1..])
  }

  /** The whole text setInspectDate writes for a checkpoint. */
  function Render(cp: Checkpoint): string
  {
    Serialize(cp.folderDates) + Serialize(cp.fileDates)
  }

  lemma {:induction false} SerializeSnoc(lines: seq<string>, x: string)
    ensures Serialize(lines + [x]) == Serialize(lines) + x + "\n"
    decreases |lines|
  {
    if lines != [] {
      assert (lines + [x])[1..] == lines[1..] + [x];
      SerializeSnoc(lines[1..], x);
    }
  }

  lemma {:induction false} SerializeAppend(a: seq<string>, b: seq<string>)
    ensures Serialize(a + b) == Serialize(a) + Serialize(b)
    decreases |a|
  {
    if a != [] {
      assert (a + b)[1..] == a[1..] + b;
      SerializeAppend(a[1..], b);
      assert Serialize(a + b) == a[0] + "\n" + (Serialize(a[1..]) + Serialize(b));
    } else {
      assert a + b == b;
    }
  }

  // ---------------------------------------------------------------------------
  // Reading: getInspectDate takes `f.readlines()` and strips trailing newlines
  // from each line with `rstrip('\n')`.
  // ---------------------------------------------------------------------------

  /** Length of the first line of `t` as `readlines` cuts it: up to and including the first newline. */
  function LineLength(t: string): (n: nat)
    requires t != []
    ensures 0 < n <= |t|
    ensures NoNewline(t[..n - 1])
    ensures n < |t| ==> t[n - 1] == '\n'
  {
    if t[0] == '\n' || |t| == 1 then 1
    else
      var n := 1 + LineLength(t[1..]);
      assert t[..n - 1] == [t[0]] + t[1..][..n - 2];
      n
  }

  /** `readlines()`: every line keeps its newline; the last one may have none. */
  function Lines(t: string): (ls: seq<string>)
    ensures forall k :: 0 <= k < |ls| ==> ls[k] != "" && NoNewline(ls[k][..|ls[k]| - 1])
    decreases |t|
  {
    if t == [] then [] else
      var n := LineLength(t);
      assert t[..n][..n - 1] == t[..n - 1];
      [t[..n]] + Lines(t[n..])
  }

  /** The lines written one after the other. */
  function Joined(ls: seq<string>): string
  {
    if ls == [] then "" else ls[0] + Joined(ls[1..])
  }

  /**
    `readlines()` splits the text: its lines join back into the text, and every
    line but the last ends with its newline.
   */
  lemma {:induction false} LinesSplitText(t: string)
    ensures var ls := Lines(t);
      && Joined(ls) == t
      && forall k :: 0 <= k < |ls| - 1 ==> ls[k][|ls[k]| - 1] == '\n'
    decreases |t|
  {
    if t != [] {
      var n := LineLength(t);
      var rest := Lines(t[n..]);
      LinesSplitText(t[n..]);
      assert Lines(t) == [t[..n]] + rest;
      assert Lines(t)[1..] == rest;
      assert t == t[..n] + t[n..];
      assert rest != [] ==> n < |t|;
    }
  }

  /** `s.rstrip('\n')`. */
  function RStripNewlines(s: string): (r: string)
    ensures |r| <= |s| && r == s[..|r|]
    ensures r == [] || r[|r| - 1] != '\n'
    ensures forall k :: |r| <= k < |s| ==> s[k] == '\n'
  {
    if s != [] && s[|s| - 1] == '\n' then RStripNewlines(s[..|s| - 1]) else s
  }

  /** A line of `readlines()` loses exactly its one newline, if it has one, to `rstrip('\n')`. */
  lemma StripLine(s: string)
    requires s != "" && NoNewline(s[..|s| - 1])
    ensures NoNewline(RStripNewlines(s))
    ensures RStripNewlines(s) == s || RStripNewlines(s) + "\n" == s
  {
    var r := RStripNewlines(s);
    if |r| < |s| {
      assert s[|r|] == '\n';
      assert r == s[..|s| - 1];
      assert s == r + [s[|s| - 1]];
    } else {
      assert r == s;
      assert s == s[..|s| - 1] + [s[|s| - 1]];
    }
  }

  /** The lines of a checkpoint file as getInspectDate sees them. */
  function StrippedLines(t: string): seq<string>
  {
    var ls := Lines(t);
    seq(|ls|, k requires 0 <= k < |ls| => RStripNewlines(ls[k]))
  }

  /**
    getInspectDate sees one line per line of `readlines()`, each that line
    without its newline, so none of them holds a newline.
   */
  lemma StrippedLinesHoldNoNewline(t: string)
    ensures var r := StrippedLines(t);
      && |r| == |Lines(t)|
      && AllNoNewline(r)
      && forall k :: 0 <= k < |r| ==> r[k] == Lines(t)[k] || r[k] + "\n" == Lines(t)[k]
  {
    var ls := Lines(t);
    forall k | 0 <= k < |ls| {
      StripLine(ls[k]);
    }
  }

  /**
    Line k goes into folder slot k for k < 10 and into file slot k - 10 for
    10 <= k < 20; slots without a line keep their value. A 21st line makes
    `file_dates[10]` raise, which getInspectDate's own handler catches, so it and
    everything after it are ignored.
   */
  function Fill(cp: Checkpoint, lines: seq<string>): (r: Checkpoint)
    requires cp.Valid()
    ensures r.Valid()
  {
    Checkpoint(
      seq(CamSlots, i requires 0 <= i < CamSlots => if i < |lines| then lines[i] else cp.folderDates[i]),
      seq(CamSlots, i requires 0 <= i < CamSlots => if CamSlots + i < |lines| then lines[CamSlots + i] else cp.fileDates[i]))
  }

  /** One more line fills the next slot: a folder slot for the first ten, a file slot for the next ten. */
  lemma FillExtend(cp: Checkpoint, lines: seq<string>, x: string)
    requires cp.Valid() && |lines| < 2 * CamSlots
    ensures var f := Fill(cp, lines);
      Fill(cp, lines + [x]) == if |lines| < CamSlots then Checkpoint(f.folderDates[|lines| := x], f.fileDates)
                               else Checkpoint(f.folderDates, f.fileDates[|lines| - CamSlots := x])
  {
  }

  /** Lines past the twentieth fill nothing. */
  lemma FillIgnoresExtra(cp: Checkpoint, lines: seq<string>)
    requires cp.Valid() && |lines| >= 2 * CamSlots
    ensures Fill(cp, lines) == Fill(cp, lines[..2 * CamSlots])
  {
  }

  lemma LineLengthOfLine(x: string, rest: string)
    requires NoNewline(x)
    ensures LineLength(x + "\n" + rest) == |x| + 1
  {
    var t := x + "\n" + rest;
    assert t[|x|] == '\n';
    assert forall k :: 0 <= k < |x| ==> t[k] == x[k];
  }

  /** Reading back serialized lines gives the lines, provided none holds a newline. */
  lemma {:induction false} StrippedLinesOfSerialize(lines: seq<string>)
    requires AllNoNewline(lines)
    ensures StrippedLines(Serialize(lines)) == lines
    decreases |lines|
  {
    if lines != [] {
      var x := lines[0];
      var rest := Serialize(lines[1..]);
      var t := Serialize(lines);
      assert t == x + "\n" + rest;
      LineLengthOfLine(x, rest);
      assert t[..|x| + 1] == x + "\n";
      assert t[|x| + 1..] == rest;
      assert Lines(t) == [x + "\n"] + Lines(rest);
      assert RStripNewlines(x + "\n") == x by {
        assert (x + "\n")[..|x|] == x;
        assert x == [] || x[|x| - 1] != '\n';
      }
      StrippedLinesOfSerialize(lines[1..]);
    }
  }

  /**
    A checkpoint written by setInspectDate and read back by getInspectDate is
    the same checkpoint, whatever the slots held before the read.
   */
  lemma RoundTrip(cp: Checkpoint, before: Checkpoint)
    requires cp.Valid() && before.Valid()
    requires AllNoNewline(cp.folderDates) && AllNoNewline(cp.fileDates)
    ensures Fill(before, StrippedLines(Render(cp))) == cp
  {
    RenderedLines(cp);
  }

  /**
    The text setInspectDate writes, read back line by line, gives the folder
    dates and then the file dates, provided none of them holds a newline.
   */
  lemma RenderedLines(cp: Checkpoint)
    requires AllNoNewline(cp.folderDates) && AllNoNewline(cp.fileDates)
    ensures StrippedLines(Render(cp)) == cp.folderDates + cp.fileDates
  {
    var all := cp.folderDates + cp.fileDates;
    SerializeAppend(cp.folderDates, cp.fileDates);
    StrippedLinesOfSerialize(all);
  }

  /** A file of fewer than twenty lines fills the slots it has lines for and leaves the others empty. */
  lemma ShortFile(lines: seq<string>)
    requires |lines| <= 2 * CamSlots && AllNoNewline(lines)
    ensures var cp := Fill(Empty(), StrippedLines(Serialize(lines)));
      && (forall i :: 0 <= i < CamSlots ==> cp.folderDates[i] == if i < |lines| then lines[i] else "")
      && (forall i :: 0 <= i < CamSlots ==> cp.fileDates[i] == if CamSlots + i < |lines| then lines[CamSlots + i] else "")
  {
    StrippedLinesOfSerialize(lines);
    FillEmpty(lines);
  }

  lemma FillEmpty(lines: seq<string>)
    ensures var cp := Fill(Empty(), lines);
      && (forall i :: 0 <= i < CamSlots ==> cp.folderDates[i] == if i < |lines| then lines[i] else "")
      && (forall i :: 0 <= i < CamSlots ==> cp.fileDates[i] == if CamSlots + i < |lines| then lines[CamSlots + i] else "")
  {
    var e := Empty();
    var cp := Fill(e, lines);
    forall i | 0 <= i < CamSlots
      ensures cp.folderDates[i] == if i < |lines| then lines[i] else ""
    {
      assert e.folderDates[i] == "";
    }
    forall i | 0 <= i < CamSlots
      ensures cp.fileDates[i] == if CamSlots + i < |lines| then lines[CamSlots + i] else ""
    {
      assert e.fileDates[i] == "";
    }
  }

  // ---------------------------------------------------------------------------
  // File names: infoPath + "/aiinspect/aiinspect_info_" + str(modelidx).zfill(2) + ".txt"
  // ---------------------------------------------------------------------------

  function Digit(d: nat): char
    requires d < 10
  {
    "0123456789"[d]
  }

  /** `str(n)` for a non-negative integer. */
  function Decimal(n: nat): (s: string)
    ensures 0 < |s|
  {
    if n < 10 then [Digit(n)] else Decimal(n / 10) + [Digit(n % 10)]
  }

  /** `str(n)` is decimal digits with no leading zero, one digit exactly below ten. */
  lemma {:induction false} DecimalDigits(n: nat)
    ensures var s := Decimal(n);
      && (|s| == 1 <==> n < 10)
      && (forall k :: 0 <= k < |s| ==> '0' <= s[k] <= '9')
      && (|s| > 1 ==> s[0] != '0')
    decreases n
  {
    if n >= 10 {
      DecimalDigits(n / 10);
      assert Decimal(n)[0] == Decimal(n / 10)[0];
    }
  }

  /** `s.zfill(width)` for a string without a sign: left-pad with '0' up to `width`. */
  function ZFill(s: string, width: nat): (r: string)
    ensures |r| == if |s| < width then width else |s|
    ensures r[|r| - |s|..] == s
    ensures forall k :: 0 <= k < |r| - |s| ==> r[k] == '0'
  {
    if |s| >= width then s else seq(width - |s|, _ => '0') + s
  }

  function InfoFileName(infoPath: string, modelIdx: nat): string
  {
    infoPath + "/" + InfoDir + "/" + InfoFilePrefix + ZFill(Decimal(modelIdx), 2) + InfoFileSuffix
  }

  /** Every index the scan can reach is below ten, so its file name carries "0" and one digit. */
  lemma InfoFileNameBelowTen(infoPath: string, modelIdx: nat)
    requires modelIdx < 10
    ensures InfoFileName(infoPath, modelIdx)
      == infoPath + "/aiinspect/aiinspect_info_0" + [Digit(modelIdx)] + ".txt"
  {
    var d := Decimal(modelIdx);
    assert d == [Digit(modelIdx)];
    assert seq(1, _ => '0') == "0";
    assert ZFill(d, 2) == "0" + d;
  }

  /** Distinct models below the limit never share a checkpoint file. */
  lemma InfoFileNamesDistinct(infoPath: string, i: nat, j: nat)
    requires i < 10 && j < 10 && i != j
    ensures InfoFileName(infoPath, i) != InfoFileName(infoPath, j)
  {
    InfoFileNameBelowTen(infoPath, i);
    InfoFileNameBelowTen(infoPath, j);
    var k := |infoPath| + |"/aiinspect/aiinspect_info_0"|;
    assert InfoFileName(infoPath, i)[k] == Digit(i);
    assert InfoFileName(infoPath, j)[k] == Digit(j);
  }

  // ---------------------------------------------------------------------------
  // The checkpoint store: the directory infoPath/aiinspect and its files.
  // ---------------------------------------------------------------------------

  /** A checkpoint file: its text, or a file that exists but cannot be read. */
  datatype InfoFile = Text(content: string) | Unreadable

  /** Whether infoPath/aiinspect exists, and the checkpoint files in it by full path. */
  datatype InfoStore = InfoStore(dirExists: bool, files: map<string, InfoFile>)

  /** Opening for writing fails (and is only logged) when the directory is missing. */
  function WriteText(store: InfoStore, path: string, text: string): (r: InfoStore)
    ensures r.dirExists == store.dirExists
    ensures store.dirExists ==> r.files == store.files[path := Text(text)]
    ensures !store.dirExists ==> r == store
  {
    if store.dirExists then store.(files := store.files[path := Text(text)]) else store
  }

  /** What setInspectDate leaves in the store. */
  function Save(store: InfoStore, path: string, cp: Checkpoint): InfoStore
  {
    WriteText(store, path, Render(cp))
  }

  /**
    What getInspectDate does to lists holding `cp`: fills them from the file;
    on a missing file keeps them and writes them out; on any other read failure
    keeps them.
   */
  function Load(store: InfoStore, path: string, cp: Checkpoint): (r: (Checkpoint, InfoStore))
    requires cp.Valid()
    ensures r.0.Valid()
  {
    if path !in store.files then (cp, Save(store, path, cp))
    else match store.files[path]
      case Text(t) => (Fill(cp, StrippedLines(t)), store)
      case Unreadable => (cp, store)
  }

  /**
    setInspectDate writes one file: when the directory exists, the file at `path`
    holds the rendered checkpoint; no other file changes.
   */
  lemma SaveWritesOneFile(store: InfoStore, path: string, cp: Checkpoint)
    ensures var r := Save(store, path, cp);
      && r.dirExists == store.dirExists
      && (store.dirExists ==> path in r.files && r.files[path] == Text(Render(cp)))
      && (!store.dirExists ==> r.files == store.files)
      && (forall p :: p != path ==> (p in r.files <==> p in store.files))
      && (forall p :: p != path && p in store.files ==> r.files[p] == store.files[p])
  {
  }

  /**
    getInspectDate writes only when the file is missing, and then exactly the
    lists it was given; what it reads holds no newline when the lists it was
    given held none.
   */
  lemma LoadOutcome(store: InfoStore, path: string, cp: Checkpoint)
    requires cp.Valid()
    ensures var r := Load(store, path, cp);
      && r.1.dirExists == store.dirExists
      && (path in store.files ==> r.1 == store)
      && (path !in store.files ==> r.0 == cp && r.1 == Save(store, path, cp))
      && (AllNoNewline(cp.folderDates) && AllNoNewline(cp.fileDates) ==>
            AllNoNewline(r.0.folderDates) && AllNoNewline(r.0.fileDates))
  {
    if path in store.files && store.files[path].Text? {
      StrippedLinesHoldNoNewline(store.files[path].content);
    }
  }

  /** First run: a missing checkpoint file yields the all-empty checkpoint and, if it can, writes it. */
  lemma LoadMissing(store: InfoStore, path: string)
    requires path !in store.files
    ensures Load(store, path, Empty()).0 == Empty()
    ensures store.dirExists ==> Load(store, path, Empty()).1.files == store.files[path := Text(Render(Empty()))]
    ensures !store.dirExists ==> Load(store, path, Empty()).1 == store
  {
  }

  /** What a save followed by a load yields: the saved checkpoint, when the directory exists. */
  lemma LoadAfterSave(store: InfoStore, path: string, cp: Checkpoint)
    requires store.dirExists && cp.Valid()
    requires AllNoNewline(cp.folderDates) && AllNoNewline(cp.fileDates)
    ensures Load(Save(store, path, cp), path, Empty()) == (cp, Save(store, path, cp))
  {
    RoundTrip(cp, Empty());
  }
}
