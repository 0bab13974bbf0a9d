/**
 * The per-frame export loop.  Plan positions are visited in order; each
 * either writes `frame_{i+1:04d}.png` or is skipped after a failed read or
 * a failed resize, and each is followed by exactly one progress report.
 * The decoder and the resizer are oracles; what the loop logs and reports
 * is recorded as one trace of events.
 */
module Export {
  import opened Wrappers
  import opened FrameNames
  import opened OutputDir

  /** A decoded or resized picture, as the bytes the writer stores. */
  type Image = seq<int>

  /** What `cap.read()` returns after seeking: a success flag and a frame. */
  datatype Capture = Capture(ret: bool, frame: Option<Image>)

  /** `cv2.resize(frame, (width, height))`: None when it raises. */
  type Resizer = (Image, int, int) -> Option<Image>

  /** The log lines the conversion emits, without their translated text. */
  datatype LogLine =
    | VideoInfo(width: int, height: int, totalFrames: int)
    | ClearedOutputDir
    | ReadFailed(frameIndex: int)
    | Saved(number: nat)          // the line names the file FrameName(number)
    | ConversionComplete

  /** One call of the logger or of the progress callback. */
  datatype Event = Log(line: LogLine) | Progress(done: nat, total: nat)

  /**
   * The picture written for a plan entry, or None when the entry is
   * skipped: the read reported failure or gave no frame, or resizing raised.
   */
  function Outcome(frameIndex: int, grab: int -> Capture, resize: Resizer, width: int, height: int): Option<Image>
  {
    var c := grab(frameIndex);
    if !c.ret || c.frame.None? then None else resize(c.frame.value, width, height)
  }

  function Outcomes(plan: seq<int>, grab: int -> Capture, resize: Resizer, width: int, height: int): (outs: seq<Option<Image>>)
    ensures |outs| == |plan|
  {
    seq(|plan|, i requires 0 <= i < |plan| => Outcome(plan[i], grab, resize, width, height))
  }

  /**
   * `cv2.imwrite` into the directory.  Its result is ignored by the caller,
   * so a write onto a name held by a subdirectory fails silently.
   */
  function Write(dir: map<string, Entry>, name: string, image: Image): map<string, Entry>
  {
    if IsDir(dir, name) then dir else dir[name := File(image)]
  }

  /** The directory after the writes of the given outcomes, in plan order. */
  function ExportedDir(dir: map<string, Entry>, outs: seq<Option<Image>>): map<string, Entry>
    decreases |outs|
  {
    if |outs| == 0 then dir
    else
      var before := ExportedDir(dir, outs[..|outs| - 1]);
      var last := outs[|outs| - 1];
      if last.Some? then Write(before, FrameName(|outs|), last.value) else before
  }

  /** The frame-level log line of position `pos` (0-based). */
  function Report(pos: nat, frameIndex: int, out: Option<Image>): LogLine
  {
    if out.None? then ReadFailed(frameIndex) else Saved(pos + 1)
  }

  /** The events of one plan position: its log line, then its progress call. */
  function StepEvents(pos: nat, frameIndex: int, out: Option<Image>, total: nat, progress: bool): seq<Event>
  {
    [Log(Report(pos, frameIndex, out))] + (if progress then [Progress(pos + 1, total)] else [])
  }

  /** The events of the first |outs| plan positions. */
  function Trace(plan: seq<int>, outs: seq<Option<Image>>, total: nat, progress: bool): seq<Event>
    requires |outs| <= |plan|
    decreases |outs|
  {
    if |outs| == 0 then []
    else
      var k := |outs| - 1;
      Trace(plan, outs[..k], total, progress) + StepEvents(k, plan[k], outs[k], total, progress)
  }

  /**
   * The export loop: for each plan position seek and read, skip with a
   * warning on a failed read or resize, otherwise write the frame under the
   * position's name; report progress after every position.
   */
  method ExportFrames(plan: seq<int>, grab: int -> Capture, resize: Resizer, width: int, height: int,
                      progress: bool, dir: map<string, Entry>)
    returns (written: map<string, Entry>, trace: seq<Event>)
    ensures written == ExportedDir(dir, Outcomes(plan, grab, resize, width, height))
    ensures trace == Trace(plan, Outcomes(plan, grab, resize, width, height), |plan|, progress)
  {
    ghost var outs := Outcomes(plan, grab, resize, width, height);
    written, trace := dir, [];
    var i := 0;
    while i < |plan|
      invariant 0 <= i <= |plan|
      invariant written == ExportedDir(dir, outs[..i])
      invariant trace == Trace(plan, outs[..i], |plan|, progress)
    {
      ExportStep(dir, plan, outs, i, progress);
      assert outs[i] == Outcome(plan[i], grab, resize, width, height);
      ghost var before, beforeDir := trace, written;
      var c := grab(plan[i]);
      if !c.ret || c.frame.None? {
        trace := trace + [Log(ReadFailed(plan[i]))];
      } else {
        var resized := resize(c.frame.value, width, height);
        if resized.None? {
          trace := trace + [Log(ReadFailed(plan[i]))];
        } else {
          var name := FrameName(i + 1);
          written := Write(written, name, resized.value);
          trace := trace + [Log(Saved(i + 1))];
        }
      }
      if progress {
        trace := trace + [Progress(i + 1, |plan|)];
      }
      assert trace == before + StepEvents(i, plan[i], outs[i], |plan|, progress);
      assert written == if outs[i].Some? then Write(beforeDir, FrameName(i + 1), outs[i].value) else beforeDir;
      i := i + 1;
    }
    assert outs[..|plan|] == outs;
  }

  /** One more position: the directory and the trace each grow by that position's step. */
  lemma ExportStep(dir: map<string, Entry>, plan: seq<int>, outs: seq<Option<Image>>, i: nat, progress: bool)
    requires i < |outs| == |plan|
    ensures ExportedDir(dir, outs[..i + 1])
      == if outs[i].Some? then Write(ExportedDir(dir, outs[..i]), FrameName(i + 1), outs[i].value)
         else ExportedDir(dir, outs[..i])
    ensures Trace(plan, outs[..i + 1], |plan|, progress)
      == Trace(plan, outs[..i], |plan|, progress) + StepEvents(i, plan[i], outs[i], |plan|, progress)
  {
    assert outs[..i + 1][..i] == outs[..i];
  }

  // ----- Properties of the trace -----

  /**
   * Kinds of events a reader of the trace picks out: progress calls,
   * frame-level log lines, and among those the saved and the skipped ones.
   */
  datatype Kind = ProgressCall | FrameReport | SavedReport | SkipWarning

  predicate Keeps(kind: Kind, e: Event)
  {
    match kind
    case ProgressCall => e.Progress?
    case FrameReport => e.Log? && (e.line.Saved? || e.line.ReadFailed?)
    case SavedReport => e.Log? && e.line.Saved?
    case SkipWarning => e.Log? && e.line.ReadFailed?
  }

  /** The events of a kind, in order. */
  function Select(events: seq<Event>, kind: Kind): seq<Event>
    decreases |events|
  {
    if |events| == 0 then []
    else
      var last := events[|events| - 1];
      Select(events[..|events| - 1], kind) + (if Keeps(kind, last) then [last] else [])
  }

  lemma {:induction false} SelectAppend(a: seq<Event>, b: seq<Event>, kind: Kind)
    ensures Select(a + b, kind) == Select(a, kind) + Select(b, kind)
    decreases |b|
  {
    if |b| > 0 {
      var b' := b[..|b| - 1];
      assert (a + b)[..|a + b| - 1] == a + b';
      SelectAppend(a, b', kind);
    } else {
      assert a + b == a;
    }
  }

  lemma SelectSingle(e: Event, kind: Kind)
    ensures Select([e], kind) == if Keeps(kind, e) then [e] else []
  {
    assert [e][..0] == [];
  }

  /** What each selection keeps of the events of one plan position. */
  lemma StepSelections(pos: nat, frameIndex: int, out: Option<Image>, total: nat, progress: bool, kind: Kind)
    ensures var line, tick := Log(Report(pos, frameIndex, out)), Progress(pos + 1, total);
      Select(StepEvents(pos, frameIndex, out, total, progress), kind)
        == (if Keeps(kind, line) then [line] else []) + (if progress && Keeps(kind, tick) then [tick] else [])
  {
    var line, tick := Log(Report(pos, frameIndex, out)), Progress(pos + 1, total);
    SelectSingle(line, kind);
    if progress {
      SelectAppend([line], [tick], kind);
      SelectSingle(tick, kind);
    } else {
      assert StepEvents(pos, frameIndex, out, total, progress) == [line];
    }
  }

  /** Selecting from the trace of k + 1 positions: the first k, then the last one. */
  lemma SelectTraceStep(plan: seq<int>, outs: seq<Option<Image>>, total: nat, progress: bool, kind: Kind)
    requires 0 < |outs| <= |plan|
    ensures var k := |outs| - 1;
      var line, tick := Log(Report(k, plan[k], outs[k])), Progress(k + 1, total);
      Select(Trace(plan, outs, total, progress), kind)
        == Select(Trace(plan, outs[..k], total, progress), kind)
           + (if Keeps(kind, line) then [line] else []) + (if progress && Keeps(kind, tick) then [tick] else [])
  {
    var k := |outs| - 1;
    var before, step := Trace(plan, outs[..k], total, progress), StepEvents(k, plan[k], outs[k], total, progress);
    assert Trace(plan, outs, total, progress) == before + step;
    SelectAppend(before, step, kind);
    StepSelections(k, plan[k], outs[k], total, progress, kind);
  }

  /**
   * The progress callback, when there is one, is called once per plan
   * position as (i + 1, K), in order, whether the position was written or
   * skipped; without a callback nothing is reported.
   */
  lemma {:induction false} ProgressOncePerPosition(plan: seq<int>, outs: seq<Option<Image>>, total: nat, progress: bool)
    requires |outs| <= |plan|
    ensures var calls := Select(Trace(plan, outs, total, progress), ProgressCall);
      && |calls| == (if progress then |outs| else 0)
      && forall j :: 0 <= j < |calls| ==> calls[j] == Progress(j + 1, total)
    decreases |outs|
  {
    if |outs| > 0 {
      var k := |outs| - 1;
      ProgressOncePerPosition(plan, outs[..k], total, progress);
      SelectTraceStep(plan, outs, total, progress, ProgressCall);
    }
  }

  /**
   * Every plan position logs exactly one frame-level line, in plan order:
   * the saved name `frame_{i+1:04d}.png` when it was written, a warning
   * naming the source frame index when it was skipped.
   */
  lemma {:induction false} OneReportPerPosition(plan: seq<int>, outs: seq<Option<Image>>, total: nat, progress: bool)
    requires |outs| <= |plan|
    ensures var reports := Select(Trace(plan, outs, total, progress), FrameReport);
      && |reports| == |outs|
      && forall j :: 0 <= j < |outs| ==> reports[j] == Log(Report(j, plan[j], outs[j]))
  {
    ReportsOfTrace(plan, outs, total, progress);
    ReportsAt(plan, outs);
  }

  /** The frame-level lines of the first |outs| positions, one each. */
  function Reports(plan: seq<int>, outs: seq<Option<Image>>): seq<Event>
    requires |outs| <= |plan|
    decreases |outs|
  {
    if |outs| == 0 then []
    else
      var k := |outs| - 1;
      Reports(plan, outs[..k]) + [Log(Report(k, plan[k], outs[k]))]
  }

  lemma {:induction false} ReportsOfTrace(plan: seq<int>, outs: seq<Option<Image>>, total: nat, progress: bool)
    requires |outs| <= |plan|
    ensures Select(Trace(plan, outs, total, progress), FrameReport) == Reports(plan, outs)
    decreases |outs|
  {
    if |outs| > 0 {
      ReportsOfTrace(plan, outs[..|outs| - 1], total, progress);
      SelectTraceStep(plan, outs, total, progress, FrameReport);
    }
  }

  lemma {:induction false} ReportsAt(plan: seq<int>, outs: seq<Option<Image>>)
    requires |outs| <= |plan|
    ensures |Reports(plan, outs)| == |outs|
    ensures forall j :: 0 <= j < |outs| ==> Reports(plan, outs)[j] == Log(Report(j, plan[j], outs[j]))
    decreases |outs|
  {
    if |outs| > 0 {
      var k := |outs| - 1;
      ReportsAt(plan, outs[..k]);
      forall j | 0 <= j < k
        ensures Reports(plan, outs)[j] == Log(Report(j, plan[j], outs[j]))
      {
        assert outs[..k][j] == outs[j];
      }
    }
  }

  /** Number of plan positions that produce a picture. */
  function Successes(outs: seq<Option<Image>>): (n: nat)
    ensures n <= |outs|
    decreases |outs|
  {
    if |outs| == 0 then 0
    else Successes(outs[..|outs| - 1]) + (if outs[|outs| - 1].Some? then 1 else 0)
  }

  /** One saved line per written position. */
  lemma {:induction false} SavedCount(plan: seq<int>, outs: seq<Option<Image>>, total: nat, progress: bool)
    requires |outs| <= |plan|
    ensures |Select(Trace(plan, outs, total, progress), SavedReport)| == Successes(outs)
    decreases |outs|
  {
    if |outs| > 0 {
      var k := |outs| - 1;
      SavedCount(plan, outs[..k], total, progress);
      SelectTraceStep(plan, outs, total, progress, SavedReport);
    }
  }

  /**
   * One warning per skipped position, so saved lines and warnings together
   * account for every plan position.
   */
  lemma {:induction false} SkippedCount(plan: seq<int>, outs: seq<Option<Image>>, total: nat, progress: bool)
    requires |outs| <= |plan|
    ensures |Select(Trace(plan, outs, total, progress), SkipWarning)| == |outs| - Successes(outs)
    decreases |outs|
  {
    if |outs| > 0 {
      var k := |outs| - 1;
      SkippedCount(plan, outs[..k], total, progress);
      SelectTraceStep(plan, outs, total, progress, SkipWarning);
    }
  }

  // ----- Properties of the written files -----

  /** The picture the run writes under `name`, if `name` is a frame name of it. */
  function WrittenAt(outs: seq<Option<Image>>, name: string): Option<Image>
  {
    match ParseFrameName(name)
    case Some(n) => if 1 <= n <= |outs| then outs[n - 1] else None
    case None => None
  }

  /**
   * The directory after the loop, name by name: `frame_{i+1:04d}.png` holds
   * the picture of position i when that position was written (unless a
   * subdirectory has that name); every other name is as before.  Skipped
   * positions keep their number: no later file is renumbered.
   */
  lemma {:induction false} ExportedDirAt(dir: map<string, Entry>, outs: seq<Option<Image>>, name: string)
    ensures Get(ExportedDir(dir, outs), name)
      == if WrittenAt(outs, name).Some? && !IsDir(dir, name) then Some(File(WrittenAt(outs, name).value))
         else Get(dir, name)
    decreases |outs|
  {
    if |outs| > 0 {
      var m := |outs|;
      var pre := outs[..m - 1];
      ExportedDirAt(dir, pre, name);
      if name == FrameName(m) {
        WrittenAtOwnName(outs);
      } else {
        WrittenAtOtherName(outs, name);
      }
    }
  }

  /** The last position's name holds its picture; earlier positions never use that name. */
  lemma WrittenAtOwnName(outs: seq<Option<Image>>)
    requires |outs| > 0
    ensures WrittenAt(outs, FrameName(|outs|)) == outs[|outs| - 1]
    ensures WrittenAt(outs[..|outs| - 1], FrameName(|outs|)).None?
  {
    FrameNameParses(|outs|);
  }

  /** A name that is not the last position's is unaffected by that position. */
  lemma WrittenAtOtherName(outs: seq<Option<Image>>, name: string)
    requires |outs| > 0 && name != FrameName(|outs|)
    ensures WrittenAt(outs, name) == WrittenAt(outs[..|outs| - 1], name)
  {
    FrameNameRoundTrip(name, |outs|);
  }
}
