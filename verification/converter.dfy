/**
 * The conversion entry point `mp4_to_png_sequence` and the parameter check
 * the window runs before calling it.  The video is an oracle: whether it
 * opens, the metadata it reports, and what each seek-and-read returns.
 */
module Converter {
  import opened Wrappers
  import opened SamplingPlan
  import opened OutputDir
  import opened Export

  /**
   * An opened (or unopenable) source video: `isOpened()`, the reported
   * frame count, width and height (already truncated to integers), and the
   * result of seeking to a frame index and reading.
   */
  datatype Video = Video(opens: bool, frameCount: int, width: int, height: int, grab: int -> Capture)

  /**
   * What the output path names on disk: nothing yet, a regular file, a
   * directory that cannot be listed (`os.listdir` raises), or a directory
   * with its entries.
   */
  datatype OutputPath = Missing | NotADirectory | Unlistable | Directory(entries: map<string, Entry>)

  /** The exceptions that abort a conversion. */
  datatype ConversionError =
    | CannotOpen(path: string)     // IOError: the capture did not open
    | NoFrames                     // IOError: the frame count is not positive
    | NegativeCount                // ValueError from linspace: fewer than zero samples
    | OutputNotADirectory          // makedirs: the output path exists and is a file
    | CannotListOutput             // listdir: the existing directory cannot be read

  /** The error a conversion raises, in the order the checks run; None if it runs to the end. */
  function FatalError(source: string, video: Video, out: OutputPath, count: int): Option<ConversionError>
  {
    if !video.opens then Some(CannotOpen(source))
    else if video.frameCount <= 0 then Some(NoFrames)
    else if count < 0 then Some(NegativeCount)
    else if out.NotADirectory? then Some(OutputNotADirectory)
    else if out.Unlistable? then Some(CannotListOutput)
    else None
  }

  /** The entries found at the output path (none when it is created). */
  function EntriesOf(out: OutputPath): map<string, Entry>
  {
    if out.Directory? then out.entries else map[]
  }

  function InfoLine(video: Video): Event
  {
    Log(VideoInfo(video.width, video.height, video.frameCount))
  }

  /**
   * `mp4_to_png_sequence`: open and inspect the video, build the plan,
   * create or clear the output directory, export every plan position.
   * A fatal error leaves the output path as it was: it is raised before the
   * directory is created or cleared.  The capture is released only after
   * an empty video is detected and after the loop; an open failure, a bad
   * count, a makedirs failure or a listdir failure leave it unreleased.
   */
  method Convert(source: string, video: Video, out: OutputPath, width: int, height: int, count: int,
                 resize: Resizer, locked: set<string>, progress: bool)
    returns (error: Option<ConversionError>, out': OutputPath, trace: seq<Event>, released: bool)
    ensures error == FatalError(source, video, out, count)
    ensures error.Some? ==> out' == out
    ensures error.Some? ==> trace == if video.opens then [InfoLine(video)] else []
    ensures released <==> error.None? || error == Some(NoFrames)
    ensures error.None? ==>
      var outs := Outcomes(Plan(video.frameCount, count), video.grab, resize, width, height);
      && out' == Directory(ExportedDir(Cleared(EntriesOf(out), locked), outs))
      && trace == [InfoLine(video), Log(ClearedOutputDir)]
                  + Trace(Plan(video.frameCount, count), outs, count, progress)
                  + [Log(ConversionComplete)]
  {
    out', trace, released := out, [], false;
    if !video.opens {
      error := Some(CannotOpen(source));
      return;
    }
    trace := [InfoLine(video)];
    if video.frameCount <= 0 {
      released := true;
      error := Some(NoFrames);
      return;
    }
    if count < 0 {
      error := Some(NegativeCount);
      return;
    }
    var plan := Plan(video.frameCount, count);
    if out.NotADirectory? {
      error := Some(OutputNotADirectory);
      return;
    }
    if out.Unlistable? {
      error := Some(CannotListOutput);
      return;
    }
    var entries := ClearDirectory(EntriesOf(out), locked);
    trace := trace + [Log(ClearedOutputDir)];
    var steps;
    entries, steps := ExportFrames(plan, video.grab, resize, width, height, progress, entries);
    released := true;
    trace := trace + steps + [Log(ConversionComplete)];
    out' := Directory(entries);
    error := None;
  }

  /**
   * The output directory after a successful run, name by name: the frames
   * written by this run; the subdirectories that were there; the regular
   * files whose removal failed and that no frame overwrote.  Any other file
   * that was there before, stale frames of an earlier run included, is gone.
   */
  lemma RunDirectoryAt(entries: map<string, Entry>, locked: set<string>, outs: seq<Option<Image>>, name: string)
    ensures Get(ExportedDir(Cleared(entries, locked), outs), name)
      == if WrittenAt(outs, name).Some? && !IsDir(entries, name) then Some(File(WrittenAt(outs, name).value))
         else if name in entries && (entries[name].Dir? || name in locked) then Some(entries[name])
         else None
  {
    ExportedDirAt(Cleared(entries, locked), outs, name);
  }

  /**
   * Running the same job again, with the same decoder and resizer
   * behaviour and the same failing removals (`locked`), leaves the output
   * directory exactly as the first run left it.
   */
  lemma RerunIdempotent(entries: map<string, Entry>, locked: set<string>, outs: seq<Option<Image>>)
    ensures var first := ExportedDir(Cleared(entries, locked), outs);
      ExportedDir(Cleared(first, locked), outs) == first
  {
    var first := ExportedDir(Cleared(entries, locked), outs);
    var second := ExportedDir(Cleared(first, locked), outs);
    forall name
      ensures Get(second, name) == Get(first, name)
    {
      RunDirectoryAt(entries, locked, outs, name);
      RunDirectoryAt(first, locked, outs, name);
    }
    assert forall name :: name in second <==> Get(second, name).Some?;
    assert forall name :: name in first <==> Get(first, name).Some?;
    assert second.Keys == first.Keys;
    assert forall name :: name in second ==> second[name] == Get(second, name).value;
  }

  /**
   * In a whole run the only progress calls are those of the plan
   * positions: (1, K), (2, K), ..., (K, K).
   */
  lemma RunProgress(video: Video, plan: seq<int>, outs: seq<Option<Image>>, count: nat)
    requires |outs| == |plan| == count
    ensures var calls := Select([InfoLine(video), Log(ClearedOutputDir)] + Trace(plan, outs, count, true)
                                + [Log(ConversionComplete)], ProgressCall);
      && |calls| == count
      && forall j :: 0 <= j < count ==> calls[j] == Progress(j + 1, count)
  {
    var head, steps, tail := [InfoLine(video), Log(ClearedOutputDir)], Trace(plan, outs, count, true), [Log(ConversionComplete)];
    ProgressOncePerPosition(plan, outs, count, true);
    SelectAppend(head, steps, ProgressCall);
    SelectAppend(head + steps, tail, ProgressCall);
    SelectAppend([InfoLine(video)], [Log(ClearedOutputDir)], ProgressCall);
    SelectSingle(InfoLine(video), ProgressCall);
    SelectSingle(Log(ClearedOutputDir), ProgressCall);
    SelectSingle(Log(ConversionComplete), ProgressCall);
  }

  // ----- The window's parameter check -----

  datatype JobError = NoSourceSelected | NoOutputSelected | SizeNotPositive | CountNotPositive

  datatype Job = Job(source: string, outputDir: string, width: int, height: int, count: int)

  /**
   * The checks `start_conversion` makes before converting: a source and an
   * output directory must be chosen, then width and height must be
   * positive, then the frame count must be positive.
   */
  function ValidateJob(source: string, outputDir: string, width: int, height: int, count: int): (r: Result<Job, JobError>)
    ensures r.Success? <==> source != "" && outputDir != "" && width > 0 && height > 0 && count > 0
    ensures r.Success? ==> r.value == Job(source, outputDir, width, height, count)
    ensures source == "" ==> r == Failure(NoSourceSelected)
    ensures r == Failure(NoOutputSelected) <==> source != "" && outputDir == ""
    ensures r == Failure(SizeNotPositive) <==> source != "" && outputDir != "" && (width <= 0 || height <= 0)
    ensures r == Failure(CountNotPositive) <==> source != "" && outputDir != "" && width > 0 && height > 0 && count <= 0
  {
    if source == "" then Failure(NoSourceSelected)
    else if outputDir == "" then Failure(NoOutputSelected)
    else if width <= 0 || height <= 0 then Failure(SizeNotPositive)
    else if count <= 0 then Failure(CountNotPositive)
    else Success(Job(source, outputDir, width, height, count))
  }

  /** The dialog the window ends with. */
  datatype Dialog = Rejected(reason: JobError) | Failed(error: ConversionError) | Done

  /**
   * `start_conversion`: validate the job, and only if it is valid run the
   * conversion with a progress callback; an exception becomes an error
   * dialog.  A rejected job never reaches the decoder or the disk.
   */
  method StartConversion(source: string, outputDir: string, width: int, height: int, count: int,
                         video: Video, out: OutputPath, resize: Resizer, locked: set<string>)
    returns (dialog: Dialog, out': OutputPath, trace: seq<Event>, released: bool)
    ensures ValidateJob(source, outputDir, width, height, count).Failure? ==>
      && dialog == Rejected(ValidateJob(source, outputDir, width, height, count).error)
      && out' == out && trace == [] && !released
    ensures ValidateJob(source, outputDir, width, height, count).Success? ==>
      dialog == if FatalError(source, video, out, count).Some?
                then Failed(FatalError(source, video, out, count).value) else Done
    ensures !dialog.Done? ==> out' == out
    ensures dialog.Done? ==>
      && count > 0
      && out' == Directory(ExportedDir(Cleared(EntriesOf(out), locked),
                                       Outcomes(Plan(video.frameCount, count), video.grab, resize, width, height)))
      && |Select(trace, ProgressCall)| == count
      && (forall j :: 0 <= j < count ==> Select(trace, ProgressCall)[j] == Progress(j + 1, count))
      && trace[|trace| - 1] == Log(ConversionComplete)
  {
    var job := ValidateJob(source, outputDir, width, height, count);
    if job.Failure? {
      return Rejected(job.error), out, [], false;
    }
    var error;
    error, out', trace, released := Convert(source, video, out, width, height, count, resize, locked, true);
    if error.Some? {
      dialog := Failed(error.value);
    } else {
      dialog := Done;
      var plan := Plan(video.frameCount, count);
      RunProgress(video, plan, Outcomes(plan, video.grab, resize, width, height), count);
    }
  }
}
