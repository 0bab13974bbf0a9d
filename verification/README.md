# Frame sampler of the MP4-to-PNG converter

The converter samples K frames from a video, evenly spread from the first frame to the last. It resizes each sample and writes it to an output directory as `frame_0001.png`, `frame_0002.png`, …. The model covers that core, which is the function `mp4_to_png_sequence` and the parameter check the window runs before calling it. It consists of:

- **SamplingPlan**: the frame indices `np.linspace(0, N - 1, K, dtype=int)` as an exact integer formula. Index i is `floor(i * (N - 1) / (K - 1))`, or 0 when K = 1.
- **FrameNames**: the name `frame_{n:04d}.png`, and a parser that inverts it.
- **OutputDir**: the output directory as a map from names to entries (regular file or subdirectory). Best-effort clearing is a method whose loop walks a snapshot of the listing. A removal oracle (the set `locked` of names whose removal raises) decides which removals fail.
- **Export**: the per-frame loop as a method. It takes two oracles: the decoder (`grab`: seek to a frame index and read) and the resizer. It produces the new directory and the trace of logger and progress-callback calls, one event trace in call order.
- **Converter**: the whole conversion, with its fatal errors in the order the code checks them. It also models the window's job validation and the dialog the window ends with.

The code's behaviour on four points that are easy to get wrong:

- **Rounding.** The sample indices are floored, because the integer cast truncates non-negative values. They are not rounded to nearest.
- **Releasing the video.** The capture is released only after an empty video is detected, and after the loop. It is not released on every exit: an open failure, a negative count, a failed `makedirs` or a failed `os.listdir` leave it unreleased.
- **Zero and negative counts.** K = 0 is accepted by the conversion function and writes nothing. A negative K makes `linspace` raise.
- **Return value.** The function returns nothing, not a summary of written and skipped counts. Those counts are instead proved about the trace.

## Model

| member | source | states |
|---|---|---|
| SamplingPlan.Index | main.py:44 | sample i of K over N frames lies in [0, N-1]; the first sample is 0; with K >= 2 the last sample is N-1 |
| SamplingPlan.Plan | main.py:44 | the plan has exactly K entries, all in [0, N-1], starting at 0 and, for K >= 2, ending at N-1 |
| SamplingPlan.PlanNondecreasing | main.py:44 | plan indices never decrease along the plan |
| SamplingPlan.PlanEvenlySpaced | main.py:44 | consecutive indices differ by floor((N-1)/(K-1)) or by one more |
| SamplingPlan.PlanStrictWithoutOversampling | main.py:44 | with K <= N the plan is strictly increasing, so no frame is read twice |
| SamplingPlan.PlanRepeatsWhenOversampling | main.py:44 | with K > N the plan does not fail; some frame appears at two consecutive positions |
| SamplingPlan.PlanOfHundredFramesTenSamples | main.py:44 | 100 frames sampled 10 times gives 0, 11, ..., 99 |
| SamplingPlan.PlanOfFiveFramesTenSamples | main.py:44 | 5 frames sampled 10 times gives the floored, repeating plan 0,0,0,1,1,2,2,3,3,4 |
| FrameNames.FrameNameLength | main.py:73 | names have four zero-padded digits (14 characters) up to 9999, and are longer beyond |
| FrameNames.FrameNameRoundTrip | main.py:73 | a name parses to n exactly when it is the name written for position n |
| FrameNames.FrameNameInjective | main.py:73 | two different positions never share a file name |
| OutputDir.ClearDirectory | main.py:46-53 | every regular file whose removal succeeds is gone; subdirectories stay; a failed removal leaves that file and the walk goes on; nothing that remains is changed |
| OutputDir.ClearedIdempotent | main.py:46-53 | clearing an already cleared directory changes nothing |
| Export.ExportFrames | main.py:56-78 | the loop's directory is the plan's outcomes written in order under their position names; its trace is one report line plus (with a callback) one progress call per position |
| Export.ProgressOncePerPosition | main.py:56-78 | the progress calls are (1,K), (2,K), ..., (K,K) in order, written or skipped alike; there are none without a callback |
| Export.OneReportPerPosition | main.py:56-75 | each position logs exactly one frame line, in plan order: saved with its position number, or a warning naming its frame index |
| Export.SavedCount | main.py:73-75 | the number of saved lines equals the number of positions that produced a picture |
| Export.SkippedCount | main.py:59-71 | the number of warnings equals the number of skipped positions, so saved + skipped = K |
| Export.ExportedDirAt | main.py:56-74 | after the loop, frame_{i+1:04d}.png holds the picture of position i when that position was written (unless a subdirectory has that name); every other name is unchanged; skipped positions keep their number |
| Converter.Convert | main.py:24-81 | the error raised follows the checks in code order; on any error, a directory that cannot be listed included, the output path is untouched and only the info lines are logged; the capture is released exactly on success or an empty video; on success the directory is the cleared one with the frames written and the trace is info, cleared, the loop's trace, complete |
| Converter.RunDirectoryAt | main.py:46-74 | after a successful run a name holds this run's frame, or a subdirectory that was there, or a file whose removal failed and that no frame replaced; every other earlier file, stale frames included, is gone |
| Converter.RerunIdempotent | main.py:46-74 | repeating the same job with the same decoder and resizer behaviour and the same failing removals leaves the directory as the first run left it |
| Converter.RunProgress | main.py:56-81 | over a whole run the progress calls are exactly (1,K), ..., (K,K) |
| Converter.ValidateJob | main.py:283-298 | a job is accepted exactly when a source and an output directory are chosen and width, height and count are positive; each rejection names the first failing check |
| Converter.StartConversion | main.py:282-322 | a rejected job touches neither the video nor the disk and logs nothing; an accepted job ends in an error dialog exactly when the conversion raises, and otherwise in the done dialog with K >= 1, the exported directory, progress calls (1,K), ..., (K,K), and a final completion line |

## Left out

- The Tkinter window is not modelled: its layout, file pickers, language menu, message boxes, cursor and log box (main.py:84-280, 300-305). Only the checks and the call of `start_conversion` are modelled.
- Language loading and the translated message texts are not modelled (main.py:11-16). Log lines are data: the saved line carries the 1-based position number, whose file name is `FrameNames.FrameName` of it.
- Frames per second and duration are floating point (main.py:28, 32, 37-38). They appear only in log text and are left out. The five info lines (main.py:34-38) are one `VideoInfo` event, which keeps width, height and frame count.
- SamplingPlan.Plan: the exact floor of the rational value is modelled, not numpy's floating-point evaluation, and the plan lemmas hold for the exact formula only. The two differ next to an integer boundary. For `linspace(0, 2, 99, dtype=int)`, numpy multiplies 49 by the double nearest to 2/98. The product is just below 1 and floors to 0, while `Plan(3, 99)[49]` is 1.
- OpenCV is modelled only as oracles: opening, the metadata queries, seeking and reading, and resizing. Reading is a function of the frame index, so a decoder whose result depends on earlier reads is not modelled.
- Write failures are not modelled: `imwrite`'s result is ignored and the saved line is logged regardless (main.py:74-75). Write onto a name held by a subdirectory leaves the directory; any other write succeeds.
- The listing order of `os.listdir` is arbitrary, so the clearing loop picks names in an unspecified order. Its result does not depend on the order.
- Only regular files and subdirectories are modelled. Symbolic links and special files are not.
- `makedirs` failing for reasons other than the path being a file (permissions, a missing parent that cannot be created) is not modelled. An existing directory that `os.listdir` cannot read is modelled, as the `CannotListOutput` error.
- The `int()` conversions of the window's fields can raise on non-numeric text (main.py:290-292). The model takes integers.
- Messages of the raised exceptions are not modelled; the exceptions are modelled by kind only.
