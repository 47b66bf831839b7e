# Speed and distance estimator

A Dafny model of the `SpeedAndDistance_Estimator` class of a football-video
analysis pipeline. The pipeline tracks players, referees and the ball (and any
other class the tracker emits). For each object class and each video frame, it keeps a map from track id
to a record. The record holds a bounding box and a position on the pitch in
metres (`position_transformed`).

The estimator works through every object class in the store's key order and
skips `"ball"` and `"referees"`. It cuts the class's `N` frames into windows that
start every `frame_window` (5) frames. Window `w` runs from `w * 5` to
`min(w * 5 + 5, N - 1)`. For each track present at both ends with a position at
both ends, it:

- measures the distance covered;
- turns the distance into km/h at `frame_rate` (24) frames per second;
- adds the distance to the track's running total and appends the speed to its
  list of samples;
- writes the speed and the new running total into the track's records in the
  frames `[start, end)`.

`export_to_csv` then turns each (class, track) entry of the accumulators into a
row:

- the average and the maximum of its speed samples;
- its total distance;
- its number of samples.

It returns no result when there is no entry.

The model has five modules:

- `Tracks` (`tracks.dfy`): the track store, a class whose `frames` map is updated
  in place, and its records.
- `Windows` (`windows.dfy`): the index arithmetic of the windows.
- `Measurement` (`measurement.dfy`): what one window does for one track. It also
  gives the closed-form state after `k` windows:
  - `Readings`: the measurements of the windows so far, in window order;
  - `TalliesAfter`: what the accumulators hold;
  - `FramesAfter` / `Expected`: what every record holds.
- `Summary` (`summary.dfy`): the export row of one track.
- `Estimator` (`estimator.dfy`): the estimator class. It has one method per loop
  of the source (classes, windows, track ids, write-back frames, export keys). Each
  method is proved against the closed-form state.

### The empty last window

When `(N - 1) % 5 == 0` the last window starts on frame `N - 1`. Its end is then
`min(N + 4, N - 1) = N - 1`, so the elapsed time is 0. Any track with a position
in that frame makes `distance / 0` raise `ZeroDivisionError`. This includes a
class with a single frame.

The model keeps this behaviour as the `ZeroDivisionError(objectName)` outcome:

- `DivisionFault` says exactly when a class raises, and `DivisionFaultIff`
  proves it.
- Since this is always the last window, every earlier window of that class has
  already been applied, and the empty window itself changes nothing.
- The classes before the faulting class are fully applied and later classes are
  untouched (`PassOutcome`).

The exception propagates to the caller. This is how the code is written, and the
model states it rather than ruling it out.

## Model

| member | source | states |
|---|---|---|
| Estimator.SpeedAndDistanceEstimator.constructor | speed_and_distance_estimator/speed_and_distance_estimator.py:9-13 | window of 5 frames, 24 frames per second, both accumulators empty |
| Estimator.SpeedAndDistanceEstimator.AddSpeedAndDistanceToTracks | speed_and_distance_estimator/speed_and_distance_estimator.py:15-57 | `PassOutcome`: it completes iff no analysed class has a division fault; when it raises, it names an analysed faulting class and every analysed class before it is fault-free; every analysed class it reached ends as `ObjectAnalyzed` (totals, samples and records as the closed form after all windows) and every other class keeps its accumulator entries and frames; class list and frame keys are unchanged and the accumulators stay consistent |
| Estimator.BallAndRefereesUntouched | speed_and_distance_estimator/speed_and_distance_estimator.py:16-18 | after any pass, `"ball"` and `"referees"` have the same accumulator entries (or none) and the same frames as before |
| Estimator.PassSkip | speed_and_distance_estimator/speed_and_distance_estimator.py:17-18 | passing over the ball or the referees extends the pass without analysing the class |
| Estimator.PassAnalyzed | speed_and_distance_estimator/speed_and_distance_estimator.py:16-57 | analysing the next class, which changes only that class, adds it to the set of analysed classes |
| Estimator.PassNext | speed_and_distance_estimator/speed_and_distance_estimator.py:16-21 | a class without a fault lets the pass continue with the next class |
| Estimator.PassFault | speed_and_distance_estimator/speed_and_distance_estimator.py:35-36 | a class with a fault ends the pass with `ZeroDivisionError` naming it, with every earlier class settled |
| Estimator.PassComplete | speed_and_distance_estimator/speed_and_distance_estimator.py:16 | a pass through every class completes, and every analysed class is fault-free |
| Estimator.PassStart | speed_and_distance_estimator/speed_and_distance_estimator.py:16 | before the first class nothing has been analysed and nothing has changed |
| Estimator.ProgressStep | speed_and_distance_estimator/speed_and_distance_estimator.py:16-57 | an analysed class keeps its final state while later classes are analysed |
| Estimator.Reached | speed_and_distance_estimator/speed_and_distance_estimator.py:16 | how many classes of the key order a pass reached: all of them, or up to and including the class that raised; the contract only bounds it by the number of classes, and what the reached classes hold is stated by `PassOutcome` |
| Estimator.Analyzed | speed_and_distance_estimator/speed_and_distance_estimator.py:17 | the classes the pass analyses: every class other than `"ball"` and `"referees"` |
| Estimator.SpeedAndDistanceEstimator.AnalyzeObject | speed_and_distance_estimator/speed_and_distance_estimator.py:20-57 | only class `c`'s entries change; the result is normal iff the class has no division fault; either way every window of the class has been applied (`ObjectAnalyzed`) |
| Estimator.WindowsFinished | speed_and_distance_estimator/speed_and_distance_estimator.py:21 | when the window loop runs past the last frame, every window has been applied and none divided by zero |
| Estimator.WindowFaulted | speed_and_distance_estimator/speed_and_distance_estimator.py:35-36 | a window that divides by zero is the last window, the class has a division fault, and the class is already fully applied |
| Estimator.SpeedAndDistanceEstimator.AnalyzeWindow | speed_and_distance_estimator/speed_and_distance_estimator.py:24-57 | over every track id of the start frame, taken in any order: the result is normal iff no track divides by zero; a raising window is empty; afterwards the state is the closed form after one more window |
| Estimator.SpeedAndDistanceEstimator.AnalyzeTrack | speed_and_distance_estimator/speed_and_distance_estimator.py:25-57 | raises iff the window divides by zero for the track; a track the window does not measure (absent from the end frame, no position at an end, or an empty window) changes nothing at all; otherwise the track moves to its state after this window |
| Estimator.SpeedAndDistanceEstimator.ApplyReading | speed_and_distance_estimator/speed_and_distance_estimator.py:39-57 | a measured window for a track moves its totals, samples and records to their closed form after this window |
| Estimator.SpeedAndDistanceEstimator.Accumulate | speed_and_distance_estimator/speed_and_distance_estimator.py:39-50 | creates missing class and track entries (total 0, no samples), adds the distance to the total and appends the speed to the samples; nothing else changes and the two accumulators stay consistent |
| Estimator.ConsistentUpdate | speed_and_distance_estimator/speed_and_distance_estimator.py:40-50 | one accumulation keeps the two accumulators on equal keys with non-empty sample lists |
| Estimator.SpeedAndDistanceEstimator.WriteBackWindow | speed_and_distance_estimator/speed_and_distance_estimator.py:53-57 | the store becomes `WriteBack` of the old one: speed and distance set on the track's record in every frame of `[start, end)` where it is present; no other class, frame, key or record changes |
| Estimator.SpeedAndDistanceEstimator.ExportRows | speed_and_distance_estimator/speed_and_distance_estimator.py:84-121 | `None` iff the accumulators have no entry; otherwise one row per (class, track) entry with no entry twice, each row being `SummaryRow` of that entry |
| Tracks.Annotated | speed_and_distance_estimator/speed_and_distance_estimator.py:56-57 | a record with its `speed` and `distance` set and every other field kept |
| Tracks.TrackStore.Annotate | speed_and_distance_estimator/speed_and_distance_estimator.py:56-57 | sets the `speed` and `distance` of one record; every other record and key stays |
| Tracks.IndexOf | speed_and_distance_estimator/speed_and_distance_estimator.py:16 | the position of the first occurrence of a class in the key order, or the length when absent |
| Windows.Range | speed_and_distance_estimator/speed_and_distance_estimator.py:21 | Python's `range(from, to, step)` for a positive step |
| Windows.NumWindows | speed_and_distance_estimator/speed_and_distance_estimator.py:21 | the number of windows, `ceil(N / fw)` |
| Windows.WindowEnd | speed_and_distance_estimator/speed_and_distance_estimator.py:22 | `min(start + fw, N - 1)` |
| Windows.WindowStarts | speed_and_distance_estimator/speed_and_distance_estimator.py:21 | `range(0, N, fw)` has `NumWindows(N, fw)` elements, the `w`-th is `w * fw`, and its elements are exactly the multiples of `fw` below `N` |
| Windows.RangeShape | speed_and_distance_estimator/speed_and_distance_estimator.py:21 | the `i`-th element of `range(from, to, step)` is `from + i * step`, and index `i` exists iff that value is below `to` |
| Windows.WindowExists | speed_and_distance_estimator/speed_and_distance_estimator.py:21 | window `w` exists iff it starts before frame `N` |
| Windows.WindowCount | speed_and_distance_estimator/speed_and_distance_estimator.py:21 | the window loop ends after exactly `NumWindows(N, fw)` windows |
| Windows.WindowBounds | speed_and_distance_estimator/speed_and_distance_estimator.py:22 | a window's end is at least its start, at most `fw` after it and at most `N - 1`, and is one of the two clamp values |
| Windows.WindowsDisjoint | speed_and_distance_estimator/speed_and_distance_estimator.py:53 | the write-back ranges `[start, end)` of two different windows do not overlap |
| Windows.LastFrameNeverWritten | speed_and_distance_estimator/speed_and_distance_estimator.py:53 | frame `N - 1` is never in a write-back range |
| Windows.WindowOfFrame | speed_and_distance_estimator/speed_and_distance_estimator.py:53 | frame `g` can only be written by window `g / fw` |
| Windows.EmptyWindow | speed_and_distance_estimator/speed_and_distance_estimator.py:22 | a window is empty iff it starts on frame `N - 1`, which happens iff `(N - 1) % fw == 0`, and then it is the last window |
| Measurement.SpeedKmh | speed_and_distance_estimator/speed_and_distance_estimator.py:35-37 | `distance / ((end - start) / frame_rate) * 3.6`, in that order of operations |
| Measurement.Measure | speed_and_distance_estimator/speed_and_distance_estimator.py:24-37 | what window `w` does to track `x`: skipped when the track is missing from the end frame or has no position at either end; `DivisionByZero` when it has both positions and the window is empty; otherwise the measured distance and `SpeedKmh` of it |
| Measurement.Expected | speed_and_distance_estimator/speed_and_distance_estimator.py:53-57 | a record after `n` windows: the original record with `speed` and `distance` set by the window that covers its frame, if that window has been applied, writes the frame and measured the track; otherwise the original record |
| Measurement.WriteBack | speed_and_distance_estimator/speed_and_distance_estimator.py:53-57 | the frames after the write-back loop: the track's record in every frame of `[from, to)` where it is present annotated, every other record as it was |
| Measurement.DivisionFault | speed_and_distance_estimator/speed_and_distance_estimator.py:22-36 | a class raises when it is non-empty, `N - 1` is a multiple of the window length, and some track has a position in frame `N - 1` |
| Measurement.SpeedFormula | speed_and_distance_estimator/speed_and_distance_estimator.py:35-37 | the speed equals `distance * 3.6 * frame_rate / (end - start)` and is non-negative for a non-negative distance |
| Measurement.SpeedExample | speed_and_distance_estimator/speed_and_distance_estimator.py:35-37 | 5 m over 5 frames at 24 frames per second is 86.4 km/h |
| Measurement.MeasureCases | speed_and_distance_estimator/speed_and_distance_estimator.py:24-37 | a window skips a track iff the track is absent from an end or lacks a position there; it divides by zero iff the track is present with positions at both ends of an empty window; otherwise it measures `measure(start, end)` and the speed formula |
| Measurement.MeasuredNonNegative | speed_and_distance_estimator/speed_and_distance_estimator.py:34-37 | with a non-negative distance function a measured distance and speed are non-negative |
| Measurement.Readings | speed_and_distance_estimator/speed_and_distance_estimator.py:49-50 | the readings of a track in windows `0 .. k-1`, in window order; the contract only bounds their number by `k`, and the exact count is `ReadingsCount` |
| Measurement.ReadingsCount | speed_and_distance_estimator/speed_and_distance_estimator.py:50 | a track has exactly one reading per window that measured it |
| Measurement.SpeedsLength | speed_and_distance_estimator/speed_and_distance_estimator.py:50 | one speed sample per reading |
| Measurement.ReadingsNonNegative | speed_and_distance_estimator/speed_and_distance_estimator.py:49-50 | with a non-negative distance function, the summed distances and every speed sample are non-negative |
| Measurement.SamplesPerWindow | speed_and_distance_estimator/speed_and_distance_estimator.py:40-50 | after the windows of a class, a track has an entry iff it had one or some window measured it; its total is the old total plus the measured distances in window order, and it has one more sample per measuring window |
| Measurement.TalliesGrow | speed_and_distance_estimator/speed_and_distance_estimator.py:40-50 | accumulators are never reset: existing entries stay, an existing total gains exactly the distances of the new windows, and old samples remain a prefix of the new ones |
| Measurement.TalliesDetermined | speed_and_distance_estimator/speed_and_distance_estimator.py:40-50 | the accumulators after the windows of a class are determined by the state before and the frames, whatever the order of track ids |
| Measurement.TalliesStart | speed_and_distance_estimator/speed_and_distance_estimator.py:21 | before any window the accumulators are the closed form after zero windows |
| Measurement.FramesStart | speed_and_distance_estimator/speed_and_distance_estimator.py:21 | before any window every record is the original one |
| Measurement.TalliesSkipStep | speed_and_distance_estimator/speed_and_distance_estimator.py:25-32 | a window that does not measure a track leaves its entries of one class at the closed form |
| Measurement.SkipStep | speed_and_distance_estimator/speed_and_distance_estimator.py:25-32 | the same for the nested class maps |
| Measurement.FramesSkipStep | speed_and_distance_estimator/speed_and_distance_estimator.py:25-32 | a window that does not measure a track leaves its records at the closed form |
| Measurement.TalliesMeasuredStep | speed_and_distance_estimator/speed_and_distance_estimator.py:44-50 | adding the window's distance and appending its speed to one class's maps gives the closed form with this window counted |
| Measurement.MeasuredStep | speed_and_distance_estimator/speed_and_distance_estimator.py:40-50 | the same for the nested class maps, and the new total is the track's cumulative distance as of this window |
| Measurement.FramesMeasuredStep | speed_and_distance_estimator/speed_and_distance_estimator.py:53-57 | writing the window's speed and cumulative distance back gives every record its closed form with this window counted |
| Measurement.WriteBackRecord | speed_and_distance_estimator/speed_and_distance_estimator.py:53-57 | the write-back for one track brings every record of every track to the closed form |
| Measurement.WriteBackOwnRecord | speed_and_distance_estimator/speed_and_distance_estimator.py:53-57 | the measured track's record in frame `g` is annotated by this write-back when `g` is in the window's range, and otherwise is as it was; either way it equals `Expected` after k+1 windows |
| Measurement.FramesAfterShape | speed_and_distance_estimator/speed_and_distance_estimator.py:53-57 | only `speed` and `distance` ever change: frame keys, positions and boxes stay |
| Measurement.Advance | speed_and_distance_estimator/speed_and_distance_estimator.py:24 | once every track id of the start frame is handled, the state is the closed form after one more window |
| Measurement.DivisionFaultIff | speed_and_distance_estimator/speed_and_distance_estimator.py:22-36 | some window divides by zero iff `N - 1` is a multiple of `fw` and some track has a position in frame `N - 1` |
| Measurement.EmptyWindowMeasuresNothing | speed_and_distance_estimator/speed_and_distance_estimator.py:35-36 | an empty window measures no track and is the last window |
| Summary.Sum | speed_and_distance_estimator/speed_and_distance_estimator.py:92 | Python's `sum` of the samples, added left to right from 0 |
| Summary.Mean | speed_and_distance_estimator/speed_and_distance_estimator.py:92 | `sum(samples) / len(samples)` |
| Summary.Max | speed_and_distance_estimator/speed_and_distance_estimator.py:93 | the maximum is one of the samples and bounds all of them |
| Summary.MeanBounds | speed_and_distance_estimator/speed_and_distance_estimator.py:92-93 | the average lies between any lower bound of the samples and their maximum |
| Summary.MeanRepeat | speed_and_distance_estimator/speed_and_distance_estimator.py:92 | `sum(samples) / len(samples)` added up `len(samples)` times gives back the sum |
| Summary.RowAverage | speed_and_distance_estimator/speed_and_distance_estimator.py:92-110 | the row's average, added up once per counted sample, gives back the sum of the samples, so it is `sum / len` |
| Summary.SummaryRow | speed_and_distance_estimator/speed_and_distance_estimator.py:103-111 | player id and total distance carried over; sample count is `len(samples) >= 1`; the maximum is a sample and bounds them all; the average is at most the maximum and at least some sample; non-negative samples give a non-negative average |

## Left out

- `draw_speed_and_distance` (lines 59-82) is not modelled. It draws text on
  video frames with OpenCV and uses `get_foot_position`, which is not part of this
  model.
- `export_to_csv` has side effects that are not modelled: the directory
  creation, the pandas `DataFrame`, the CSV file, the `print` calls and the
  returned path. `ExportRows` returns the rows as `Some(rows)` where the source
  writes a file and returns its path, and `None` where the source returns `None`.
- The team lookup in `export_to_csv` (lines 96-101) is not modelled. Its result
  is never used because the `team` column is commented out. For the same reason
  `ExportRows` takes no track store.
- `measure_distance` is not part of this model. It is a parameter
  `measure: (Position, Position) -> real` with no properties. Non-negativity is
  assumed only by the lemmas that need it (`MeasuredNonNegative`,
  `ReadingsNonNegative`).
- Floating-point arithmetic is not modelled; all arithmetic is on `real`. The
  first total of a track is the integer `0` in the source and `0.0` here.
- Python's dictionary iteration order is modelled only for the object classes,
  as the store's key order. Track ids within a frame and keys in the export are
  taken in an arbitrary order (`:|`). The results do not depend on it
  (`TalliesDetermined`, and the pointwise contracts of `AnalyzeWindow` and
  `ExportRows`). The export states one row per entry, not a particular row
  order.
- Every record is assumed to have a `position_transformed` key. The view
  transformer (`main.py:36`) sets it on the records of the analysed classes; the
  ball's records are replaced at `main.py:39`, but the estimator never reads
  them. A record without the key makes the subscript at lines 28-29 raise `KeyError` and abort the pass;
  the model has no such outcome. `position == None` stands for the key holding
  `None`, which is the silent skip at lines 31-32.
- Records hold only `bbox`, `position`, `speed` and `distance`. Other fields
  (team, colour, ball possession) are not modelled.
- Aliasing is not modelled. In the source, the same record dictionary could be
  shared between frames. The model treats every record as a value, written
  separately.
