# vid-split: verified model of the planner, the aspect geometry and the naming rules

vid-split is a single Python script (`main.py`) that walks an input directory
(`tosplit`), makes every `.mp4` in it portrait (9:16) with `ffmpeg`, and cuts it
into 120-second video-only segments after skipping the first 30 seconds. The
segments are written to `splitted/segment_<run id>_<index>.mp4`. Almost all of
the work is done by `ffprobe` and `ffmpeg`. This project models the script's own
logic in Dafny and proves its properties:

- **Segment planner** (`planner.dfy`, module `SegmentPlanner`). This is the loop
  in `process_video` that submits one `cut_segment` job per chunk. It is modelled
  as the method `Plan`, whose `while` loop appends each job to a sequence. The
  method is proved equal to the reference definition `PlanSpec`. Lemmas about
  `PlanSpec` prove the job count, contiguity, bounds, durations and total length.
  They also prove that every second after the lead-in is covered by exactly one
  job. The constants 120 and 30 become parameters `chunk > 0` and `skip`.
- **Aspect normalizer** (`aspect.dfy`, module `AspectNormalizer`). This is the
  decision and geometry of `ensure_tiktok_format`: keep the file, crop it, or pad
  it. The ratio test `abs(h/w - 16/9) < 0.01` is computed on integers as
  `100·|9h − 16w| < 9w`. A lemma proves this equals the test on exact real
  ratios, and another does the same for `h/w < 16/9`. A zero width is Python's
  `ZeroDivisionError`, modelled as the outcome `ZeroDivision`.
- **Naming** (`naming.dfy`, module `SegmentNaming`). This covers the `:03d` index
  field, the segment file name and the `.mp4` suffix test. The index field is
  proved to read back as the index, so distinct indices give distinct names.
- **Dispatcher** (`dispatcher.dfy`, module `Dispatcher`). This is the per-file
  pipeline `ProcessVideo` (normalize, plan, name the jobs) and the directory
  scan `RunBatch`, a loop over a given listing. The external calls are inputs:
  for each listed file, a `Probe` with the width, height, rounded-up duration
  and run id. An exception in `process_video` is not caught by the scan, so the
  first file whose width is zero ends the whole run; `Batch` and `RunBatch` stop
  there too.

Two consequences of the arithmetic as written, which the model keeps:

- A square frame such as 1080×1080 has `h/w = 1`, below 16/9, so it takes the
  crop branch: it is cropped to 607 columns at x = 236
  (`AspectNormalizer.WorkedCases`).
- The pad branch carries the comment "too narrow – pad top/bottom"
  (main.py:40). It runs only when `h/w` is at least 16/9, and it asks for
  `floor(16w/9)` rows. That is always fewer rows than the input has
  (`AspectNormalizer.PadGeometry`).

## Model

| member | source | states |
|---|---|---|
| `SegmentPlanner.CeilDiv` | main.py:86 | `math.ceil(a / b)` on exact rationals for `b > 0`: the result `q` is the least integer with `a <= q·b`, that is `(q−1)·b < a <= q·b` |
| `SegmentPlanner.ChunkCount` | main.py:86-90 | the number of loop iterations `n` is 0 exactly when `D <= skip`; otherwise `(n−1)·chunk < D − skip <= n·chunk`, that is `n = ceil((D − skip)/chunk)` |
| `SegmentPlanner.SegmentAt` | main.py:91-92 | job `i` lasts at most `chunk` seconds and ends no later than `D` |
| `SegmentPlanner.PlanSpec` | main.py:90-93 | the reference plan, job `i` for each `i` in `range(total_chunks)`, is empty exactly when `D <= skip` |
| `SegmentPlanner.Plan` | main.py:85-93 | the submission loop (`for i in range(total_chunks)`, with start `skip + i·chunk` and duration `min(chunk, D − skip − i·chunk)`) returns exactly `PlanSpec(D, skip, chunk)`, the jobs in submission order; `range` of a non-positive count is empty |
| `SegmentPlanner.PlanCount` | main.py:85-90 | no jobs when `D <= skip`; otherwise `n >= 1` jobs with `(n−1)·chunk < D − skip <= n·chunk`, that is `n = ceil((D − skip)/chunk)`; the plan never fails |
| `SegmentPlanner.PlanEmptyIff` | main.py:85-90 | the plan is empty if and only if `D <= skip` |
| `SegmentPlanner.PlanStarts` | main.py:90-91 | job `i` has index `i` and starts at `skip + i·chunk`; the first job starts at `skip`; starts strictly increase |
| `SegmentPlanner.PlanDurations` | main.py:92 | every job's duration is strictly positive and at most `chunk` |
| `SegmentPlanner.PlanFullChunks` | main.py:92 | every job except the last lasts exactly `chunk` seconds |
| `SegmentPlanner.PlanContiguous` | main.py:91-92 | each job starts exactly where the previous one ends, and the last job ends exactly at `D` |
| `SegmentPlanner.PlanWithinBounds` | main.py:85-92 | every job lies inside `[skip, D]` |
| `SegmentPlanner.PlanCovers` | main.py:85-92 | every second `t` in `[skip, D)` lies in exactly one job, the one with index `(t − skip) / chunk`: no gaps and no overlaps |
| `SegmentPlanner.PlanTotalLength` | main.py:85-92 | the durations add up to `D − skip` when `D > skip`, and to 0 otherwise |
| `SegmentPlanner.DefaultPlanExample` | main.py:85-93 | with the constants 120 and 30, a 300-second file gives the jobs (0, 30, 120), (1, 150, 120) and (2, 270, 30) |
| `AspectNormalizer.Normalize` | main.py:25-42 | a zero width fails with `ZeroDivision`, and only a zero width fails; the file is kept exactly when `w > 0` and `100·|9h − 16w| < 9w` |
| `AspectNormalizer.NearTarget` | main.py:29 | the integer tolerance test `100·|9h − 16w| < 9w` can hold only for `w > 0` |
| `AspectNormalizer.TooWide` | main.py:34 | the integer test `9h < 16w` for `h/w < 16/9` can hold only for `w > 0` |
| `AspectNormalizer.NearTargetExact` | main.py:26-29 | for `w > 0`, the integer test `100·|9h − 16w| < 9w` holds if and only if `|h/w − 16/9| < 0.01` on exact reals |
| `AspectNormalizer.TooWideExact` | main.py:34 | for `w > 0`, `9h < 16w` holds if and only if `h/w < 16/9` on exact reals |
| `AspectNormalizer.ClassificationExact` | main.py:26-42 | on the exact ratio: keep if and only if within 0.01 of 16/9; crop if and only if outside the band and below 16/9; pad if and only if outside the band and at or above 16/9 |
| `AspectNormalizer.CropGeometry` | main.py:34-38 | crop if and only if outside the band and `9h < 16w`; the crop keeps the full height at y = 0; its width `nw = floor(9h/16)` satisfies `nw < w` and `16·nw <= 9h < 16·(nw+1)`; `x + nw <= w`, and the right margin equals the left margin or is one more |
| `AspectNormalizer.PadGeometry` | main.py:39-42 | pad if and only if outside the band and `9h >= 16w`; the pad keeps the width; its height `ph = floor(16w/9)` satisfies `9·ph <= 16w < 9·(ph+1)` and `ph < h` |
| `AspectNormalizer.WorkedCases` | main.py:26-42 | 1920×1080 is cropped to 607 columns at x = 656; 1080×1080 is cropped to 607 columns at x = 236; 1080×1920 is kept; 1000×2000 gets a pad of height 1777 |
| `AspectNormalizer.ToleranceBoundary` | main.py:29 | at width 900, heights 1592 and 1608 (≈0.0089 off 16/9) are kept; heights 1590 and 1610 (≈0.0111 off) are re-encoded |
| `SegmentNaming.Decimal` | main.py:67 | the decimal numeral of a natural number is non-empty, made of digits and canonical: it starts with `0` only for the number 0, and it has one digit exactly for numbers below 10 |
| `SegmentNaming.DecimalRoundTrip` | main.py:67 | parsing the numeral of `n` gives back `n` |
| `SegmentNaming.FormatIndex` | main.py:67 | `format(i, "03d")` is made of digits; its length is 3, or the numeral's length when that is longer (no truncation) |
| `SegmentNaming.FormatIndexRoundTrip` | main.py:67 | the zero-padded index field parses back to the index, for every index |
| `SegmentNaming.FormatIndexThreeDigits` | main.py:67 | for `0 <= i < 1000` the index field has exactly three digits |
| `SegmentNaming.FormatIndexWide` | main.py:67 | from 1000 on, the field is the plain numeral and is longer than three characters |
| `SegmentNaming.FormatIndexInjective` | main.py:67 | distinct indices give distinct index fields |
| `SegmentNaming.SegmentFileName` | main.py:67 | the name starts with `segment_` and has the length of its parts |
| `SegmentNaming.SegmentFileNameParts` | main.py:67 | the run id, the `_` separator and the index field can be recovered from the name by position, and the field parses back to the index |
| `SegmentNaming.SegmentFileNameInjective` | main.py:67 | for run ids of equal length, equal names have the same run id and the same index |
| `SegmentNaming.SegmentFileNameIsVideo` | main.py:67 | every segment name ends in `.mp4` |
| `SegmentNaming.FormatIndexExamples` | main.py:67 | indices 0, 1 and 2 render as `000`, `001` and `002` |
| `SegmentNaming.SegmentFileNameExamples` | main.py:67 | run `1a2b3c4d` names its first segments `segment_1a2b3c4d_000.mp4`, `_001.mp4` and `_002.mp4` |
| `SegmentNaming.WideIndexExample` | main.py:67 | index 1234 is rendered as `1234`, not cut to three digits |
| `SegmentNaming.EndsWith` | main.py:102 | `s.endswith(suffix)`: when it holds, the suffix is no longer than `s` and matches the last characters of `s` one by one |
| `SegmentNaming.IsVideoFile` | main.py:102 | a name passes the `.endswith(".mp4")` filter only if it has at least four characters, a `.` fourth from the end and `mp4` after it |
| `SegmentNaming.IsRunId` | main.py:83 | a run id as `uuid4().hex[:8]` produces it (eight lower-case hex digits) contains neither `_` nor `/`, so it cannot blur the name's fields or its directory |
| `SegmentNaming.EndsWithAppend` | main.py:102 | a name ending with a given suffix passes the `endswith` test |
| `SegmentNaming.EndsWithSplit` | main.py:102 | a name that passes the `endswith` test is its stem followed by the suffix |
| `Dispatcher.JoinPath` | main.py:103 | `os.path.join(dir, name)` is `dir`, then `/`, then `name`, and both parts can be recovered by position |
| `Dispatcher.EligibleInputs` | main.py:101-104 | the paths the scan would hand to `process_video` if no call raised; there are at most as many of them as listed names |
| `Dispatcher.EligibleInputsExact` | main.py:101-104 | every eligible path is `tosplit/<f>` for a listed `f` ending in `.mp4`, and every listed `.mp4` name is eligible |
| `Dispatcher.CutJobFor` | main.py:93 | the job for a segment keeps the segment's start and duration and writes a `.mp4` file under `splitted/` |
| `Dispatcher.CutJobs` | main.py:89-93 | one `cut_segment` job per planned segment |
| `Dispatcher.CutJobOutputInjective` | main.py:66-67 | within one run, jobs for different indices write different files |
| `Dispatcher.CutJobsLocated` | main.py:66-67 | every job of any plan writes a `.mp4` file under `splitted/` |
| `Dispatcher.PlanJobsDistinct` | main.py:66-67 | the jobs of one plan write pairwise distinct files |
| `Dispatcher.CutJobOutputsDistinct` | main.py:66-67 | the jobs of one plan write pairwise distinct files; each is under `splitted/` and ends in `.mp4` |
| `Dispatcher.DistinctRunsWriteDistinctFiles` | main.py:83 | two runs whose ids are different 8-hex-digit strings never write the same file |
| `Dispatcher.FileRunSpec` | main.py:80-96 | the reference result of `process_video`: aborted exactly when the probed width is zero; otherwise one job per iteration of the planning loop |
| `Dispatcher.ProcessVideo` | main.py:80-96 | returns `FileRunSpec` of its probe: processing aborts if and only if the width is zero; otherwise it takes `Normalize`'s decision and submits exactly the jobs `CutJobs(PlanSpec(D, 30, 120), runId)` |
| `Dispatcher.Batch` | main.py:100-104 | the reference scan, which stops at the first call that raises, makes at most as many calls as there are eligible paths, and every call but the last one completes without aborting |
| `Dispatcher.RunBatch` | main.py:100-104 | the scan loop returns exactly `Batch(listing, probes)`: `.mp4` names in listing order, each processed with its own probe, ending at the first call that aborts |
| `Dispatcher.BatchPrefix` | main.py:100-104 | the processed paths are a prefix of `EligibleInputs(listing)`, and no call but the last one can have aborted |
| `Dispatcher.BatchCompleteIff` | main.py:100-104 | if no listed `.mp4` file has a zero width, every eligible path is processed and nothing aborts; if one has, the run ends with an aborted call |
| `Dispatcher.BatchComplete` | main.py:100-104 | when no listed `.mp4` file has a zero width, the processed paths are exactly `EligibleInputs(listing)` and no call aborts |
| `Dispatcher.BatchEndsAborted` | main.py:100-104 | when some listed `.mp4` file has a zero width, the last call of the scan aborted |
| `Dispatcher.BatchAbortsBy` | main.py:100-104 | if the listed name at position `k` is a `.mp4` file with a zero width, the scan makes at least one call and its last call aborted |
| `Dispatcher.BatchStopsExample` | main.py:100-104 | with `a.mp4` (width 0) listed before `b.mp4`, only `tosplit/a.mp4` is attempted and `b.mp4` is never processed |

## Left out

- The `ffprobe` and `ffmpeg` calls (main.py:15-21, 44-50, 58-64, 68-78) are foreign native tools. The probed width and height, the rounded-up duration and the run id are inputs of the model. Their exit status, which the script ignores, is not modelled.
- Parsing the probe output and `math.ceil(float(...))` of the duration (main.py:21, 64) are not modelled. The duration enters as an integer. A probe whose output does not parse would raise and, like a zero width, end the scan; the model's only aborting case is the zero width.
- IEEE floating point is not modelled. `height / width`, `16 / 9`, `abs(...) < 0.01` and `ceil(total_duration / 120)` are computed on exact rationals. Floats can differ only for frame sizes or durations far beyond real videos, or right at the 0.01 boundary.
- `int(height * 9 / 16)` and `int(width * 16 / 9)` are modelled as exact floor division. This matches `int()` on non-negative values. Widths and heights are natural numbers because the probe reports pixel counts.
- The text of the `-vf` filter (main.py:38, 42) is not modelled. The `Filter` datatype carries the same numbers: crop width, height, x and y, or pad width and height. The pad's `(ow-iw)/2:(oh-ih)/2` offsets are left to ffmpeg.
- Filesystem effects are not modelled: `os.makedirs`, the `_cropped.mp4` temporary path made by `str.replace`, the `os.remove`/`os.rename` swap, and `os.listdir` (main.py:12, 32, 52-53, 101). The directory listing is an input sequence. `ensure_tiktok_format` always returns its input path, so the model does not carry paths through it.
- The `ThreadPoolExecutor` fan-out and the `future.result()` joins (main.py:88-96) are not modelled. The model keeps the sequence of submitted jobs in submission order. Concurrent execution and exceptions raised by workers are not modelled.
- `JoinPath` models `os.path.join` with the POSIX separator `/`. Other platforms' separators and `os.path.join`'s handling of absolute or empty parts are not modelled; the scan only joins the fixed directory `tosplit` with a listed name.
- `uuid.uuid4()` randomness (main.py:83) is not modelled; the run id is a parameter. The `print` calls (main.py:81, 98) are not modelled.
