/** The dispatcher: the `__main__` scan (main.py:100-104) and the per-file
    pipeline of `process_video` (main.py:80-98), with the external calls taken
    as inputs. A file is normalized, probed for its duration, planned, and one
    `cut_segment` job is submitted per planned segment; each job writes
    `splitted/segment_<run id>_<index>.mp4`. */
module Dispatcher {
  import opened SegmentNaming
  import opened SegmentPlanner
  import opened AspectNormalizer

  const InputDir: string := "tosplit"
  const OutputDir: string := "splitted"

  /** `os.path.join(dir, name)` for a relative name and a directory without a
      trailing separator. */
  function JoinPath(dir: string, name: string): (path: string)
    ensures |path| == |dir| + 1 + |name|
    ensures path[..|dir|] == dir && path[|dir|] == '/' && path[|dir| + 1..] == name
  {
    dir + "/" + name
  }

  // ---------------------------------------------------------------------
  // The input scan
  // ---------------------------------------------------------------------

  /** The paths the scan hands to `process_video` when no call raises: the
      listed names ending in `.mp4`, joined to `tosplit`, in listing order. */
  function EligibleInputs(listing: seq<string>): (paths: seq<string>)
    ensures |paths| <= |listing|
    decreases |listing|
  {
    if listing == [] then []
    else
      (if IsVideoFile(listing[0]) then [JoinPath(InputDir, listing[0])] else []) +
      EligibleInputs(listing[1..])
  }

  /** Every selected path is `tosplit/<name>` for a listed name that ends in
      `.mp4`, and every listed `.mp4` name is selected. */
  lemma {:induction false} EligibleInputsExact(listing: seq<string>)
    ensures forall p :: p in EligibleInputs(listing) ==>
              |p| > |InputDir| && p[..|InputDir| + 1] == InputDir + "/" &&
              p[|InputDir| + 1..] in listing && IsVideoFile(p[|InputDir| + 1..])
    ensures forall f :: f in listing && IsVideoFile(f) ==>
              JoinPath(InputDir, f) in EligibleInputs(listing)
    decreases |listing|
  {
    if listing != [] {
      var first := listing[0];
      var rest := listing[1..];
      EligibleInputsExact(rest);
      assert listing == [first] + rest;
      forall f | f in listing && IsVideoFile(f)
        ensures JoinPath(InputDir, f) in EligibleInputs(listing)
      {
        if f != first {
          assert f in rest;
        }
      }
      var j := JoinPath(InputDir, first);
      assert j[..|InputDir| + 1] == InputDir + "/";
    }
  }

  // ---------------------------------------------------------------------
  // One file
  // ---------------------------------------------------------------------

  /** The arguments of one `cut_segment` call, with the output path it writes. */
  datatype CutJob = CutJob(output: string, start: int, duration: int)

  function CutJobFor(runId: string, s: Segment): (job: CutJob)
    ensures job.start == s.start && job.duration == s.duration
    ensures |job.output| > |OutputDir| && job.output[..|OutputDir| + 1] == OutputDir + "/"
    ensures IsVideoFile(job.output)
  {
    var name := SegmentFileName(runId, s.index);
    var path := JoinPath(OutputDir, name);
    SegmentFileNameIsVideo(runId, s.index);
    EndsWithPrepend(OutputDir + "/", name, VideoSuffix);
    CutJob(path, s.start, s.duration)
  }

  /** The jobs submitted for a plan, in submission order. */
  function CutJobs(plan: seq<Segment>, runId: string): (jobs: seq<CutJob>)
    ensures |jobs| == |plan|
  {
    seq(|plan|, k requires 0 <= k < |plan| => CutJobFor(runId, plan[k]))
  }

  /** The jobs of one plan write distinct files, all under `splitted/`, all
      named like an input the scan would pick up. */
  lemma CutJobOutputsDistinct(totalDuration: int, skip: int, chunk: int, runId: string)
    requires chunk > 0
    ensures var jobs := CutJobs(PlanSpec(totalDuration, skip, chunk), runId);
            (forall i, j :: 0 <= i < j < |jobs| ==> jobs[i].output != jobs[j].output) &&
            (forall i :: 0 <= i < |jobs| ==>
               |jobs[i].output| > |OutputDir| &&
               jobs[i].output[..|OutputDir| + 1] == OutputDir + "/" &&
               IsVideoFile(jobs[i].output))
  {
    var plan := PlanSpec(totalDuration, skip, chunk);
    var jobs := CutJobs(plan, runId);
    PlanJobsDistinct(totalDuration, skip, chunk, runId);
    CutJobsLocated(plan, runId);
  }

  lemma PlanJobsDistinct(totalDuration: int, skip: int, chunk: int, runId: string)
    requires chunk > 0
    ensures var jobs := CutJobs(PlanSpec(totalDuration, skip, chunk), runId);
            forall i, j :: 0 <= i < j < |jobs| ==> jobs[i].output != jobs[j].output
  {
    var plan := PlanSpec(totalDuration, skip, chunk);
    var jobs := CutJobs(plan, runId);
    PlanStarts(totalDuration, skip, chunk);
    forall i, j | 0 <= i < j < |jobs| ensures jobs[i].output != jobs[j].output {
      CutJobOutputInjective(runId, plan[i], plan[j]);
    }
  }

  /** Every job of any plan writes a `.mp4` file under `splitted/`. */
  lemma CutJobsLocated(plan: seq<Segment>, runId: string)
    ensures var jobs := CutJobs(plan, runId);
            forall i :: 0 <= i < |jobs| ==>
              |jobs[i].output| > |OutputDir| &&
              jobs[i].output[..|OutputDir| + 1] == OutputDir + "/" &&
              IsVideoFile(jobs[i].output)
  {
    var jobs := CutJobs(plan, runId);
    forall i | 0 <= i < |jobs|
      ensures |jobs[i].output| > |OutputDir| &&
              jobs[i].output[..|OutputDir| + 1] == OutputDir + "/" && IsVideoFile(jobs[i].output)
    {
      var job := CutJobFor(runId, plan[i]);
      assert jobs[i] == job;
    }
  }

  /** Within one run, jobs for different indices write different files. */
  lemma CutJobOutputInjective(runId: string, s1: Segment, s2: Segment)
    ensures s1.index != s2.index ==> CutJobFor(runId, s1).output != CutJobFor(runId, s2).output
  {
    var n1 := SegmentFileName(runId, s1.index);
    var n2 := SegmentFileName(runId, s2.index);
    SegmentFileNameInjective(runId, s1.index, runId, s2.index);
    assert JoinPath(OutputDir, n1)[|OutputDir| + 1..] == n1;
    assert JoinPath(OutputDir, n2)[|OutputDir| + 1..] == n2;
  }

  /** Two runs with different run ids (eight hex digits each) never write
      the same output file, whatever their plans. */
  lemma DistinctRunsWriteDistinctFiles(plan1: seq<Segment>, id1: string, plan2: seq<Segment>, id2: string)
    requires IsRunId(id1) && IsRunId(id2) && id1 != id2
    ensures forall i, j :: 0 <= i < |plan1| && 0 <= j < |plan2| ==>
              CutJobs(plan1, id1)[i].output != CutJobs(plan2, id2)[j].output
  {
    forall i, j | 0 <= i < |plan1| && 0 <= j < |plan2|
      ensures CutJobs(plan1, id1)[i].output != CutJobs(plan2, id2)[j].output
    {
      var n1 := SegmentFileName(id1, plan1[i].index);
      var n2 := SegmentFileName(id2, plan2[j].index);
      SegmentFileNameInjective(id1, plan1[i].index, id2, plan2[j].index);
      assert CutJobs(plan1, id1)[i].output[|OutputDir| + 1..] == n1;
      assert CutJobs(plan2, id2)[j].output[|OutputDir| + 1..] == n2;
    }
  }

  /** What processing one file submits, or `Aborted` when the ratio
      computation raises (a zero probed width). */
  datatype FileRun =
    | Processed(decision: Decision, jobs: seq<CutJob>)
    | Aborted

  /** What the external calls report for one listed file: the frame size
      before normalization, the rounded-up duration after it, and the run id
      drawn for it. */
  datatype Probe = Probe(width: nat, height: nat, duration: int, runId: string)

  /** The reference result of `process_video` for one probe. */
  function FileRunSpec(p: Probe): (run: FileRun)
    ensures run == Aborted <==> p.width == 0
    ensures run.Processed? ==> |run.jobs| == ChunkCount(p.duration, SkipSeconds, ChunkSeconds)
  {
    match Normalize(p.width, p.height)
    case ZeroDivision => Aborted
    case Decided(d) => Processed(d, CutJobs(PlanSpec(p.duration, SkipSeconds, ChunkSeconds), p.runId))
  }

  /** `process_video` for a file whose probe reports `width` x `height` before
      normalization and `probedDuration` (already rounded up) after it. */
  method ProcessVideo(width: nat, height: nat, probedDuration: int, runId: string)
    returns (run: FileRun)
    ensures run == FileRunSpec(Probe(width, height, probedDuration, runId))
    ensures run == Aborted <==> width == 0
    ensures run.Processed? ==>
              Normalize(width, height) == Decided(run.decision) &&
              run.jobs == CutJobs(PlanSpec(probedDuration, SkipSeconds, ChunkSeconds), runId)
  {
    var outcome := Normalize(width, height);
    if outcome == ZeroDivision {
      return Aborted;
    }
    var plan := Plan(probedDuration, SkipSeconds, ChunkSeconds);
    run := Processed(outcome.decision, CutJobs(plan, runId));
  }

  // ---------------------------------------------------------------------
  // The whole scan
  // ---------------------------------------------------------------------

  /** One `process_video` call of the scan: the path it was given and what it did. */
  datatype FileResult = FileResult(path: string, run: FileRun)

  /** The scan as the source runs it: `.mp4` names are processed in listing
      order, and the first call that raises ends the loop, and with it the
      script. `probes[k]` is what the external calls report for `listing[k]`
      (ignored for names that are not processed). */
  function Batch(listing: seq<string>, probes: seq<Probe>): (results: seq<FileResult>)
    requires |probes| == |listing|
    ensures |results| <= |EligibleInputs(listing)|
    ensures forall k :: 0 <= k < |results| - 1 ==> results[k].run != Aborted
    decreases |listing|
  {
    if listing == [] then []
    else if !IsVideoFile(listing[0]) then Batch(listing[1..], probes[1..])
    else
      var r := FileResult(JoinPath(InputDir, listing[0]), FileRunSpec(probes[0]));
      if r.run == Aborted then [r] else [r] + Batch(listing[1..], probes[1..])
  }

  /** The `for file in os.listdir(INPUT_DIR)` loop, with the `.mp4` filter and
      one `process_video` call per selected file; an aborted call stops it. */
  method RunBatch(listing: seq<string>, probes: seq<Probe>) returns (results: seq<FileResult>)
    requires |probes| == |listing|
    ensures results == Batch(listing, probes)
  {
    results := [];
    var i := 0;
    while i < |listing|
      invariant 0 <= i <= |listing|
      invariant results + Batch(listing[i..], probes[i..]) == Batch(listing, probes)
    {
      assert listing[i..][1..] == listing[i + 1..] && probes[i..][1..] == probes[i + 1..];
      var file := listing[i];
      if IsVideoFile(file) {
        var p := probes[i];
        var run := ProcessVideo(p.width, p.height, p.duration, p.runId);
        results := results + [FileResult(JoinPath(InputDir, file), run)];
        if run == Aborted {
          return;
        }
      }
      i := i + 1;
    }
  }

  /** The paths of a sequence of results. */
  function Paths(results: seq<FileResult>): (paths: seq<string>)
    ensures |paths| == |results|
    ensures forall k :: 0 <= k < |results| ==> paths[k] == results[k].path
  {
    seq(|results|, k requires 0 <= k < |results| => results[k].path)
  }

  lemma PathsCons(r: FileResult, rest: seq<FileResult>)
    ensures Paths([r] + rest) == [r.path] + Paths(rest)
  {
    assert forall k :: 0 < k <= |rest| ==> ([r] + rest)[k] == rest[k - 1];
  }

  /** The scan processes a prefix of the eligible paths, and only the last
      call can have aborted. */
  lemma {:induction false} BatchPrefix(listing: seq<string>, probes: seq<Probe>)
    requires |probes| == |listing|
    ensures var rs := Batch(listing, probes);
            var e := EligibleInputs(listing);
            |rs| <= |e| && Paths(rs) == e[..|rs|] &&
            forall k :: 0 <= k < |rs| - 1 ==> rs[k].run != Aborted
    decreases |listing|
  {
    if listing != [] {
      BatchPrefix(listing[1..], probes[1..]);
      if IsVideoFile(listing[0]) {
        var rs := Batch(listing, probes);
        var rest := Batch(listing[1..], probes[1..]);
        var e := EligibleInputs(listing);
        var e' := EligibleInputs(listing[1..]);
        assert e == [JoinPath(InputDir, listing[0])] + e';
        if rs != [rs[0]] {
          assert rs == [rs[0]] + rest;
          PathsCons(rs[0], rest);
        }
      }
    }
  }

  /** Whether some listed `.mp4` file probes with a zero width. */
  predicate SomeZeroWidth(listing: seq<string>, probes: seq<Probe>)
    requires |probes| == |listing|
  {
    exists k :: 0 <= k < |listing| && IsVideoFile(listing[k]) && probes[k].width == 0
  }

  /** When no listed `.mp4` file has a zero width, every eligible path is
      processed and nothing aborts; otherwise the scan ends with an aborted
      call. */
  lemma BatchCompleteIff(listing: seq<string>, probes: seq<Probe>)
    requires |probes| == |listing|
    ensures var rs := Batch(listing, probes);
            !SomeZeroWidth(listing, probes) ==>
              Paths(rs) == EligibleInputs(listing) && forall k :: 0 <= k < |rs| ==> rs[k].run != Aborted
    ensures var rs := Batch(listing, probes);
            SomeZeroWidth(listing, probes) ==> |rs| > 0 && rs[|rs| - 1].run == Aborted
  {
    if SomeZeroWidth(listing, probes) {
      BatchEndsAborted(listing, probes);
    } else {
      BatchComplete(listing, probes);
    }
  }

  /** No zero-width `.mp4` file: the scan processes every eligible path. */
  lemma {:induction false} BatchComplete(listing: seq<string>, probes: seq<Probe>)
    requires |probes| == |listing|
    requires !SomeZeroWidth(listing, probes)
    ensures var rs := Batch(listing, probes);
            Paths(rs) == EligibleInputs(listing) && forall k :: 0 <= k < |rs| ==> rs[k].run != Aborted
    decreases |listing|
  {
    if listing != [] {
      var l' := listing[1..];
      var p' := probes[1..];
      assert !SomeZeroWidth(l', p') by {
        forall k | 0 <= k < |l'| && IsVideoFile(l'[k])
          ensures p'[k].width != 0
        {
          assert l'[k] == listing[k + 1] && p'[k] == probes[k + 1];
        }
      }
      BatchComplete(l', p');
      if IsVideoFile(listing[0]) {
        assert probes[0].width != 0;
        var rs := Batch(listing, probes);
        var rest := Batch(l', p');
        assert rs == [rs[0]] + rest;
        PathsCons(rs[0], rest);
      }
    }
  }

  /** Some zero-width `.mp4` file: the scan ends with an aborted call. */
  lemma BatchEndsAborted(listing: seq<string>, probes: seq<Probe>)
    requires |probes| == |listing|
    requires SomeZeroWidth(listing, probes)
    ensures var rs := Batch(listing, probes);
            |rs| > 0 && rs[|rs| - 1].run == Aborted
  {
    var k :| 0 <= k < |listing| && IsVideoFile(listing[k]) && probes[k].width == 0;
    BatchAbortsBy(listing, probes, k);
  }

  /** If `listing[k]` is a zero-width `.mp4` file, the scan ends aborted. */
  lemma {:induction false} BatchAbortsBy(listing: seq<string>, probes: seq<Probe>, k: nat)
    requires |probes| == |listing|
    requires k < |listing| && IsVideoFile(listing[k]) && probes[k].width == 0
    ensures var rs := Batch(listing, probes);
            |rs| > 0 && rs[|rs| - 1].run == Aborted
    decreases k
  {
    if !(IsVideoFile(listing[0]) && probes[0].width == 0) {
      var l' := listing[1..];
      var p' := probes[1..];
      assert l'[k - 1] == listing[k] && p'[k - 1] == probes[k];
      BatchAbortsBy(l', p', k - 1);
      var rest := Batch(l', p');
      if IsVideoFile(listing[0]) {
        var r := FileResult(JoinPath(InputDir, listing[0]), FileRunSpec(probes[0]));
        assert Batch(listing, probes) == [r] + rest;
      } else {
        assert Batch(listing, probes) == rest;
      }
    }
  }

  /** Two `.mp4` files, the first with a zero probed width: only the first is
      attempted, and the second is never processed. */
  lemma BatchStopsExample(b: Probe)
    ensures Batch(["a.mp4", "b.mp4"], [Probe(0, 1080, 300, "1a2b3c4d"), b]) ==
            [FileResult("tosplit/a.mp4", Aborted)]
  {
    var listing := ["a.mp4", "b.mp4"];
    var probes := [Probe(0, 1080, 300, "1a2b3c4d"), b];
    assert listing[0] == "a.mp4" && IsVideoFile("a.mp4");
    assert JoinPath(InputDir, "a.mp4") == "tosplit/a.mp4";
    assert FileRunSpec(probes[0]) == Aborted;
  }
}
