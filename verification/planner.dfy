/** The segment planner of `process_video` (main.py:85-93).

    Given the probed duration `D` (already rounded up to whole seconds), the
    planner skips the first `skip` seconds and cuts the rest into `chunk`-second
    pieces, the last one shorter when the remainder does not divide evenly.
    The source uses `CHUNK_SECONDS = 120` and `SKIP_SECONDS = 30`; the model
    takes any positive `chunk` and any `skip`. */
module SegmentPlanner {

  const ChunkSeconds: int := 120
  const SkipSeconds: int := 30

  /** One submitted `cut_segment` job: its index, start offset and length, in seconds. */
  datatype Segment = Segment(index: nat, start: int, duration: int)

  function Min(a: int, b: int): (m: int)
    ensures m <= a && m <= b && (m == a || m == b)
  {
    if a <= b then a else b
  }

  /** `math.ceil(a / b)` for a positive divisor, on exact rationals. */
  function CeilDiv(a: int, b: int): (q: int)
    requires b > 0
    ensures (q - 1) * b < a <= q * b
  {
    var f := (-a) / b;
    assert -a == f * b + (-a) % b;
    assert (-f - 1) * b == -(f * b) - b;
    -f
  }

  /** `range(total_chunks)`: the number of jobs the loop submits. */
  function ChunkCount(totalDuration: int, skip: int, chunk: int): (n: nat)
    requires chunk > 0
    ensures n == 0 <==> totalDuration <= skip
    ensures totalDuration > skip ==> (n - 1) * chunk < totalDuration - skip <= n * chunk
  {
    var q := CeilDiv(totalDuration - skip, chunk);
    if q <= 0 then
      assert q * chunk <= 0 by { if q < 0 { MulMonotone(q, 0, chunk); } }
      0
    else
      assert 0 <= (q - 1) * chunk by { MulMonotone(0, q - 1, chunk); }
      q
  }

  /** Job `i` of the plan, as the loop body computes it. */
  function SegmentAt(totalDuration: int, skip: int, chunk: int, i: nat): (s: Segment)
    ensures s.duration <= chunk && s.start + s.duration <= totalDuration
  {
    Segment(i, skip + i * chunk, Min(chunk, (totalDuration - skip) - i * chunk))
  }

  /** The whole plan: the jobs for `i` in `range(total_chunks)`, in submission order. */
  function PlanSpec(totalDuration: int, skip: int, chunk: int): (p: seq<Segment>)
    requires chunk > 0
    ensures p == [] <==> totalDuration <= skip
  {
    seq(ChunkCount(totalDuration, skip, chunk), i requires 0 <= i => SegmentAt(totalDuration, skip, chunk, i))
  }

  /** The planning loop of `process_video`, with `futures.append(...)` modelled
      as appending the submitted job to the plan. */
  method Plan(totalDuration: int, skip: int, chunk: int) returns (plan: seq<Segment>)
    requires chunk > 0
    ensures plan == PlanSpec(totalDuration, skip, chunk)
  {
    var remaining := totalDuration - skip;
    var count := CeilDiv(remaining, chunk);
    plan := [];
    var i := 0;
    while i < count
      invariant 0 <= i && (i <= count || i == 0)
      invariant |plan| == i
      invariant forall k :: 0 <= k < i ==> plan[k] == SegmentAt(totalDuration, skip, chunk, k)
    {
      var start := skip + i * chunk;
      var duration := Min(chunk, remaining - i * chunk);
      plan := plan + [Segment(i, start, duration)];
      i := i + 1;
    }
  }

  // ---------------------------------------------------------------------
  // Arithmetic helpers
  // ---------------------------------------------------------------------

  lemma MulMonotone(i: int, j: int, c: int)
    requires i <= j && c >= 0
    ensures i * c <= j * c
  {
    assert j * c - i * c == (j - i) * c;
  }

  lemma MulStrict(i: int, j: int, c: int)
    requires i < j && c > 0
    ensures i * c < j * c
  {
    assert j * c - i * c == (j - i) * c;
  }

  // ---------------------------------------------------------------------
  // Properties of the plan
  // ---------------------------------------------------------------------

  /** Count: `ceil((D - skip) / chunk)` jobs when `D > skip`, none otherwise
      (a non-positive quotient makes `range` empty; nothing fails). */
  lemma PlanCount(totalDuration: int, skip: int, chunk: int)
    requires chunk > 0
    ensures var n := |PlanSpec(totalDuration, skip, chunk)|;
            (totalDuration <= skip ==> n == 0) &&
            (totalDuration > skip ==>
               n >= 1 && (n - 1) * chunk < totalDuration - skip <= n * chunk)
  {
    var a := totalDuration - skip;
    var q := CeilDiv(a, chunk);
    if a <= 0 {
      if q > 0 { MulMonotone(1, q - 1 + 1, chunk); MulMonotone(0, q - 1, chunk); }
    } else {
      if q <= 0 { MulMonotone(q, 0, chunk); }
    }
  }

  /** The plan is empty exactly when nothing is left after the skipped lead-in. */
  lemma PlanEmptyIff(totalDuration: int, skip: int, chunk: int)
    requires chunk > 0
    ensures PlanSpec(totalDuration, skip, chunk) == [] <==> totalDuration <= skip
  {
    PlanCount(totalDuration, skip, chunk);
  }

  /** Job `i` carries index `i` and starts at `skip + i * chunk`: the first at
      the end of the lead-in, each later one strictly after its predecessor. */
  lemma PlanStarts(totalDuration: int, skip: int, chunk: int)
    requires chunk > 0
    ensures var p := PlanSpec(totalDuration, skip, chunk);
            (forall i :: 0 <= i < |p| ==> p[i].index == i && p[i].start == skip + i * chunk) &&
            (|p| > 0 ==> p[0].start == skip) &&
            (forall i, j :: 0 <= i < j < |p| ==> p[i].start < p[j].start)
  {
    var p := PlanSpec(totalDuration, skip, chunk);
    forall i, j | 0 <= i < j < |p| ensures p[i].start < p[j].start {
      MulStrict(i, j, chunk);
    }
  }

  /** Every job lasts more than zero and at most `chunk` seconds. */
  lemma PlanDurations(totalDuration: int, skip: int, chunk: int)
    requires chunk > 0
    ensures var p := PlanSpec(totalDuration, skip, chunk);
            forall i :: 0 <= i < |p| ==> 0 < p[i].duration <= chunk
  {
    var p := PlanSpec(totalDuration, skip, chunk);
    PlanCount(totalDuration, skip, chunk);
    forall i | 0 <= i < |p| ensures 0 < p[i].duration <= chunk {
      MulMonotone(i, |p| - 1, chunk);
    }
  }

  /** All jobs but the last are full `chunk`-second pieces. */
  lemma PlanFullChunks(totalDuration: int, skip: int, chunk: int)
    requires chunk > 0
    ensures var p := PlanSpec(totalDuration, skip, chunk);
            forall i :: 0 <= i < |p| - 1 ==> p[i].duration == chunk
  {
    var p := PlanSpec(totalDuration, skip, chunk);
    PlanCount(totalDuration, skip, chunk);
    forall i | 0 <= i < |p| - 1 ensures p[i].duration == chunk {
      MulMonotone(i + 1, |p| - 1, chunk);
    }
  }

  /** Contiguity: each job begins exactly where the previous one ends, and the
      last one ends exactly at the total duration. */
  lemma PlanContiguous(totalDuration: int, skip: int, chunk: int)
    requires chunk > 0
    ensures var p := PlanSpec(totalDuration, skip, chunk);
            (forall i :: 0 <= i < |p| - 1 ==> p[i].start + p[i].duration == p[i + 1].start) &&
            (|p| > 0 ==> p[|p| - 1].start + p[|p| - 1].duration == totalDuration)
  {
    var p := PlanSpec(totalDuration, skip, chunk);
    PlanCount(totalDuration, skip, chunk);
    PlanFullChunks(totalDuration, skip, chunk);
    forall i | 0 <= i < |p| - 1 ensures p[i].start + p[i].duration == p[i + 1].start {
      assert (i + 1) * chunk == i * chunk + chunk;
    }
  }

  /** Every job lies inside `[skip, D)`. */
  lemma PlanWithinBounds(totalDuration: int, skip: int, chunk: int)
    requires chunk > 0
    ensures var p := PlanSpec(totalDuration, skip, chunk);
            forall i :: 0 <= i < |p| ==>
              skip <= p[i].start && p[i].start + p[i].duration <= totalDuration
  {
    var p := PlanSpec(totalDuration, skip, chunk);
    PlanDurations(totalDuration, skip, chunk);
    forall i | 0 <= i < |p|
      ensures skip <= p[i].start && p[i].start + p[i].duration <= totalDuration
    {
      MulMonotone(0, i, chunk);
    }
  }

  /** Whether second `t` falls inside job `s`. */
  predicate Covers(s: Segment, t: int) {
    s.start <= t < s.start + s.duration
  }

  /** Coverage without gaps or overlaps: every second of `[skip, D)` lies in
      exactly one job, the one with index `(t - skip) / chunk`. */
  lemma PlanCovers(totalDuration: int, skip: int, chunk: int, t: int)
    requires chunk > 0
    requires skip <= t < totalDuration
    ensures var p := PlanSpec(totalDuration, skip, chunk);
            var k := (t - skip) / chunk;
            k < |p| && Covers(p[k], t) &&
            forall j :: 0 <= j < |p| && Covers(p[j], t) ==> j == k
  {
    var p := PlanSpec(totalDuration, skip, chunk);
    var k := (t - skip) / chunk;
    PlanCount(totalDuration, skip, chunk);
    assert k * chunk <= t - skip < k * chunk + chunk;
    if k >= |p| {
      MulMonotone(|p|, k, chunk);
      assert false;
    }
    assert (k + 1) * chunk == k * chunk + chunk;
    forall j | 0 <= j < |p| && Covers(p[j], t) ensures j == k {
      assert p[j].duration <= chunk;
      if j < k {
        assert (j + 1) * chunk == j * chunk + chunk;
        MulMonotone(j + 1, k, chunk);
        assert false;
      } else if j > k {
        MulMonotone(k + 1, j, chunk);
        assert false;
      }
    }
  }

  /** Sum of the job durations. */
  function TotalLength(p: seq<Segment>): int {
    if p == [] then 0 else TotalLength(p[..|p| - 1]) + p[|p| - 1].duration
  }

  lemma {:induction false} PrefixLength(totalDuration: int, skip: int, chunk: int, k: nat)
    requires chunk > 0
    requires k < |PlanSpec(totalDuration, skip, chunk)|
    ensures TotalLength(PlanSpec(totalDuration, skip, chunk)[..k]) == k * chunk
    decreases k
  {
    var p := PlanSpec(totalDuration, skip, chunk);
    if k > 0 {
      PrefixLength(totalDuration, skip, chunk, k - 1);
      PlanFullChunks(totalDuration, skip, chunk);
      assert p[..k][..k - 1] == p[..k - 1];
      assert k * chunk == (k - 1) * chunk + chunk;
    }
  }

  /** The durations add up to the part after the lead-in, `max(D - skip, 0)`. */
  lemma PlanTotalLength(totalDuration: int, skip: int, chunk: int)
    requires chunk > 0
    ensures TotalLength(PlanSpec(totalDuration, skip, chunk)) ==
            if totalDuration > skip then totalDuration - skip else 0
  {
    var p := PlanSpec(totalDuration, skip, chunk);
    PlanCount(totalDuration, skip, chunk);
    if |p| > 0 {
      var n := |p|;
      PrefixLength(totalDuration, skip, chunk, n - 1);
      assert p[..n][..n - 1] == p[..n - 1];
      assert p[..n] == p;
    }
  }

  /** The source's own configuration: a 300-second file gives jobs
      (30, 120), (150, 120) and (270, 30). */
  lemma DefaultPlanExample()
    ensures PlanSpec(300, SkipSeconds, ChunkSeconds) ==
            [Segment(0, 30, 120), Segment(1, 150, 120), Segment(2, 270, 30)]
  {
    assert ChunkCount(300, SkipSeconds, ChunkSeconds) == 3;
  }
}
