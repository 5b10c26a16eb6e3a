/** Output file naming and input eligibility (main.py, `cut_segment` and the
    `__main__` loop).

    A segment is written to `segment_<run id>_<index as :03d>.mp4`; an input is
    processed only when its name ends in `.mp4`. Decimal rendering follows
    Python's `format(i, "03d")` for a non-negative integer: the shortest
    decimal numeral, left-padded with '0' up to three characters and never
    truncated. */
module SegmentNaming {

  /** Minimum width of the index field in a segment name (`:03d`). */
  const IndexWidth: nat := 3

  const SegmentPrefix: string := "segment_"
  const VideoSuffix: string := ".mp4"

  predicate IsDigit(c: char) {
    '0' <= c <= '9'
  }

  predicate AllDigits(s: string) {
    forall k :: 0 <= k < |s| ==> IsDigit(s[k])
  }

  function DigitChar(d: nat): (c: char)
    requires d < 10
    ensures IsDigit(c) && (c as int) - ('0' as int) == d
  {
    ('0' as int + d) as char
  }

  function DigitValue(c: char): (d: nat)
    requires IsDigit(c)
    ensures d < 10 && DigitChar(d) == c
  {
    (c as int) - ('0' as int)
  }

  /** The shortest decimal numeral of `n` (Python's `str(n)` for `n >= 0`). */
  function Decimal(n: nat): (s: string)
    ensures 1 <= |s| && AllDigits(s)
    ensures s[0] == '0' <==> n == 0
    ensures n < 10 <==> |s| == 1
    decreases n
  {
    if n < 10 then [DigitChar(n)] else Decimal(n / 10) + [DigitChar(n % 10)]
  }

  /** The value of a decimal numeral, read most significant digit first. */
  function ParseDecimal(s: string): nat
    requires AllDigits(s)
    decreases |s|
  {
    if s == [] then 0
    else ParseDecimal(s[..|s| - 1]) * 10 + DigitValue(s[|s| - 1])
  }

  function Zeros(k: nat): (s: string)
    ensures |s| == k && AllDigits(s)
    ensures forall j :: 0 <= j < k ==> s[j] == '0'
  {
    if k == 0 then [] else ['0'] + Zeros(k - 1)
  }

  /** `format(i, "03d")`: the numeral of `i`, left-padded with zeros to width three. */
  function FormatIndex(i: nat): (s: string)
    ensures AllDigits(s)
    ensures |s| == if |Decimal(i)| < IndexWidth then IndexWidth else |Decimal(i)|
  {
    var d := Decimal(i);
    if |d| < IndexWidth then Zeros(IndexWidth - |d|) + d else d
  }

  /** The file name `cut_segment` writes for segment `index` of run `runId`. */
  function SegmentFileName(runId: string, index: nat): (name: string)
    ensures |name| == |SegmentPrefix| + |runId| + 1 + |FormatIndex(index)| + |VideoSuffix|
    ensures name[..|SegmentPrefix|] == SegmentPrefix
  {
    SegmentPrefix + runId + "_" + FormatIndex(index) + VideoSuffix
  }

  /** `s.endswith(suffix)`. */
  predicate EndsWith(s: string, suffix: string)
    ensures EndsWith(s, suffix) ==>
              |suffix| <= |s| && forall k :: 0 <= k < |suffix| ==> s[|s| - |suffix| + k] == suffix[k]
  {
    |suffix| <= |s| && s[|s| - |suffix|..] == suffix
  }

  /** The eligibility test of the input scan: the name ends in `.mp4`. */
  predicate IsVideoFile(name: string)
    ensures IsVideoFile(name) ==>
              |name| >= 4 && name[|name| - 4] == '.' && name[|name| - 3..] == "mp4"
  {
    EndsWith(name, VideoSuffix)
  }

  /** A run identifier as `uuid4().hex[:8]` produces it: eight lower-case hex digits. */
  predicate IsRunId(id: string)
    ensures IsRunId(id) ==> '_' !in id && '/' !in id
  {
    |id| == 8 && forall k :: 0 <= k < |id| ==> IsDigit(id[k]) || 'a' <= id[k] <= 'f'
  }

  // ---------------------------------------------------------------------
  // Properties
  // ---------------------------------------------------------------------

  /** Parsing the numeral of `n` gives back `n`. */
  lemma {:induction false} DecimalRoundTrip(n: nat)
    ensures ParseDecimal(Decimal(n)) == n
    decreases n
  {
    var s := Decimal(n);
    if n < 10 {
      assert s[..0] == [];
    } else {
      DecimalRoundTrip(n / 10);
      assert s[..|s| - 1] == Decimal(n / 10);
    }
  }

  /** A leading zero does not change the value of a numeral. */
  lemma {:induction false} LeadingZero(s: string)
    requires AllDigits(s)
    ensures AllDigits(['0'] + s) && ParseDecimal(['0'] + s) == ParseDecimal(s)
    decreases |s|
  {
    var t := ['0'] + s;
    if s == [] {
      assert t[..0] == [];
    } else {
      LeadingZero(s[..|s| - 1]);
      assert t[..|t| - 1] == ['0'] + s[..|s| - 1];
    }
  }

  /** Any number of leading zeros does not change the value of a numeral. */
  lemma {:induction false} LeadingZeros(k: nat, s: string)
    requires AllDigits(s)
    ensures ParseDecimal(Zeros(k) + s) == ParseDecimal(s)
    decreases k
  {
    if k > 0 {
      LeadingZeros(k - 1, s);
      LeadingZero(Zeros(k - 1) + s);
      assert Zeros(k) + s == ['0'] + (Zeros(k - 1) + s);
    } else {
      assert Zeros(k) + s == s;
    }
  }

  /** The padded index field reads back as the index, for every index. */
  lemma FormatIndexRoundTrip(i: nat)
    ensures ParseDecimal(FormatIndex(i)) == i
  {
    var d := Decimal(i);
    DecimalRoundTrip(i);
    if |d| < IndexWidth {
      LeadingZeros(IndexWidth - |d|, d);
    }
  }

  /** A numeral of a number below 10^3 has at most three digits. */
  lemma DecimalBelowThousand(n: nat)
    requires n < 1000
    ensures |Decimal(n)| <= 3
  {
    if n >= 10 {
      assert Decimal(n) == Decimal(n / 10) + [DigitChar(n % 10)];
      if n / 10 >= 10 {
        assert Decimal(n / 10) == Decimal(n / 100) + [DigitChar(n / 10 % 10)];
        assert n / 10 / 10 < 10;
      }
    }
  }

  /** For every plan index below 1000 the index field has exactly three digits. */
  lemma FormatIndexThreeDigits(i: nat)
    requires i < 1000
    ensures |FormatIndex(i)| == 3 && AllDigits(FormatIndex(i))
  {
    DecimalBelowThousand(i);
  }

  /** From 1000 on the field is not truncated: it is the plain numeral. */
  lemma FormatIndexWide(i: nat)
    requires i >= 1000
    ensures FormatIndex(i) == Decimal(i) && |FormatIndex(i)| > 3
  {
    assert Decimal(i) == Decimal(i / 10) + [DigitChar(i % 10)];
    assert Decimal(i / 10) == Decimal(i / 100) + [DigitChar(i / 10 % 10)];
    assert Decimal(i / 100) == Decimal(i / 1000) + [DigitChar(i / 100 % 10)];
  }

  /** Distinct indices give distinct index fields. */
  lemma FormatIndexInjective(i: nat, j: nat)
    ensures FormatIndex(i) == FormatIndex(j) ==> i == j
  {
    FormatIndexRoundTrip(i);
    FormatIndexRoundTrip(j);
  }

  /** The name splits back into its run id and its index field. */
  lemma SegmentFileNameParts(runId: string, index: nat)
    ensures var name := SegmentFileName(runId, index);
            var p := |SegmentPrefix| + |runId|;
            name[|SegmentPrefix|..p] == runId &&
            name[p] == '_' &&
            name[p + 1..|name| - |VideoSuffix|] == FormatIndex(index) &&
            ParseDecimal(name[p + 1..|name| - |VideoSuffix|]) == index
  {
    var name := SegmentFileName(runId, index);
    var p := |SegmentPrefix| + |runId|;
    assert name == SegmentPrefix + runId + ['_'] + FormatIndex(index) + VideoSuffix;
    assert name[|SegmentPrefix|..p] == runId;
    assert name[p + 1..|name| - |VideoSuffix|] == FormatIndex(index);
    FormatIndexRoundTrip(index);
  }

  /** Two segment names with run ids of the same length (eight hex digits in
      the source) coincide only for the same run id and the same index. */
  lemma SegmentFileNameInjective(id1: string, i1: nat, id2: string, i2: nat)
    requires |id1| == |id2|
    ensures SegmentFileName(id1, i1) == SegmentFileName(id2, i2) ==> id1 == id2 && i1 == i2
  {
    if SegmentFileName(id1, i1) == SegmentFileName(id2, i2) {
      SegmentFileNameParts(id1, i1);
      SegmentFileNameParts(id2, i2);
    }
  }

  /** Every segment name passes the input scan's `.mp4` test. */
  lemma SegmentFileNameIsVideo(runId: string, index: nat)
    ensures IsVideoFile(SegmentFileName(runId, index))
  {
    var name := SegmentFileName(runId, index);
    assert name == (SegmentPrefix + runId + "_" + FormatIndex(index)) + VideoSuffix;
    EndsWithAppend(SegmentPrefix + runId + "_" + FormatIndex(index), VideoSuffix);
  }

  /** Appending a suffix makes a name end with it ... */
  lemma EndsWithAppend(stem: string, suffix: string)
    ensures EndsWith(stem + suffix, suffix)
  {
    assert (stem + suffix)[|stem|..] == suffix;
  }

  /** Putting a directory or anything else in front keeps the suffix. */
  lemma EndsWithPrepend(prefix: string, s: string, suffix: string)
    requires EndsWith(s, suffix)
    ensures EndsWith(prefix + s, suffix)
  {
    assert (prefix + s)[|prefix + s| - |suffix|..] == s[|s| - |suffix|..];
  }

  /** ... and a name ending with a suffix is its stem followed by that suffix. */
  lemma EndsWithSplit(s: string, suffix: string)
    requires EndsWith(s, suffix)
    ensures s == s[..|s| - |suffix|] + suffix
  {
  }

  /** The index fields of the first three segments. */
  lemma FormatIndexExamples()
    ensures FormatIndex(0) == "000" && FormatIndex(1) == "001" && FormatIndex(2) == "002"
  {
    assert Decimal(0) == "0" && Decimal(1) == "1" && Decimal(2) == "2";
  }

  /** Names of the first three segments of run `1a2b3c4d`. */
  lemma SegmentFileNameExamples()
    ensures SegmentFileName("1a2b3c4d", 0) == "segment_1a2b3c4d_000.mp4"
    ensures SegmentFileName("1a2b3c4d", 1) == "segment_1a2b3c4d_001.mp4"
    ensures SegmentFileName("1a2b3c4d", 2) == "segment_1a2b3c4d_002.mp4"
  {
    FormatIndexExamples();
  }

  /** Past 999 the field widens instead of wrapping: index 1234 gives `_1234`. */
  lemma WideIndexExample()
    ensures FormatIndex(1234) == "1234"
  {
    assert Decimal(1) == "1";
    assert Decimal(12) == "12";
    assert Decimal(123) == "123";
  }
}
