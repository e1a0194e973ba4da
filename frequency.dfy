/** The per-call timing statistics of a `CallEntry`: the inter-arrival gaps
    between its sorted timestamps, their mean and their seven-bucket histogram.
    Timestamps are whole microseconds. */
module Frequency {
  import opened Sorting

  const MicrosPerSecond: int := 1_000_000
  const SecondsPerDay: int := 86400
  const MicrosPerDay: int := 86_400_000_000

  /** The `seconds` attribute of the timedelta between two datetimes `diff`
      microseconds apart: whole seconds left over after removing whole days.
      Differences of a day or more therefore wrap around. */
  function SecondsComponent(diff: int): (s: int)
    ensures 0 <= s < SecondsPerDay
    ensures s * MicrosPerSecond <= diff % MicrosPerDay < (s + 1) * MicrosPerSecond
  {
    (diff / MicrosPerSecond) % SecondsPerDay
  }

  /** Adding a whole day to a difference does not change its seconds component. */
  lemma SecondsComponentWrapsDaily(diff: int)
    ensures SecondsComponent(diff + MicrosPerDay) == SecondsComponent(diff)
  {
    assert (diff + MicrosPerDay) % MicrosPerDay == diff % MicrosPerDay;
  }

  /** The seconds components of the gaps between consecutive elements of `times`. */
  function Gaps(times: seq<int>): (g: seq<int>)
    ensures |g| == if |times| == 0 then 0 else |times| - 1
  {
    if |times| <= 1 then []
    else seq(|times| - 1, i requires 0 <= i < |times| - 1 => SecondsComponent(times[i + 1] - times[i]))
  }

  lemma GapAt(times: seq<int>, i: nat)
    requires i + 1 < |times|
    ensures Gaps(times)[i] == SecondsComponent(times[i + 1] - times[i])
  {
  }

  /** Every gap is less than a day. */
  lemma GapsWithinDay(times: seq<int>)
    ensures forall i :: 0 <= i < |Gaps(times)| ==> 0 <= Gaps(times)[i] < SecondsPerDay
  {
  }

  function Sum(s: seq<int>): int {
    if s == [] then 0 else Sum(s[..|s| - 1]) + s[|s| - 1]
  }

  /** Extending a prefix by one element adds that element to the sum. */
  lemma SumStep(s: seq<int>, i: nat)
    requires i < |s|
    ensures Sum(s[..i + 1]) == Sum(s[..i]) + s[i]
  {
    assert s[..i + 1][..i] == s[..i];
  }

  lemma {:induction false} SumBounded(s: seq<int>)
    requires forall i :: 0 <= i < |s| ==> 0 <= s[i] < SecondsPerDay
    ensures 0 <= Sum(s) <= |s| * (SecondsPerDay - 1)
  {
    if s != [] {
      SumBounded(s[..|s| - 1]);
    }
  }

  lemma DivAtMost(x: int, k: int, c: int)
    requires k > 0 && c >= 0 && 0 <= x <= c * k
    ensures 0 <= x / k <= c
  {
    assert x == (x / k) * k + x % k;
  }

  /** `timeFrequencyMean`: the sum of the sorted gaps' seconds components over
      the number of gaps, rounded down. Undefined for fewer than two timestamps. */
  function Mean(times: seq<int>): (m: int)
    requires |times| >= 2
    ensures 0 <= m < SecondsPerDay
  {
    var gaps := Gaps(Sort(times));
    GapsWithinDay(Sort(times));
    SumBounded(gaps);
    DivAtMost(Sum(gaps), |times| - 1, SecondsPerDay - 1);
    Sum(gaps) / (|times| - 1)
  }

  /** The mean does not depend on the order in which the timestamps arrived. */
  lemma MeanPermutationInvariant(a: seq<int>, b: seq<int>)
    requires |a| >= 2 && multiset(a) == multiset(b)
    ensures |b| >= 2 && Mean(a) == Mean(b)
  {
    assert |b| == |multiset(b)| == |multiset(a)| == |a|;
    SortPermutationInvariant(a, b);
  }

  /** The seven histogram buckets, in the order of the report. */
  datatype Bucket =
    | UpToOneMinute
    | OneToFiveMinutes
    | FiveToFifteenMinutes
    | FifteenToThirtyMinutes
    | ThirtyToFortyFiveMinutes
    | FortyFiveToSixtyMinutes
    | OverSixtyMinutes

  /** The upper bounds, in seconds and inclusive, of all buckets but the last. */
  const Edges: seq<int> := [60, 300, 900, 1800, 2700, 3600]

  function Ordinal(b: Bucket): nat {
    match b
    case UpToOneMinute => 0
    case OneToFiveMinutes => 1
    case FiveToFifteenMinutes => 2
    case FifteenToThirtyMinutes => 3
    case ThirtyToFortyFiveMinutes => 4
    case FortyFiveToSixtyMinutes => 5
    case OverSixtyMinutes => 6
  }

  /** The key under which the bucket is reported. */
  function Label(b: Bucket): string {
    match b
    case UpToOneMinute => "0-1 minuto"
    case OneToFiveMinutes => "1-5 minuti"
    case FiveToFifteenMinutes => "5-15 minuti"
    case FifteenToThirtyMinutes => "15-30 minuti"
    case ThirtyToFortyFiveMinutes => "30-45 minuti"
    case FortyFiveToSixtyMinutes => "45-60 minuti"
    case OverSixtyMinutes => "60+ minuti"
  }

  /** `seconds` lies in the interval of `b`: above the previous edge, at most its own. */
  predicate InBucket(seconds: int, b: Bucket) {
    (Ordinal(b) == 0 || Edges[Ordinal(b) - 1] < seconds) &&
    (Ordinal(b) == 6 || seconds <= Edges[Ordinal(b)])
  }

  /** `getTimeFrequencyStasKey`: the bucket a gap of `seconds` falls into. */
  function BucketOf(seconds: int): (b: Bucket)
    ensures InBucket(seconds, b)
  {
    if seconds <= 60 then UpToOneMinute
    else if seconds <= 300 then OneToFiveMinutes
    else if seconds <= 900 then FiveToFifteenMinutes
    else if seconds <= 1800 then FifteenToThirtyMinutes
    else if seconds <= 2700 then ThirtyToFortyFiveMinutes
    else if seconds <= 3600 then FortyFiveToSixtyMinutes
    else OverSixtyMinutes
  }

  /** The buckets do not overlap: a gap belongs to no bucket but its own. */
  lemma BucketExclusive(seconds: int, b: Bucket)
    requires InBucket(seconds, b)
    ensures b == BucketOf(seconds)
  {
  }

  /** A longer gap never falls into an earlier bucket. */
  lemma BucketMonotone(s: int, t: int)
    requires s <= t
    ensures Ordinal(BucketOf(s)) <= Ordinal(BucketOf(t))
  {
  }

  /** The seven report keys are pairwise distinct, so a dict keyed by label
      and a map keyed by `Bucket` hold the same counts. */
  lemma LabelsDistinct(a: Bucket, b: Bucket)
    ensures Label(a) == Label(b) <==> a == b
  {
  }

  /** `getTimeFrequencyStasKey` as the source writes it, returning the key
      string: it is the label of exactly the bucket whose interval holds
      `seconds`. */
  function StatsKey(seconds: int): (key: string)
    ensures forall b: Bucket :: key == Label(b) <==> InBucket(seconds, b)
  {
    var b := BucketOf(seconds);
    forall c: Bucket ensures Label(b) == Label(c) <==> InBucket(seconds, c) {
      LabelsDistinct(b, c);
      if InBucket(seconds, c) {
        BucketExclusive(seconds, c);
      }
    }
    Label(b)
  }

  /** The histogram `timeFrequencyStats` starts from: every bucket present, at zero. */
  const EmptyHistogram: map<Bucket, int> := map[
    UpToOneMinute := 0, OneToFiveMinutes := 0, FiveToFifteenMinutes := 0,
    FifteenToThirtyMinutes := 0, ThirtyToFortyFiveMinutes := 0,
    FortyFiveToSixtyMinutes := 0, OverSixtyMinutes := 0]

  predicate Complete(h: map<Bucket, int>) {
    forall b: Bucket :: b in h
  }

  lemma EmptyHistogramComplete()
    ensures Complete(EmptyHistogram)
  {
    forall b: Bucket ensures b in EmptyHistogram {
      match b
      case UpToOneMinute =>
      case OneToFiveMinutes =>
      case FiveToFifteenMinutes =>
      case FifteenToThirtyMinutes =>
      case ThirtyToFortyFiveMinutes =>
      case FortyFiveToSixtyMinutes =>
      case OverSixtyMinutes =>
    }
  }

  function Total(h: map<Bucket, int>): int
    requires Complete(h)
  {
    h[UpToOneMinute] + h[OneToFiveMinutes] + h[FiveToFifteenMinutes] +
    h[FifteenToThirtyMinutes] + h[ThirtyToFortyFiveMinutes] +
    h[FortyFiveToSixtyMinutes] + h[OverSixtyMinutes]
  }

  /** Tallies the gaps one by one, in order, into the empty histogram. */
  function Histogram(gaps: seq<int>): (h: map<Bucket, int>)
    ensures Complete(h)
  {
    if gaps == [] then EmptyHistogramComplete(); EmptyHistogram
    else
      var h := Histogram(gaps[..|gaps| - 1]);
      var b := BucketOf(gaps[|gaps| - 1]);
      h[b := h[b] + 1]
  }

  /** The histogram's counts add up to the number of gaps. */
  lemma {:induction false} HistogramTotal(gaps: seq<int>)
    ensures Total(Histogram(gaps)) == |gaps|
  {
    if gaps != [] {
      HistogramTotal(gaps[..|gaps| - 1]);
    }
  }

  /** Extending a prefix by one gap adds one to that gap's bucket. */
  lemma HistogramStep(gaps: seq<int>, i: nat)
    requires i < |gaps|
    ensures var h := Histogram(gaps[..i]);
      Histogram(gaps[..i + 1]) == h[BucketOf(gaps[i]) := h[BucketOf(gaps[i])] + 1]
  {
    assert gaps[..i + 1][..i] == gaps[..i];
  }

  /** One turn of the tallying loop over `times`: counting the gap after
      position `i` turns the histogram of the first `i` gaps into that of the
      first `i + 1`. */
  lemma TallyStep(times: seq<int>, i: nat, h: map<Bucket, int>)
    requires i + 1 < |times|
    requires h == Histogram(Gaps(times)[..i])
    ensures var b := BucketOf(SecondsComponent(times[i + 1] - times[i]));
      b in h && h[b := h[b] + 1] == Histogram(Gaps(times)[..i + 1])
  {
    GapAt(times, i);
    HistogramTotal(Gaps(times)[..i]);
    HistogramStep(Gaps(times), i);
  }

  function BucketsOf(gaps: seq<int>): (bs: seq<Bucket>)
    ensures |bs| == |gaps|
  {
    seq(|gaps|, i requires 0 <= i < |gaps| => BucketOf(gaps[i]))
  }

  /** Each count in the histogram is the number of gaps that fall into its bucket. */
  lemma {:induction false} HistogramCounts(gaps: seq<int>, b: Bucket)
    ensures Histogram(gaps)[b] == multiset(BucketsOf(gaps))[b]
  {
    if gaps != [] {
      var init := gaps[..|gaps| - 1];
      HistogramCounts(init, b);
      assert BucketsOf(gaps) == BucketsOf(init) + [BucketOf(gaps[|gaps| - 1])];
    }
  }

  /** `timeFrequencyStats`: the histogram of the sorted gaps. */
  function TimeHistogram(times: seq<int>): (h: map<Bucket, int>)
    ensures Complete(h)
    ensures Total(h) == if |times| == 0 then 0 else |times| - 1
  {
    HistogramTotal(Gaps(Sort(times)));
    Histogram(Gaps(Sort(times)))
  }

  /** The histogram does not depend on the order in which the timestamps arrived. */
  lemma HistogramPermutationInvariant(a: seq<int>, b: seq<int>)
    requires multiset(a) == multiset(b)
    ensures TimeHistogram(a) == TimeHistogram(b)
  {
    SortPermutationInvariant(a, b);
  }
}
