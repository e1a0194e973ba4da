# NumericStatsAddon: request aggregation and inter-arrival statistics

This project models the core of `NumericStatsAddon.py`, a mitmproxy addon that
replays a traffic dump and reports statistics per distinct request URL. It has
two classes:

- `Counter` is the aggregator. It keeps an insertion-ordered list of
  `CallEntry` records and a sequential id counter starting at 1. On each
  request it scans linearly for the entry with the same URL. If it finds one,
  it records the request's timestamp on it. Otherwise it appends a new entry
  with the next id.
- `CallEntry` holds one URL, the HTTP method of its first request, an
  occurrence count and the append-only list of request timestamps. It sorts
  the timestamps and computes two things from the gaps between consecutive
  ones:
  - the mean gap, in whole seconds, rounded down;
  - a seven-bucket histogram of the gaps, with bucket edges 60, 300, 900,
    1800, 2700 and 3600 s. Each upper bound is inclusive and the last bucket
    is open-ended.

The most-frequent report keeps only the entries seen more than a threshold
number of times, in insertion order.

Timestamps are whole microseconds. A gap is the `seconds` attribute of Python's
`timedelta`, which is the number of whole seconds left after removing whole
days. So a gap of a day or more wraps around: a gap of one day and 30 s counts
as 30 s (`SessionExample.DayLongGap`). The model keeps this behaviour.

Layout:

- `sorting.dfy`: module `Sorting`. Python's `sorted` as a pure function, and
  the fact that its result does not depend on the input order.
- `frequency.dfy`: module `Frequency`. Gaps, their mean, buckets and the
  histogram, as specification functions with lemmas.
- `aggregation.dfy`: module `Aggregation`. The counter's state as a value
  (`State`, `Entry`), the find-or-create step `Ingest`, the most-frequent
  filter, and what a whole stream of requests produces (`Replay`).
- `numeric_stats_addon.dfy`: module `NumericStatsAddon`. The classes
  `CallEntry` and `Counter`, with the source's loops.
  - `Counter.Request` is proved to follow `Ingest`.
  - `CallEntry.TimeFrequencyMean` and `CallEntry.TimeFrequencyStats` are
    proved equal to `Mean` and `TimeHistogram`.
- `example.dfy`: module `SessionExample`. A worked session: requests to "/a"
  at 0 s, 65 s and 125 s, and to "/b" at 1 s.

## Model

| member | source | states |
|---|---|---|
| `Sorting.Sort` | NumericStatsAddon.py:88 | `sorted(times)` keeps the number of timestamps |
| `Sorting.SortSpec` | NumericStatsAddon.py:88 | the result of `sorted(times)` is ascending and a permutation of the input |
| `Sorting.SortPermutationInvariant` | NumericStatsAddon.py:98 | any two arrival orders of the same timestamps sort to the same list |
| `Frequency.SecondsComponent` | NumericStatsAddon.py:92-93 | a gap's `.seconds` lies in [0, 86399]; it is the whole seconds of the difference after removing whole days |
| `Frequency.SecondsComponentWrapsDaily` | NumericStatsAddon.py:102 | adding a whole day to a difference leaves its seconds component unchanged |
| `Frequency.Gaps` | NumericStatsAddon.py:90-93 | the loop visits n-1 consecutive pairs for n timestamps (none for an empty list) |
| `Frequency.GapsWithinDay` | NumericStatsAddon.py:92-93 | every gap's seconds component is in [0, 86399] |
| `Frequency.Mean` | NumericStatsAddon.py:86-94 | defined only for two or more timestamps, since one timestamp divides by zero; the mean lies in [0, 86399] |
| `Frequency.MeanPermutationInvariant` | NumericStatsAddon.py:86-94 | the mean is the same for every arrival order of the same timestamps |
| `Frequency.BucketOf` | NumericStatsAddon.py:106-120 | the chosen bucket's interval contains the gap: above the previous edge and at most its own edge; the first bucket is unbounded below and the last unbounded above |
| `Frequency.LabelsDistinct` | NumericStatsAddon.py:97 | the seven report keys (`Frequency.Label`) are pairwise distinct, so the dict keyed by label and the model's map keyed by bucket hold the same counts |
| `Frequency.StatsKey` | NumericStatsAddon.py:106-120 | the returned key string is the label of a bucket exactly when that bucket's interval holds the gap |
| `Frequency.BucketExclusive` | NumericStatsAddon.py:106-120 | a gap lies in the interval of no bucket other than the one `BucketOf` returns |
| `Frequency.BucketMonotone` | NumericStatsAddon.py:106-120 | a longer gap never falls into an earlier bucket |
| `Frequency.Histogram` | NumericStatsAddon.py:97-103 | starting from the seven-key zero dict, all seven keys stay present |
| `Frequency.HistogramTotal` | NumericStatsAddon.py:97-103 | the counts sum to the number of gaps |
| `Frequency.HistogramCounts` | NumericStatsAddon.py:100-103 | each bucket's count is the number of gaps whose bucket it is, so it is never negative |
| `Frequency.TimeHistogram` | NumericStatsAddon.py:96-104 | all seven keys; the counts sum to `len(times) - 1` (0 for no timestamps) |
| `Frequency.HistogramPermutationInvariant` | NumericStatsAddon.py:96-104 | the histogram is the same for every arrival order of the same timestamps |
| `Aggregation.Find` | NumericStatsAddon.py:18-25 | returns the smallest index whose entry has the URL, or None when no entry has it |
| `Aggregation.NewEntry` | NumericStatsAddon.py:73-80 | a new entry keeps the given id, URL and method, has count 1 and one timestamp, `time` |
| `Aggregation.Increment` | NumericStatsAddon.py:82-84 | the times gain `time` after all earlier ones, id, URL and method are unchanged, and a count equal to the number of timestamps stays equal |
| `Aggregation.Ingest` | NumericStatsAddon.py:55-64 | the list grows by one exactly when the URL was unseen; afterwards the URL is found and its entry's latest timestamp is this request's; entries for other URLs are unchanged (details in `IngestUnseen`, `IngestSeen`, `IngestPreservesInv`) |
| `Aggregation.InitialInv` | NumericStatsAddon.py:13-16 | an empty list with `currentId` 1 satisfies the counter invariant |
| `Aggregation.IngestUnseen` | NumericStatsAddon.py:59-62 | an unseen URL appends exactly one entry: id `currentId`, count 1, times `[time]`, this request's method; `currentId` goes up by one and earlier entries are untouched |
| `Aggregation.IngestSeen` | NumericStatsAddon.py:63-64 | a known URL's entry gets count + 1 and the time appended; its id and first method stay; the list length, `currentId` and every other entry are unchanged |
| `Aggregation.IngestPreservesInv` | NumericStatsAddon.py:55-64 | `request` preserves the invariant: ids 1..n in order, `currentId == n + 1`, URLs pairwise distinct, `number == len(times) >= 1` |
| `Aggregation.MostFrequent` | NumericStatsAddon.py:35 | keeps exactly the entries with `number > threshold`, each as many times as it occurs in the entry list, as a subsequence of that list (insertion order) |
| `Aggregation.MostFrequentKeepsAll` | NumericStatsAddon.py:35 | a threshold below every count keeps the whole list |
| `Aggregation.MostFrequentDropsAll` | NumericStatsAddon.py:35 | a threshold at or above every count keeps nothing |
| `Aggregation.ReportMeanDefined` | NumericStatsAddon.py:35-37 | every selected entry has the two timestamps the mean needs exactly when the threshold is at least 1 or every entry was seen twice or more |
| `Aggregation.ReplayInv` | NumericStatsAddon.py:55-64 | any stream of requests leaves the counter satisfying its invariant |
| `Aggregation.ReplayOrder` | NumericStatsAddon.py:59-62 | the entries' URLs are the stream's distinct URLs in first-appearance order, so ids follow first appearance |
| `Aggregation.ReplayEntries` | NumericStatsAddon.py:55-64 | each entry's times are exactly the times of the requests to its URL, in arrival order; its method is that of the first such request; URLs without an entry were never requested |
| `Aggregation.ReplayGroups` | NumericStatsAddon.py:59-64 | the number of entries equals the number of distinct URLs in the stream |
| `NumericStatsAddon.CallEntry.constructor` | NumericStatsAddon.py:73-80 | the new entry has the given id, URL and method, count 1 and times `[time]` |
| `NumericStatsAddon.CallEntry.Increment` | NumericStatsAddon.py:82-84 | count + 1 and `time` appended; id, URL and method unchanged |
| `NumericStatsAddon.CallEntry.TimeFrequencyMean` | NumericStatsAddon.py:86-94 | the accumulating loop over the sorted times returns `Mean(times)`, which lies in [0, 86399]; requires two timestamps |
| `NumericStatsAddon.CallEntry.TimeFrequencyStats` | NumericStatsAddon.py:96-104 | the dict-updating loop returns `TimeHistogram(times)`: seven keys, with counts summing to `len(times) - 1` |
| `NumericStatsAddon.Counter.constructor` | NumericStatsAddon.py:13-16 | a new counter has no entries, `currentId` 1, and satisfies the invariant |
| `NumericStatsAddon.Counter.GetCallIndex` | NumericStatsAddon.py:18-25 | the early-return scan returns the first index holding the URL, or None |
| `NumericStatsAddon.Counter.Request` | NumericStatsAddon.py:55-64 | the new state is `Ingest` of the old one; the invariant is kept; existing entry objects stay in place |
| `SessionExample.SessionEntries` | NumericStatsAddon.py:55-64 | the sample stream yields entries (1, "/a", 3 requests) and (2, "/b", 1 request), with `currentId` 3 |
| `SessionExample.ArrivalMean` | NumericStatsAddon.py:86-94 | gaps of 65 s and 60 s give a mean of 62 s, whatever the start time |
| `SessionExample.ArrivalHistogram` | NumericStatsAddon.py:96-104 | the same gaps put one request in "0-1 minuto" and one in "1-5 minuti" |
| `SessionExample.DayLongGap` | NumericStatsAddon.py:102 | a gap of one day and 30 s is counted as 30 s and lands in the first bucket |
| `SessionExample.SessionMostFrequent` | NumericStatsAddon.py:35 | with threshold 2 only "/a" is selected |

## Left out

- mitmproxy integration is host glue and is not modelled: option loading (`load`), extracting fields from the `HTTPFlow`, `done`, and the module-level `addons` singleton. `Counter.Request` takes the URL, method and timestamp directly.
- File output is not modelled (`writeToFile`, and the `open`/`write` calls of `writeMostFrequentCalls`). Only the threshold filter is kept, as `Aggregation.MostFrequent`.
- The report text is not modelled: `__str__`, `__repr__`, `frequency__repr__`, `frequency_stats__repr__` and `frequency_mean__repr__`, with their Italian headers and `;` separators. The bucket keys appear only as `Frequency.Label` and `Frequency.StatsKey`.
- `datetime.fromtimestamp` is not modelled. It converts to naive local time, which depends on the time zone and daylight saving. Timestamps are plain integers of microseconds, so gaps across a clock change are not modelled. Nor is the order `sorted` gives near a clock change: in a repeated fall-back hour the naive local times compare out of real-time order, so with three or more timestamps around the change other pairs become consecutive than the model's.
- Frequency.Mean: Python computes `int(mean / (timesLen - 1))` with a float division. The model uses exact integer division of the non-negative sum, so it does not model float rounding for very large sums.
- The unused field `num` of `Counter` is not modelled.
