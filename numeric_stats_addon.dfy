/** The two classes of the addon: `CallEntry`, one per distinct URL, holding
    its timestamps and computing their statistics, and `Counter`, the
    aggregator that finds or creates the entry for each request. */
module NumericStatsAddon {
  import opened Sorting
  import opened Frequency
  import opened Aggregation

  class CallEntry {
    const id: int
    const call: string
    const httpMethod: string
    var number: int
    var times: seq<int>

    /** The entry's current value. */
    function View(): Entry
      reads this
    {
      Entry(id, call, httpMethod, number, times)
    }

    /** A new entry for the first request to `call`. */
    constructor (callId: int, call: string, httpMethod: string, time: int)
      ensures View() == NewEntry(callId, call, httpMethod, time)
    {
      this.id := callId;
      this.call := call;
      this.httpMethod := httpMethod;
      number := 1;
      times := [time];
    }

    /** Records one more request at `time`. */
    method Increment(time: int)
      modifies this
      ensures View() == Aggregation.Increment(old(View()), time)
    {
      number := number + 1;
      times := times + [time];
    }

    /** `timeFrequencyMean`: the mean gap, in whole seconds, between the
        sorted timestamps. */
    method TimeFrequencyMean() returns (mean: int)
      requires |times| >= 2
      ensures mean == Mean(times)
      ensures 0 <= mean < SecondsPerDay
    {
      var sorted := Sort(times);
      var n := |sorted|;
      ghost var gaps := Gaps(sorted);
      var total := 0;
      for i := 0 to n
        invariant total == Sum(gaps[..if i < n then i else n - 1])
      {
        if i != n - 1 {
          total := total + SecondsComponent(sorted[i + 1] - sorted[i]);
          GapAt(sorted, i);
          SumStep(gaps, i);
        }
      }
      assert gaps[..n - 1] == gaps;
      mean := total / (n - 1);
    }

    /** `timeFrequencyStats`: how many of the sorted gaps fall into each bucket. */
    method TimeFrequencyStats() returns (stats: map<Bucket, int>)
      ensures stats == TimeHistogram(times)
      ensures Complete(stats) && Total(stats) == if |times| == 0 then 0 else |times| - 1
    {
      var sorted := Sort(times);
      var n := |sorted|;
      stats := EmptyHistogram;
      assert Gaps(sorted)[..0] == [];
      for i := 0 to n
        invariant stats == Histogram(Gaps(sorted)[..if i < n then i else |Gaps(sorted)|])
      {
        if i != n - 1 {
          var seconds := SecondsComponent(sorted[i + 1] - sorted[i]);
          TallyStep(sorted, i, stats);
          stats := stats[BucketOf(seconds) := stats[BucketOf(seconds)] + 1];
        }
      }
      assert Gaps(sorted)[..|Gaps(sorted)|] == Gaps(sorted);
    }
  }

  class Counter {
    var currentId: int
    var calls: seq<CallEntry>

    function Entries(): seq<Entry>
      reads this, calls
    {
      seq(|calls|, i requires 0 <= i < |calls| reads this, calls => calls[i].View())
    }

    function Snapshot(): State
      reads this, calls
    {
      State(Entries(), currentId)
    }

    ghost predicate Valid()
      reads this, calls
    {
      Inv(Snapshot())
    }

    constructor ()
      ensures Valid() && Snapshot() == Initial
    {
      currentId := 1;
      calls := [];
    }

    /** `getCallIndex`: the position of the entry for `call`, if there is one. */
    method GetCallIndex(call: string) returns (index: Option<nat>)
      ensures index == Find(Entries(), call)
    {
      var i := 0;
      while i < |calls|
        invariant 0 <= i <= |calls|
        invariant forall j :: 0 <= j < i ==> Entries()[j].call != call
      {
        if calls[i].call == call {
          assert Entries()[i].call == call;
          return Some(i);
        }
        i := i + 1;
      }
      return None;
    }

    /** `request`: records a request to `url` made with `httpMethod` at `time`. */
    method Request(url: string, httpMethod: string, time: int)
      requires Valid()
      modifies this, calls
      ensures Valid()
      ensures Snapshot() == Ingest(old(Snapshot()), Event(url, httpMethod, time))
      ensures old(calls) <= calls
    {
      var index := GetCallIndex(url);
      if index == None {
        var entry := new CallEntry(currentId, url, httpMethod, time);
        calls := calls + [entry];
        currentId := currentId + 1;
      } else {
        calls[index.value].Increment(time);
      }
      IngestPreservesInv(old(Snapshot()), Event(url, httpMethod, time));
      assert Snapshot() == Ingest(old(Snapshot()), Event(url, httpMethod, time));
    }
  }
}
