/** A worked session: requests to "/a" at 0 s, 65 s and 125 s and to "/b" at 1 s,
    and the statistics of "/a". */
module SessionExample {
  import opened Sorting
  import opened Frequency
  import opened Aggregation

  function Session(): seq<Event> {
    [Event("/a", "GET", 0), Event("/b", "GET", 1_000_000),
     Event("/a", "GET", 65_000_000), Event("/a", "GET", 125_000_000)]
  }

  /** The session yields one entry per URL, numbered by first appearance. */
  lemma SessionEntries()
    ensures Replay(Session()) == State([
      Entry(1, "/a", "GET", 3, Arrivals(0)),
      Entry(2, "/b", "GET", 1, [1_000_000])], 3)
  {
    var evs := Session();
    assert evs[..3][..2] == evs[..2] && evs[..2][..1] == evs[..1] && evs[..1][..0] == [];
    SessionStart();
    SessionRepeats();
  }

  /** The first two requests create the entries for "/a" and "/b". */
  lemma SessionStart()
    ensures Replay(Session()[..2]) ==
      State([Entry(1, "/a", "GET", 1, [0]), Entry(2, "/b", "GET", 1, [1_000_000])], 3)
  {
    var evs := Session();
    var a1 := Entry(1, "/a", "GET", 1, [0]);
    assert evs[..2][..1] == evs[..1] && evs[..1][..0] == [];
    assert Replay(evs[..1]) == State([a1], 2);
    assert Find([a1], "/b") == None;
  }

  /** The last two requests are repeats of "/a". */
  lemma SessionRepeats()
    ensures var b := Entry(2, "/b", "GET", 1, [1_000_000]);
      Ingest(Ingest(State([Entry(1, "/a", "GET", 1, [0]), b], 3), Session()[2]), Session()[3]) ==
      State([Entry(1, "/a", "GET", 3, Arrivals(0)), b], 3)
  {
    var a1 := Entry(1, "/a", "GET", 1, [0]);
    var a2 := Entry(1, "/a", "GET", 2, [0, 65_000_000]);
    var a3 := Entry(1, "/a", "GET", 3, Arrivals(0));
    var b := Entry(2, "/b", "GET", 1, [1_000_000]);
    assert Find([a1, b], "/a") == Some(0);
    assert Increment(a1, 65_000_000) == a2;
    assert [a1, b][0 := a2] == [a2, b];
    assert Find([a2, b], "/a") == Some(0);
    assert Increment(a2, 125_000_000) == a3;
    assert [a2, b][0 := a3] == [a3, b];
  }

  /** Requests at `t0`, 65 s later and 60 s after that. */
  function Arrivals(t0: int): seq<int> {
    [t0, t0 + 65_000_000, t0 + 125_000_000]
  }

  lemma ArrivalsSorted(t0: int)
    ensures Sort(Arrivals(t0)) == Arrivals(t0)
  {
    assert IsSorted(Arrivals(t0));
    SortOfSorted(Arrivals(t0));
  }

  lemma ArrivalSeconds()
    ensures SecondsComponent(65_000_000) == 65
    ensures SecondsComponent(60_000_000) == 60
  {
  }

  /** The requests are 65 s and then 60 s apart, whatever the start. */
  lemma ArrivalGaps(t0: int)
    ensures Gaps(Arrivals(t0)) == [65, 60]
  {
    ArrivalSeconds();
    var g := Gaps(Arrivals(t0));
    assert g[0] == 65;
    assert g[1] == 60;
  }

  /** Gaps of 65 s and 60 s average to 62 s. */
  lemma ArrivalMean(t0: int)
    ensures Mean(Arrivals(t0)) == 62
  {
    ArrivalsSorted(t0);
    ArrivalGaps(t0);
    assert [65, 60][..1] == [65];
    assert [65][..0] == [];
  }

  /** One gap falls in the first bucket and one in the second. */
  lemma ArrivalHistogram(t0: int)
    ensures TimeHistogram(Arrivals(t0)) == EmptyHistogram[UpToOneMinute := 1][OneToFiveMinutes := 1]
  {
    ArrivalsSorted(t0);
    ArrivalGaps(t0);
    GapHistogram();
  }

  lemma GapHistogram()
    ensures Histogram([65, 60]) == EmptyHistogram[UpToOneMinute := 1][OneToFiveMinutes := 1]
  {
    var g := [65, 60];
    assert g[..0] == [];
    HistogramStep(g, 0);
    HistogramStep(g, 1);
    assert g[..2] == g;
  }

  lemma DaySeconds()
    ensures SecondsComponent(MicrosPerDay + 30_000_000) == 30
  {
    SecondsComponentWrapsDaily(30_000_000);
  }

  function DayApart(t0: int): seq<int> {
    [t0, t0 + MicrosPerDay + 30_000_000]
  }

  lemma DayApartGaps(t0: int)
    ensures Gaps(DayApart(t0)) == [30]
  {
    DaySeconds();
    assert Gaps(DayApart(t0))[0] == 30;
  }

  /** A gap of one day and 30 s counts as 30 s: it lands in the first bucket. */
  lemma DayLongGap(t0: int)
    ensures Gaps(Sort(DayApart(t0))) == [30]
    ensures BucketOf(30) == UpToOneMinute
  {
    assert IsSorted(DayApart(t0));
    SortOfSorted(DayApart(t0));
    DayApartGaps(t0);
  }

  /** With threshold 2 only "/a" is reported in detail. */
  lemma SessionMostFrequent()
    ensures MostFrequent(Replay(Session()).calls, 2) == [Replay(Session()).calls[0]]
  {
    SessionEntries();
    var b := Entry(2, "/b", "GET", 1, [1_000_000]);
    assert MostFrequent([b], 2) == [];
  }
}
