/** The state of the request aggregator (`Counter`) as a value: its
    insertion-ordered list of call entries and its next id. The class
    `NumericStatsAddon.Counter` is proved to follow `Ingest`; the lemmas here
    say what a whole stream of requests produces. */
module Aggregation {

  datatype Option<T> = None | Some(value: T)

  /** A snapshot of one `CallEntry`: its id, URL (`call`), the method of its
      first request, its occurrence count and its timestamps in arrival order. */
  datatype Entry = Entry(id: int, call: string, httpMethod: string, number: int, times: seq<int>)

  /** A snapshot of a `Counter`. */
  datatype State = State(calls: seq<Entry>, currentId: int)

  /** One observed request. */
  datatype Event = Event(url: string, httpMethod: string, time: int)

  /** A fresh counter: no entries, ids starting at 1. */
  const Initial: State := State([], 1)

  /** The counter's invariant: ids run 1..n in creation order, the next id is
      n + 1, URLs are pairwise distinct and every count matches its timestamps. */
  ghost predicate Inv(s: State) {
    && s.currentId == |s.calls| + 1
    && (forall i :: 0 <= i < |s.calls| ==> s.calls[i].id == i + 1)
    && (forall i :: 0 <= i < |s.calls| ==> s.calls[i].number == |s.calls[i].times| >= 1)
    && (forall i, j :: 0 <= i < j < |s.calls| ==> s.calls[i].call != s.calls[j].call)
  }

  /** `getCallIndex`: the first position holding `call`, if any. */
  function Find(calls: seq<Entry>, call: string): (r: Option<nat>)
    ensures r.Some? ==> r.value < |calls| && calls[r.value].call == call
    ensures r.Some? ==> forall j :: 0 <= j < r.value ==> calls[j].call != call
    ensures r.None? ==> forall j :: 0 <= j < |calls| ==> calls[j].call != call
  {
    if calls == [] then None
    else if calls[0].call == call then Some(0)
    else match Find(calls[1..], call)
      case None => None
      case Some(k) => Some(k + 1)
  }

  /** `CallEntry.__init__`: a new entry has seen its URL once, at `time`. */
  function NewEntry(id: int, call: string, httpMethod: string, time: int): (r: Entry)
    ensures r.id == id && r.call == call && r.httpMethod == httpMethod
    ensures r.number == |r.times| == 1 && r.times[0] == time
  {
    Entry(id, call, httpMethod, 1, [time])
  }

  /** `CallEntry.increment`: one more occurrence, its time appended after the
      earlier ones; the count stays equal to the number of timestamps. */
  function Increment(e: Entry, time: int): (r: Entry)
    ensures r.id == e.id && r.call == e.call && r.httpMethod == e.httpMethod
    ensures |r.times| == |e.times| + 1 && r.times[..|e.times|] == e.times && r.times[|e.times|] == time
    ensures e.number == |e.times| ==> r.number == |r.times|
  {
    e.(number := e.number + 1, times := e.times + [time])
  }

  /** `Counter.request`: find the entry for the URL and record the time on it,
      or append a new entry with the next id. Afterwards the URL is found,
      and its entry's latest timestamp is this request's. */
  function Ingest(s: State, e: Event): (r: State)
    ensures |r.calls| == |s.calls| + (if Find(s.calls, e.url).None? then 1 else 0)
    ensures Find(r.calls, e.url).Some?
    ensures var k := Find(r.calls, e.url).value;
      k < |r.calls| && r.calls[k].times != [] && r.calls[k].times[|r.calls[k].times| - 1] == e.time
    ensures forall j :: 0 <= j < |s.calls| && s.calls[j].call != e.url ==> r.calls[j] == s.calls[j]
  {
    match Find(s.calls, e.url)
    case None =>
      var r := State(s.calls + [NewEntry(s.currentId, e.url, e.httpMethod, e.time)], s.currentId + 1);
      FindFirst(r.calls, e.url, |s.calls|);
      r
    case Some(k) =>
      var r := State(s.calls[k := Increment(s.calls[k], e.time)], s.currentId);
      FindFirst(r.calls, e.url, k);
      r
  }

  /** The first position holding `call` is what `Find` returns. */
  lemma FindFirst(calls: seq<Entry>, call: string, k: nat)
    requires k < |calls| && calls[k].call == call
    requires forall j :: 0 <= j < k ==> calls[j].call != call
    ensures Find(calls, call) == Some(k)
  {
  }

  lemma InitialInv()
    ensures Inv(Initial)
  {
  }

  /** A request to an unseen URL appends exactly one entry, numbered with the
      current id, and leaves all earlier entries alone. */
  lemma IngestUnseen(s: State, e: Event)
    requires forall i :: 0 <= i < |s.calls| ==> s.calls[i].call != e.url
    ensures var r := Ingest(s, e);
      && r.calls == s.calls + [Entry(s.currentId, e.url, e.httpMethod, 1, [e.time])]
      && r.currentId == s.currentId + 1
  {
  }

  /** A request to a known URL bumps that entry's count and appends the time;
      its id and first method stay, and nothing else changes. */
  lemma IngestSeen(s: State, e: Event, k: nat)
    requires Inv(s)
    requires k < |s.calls| && s.calls[k].call == e.url
    ensures var r := Ingest(s, e);
      && |r.calls| == |s.calls| && r.currentId == s.currentId
      && r.calls[k].id == s.calls[k].id
      && r.calls[k].call == s.calls[k].call
      && r.calls[k].httpMethod == s.calls[k].httpMethod
      && r.calls[k].number == s.calls[k].number + 1
      && r.calls[k].times == s.calls[k].times + [e.time]
      && forall j :: 0 <= j < |s.calls| && j != k ==> r.calls[j] == s.calls[j]
  {
    var f := Find(s.calls, e.url);
    assert f == Some(k);
  }

  /** `request` preserves the counter's invariant. */
  lemma IngestPreservesInv(s: State, e: Event)
    requires Inv(s)
    ensures Inv(Ingest(s, e))
  {
  }

  /** Order-preserving subsequence. */
  ghost predicate Subsequence(r: seq<Entry>, s: seq<Entry>)
    decreases |s|
  {
    if r == [] then true
    else if s == [] then false
    else (r[0] == s[0] && Subsequence(r[1..], s[1..])) || Subsequence(r, s[1..])
  }

  /** The filter of `writeMostFrequentCalls`: the entries seen more than
      `threshold` times, in insertion order. */
  function MostFrequent(calls: seq<Entry>, threshold: int): (r: seq<Entry>)
    ensures forall e :: e in r <==> e in calls && e.number > threshold
    ensures forall e :: multiset(r)[e] == if e.number > threshold then multiset(calls)[e] else 0
    ensures Subsequence(r, calls)
  {
    if calls == [] then []
    else
      assert calls == [calls[0]] + calls[1..];
      if calls[0].number > threshold then [calls[0]] + MostFrequent(calls[1..], threshold)
      else MostFrequent(calls[1..], threshold)
  }

  /** A threshold below every count keeps every entry. */
  lemma {:induction false} MostFrequentKeepsAll(calls: seq<Entry>, threshold: int)
    requires forall i :: 0 <= i < |calls| ==> calls[i].number > threshold
    ensures MostFrequent(calls, threshold) == calls
  {
    if calls != [] {
      MostFrequentKeepsAll(calls[1..], threshold);
    }
  }

  /** A threshold at or above every count keeps nothing. */
  lemma {:induction false} MostFrequentDropsAll(calls: seq<Entry>, threshold: int)
    requires forall i :: 0 <= i < |calls| ==> calls[i].number <= threshold
    ensures MostFrequent(calls, threshold) == []
  {
    if calls != [] {
      MostFrequentDropsAll(calls[1..], threshold);
    }
  }

  /** The detailed report computes a mean for every entry it selects, so it
      divides by zero unless every selected entry has at least two
      timestamps: exactly when the threshold is at least 1 or no entry has
      been seen only once. */
  lemma ReportMeanDefined(s: State, threshold: int)
    requires Inv(s)
    ensures (forall e :: e in MostFrequent(s.calls, threshold) ==> |e.times| >= 2) <==>
      (threshold >= 1 || forall i :: 0 <= i < |s.calls| ==> s.calls[i].number >= 2)
  {
    if threshold < 1 && exists i :: 0 <= i < |s.calls| && s.calls[i].number < 2 {
      var i :| 0 <= i < |s.calls| && s.calls[i].number < 2;
      assert s.calls[i] in MostFrequent(s.calls, threshold);
    }
  }

  // ---- A whole session: the state after a stream of requests ----

  function Replay(events: seq<Event>): State {
    if events == [] then Initial
    else Ingest(Replay(events[..|events| - 1]), events[|events| - 1])
  }

  function Urls(events: seq<Event>): seq<string> {
    seq(|events|, i requires 0 <= i < |events| => events[i].url)
  }

  function CallUrls(calls: seq<Entry>): seq<string> {
    seq(|calls|, i requires 0 <= i < |calls| => calls[i].call)
  }

  /** The distinct elements of `s`, in order of first appearance. */
  function FirstAppearances(s: seq<string>): (r: seq<string>)
    ensures forall x :: x in r <==> x in s
    ensures forall i, j :: 0 <= i < j < |r| ==> r[i] != r[j]
  {
    if s == [] then []
    else
      var d := FirstAppearances(s[..|s| - 1]);
      assert forall x :: x in s <==> x in s[..|s| - 1] || x == s[|s| - 1] by {
        assert s == s[..|s| - 1] + [s[|s| - 1]];
      }
      if s[|s| - 1] in d then d else d + [s[|s| - 1]]
  }

  /** The times of the requests to `url`, in arrival order. */
  function TimesOf(events: seq<Event>, url: string): seq<int> {
    if events == [] then []
    else
      var t := TimesOf(events[..|events| - 1], url);
      var e := events[|events| - 1];
      if e.url == url then t + [e.time] else t
  }

  /** The method of the first request to `url`, if any. */
  function FirstMethod(events: seq<Event>, url: string): Option<string> {
    if events == [] then None
    else
      var m := FirstMethod(events[..|events| - 1], url);
      var e := events[|events| - 1];
      if m.None? && e.url == url then Some(e.httpMethod) else m
  }

  /** Any stream of requests leaves the counter in a state satisfying its invariant. */
  lemma {:induction false} ReplayInv(events: seq<Event>)
    ensures Inv(Replay(events))
  {
    if events != [] {
      ReplayInv(events[..|events| - 1]);
      IngestPreservesInv(Replay(events[..|events| - 1]), events[|events| - 1]);
    }
  }

  lemma CallUrlsHas(calls: seq<Entry>, url: string)
    ensures url in CallUrls(calls) <==> exists i :: 0 <= i < |calls| && calls[i].call == url
  {
    var u := CallUrls(calls);
    assert forall i :: 0 <= i < |calls| ==> u[i] == calls[i].call;
  }

  /** One request adds its URL to the entries' URLs exactly when it is new. */
  lemma IngestUrls(s: State, e: Event)
    ensures CallUrls(Ingest(s, e).calls) ==
      if e.url in CallUrls(s.calls) then CallUrls(s.calls) else CallUrls(s.calls) + [e.url]
  {
    CallUrlsHas(s.calls, e.url);
    var r := Ingest(s, e);
    match Find(s.calls, e.url)
    case None =>
      assert r.calls == s.calls + [NewEntry(s.currentId, e.url, e.httpMethod, e.time)];
      assert CallUrls(r.calls) == CallUrls(s.calls) + [e.url];
    case Some(k) =>
      assert r.calls == s.calls[k := Increment(s.calls[k], e.time)];
      assert CallUrls(r.calls) == CallUrls(s.calls);
  }

  /** Entries are created, and so numbered, in order of each URL's first request. */
  lemma {:induction false} ReplayOrder(events: seq<Event>)
    ensures CallUrls(Replay(events).calls) == FirstAppearances(Urls(events))
  {
    if events != [] {
      var init := events[..|events| - 1];
      var e := events[|events| - 1];
      ReplayOrder(init);
      assert Urls(events) == Urls(init) + [e.url];
      IngestUrls(Replay(init), e);
    }
  }

  /** Every entry holds exactly the times of the requests to its URL, in
      arrival order, and the method of the first of them. */
  lemma {:induction false} ReplayEntries(events: seq<Event>)
    ensures forall i :: 0 <= i < |Replay(events).calls| ==>
      Replay(events).calls[i].times == TimesOf(events, Replay(events).calls[i].call)
    ensures forall i :: 0 <= i < |Replay(events).calls| ==>
      FirstMethod(events, Replay(events).calls[i].call) == Some(Replay(events).calls[i].httpMethod)
    ensures forall url :: url !in CallUrls(Replay(events).calls) ==>
      TimesOf(events, url) == [] && FirstMethod(events, url) == None
  {
    if events != [] {
      var init := events[..|events| - 1];
      var e := events[|events| - 1];
      ReplayEntries(init);
      var s := Replay(init);
      var r := Replay(events);
      assert r == Ingest(s, e);
      ReplayInv(init);
      match Find(s.calls, e.url) {
        case None =>
          IngestUnseen(s, e);
        case Some(k) =>
          IngestSeen(s, e, k);
      }
      assert forall i :: 0 <= i < |s.calls| ==> r.calls[i].call == s.calls[i].call;
      CallUrlsHas(r.calls, e.url);
      forall url | url !in CallUrls(r.calls)
        ensures TimesOf(events, url) == [] && FirstMethod(events, url) == None
      {
        CallUrlsHas(s.calls, url);
        CallUrlsHas(r.calls, url);
      }
      forall i | 0 <= i < |r.calls|
        ensures r.calls[i].times == TimesOf(events, r.calls[i].call)
        ensures FirstMethod(events, r.calls[i].call) == Some(r.calls[i].httpMethod)
      {
        match Find(s.calls, e.url)
        case None =>
          if i == |s.calls| {
            CallUrlsHas(s.calls, e.url);
          }
        case Some(k) =>
          if i == k {
            assert r.calls[k].times == s.calls[k].times + [e.time];
          } else {
            assert r.calls[i] == s.calls[i];
            assert s.calls[i].call != e.url;
          }
      }
    }
  }

  /** Grouping: there is one entry per distinct URL in the stream. */
  lemma ReplayGroups(events: seq<Event>)
    ensures |Replay(events).calls| == |set e | e in events :: e.url|
  {
    ReplayOrder(events);
    FirstAppearancesCount(Urls(events));
    forall x ensures x in Urls(events) <==> x in (set e | e in events :: e.url) {
      if x in Urls(events) {
        var i :| 0 <= i < |events| && Urls(events)[i] == x;
        assert events[i] in events;
      }
      if x in (set e | e in events :: e.url) {
        var ev :| ev in events && ev.url == x;
        var i :| 0 <= i < |events| && events[i] == ev;
        assert Urls(events)[i] == x;
      }
    }
    assert (set x | x in Urls(events)) == (set e | e in events :: e.url);
  }

  lemma {:induction false} FirstAppearancesCount(s: seq<string>)
    ensures |FirstAppearances(s)| == |set x | x in s|
  {
    if s != [] {
      var init := s[..|s| - 1];
      FirstAppearancesCount(init);
      assert s == init + [s[|s| - 1]];
      assert (set x | x in s) == (set x | x in init) + {s[|s| - 1]};
      if s[|s| - 1] !in init {
        assert s[|s| - 1] !in (set x | x in init);
      }
    }
  }
}
