/** The search by index, and the scan of every day file it must agree with. */
module ChunkSearch {
  import opened Basics
  import opened Bytes
  import opened ChunkIndex
  import opened DayFiles

  const RETENTION_DAYS := 4

  /** The query `searchBefore` makes. */
  function QueryBefore(before: Option<int>, now: int, matches: Event -> bool): Query {
    var t := if before.None? then now else before.value;
    Query(t - RETENTION_DAYS * NANOS_PER_DAY, t, matches)
  }

  function EventsOf(writes: seq<Entry>): seq<Event> {
    seq(|writes|, i requires 0 <= i < |writes| => writes[i].event)
  }

  /** The events written to one chunk, in writing order. */
  function ChunkEvents(log: seq<Entry>, k: ChunkKey): seq<Event> { EventsOf(WritesOf(log, k)) }

  /** Each event is filed under the day of its timestamp. */
  ghost predicate FiledByDay(log: seq<Entry>) {
    forall e :: e in log ==> e.key.day == DayOf(e.event.timestamp)
  }

  // ---- The reference: no index, every day of the window, newest day first ----

  function ScanDays(log: seq<Entry>, host: string, id: string, q: Query, day: int, low: int): seq<Event>
    decreases day - low + 1
  {
    if day < low then []
    else Reverse(WantedOf(q, ChunkEvents(log, ChunkKey(host, id, day)))) + ScanDays(log, host, id, q, day - 1, low)
  }

  function DayOfNanos(t: int): (d: int)
    ensures d * 86_400_000_000_000 <= t < (d + 1) * 86_400_000_000_000
  {
    t / NANOS_PER_DAY
  }

  function NaiveSearch(log: seq<Entry>, host: string, id: string, q: Query): seq<Event> {
    ScanDays(log, host, id, q, DayOfNanos(q.before), DayOfNanos(q.from))
  }

  // ---- The query ----

  /** The WHERE clause of the search for one container id. */
  predicate Selects(rows: Deltas, host: string, id: string, q: Query, k: ChunkKey) {
    && k in rows && k.host == host && k.containerID == id
    && DayOfNanos(q.from) <= k.day <= DayOfNanos(q.before)
    && rows[k].first < q.before / NANOS_PER_MILLI
  }

  /** What SQLite may answer: the selected chunks, each once, by last timestamp descending. */
  ghost predicate IsAnswer(rows: Deltas, host: string, id: string, q: Query, chunks: seq<ChunkKey>) {
    && (forall k :: k in chunks <==> Selects(rows, host, id, q, k))
    && (forall i, j :: 0 <= i < j < |chunks| ==> chunks[i] != chunks[j])
    && (forall i, j :: 0 <= i < j < |chunks| ==>
          chunks[i] in rows && chunks[j] in rows && rows[chunks[i]].last >= rows[chunks[j]].last)
  }

  function FromChunks(log: seq<Entry>, q: Query, chunks: seq<ChunkKey>): seq<Event> {
    if chunks == [] then []
    else Reverse(WantedOf(q, ChunkEvents(log, chunks[0]))) + FromChunks(log, q, chunks[1..])
  }

  /** The rows tell the exact time range of every chunk, as they do once everything is flushed. */
  ghost predicate RowExact(rows: Deltas, log: seq<Entry>, k: ChunkKey) { Spans(SpanIn(rows, k), WritesOf(log, k)) }

  ghost predicate RowsExact(rows: Deltas, log: seq<Entry>) { forall k :: RowExact(rows, log, k) }

  lemma {:induction false} WritesAreFromLog(log: seq<Entry>, k: ChunkKey, w: Entry)
    ensures w in WritesOf(log, k) <==> w in log && w.key == k
  {
    if log != [] {
      WritesAreFromLog(log[..|log| - 1], k, w);
      assert log == log[..|log| - 1] + [log[|log| - 1]];
    }
  }

  lemma RowInItsDay(rows: Deltas, log: seq<Entry>, k: ChunkKey)
    requires RowsExact(rows, log) && FiledByDay(log) && k in rows
    ensures DayOf(rows[k].first) == DayOf(rows[k].last) == k.day
  {
    assert RowExact(rows, log, k);
    forall w | w in WritesOf(log, k)
      ensures DayOf(w.event.timestamp) == k.day
    {
      WritesAreFromLog(log, k, w);
    }
  }

  lemma AnswerDescends(rows: Deltas, log: seq<Entry>, host: string, id: string, q: Query,
                       chunks: seq<ChunkKey>, i: nat, j: nat)
    requires RowsExact(rows, log) && FiledByDay(log) && IsAnswer(rows, host, id, q, chunks)
    requires i < j < |chunks|
    ensures chunks[i].day > chunks[j].day
  {
    assert chunks[i] in chunks && chunks[j] in chunks;
    assert rows[chunks[i]].last >= rows[chunks[j]].last;
    RowInItsDay(rows, log, chunks[i]);
    RowInItsDay(rows, log, chunks[j]);
    assert chunks[i] != chunks[j];
  }

  lemma {:induction false} FilterNone(q: Query, events: seq<Event>)
    requires forall e :: e in events ==> !Wanted(q, e)
    ensures WantedOf(q, events) == []
  {
    if events != [] {
      FilterNone(q, events[..|events| - 1]);
    }
  }

  lemma {:induction false} FilterMembers(q: Query, events: seq<Event>, e: Event)
    ensures e in WantedOf(q, events) <==> e in events && Wanted(q, e)
  {
    if events != [] {
      FilterMembers(q, events[..|events| - 1], e);
      assert events == events[..|events| - 1] + [events[|events| - 1]];
    }
  }

  /** `before` lies inside a millisecond, the newest day's chunk starts in that very millisecond,
      and a wanted event is in it: `first_ts < before` compares whole milliseconds and prunes it. */
  ghost predicate LostToRounding(rows: Deltas, log: seq<Entry>, host: string, id: string, q: Query) {
    var k := ChunkKey(host, id, DayOfNanos(q.before));
    && q.before % NANOS_PER_MILLI != 0
    && k in rows && rows[k].first == q.before / NANOS_PER_MILLI
    && DayOfNanos(q.from) <= k.day
    && exists e :: e in ChunkEvents(log, k) && Wanted(q, e)
  }

  lemma ChunkEventInRange(rows: Deltas, log: seq<Entry>, k: ChunkKey, e: Event)
    requires RowsExact(rows, log) && FiledByDay(log) && e in ChunkEvents(log, k)
    ensures k in rows && rows[k].first <= e.timestamp <= rows[k].last && DayOf(e.timestamp) == k.day
  {
    assert RowExact(rows, log, k);
    var i :| 0 <= i < |WritesOf(log, k)| && WritesOf(log, k)[i].event == e;
    assert WritesOf(log, k)[i] in WritesOf(log, k);
    WritesAreFromLog(log, k, WritesOf(log, k)[i]);
  }

  /** A chunk left out of the answer holds no wanted event, unless rounding lost it. */
  lemma PrunedIsEmpty(rows: Deltas, log: seq<Entry>, host: string, id: string, q: Query, day: int)
    requires RowsExact(rows, log) && FiledByDay(log) && !LostToRounding(rows, log, host, id, q)
    requires DayOfNanos(q.from) <= day <= DayOfNanos(q.before)
    requires !Selects(rows, host, id, q, ChunkKey(host, id, day))
    ensures WantedOf(q, ChunkEvents(log, ChunkKey(host, id, day))) == []
  {
    var k := ChunkKey(host, id, day);
    forall e | e in ChunkEvents(log, k)
      ensures !Wanted(q, e)
    {
      ChunkEventInRange(rows, log, k, e);
    }
    FilterNone(q, ChunkEvents(log, k));
  }

  ghost predicate NothingWanted(log: seq<Entry>, host: string, id: string, q: Query, day: int) {
    WantedOf(q, ChunkEvents(log, ChunkKey(host, id, day))) == []
  }

  /** The chunks are days of one container, from `day` down to `low`, newest first. */
  ghost predicate DaysDown(chunks: seq<ChunkKey>, host: string, id: string, day: int, low: int) {
    chunks != [] ==>
      && low <= chunks[0].day <= day && chunks[0] == ChunkKey(host, id, chunks[0].day)
      && DaysDown(chunks[1..], host, id, chunks[0].day - 1, low)
  }

  lemma {:induction false} DaysDownBound(chunks: seq<ChunkKey>, host: string, id: string,
                                        day: int, low: int, k: ChunkKey)
    requires DaysDown(chunks, host, id, day, low) && k in chunks
    ensures k.day <= day
  {
    if k != chunks[0] {
      DaysDownBound(chunks[1..], host, id, chunks[0].day - 1, low, k);
    }
  }

  /** A scan of the days agrees with the chunk list whenever the list runs through the days in
      descending order and leaves out only days without a wanted event. */
  lemma {:induction false} ChunksAreDays(log: seq<Entry>, host: string, id: string, q: Query,
                                        chunks: seq<ChunkKey>, day: int, low: int)
    requires DaysDown(chunks, host, id, day, low)
    requires forall d :: low <= d <= day ==> ChunkKey(host, id, d) in chunks || NothingWanted(log, host, id, q, d)
    ensures FromChunks(log, q, chunks) == ScanDays(log, host, id, q, day, low)
    decreases day - low + 1
  {
    if day >= low {
      if chunks != [] && chunks[0].day == day {
        ChunksAreDays(log, host, id, q, chunks[1..], day - 1, low);
      } else {
        if ChunkKey(host, id, day) in chunks {
          DaysDownBound(chunks, host, id, if chunks == [] then day else chunks[0].day, low, ChunkKey(host, id, day));
        }
        assert NothingWanted(log, host, id, q, day);
        ChunksAreDays(log, host, id, q, chunks, day - 1, low);
        assert Reverse<Event>([]) == [];
      }
    }
  }

  lemma {:induction false} AnswerIsDaysDown(chunks: seq<ChunkKey>, host: string, id: string, day: int, low: int)
    requires forall k :: k in chunks ==> k.host == host && k.containerID == id && low <= k.day <= day
    requires forall i, j :: 0 <= i < j < |chunks| ==> chunks[i].day > chunks[j].day
    ensures DaysDown(chunks, host, id, day, low)
    decreases |chunks|
  {
    if chunks != [] {
      forall k | k in chunks[1..]
        ensures k.host == host && k.containerID == id && low <= k.day <= chunks[0].day - 1
      {
        var j :| 0 <= j < |chunks[1..]| && chunks[1..][j] == k;
        assert chunks[0].day > chunks[j + 1].day;
      }
      AnswerIsDaysDown(chunks[1..], host, id, chunks[0].day - 1, low);
    }
  }

  lemma AnswerRunsDown(rows: Deltas, log: seq<Entry>, host: string, id: string, q: Query, chunks: seq<ChunkKey>)
    requires RowsExact(rows, log) && FiledByDay(log) && IsAnswer(rows, host, id, q, chunks)
    ensures DaysDown(chunks, host, id, DayOfNanos(q.before), DayOfNanos(q.from))
  {
    forall i, j | 0 <= i < j < |chunks|
      ensures chunks[i].day > chunks[j].day
    {
      AnswerDescends(rows, log, host, id, q, chunks, i, j);
    }
    AnswerIsDaysDown(chunks, host, id, DayOfNanos(q.before), DayOfNanos(q.from));
  }

  lemma {:induction false} FromChunksMembers(log: seq<Entry>, q: Query, chunks: seq<ChunkKey>, e: Event)
    requires e in FromChunks(log, q, chunks)
    ensures exists k :: k in chunks && e in ChunkEvents(log, k)
  {
    var here := ChunkEvents(log, chunks[0]);
    ReverseMembers(WantedOf(q, here), e);
    FilterMembers(q, here, e);
    if e !in here {
      FromChunksMembers(log, q, chunks[1..], e);
      var k :| k in chunks[1..] && e in ChunkEvents(log, k);
      assert k in chunks;
    } else {
      assert chunks[0] in chunks;
    }
  }

  /** Searching by index finds exactly what scanning every day of the window finds, in the same
      order, if and only if no wanted event is lost to rounding `before` to milliseconds. So
      pruning by day and by `first_ts` neither loses nor adds a match for a whole-millisecond
      `before`. */
  lemma IndexedEqualsNaive(rows: Deltas, log: seq<Entry>, host: string, id: string, q: Query, chunks: seq<ChunkKey>)
    requires RowsExact(rows, log) && FiledByDay(log)
    requires IsAnswer(rows, host, id, q, chunks)
    ensures FromChunks(log, q, chunks) == NaiveSearch(log, host, id, q) <==> !LostToRounding(rows, log, host, id, q)
    ensures q.before % NANOS_PER_MILLI == 0 ==> FromChunks(log, q, chunks) == NaiveSearch(log, host, id, q)
  {
    if LostToRounding(rows, log, host, id, q) {
      RoundingLoses(rows, log, host, id, q, chunks);
    } else {
      var low, high := DayOfNanos(q.from), DayOfNanos(q.before);
      AnswerRunsDown(rows, log, host, id, q, chunks);
      forall d | low <= d <= high
        ensures ChunkKey(host, id, d) in chunks || NothingWanted(log, host, id, q, d)
      {
        if ChunkKey(host, id, d) !in chunks {
          PrunedIsEmpty(rows, log, host, id, q, d);
        }
      }
      ChunksAreDays(log, host, id, q, chunks, high, low);
    }
  }

  lemma RoundingLoses(rows: Deltas, log: seq<Entry>, host: string, id: string, q: Query, chunks: seq<ChunkKey>)
    requires RowsExact(rows, log) && FiledByDay(log) && IsAnswer(rows, host, id, q, chunks)
    requires LostToRounding(rows, log, host, id, q)
    ensures FromChunks(log, q, chunks) != NaiveSearch(log, host, id, q)
  {
    var lost := ChunkKey(host, id, DayOfNanos(q.before));
    var e :| e in ChunkEvents(log, lost) && Wanted(q, e);
    ReverseMembers(WantedOf(q, ChunkEvents(log, lost)), e);
    FilterMembers(q, ChunkEvents(log, lost), e);
    assert e in NaiveSearch(log, host, id, q);
    if e in FromChunks(log, q, chunks) {
      FromChunksMembers(log, q, chunks, e);
      var k :| k in chunks && e in ChunkEvents(log, k);
      assert Selects(rows, host, id, q, k);
      ChunkEventInRange(rows, log, k, e);
      ChunkEventInRange(rows, log, lost, e);
      assert false;
    }
  }

  /** An event at 1000 ms is not found when searching before 1000.5 ms, though it lies before it. */
  lemma RoundingLossExample()
    ensures var e := Event("c", 1000, 0, "");
            var k := ChunkKey("h", "c", 0);
            var log := [Entry(k, e, "")];
            var rows: Deltas := map[k := Delta("", PathOf(k), 1000, 1000, 1)];
            var q := QueryBefore(Some(1_000_500_000), 0, _ => true);
            && RowsExact(rows, log) && FiledByDay(log) && IsAnswer(rows, "h", "c", q, [])
            && Wanted(q, e) && LostToRounding(rows, log, "h", "c", q)
  {
    var e := Event("c", 1000, 0, "");
    var k := ChunkKey("h", "c", 0);
    var w := Entry(k, e, "");
    var log := [w];
    assert log[..0] == [];
    assert WritesOf(log, k) == [w];
    assert w in WritesOf(log, k);
    assert ChunkEvents(log, k) == [e];
    var rows: Deltas := map[k := Delta("", PathOf(k), 1000, 1000, 1)];
    forall x
      ensures RowExact(rows, log, x)
    {
      assert x != k ==> WritesOf(log, x) == [];
    }
    assert e in ChunkEvents(log, k) && Wanted(QueryBefore(Some(1_000_500_000), 0, _ => true), e);
  }

  // ---- What the reference means ----

  lemma {:induction false} ReverseMembers<T>(s: seq<T>, x: T)
    ensures x in Reverse(s) <==> x in s
  {
    if s != [] {
      ReverseMembers(s[1..], x);
      assert s == [s[0]] + s[1..];
    }
  }

  lemma {:induction false} ReverseSame<T>(s: seq<T>)
    ensures multiset(Reverse(s)) == multiset(s)
  {
    if s != [] {
      ReverseSame(s[1..]);
      assert s == [s[0]] + s[1..];
    }
  }

  /** Everything ever stored for the container, in writing order. */
  function ContainerEvents(log: seq<Entry>, host: string, id: string): seq<Event> {
    if log == [] then []
    else
      var e := log[|log| - 1];
      ContainerEvents(log[..|log| - 1], host, id) +
      if e.key.host == host && e.key.containerID == id then [e.event] else []
  }

  lemma ChunkGrows(log: seq<Entry>, k: ChunkKey, q: Query)
    requires log != []
    ensures var init, e := log[..|log| - 1], log[|log| - 1];
            WantedOf(q, ChunkEvents(log, k)) ==
            WantedOf(q, ChunkEvents(init, k)) + if e.key == k && Wanted(q, e.event) then [e.event] else []
  {
    var init, e := log[..|log| - 1], log[|log| - 1];
    if e.key == k {
      assert ChunkEvents(log, k) == ChunkEvents(init, k) + [e.event];
      assert ChunkEvents(log, k)[..|ChunkEvents(log, k)| - 1] == ChunkEvents(init, k);
    } else {
      assert WritesOf(log, k) == WritesOf(init, k);
    }
  }

  lemma {:induction false} ScanGrows(log: seq<Entry>, host: string, id: string, q: Query, day: int, low: int)
    requires log != []
    ensures var init, e := log[..|log| - 1], log[|log| - 1];
            var adds := e.key.host == host && e.key.containerID == id && low <= e.key.day <= day && Wanted(q, e.event);
            multiset(ScanDays(log, host, id, q, day, low)) ==
            multiset(ScanDays(init, host, id, q, day, low)) + if adds then multiset{e.event} else multiset{}
    decreases day - low + 1
  {
    if day >= low {
      var k := ChunkKey(host, id, day);
      ScanGrows(log, host, id, q, day - 1, low);
      ChunkGrows(log, k, q);
      ReverseSame(WantedOf(q, ChunkEvents(log, k)));
      ReverseSame(WantedOf(q, ChunkEvents(log[..|log| - 1], k)));
    }
  }

  lemma {:induction false} ScanOfNothing(host: string, id: string, q: Query, day: int, low: int)
    ensures ScanDays([], host, id, q, day, low) == []
    decreases day - low + 1
  {
    if day >= low {
      ScanOfNothing(host, id, q, day - 1, low);
    }
  }

  /** The naive search returns every stored event of the container that lies in the window and
      matches, as often as it was stored, and nothing else. */
  lemma {:induction false} NaiveFindsAll(log: seq<Entry>, host: string, id: string, q: Query)
    requires FiledByDay(log)
    ensures multiset(NaiveSearch(log, host, id, q)) == multiset(WantedOf(q, ContainerEvents(log, host, id)))
  {
    var low, high := DayOfNanos(q.from), DayOfNanos(q.before);
    if log == [] {
      ScanOfNothing(host, id, q, high, low);
    } else {
      var init, e := log[..|log| - 1], log[|log| - 1];
      NaiveFindsAll(init, host, id, q);
      ScanGrows(log, host, id, q, high, low);
      assert e in log;
      var all, before := ContainerEvents(log, host, id), ContainerEvents(init, host, id);
      if e.key.host == host && e.key.containerID == id {
        assert all[..|all| - 1] == before;
      } else {
        assert all == before;
      }
    }
  }

  /** Where in the history this event was written for this container. */
  ghost function WrittenAt(log: seq<Entry>, host: string, id: string, e: Event): set<int> {
    set i | 0 <= i < |log| && log[i].key.host == host && log[i].key.containerID == id && log[i].event == e
  }

  lemma WrittenNext(log: seq<Entry>, last: Entry, host: string, id: string, e: Event)
    ensures |WrittenAt(log + [last], host, id, e)| ==
            |WrittenAt(log, host, id, e)| +
            if last.key.host == host && last.key.containerID == id && last.event == e then 1 else 0
  {
    var all := log + [last];
    assert forall i :: 0 <= i < |log| ==> all[i] == log[i];
    assert WrittenAt(all, host, id, e) ==
           WrittenAt(log, host, id, e) +
           if last.key.host == host && last.key.containerID == id && last.event == e then {|log|} else {};
  }

  lemma {:induction false} ContainerEventsCount(log: seq<Entry>, host: string, id: string, e: Event)
    ensures multiset(ContainerEvents(log, host, id))[e] == |WrittenAt(log, host, id, e)|
  {
    if log != [] {
      var n := |log| - 1;
      ContainerEventsCount(log[..n], host, id, e);
      WrittenNext(log[..n], log[n], host, id, e);
      assert log == log[..n] + [log[n]];
    }
  }

  lemma {:induction false} FilterCounts(q: Query, events: seq<Event>, e: Event)
    ensures multiset(WantedOf(q, events))[e] ==
            if q.matches(e) && q.from <= e.timestamp * 1_000_000 < q.before then multiset(events)[e] else 0
  {
    if events != [] {
      FilterCounts(q, events[..|events| - 1], e);
      assert events == events[..|events| - 1] + [events[|events| - 1]];
    }
  }

  /** Every event is found as often as it was written for the container, if the filter accepts it and it
      lies in the window, and not at all otherwise. */
  ghost predicate FindsEach(log: seq<Entry>, host: string, id: string, q: Query, found: seq<Event>) {
    forall e :: CountedRight(log, host, id, q, found, e)
  }

  ghost predicate CountedRight(log: seq<Entry>, host: string, id: string, q: Query, found: seq<Event>, e: Event) {
    multiset(found)[e] ==
    if q.matches(e) && q.from <= e.timestamp * 1_000_000 < q.before then |WrittenAt(log, host, id, e)| else 0
  }

  lemma NaiveFindsEach(log: seq<Entry>, host: string, id: string, q: Query)
    requires FiledByDay(log)
    ensures FindsEach(log, host, id, q, NaiveSearch(log, host, id, q))
  {
    NaiveFindsAll(log, host, id, q);
    forall e ensures CountedRight(log, host, id, q, NaiveSearch(log, host, id, q), e) {
      FilterCounts(q, ContainerEvents(log, host, id), e);
      ContainerEventsCount(log, host, id, e);
    }
  }

  ghost predicate InTimeOrder(events: seq<Event>) {
    forall i, j :: 0 <= i < j < |events| ==> events[i].timestamp <= events[j].timestamp
  }

  ghost predicate NewestFirst(events: seq<Event>) {
    forall i, j :: 0 <= i < j < |events| ==> events[i].timestamp >= events[j].timestamp
  }

  lemma {:induction false} FilterKeepsOrder(q: Query, events: seq<Event>)
    requires InTimeOrder(events)
    ensures InTimeOrder(WantedOf(q, events))
  {
    if events != [] {
      var init := events[..|events| - 1];
      FilterKeepsOrder(q, init);
      forall i | 0 <= i < |WantedOf(q, init)|
        ensures WantedOf(q, init)[i].timestamp <= events[|events| - 1].timestamp
      {
        FilterMembers(q, init, WantedOf(q, init)[i]);
        assert WantedOf(q, init)[i] in WantedOf(q, init);
      }
    }
  }

  lemma {:induction false} ReverseOrder(events: seq<Event>)
    requires InTimeOrder(events)
    ensures NewestFirst(Reverse(events))
  {
    if events != [] {
      ReverseOrder(events[1..]);
      forall i | 0 <= i < |events[1..]|
        ensures Reverse(events[1..])[i].timestamp >= events[0].timestamp
      {
        ReverseMembers(events[1..], Reverse(events[1..])[i]);
        assert Reverse(events[1..])[i] in events[1..];
      }
    }
  }

  lemma {:induction false} ScanDaysOrdered(log: seq<Entry>, host: string, id: string, q: Query, day: int, low: int)
    requires FiledByDay(log)
    requires forall d :: low <= d <= day ==> InTimeOrder(ChunkEvents(log, ChunkKey(host, id, d)))
    ensures NewestFirst(ScanDays(log, host, id, q, day, low))
    ensures forall e :: e in ScanDays(log, host, id, q, day, low) ==> DayOf(e.timestamp) <= day
    decreases day - low + 1
  {
    if day >= low {
      var k := ChunkKey(host, id, day);
      ScanDaysOrdered(log, host, id, q, day - 1, low);
      FilterKeepsOrder(q, ChunkEvents(log, k));
      ReverseOrder(WantedOf(q, ChunkEvents(log, k)));
      forall e | e in Reverse(WantedOf(q, ChunkEvents(log, k)))
        ensures DayOf(e.timestamp) == day
      {
        ReverseMembers(WantedOf(q, ChunkEvents(log, k)), e);
        FilterMembers(q, ChunkEvents(log, k), e);
        var i :| 0 <= i < |ChunkEvents(log, k)| && ChunkEvents(log, k)[i] == e;
        WritesAreFromLog(log, k, WritesOf(log, k)[i]);
        assert WritesOf(log, k)[i] in WritesOf(log, k);
      }
      Stacked(Reverse(WantedOf(q, ChunkEvents(log, k))), ScanDays(log, host, id, q, day - 1, low), day);
    }
  }

  lemma Stacked(newer: seq<Event>, older: seq<Event>, day: int)
    requires NewestFirst(newer) && NewestFirst(older)
    requires forall e :: e in newer ==> DayOf(e.timestamp) == day
    requires forall e :: e in older ==> DayOf(e.timestamp) <= day - 1
    ensures NewestFirst(newer + older)
  {
  }

  /** If each day file was appended in time order, the search result is newest first. */
  lemma NaiveIsNewestFirst(log: seq<Entry>, host: string, id: string, q: Query)
    requires FiledByDay(log)
    requires forall d :: InTimeOrder(ChunkEvents(log, ChunkKey(host, id, d)))
    ensures NewestFirst(NaiveSearch(log, host, id, q))
  {
    ScanDaysOrdered(log, host, id, q, DayOfNanos(q.before), DayOfNanos(q.from));
  }
}
