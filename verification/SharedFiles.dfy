/** Files are named by a part of the container id, so containers may share them: what a search of files
    finds (internal/log_storage/store.go). */
module SharedFiles {
  import opened Basics
  import opened Bytes
  import opened ChunkIndex
  import opened DayFiles
  import opened ChunkSearch

  /** The events in one file, in writing order. */
  function EventsAt(log: seq<Entry>, p: Path): seq<Event> {
    if log == [] then []
    else EventsAt(log[..|log| - 1], p) + if PathOf(log[|log| - 1].key) == p then [log[|log| - 1].event] else []
  }

  /** No other container uses this container's files: ids differ in their first 12 characters. */
  ghost predicate OwnsFiles(log: seq<Entry>, host: string, id: string) {
    forall e :: e in log && PathOf(e.key) == PathOf(ChunkKey(host, id, e.key.day)) ==>
      e.key.host == host && e.key.containerID == id
  }

  lemma {:induction false} OwnFileIsChunk(log: seq<Entry>, host: string, id: string, d: int)
    requires OwnsFiles(log, host, id)
    ensures EventsAt(log, PathOf(ChunkKey(host, id, d))) == ChunkEvents(log, ChunkKey(host, id, d))
  {
    if log != [] {
      var init, k := log[..|log| - 1], ChunkKey(host, id, d);
      assert log[|log| - 1] in log;
      OwnFileIsChunk(init, host, id, d);
    }
  }

  lemma {:induction false} StrangersMakeFileLonger(log: seq<Entry>, k: ChunkKey, e: Entry)
    ensures |ChunkEvents(log, k)| <= |EventsAt(log, PathOf(k))|
    ensures e in log && PathOf(e.key) == PathOf(k) && e.key != k ==> |ChunkEvents(log, k)| < |EventsAt(log, PathOf(k))|
  {
    if log != [] {
      StrangersMakeFileLonger(log[..|log| - 1], k, e);
    }
  }

  /** The file of this day holds this container's events and no others. */
  ghost predicate HoldsOwn(log: seq<Entry>, host: string, id: string, d: int) {
    EventsAt(log, PathOf(ChunkKey(host, id, d))) == ChunkEvents(log, ChunkKey(host, id, d))
  }

  /** Since files are named by the first 12 characters of the id, a container's files hold its events
      alone exactly when no other container wrote to the same names. */
  lemma OwnsFilesIff(log: seq<Entry>, host: string, id: string)
    ensures OwnsFiles(log, host, id) <==> forall d :: HoldsOwn(log, host, id, d)
  {
    if OwnsFiles(log, host, id) {
      forall d ensures HoldsOwn(log, host, id, d) { OwnFileIsChunk(log, host, id, d); }
    } else {
      var e :| e in log && PathOf(e.key) == PathOf(ChunkKey(host, id, e.key.day)) &&
               !(e.key.host == host && e.key.containerID == id);
      StrangersMakeFileLonger(log, ChunkKey(host, id, e.key.day), e);
      assert !HoldsOwn(log, host, id, e.key.day);
    }
  }

  // ---- What the files of other containers do to a search ----

  /** The wanted events of the files of these chunks, file by file, last written first. */
  function FromFiles(log: seq<Entry>, q: Query, chunks: seq<ChunkKey>): seq<Event> {
    if chunks == [] then []
    else Reverse(WantedOf(q, EventsAt(log, PathOf(chunks[0])))) + FromFiles(log, q, chunks[1..])
  }

  /** A wanted event of another chunk is in the file of this one. */
  ghost predicate HasStranger(log: seq<Entry>, q: Query, k: ChunkKey) {
    exists e :: e in log && PathOf(e.key) == PathOf(k) && e.key != k && Wanted(q, e.event)
  }

  lemma LastEntry(log: seq<Entry>, k: ChunkKey)
    requires log != []
    ensures var init, e := log[..|log| - 1], log[|log| - 1];
            ChunkEvents(log, k) == ChunkEvents(init, k) + if e.key == k then [e.event] else []
  {
  }

  lemma {:induction false} StrangersShow(log: seq<Entry>, q: Query, k: ChunkKey)
    ensures var own, all := WantedOf(q, ChunkEvents(log, k)), WantedOf(q, EventsAt(log, PathOf(k)));
            if HasStranger(log, q, k) then |own| < |all| else own == all
  {
    if log != [] {
      var init, e := log[..|log| - 1], log[|log| - 1];
      StrangersShow(init, q, k);
      StrangerNext(log, q, k);
      LastEntry(log, k);
      var own, all := ChunkEvents(init, k), EventsAt(init, PathOf(k));
      if e.key == k {
        WantedNext(q, own, e.event);
        WantedNext(q, all, e.event);
      } else if PathOf(e.key) == PathOf(k) {
        WantedNext(q, all, e.event);
        assert own + [] == own;
      } else {
        assert own + [] == own && all + [] == all;
      }
    }
  }

  lemma StrangerNext(log: seq<Entry>, q: Query, k: ChunkKey)
    requires log != []
    ensures var init, e := log[..|log| - 1], log[|log| - 1];
            HasStranger(log, q, k) <==>
            HasStranger(init, q, k) || (PathOf(e.key) == PathOf(k) && e.key != k && Wanted(q, e.event))
  {
    var init, last := log[..|log| - 1], log[|log| - 1];
    assert log == init + [last];
    if HasStranger(init, q, k) {
      var e :| e in init && PathOf(e.key) == PathOf(k) && e.key != k && Wanted(q, e.event);
      assert e in log;
    }
  }

  lemma WantedNext(q: Query, events: seq<Event>, e: Event)
    ensures WantedOf(q, events + [e]) == WantedOf(q, events) + if Wanted(q, e) then [e] else []
  {
    assert (events + [e])[..|events|] == events;
  }

  /** One of the files searched has a wanted event of another chunk. */
  ghost predicate FindsStrangers(log: seq<Entry>, q: Query, chunks: seq<ChunkKey>) {
    exists i :: 0 <= i < |chunks| && HasStranger(log, q, chunks[i])
  }

  lemma FindsNext(log: seq<Entry>, q: Query, chunks: seq<ChunkKey>)
    requires chunks != []
    ensures FindsStrangers(log, q, chunks) <==> HasStranger(log, q, chunks[0]) || FindsStrangers(log, q, chunks[1..])
  {
    if FindsStrangers(log, q, chunks[1..]) {
      var i :| 0 <= i < |chunks| - 1 && HasStranger(log, q, chunks[1..][i]);
      assert HasStranger(log, q, chunks[i + 1]);
    }
    if FindsStrangers(log, q, chunks) {
      var i :| 0 <= i < |chunks| && HasStranger(log, q, chunks[i]);
      assert i > 0 ==> HasStranger(log, q, chunks[1..][i - 1]);
    }
  }

  lemma {:induction false} FilesAreLonger(log: seq<Entry>, q: Query, chunks: seq<ChunkKey>)
    ensures if FindsStrangers(log, q, chunks) then |FromChunks(log, q, chunks)| < |FromFiles(log, q, chunks)|
            else FromChunks(log, q, chunks) == FromFiles(log, q, chunks)
  {
    if chunks != [] {
      StrangersShow(log, q, chunks[0]);
      FilesAreLonger(log, q, chunks[1..]);
      FindsNext(log, q, chunks);
    }
  }

  /** The files searched hold the events of the chunks searched if and only if none of them holds a
      wanted event of another container. */
  lemma FilesAreChunksIff(log: seq<Entry>, q: Query, chunks: seq<ChunkKey>)
    ensures FromFiles(log, q, chunks) == FromChunks(log, q, chunks) <==> !FindsStrangers(log, q, chunks)
  {
    FilesAreLonger(log, q, chunks);
  }

  lemma {:induction false} EventsAtDay(log: seq<Entry>, p: Path, e: Event)
    requires FiledByDay(log) && e in EventsAt(log, p)
    ensures DayOf(e.timestamp) == p.day
  {
    var init, last := log[..|log| - 1], log[|log| - 1];
    assert last in log;
    if e in EventsAt(init, p) {
      EventsAtDay(init, p, e);
    }
  }

  /** What is found stands in one of the files, is accepted by the filter and lies in the window. */
  lemma {:induction false} FromFilesMembers(log: seq<Entry>, q: Query, chunks: seq<ChunkKey>, e: Event)
    requires e in FromFiles(log, q, chunks)
    ensures exists k :: k in chunks && e in EventsAt(log, PathOf(k))
    ensures q.matches(e) && q.from <= e.timestamp * 1_000_000 < q.before
  {
    var here := WantedOf(q, EventsAt(log, PathOf(chunks[0])));
    if e in Reverse(here) {
      ReverseMembers(here, e);
      FilterMembers(q, EventsAt(log, PathOf(chunks[0])), e);
    } else {
      FromFilesMembers(log, q, chunks[1..], e);
    }
  }

  /** What rounding loses is in none of the files searched. */
  lemma LostIsInNoFile(rows: Deltas, log: seq<Entry>, host: string, id: string, q: Query, chunks: seq<ChunkKey>)
    requires RowsExact(rows, log) && FiledByDay(log) && IsAnswer(rows, host, id, q, chunks)
    requires LostToRounding(rows, log, host, id, q)
    ensures FromFiles(log, q, chunks) != NaiveSearch(log, host, id, q)
  {
    var lost := ChunkKey(host, id, DayOfNanos(q.before));
    var e :| e in ChunkEvents(log, lost) && Wanted(q, e);
    ReverseMembers(WantedOf(q, ChunkEvents(log, lost)), e);
    FilterMembers(q, ChunkEvents(log, lost), e);
    assert e in NaiveSearch(log, host, id, q);
    ChunkEventInRange(rows, log, lost, e);
    if e in FromFiles(log, q, chunks) {
      FromFilesMembers(log, q, chunks, e);
      var k :| k in chunks && e in EventsAt(log, PathOf(k));
      EventsAtDay(log, PathOf(k), e);
      assert false;
    }
  }

  /** A right answer of SQLite leads to the events of the naive scan exactly if none of them is lost to
      rounding and none of a stranger is found. So a search before a whole millisecond that meets no
      stranger finds every stored event of the container that is wanted, as often as it was stored, and
      nothing else, newest first if the day files are in time order. */
  ghost predicate RightAnswer(rows: Deltas, log: seq<Entry>, host: string, id: string, q: Query,
                              chunks: seq<ChunkKey>)
  {
    IsAnswer(rows, host, id, q, chunks) ==>
      && (FromFiles(log, q, chunks) == NaiveSearch(log, host, id, q) <==>
          !LostToRounding(rows, log, host, id, q) && !FindsStrangers(log, q, chunks))
      && (FromChunks(log, q, chunks) == NaiveSearch(log, host, id, q) <==> !LostToRounding(rows, log, host, id, q))
      && (FromFiles(log, q, chunks) == FromChunks(log, q, chunks) <==> !FindsStrangers(log, q, chunks))
      && (q.before % NANOS_PER_MILLI == 0 ==> FromChunks(log, q, chunks) == NaiveSearch(log, host, id, q))
      && (q.before % NANOS_PER_MILLI == 0 && !FindsStrangers(log, q, chunks) ==>
            FindsAll(log, host, id, q, FromFiles(log, q, chunks)))
  }

  /** These are the wanted events of the container, newest first if its files are in time order. */
  ghost predicate FindsAll(log: seq<Entry>, host: string, id: string, q: Query, found: seq<Event>) {
    && FindsEach(log, host, id, q, found)
    && multiset(found) == multiset(WantedOf(q, ContainerEvents(log, host, id)))
    && |found| == |WantedOf(q, ContainerEvents(log, host, id))|
    && (FilesInOrder(log, host, id) ==> NewestFirst(found))
  }

  ghost predicate FilesInOrder(log: seq<Entry>, host: string, id: string) {
    forall d :: InTimeOrder(ChunkEvents(log, ChunkKey(host, id, d)))
  }

  lemma NaiveIsAll(log: seq<Entry>, host: string, id: string, q: Query)
    requires FiledByDay(log)
    ensures FindsAll(log, host, id, q, NaiveSearch(log, host, id, q))
  {
    NaiveFindsAll(log, host, id, q);
    NaiveFindsEach(log, host, id, q);
    SameSize(NaiveSearch(log, host, id, q), WantedOf(q, ContainerEvents(log, host, id)));
    if FilesInOrder(log, host, id) {
      NaiveIsNewestFirst(log, host, id, q);
    }
  }

  lemma SameSize(a: seq<Event>, b: seq<Event>)
    requires multiset(a) == multiset(b)
    ensures |a| == |b|
  {
    assert |multiset(a)| == |a| && |multiset(b)| == |b|;
  }

  lemma SearchIsRight(rows: Deltas, log: seq<Entry>, host: string, id: string, q: Query, chunks: seq<ChunkKey>)
    requires RowsExact(rows, log) && FiledByDay(log)
    ensures RightAnswer(rows, log, host, id, q, chunks)
  {
    if IsAnswer(rows, host, id, q, chunks) {
      IndexedEqualsNaive(rows, log, host, id, q, chunks);
      FilesAreChunksIff(log, q, chunks);
      NaiveIsAll(log, host, id, q);
      if LostToRounding(rows, log, host, id, q) {
        LostIsInNoFile(rows, log, host, id, q, chunks);
      }
    }
  }

  lemma TwoWrites(x: Entry, y: Entry, k: ChunkKey)
    ensures WritesOf([x, y], k) == (if x.key == k then [x] else []) + (if y.key == k then [y] else [])
  {
    var one, two := [x], [x, y];
    assert one[..0] == [] && two[..1] == one;
    assert WritesOf(one, k) == WritesOf(one[..0], k) + if x.key == k then [x] else [];
    assert WritesOf(two, k) == WritesOf(two[..1], k) + if y.key == k then [y] else [];
  }

  lemma TwoAt(x: Entry, y: Entry, p: Path)
    requires PathOf(x.key) == PathOf(y.key) == p
    ensures EventsAt([x, y], p) == [x.event, y.event]
  {
    var one, two := [x], [x, y];
    assert one[..0] == [] && two[..1] == one;
    assert EventsAt(one, p) == EventsAt(one[..0], p) + [x.event];
    assert EventsAt(two, p) == EventsAt(two[..1], p) + [y.event];
  }

  lemma BothWanted(q: Query, a: Event, b: Event)
    requires Wanted(q, a) && Wanted(q, b)
    ensures Reverse(WantedOf(q, [a, b])) == [b, a]
  {
    WantedNext(q, [], a);
    WantedNext(q, [a], b);
    assert [] + [a] == [a] && [a] + [b] == [a, b];
    ReverseAppend([a], [b]);
    assert Reverse([a]) == [a] && Reverse([b]) == [b];
  }

  lemma TwoInFile(x: Entry, y: Entry, q: Query)
    requires PathOf(x.key) == PathOf(y.key) && Wanted(q, x.event) && Wanted(q, y.event)
    ensures FromFiles([x, y], q, [x.key]) == [y.event, x.event]
  {
    TwoAt(x, y, PathOf(x.key));
    BothWanted(q, x.event, y.event);
    OneFile([x, y], q, x.key);
  }

  lemma OneFile(log: seq<Entry>, q: Query, k: ChunkKey)
    ensures FromFiles(log, q, [k]) == Reverse(WantedOf(q, EventsAt(log, PathOf(k))))
    ensures FromChunks(log, q, [k]) == Reverse(WantedOf(q, ChunkEvents(log, k)))
  {
    var chunks := [k];
    assert chunks[1..] == [];
  }

  lemma OneInChunk(x: Entry, y: Entry, q: Query)
    requires x.key != y.key && Wanted(q, x.event)
    ensures FromChunks([x, y], q, [x.key]) == [x.event]
  {
    TwoWrites(x, y, x.key);
    assert ChunkEvents([x, y], x.key) == [x.event];
    WantedNext(q, [], x.event);
    assert [] + [x.event] == [x.event] == Reverse([x.event]);
    OneFile([x, y], q, x.key);
  }

  function RowOf(e: Entry): Delta { Delta(e.identity, PathOf(e.key), e.event.timestamp, e.event.timestamp, 1) }

  lemma RowOfOne(e: Entry)
    ensures Spans(Span(1, e.event.timestamp, e.event.timestamp), [e])
  {
    assert e in [e];
  }

  lemma TwoRowsExact(x: Entry, y: Entry)
    requires x.key != y.key
    ensures RowsExact(map[x.key := RowOf(x), y.key := RowOf(y)], [x, y])
  {
    var rows: Deltas := map[x.key := RowOf(x), y.key := RowOf(y)];
    RowOfOne(x);
    RowOfOne(y);
    forall k ensures RowExact(rows, [x, y], k) {
      TwoWrites(x, y, k);
      assert WritesOf([x, y], k) == if k == x.key then [x] else if k == y.key then [y] else [];
    }
  }

  /** The index has exact rows for both, and the right answer of SQLite is the chunk asked for; still the
      search finds the event of the other. */
  ghost predicate FindsOther(mine: Entry, other: Entry, q: Query) {
    var log, rows: Deltas := [mine, other], map[mine.key := RowOf(mine), other.key := RowOf(other)];
    && RowsExact(rows, log) && FiledByDay(log)
    && IsAnswer(rows, mine.key.host, mine.key.containerID, q, [mine.key])
    && FromChunks(log, q, [mine.key]) == [mine.event]
    && FromFiles(log, q, [mine.key]) == [other.event, mine.event]
  }

  lemma OtherIsFound(x: Entry, y: Entry, q: Query)
    requires x.key.containerID != y.key.containerID && PathOf(x.key) == PathOf(y.key)
    requires FiledByDay([x, y]) && Wanted(q, x.event) && Wanted(q, y.event)
    requires q.before % NANOS_PER_MILLI == 0
    ensures FindsOther(x, y, q)
  {
    TwoRowsExact(x, y);
    OneInChunk(x, y, q);
    TwoInFile(x, y, q);
    assert x in [x, y];
    var rows: Deltas := map[x.key := RowOf(x), y.key := RowOf(y)];
    forall k ensures k in [x.key] <==> Selects(rows, x.key.host, x.key.containerID, q, k) {
    }
  }

  /** Two ids that differ in their 13th character: searching one finds the event of the other. */
  lemma SharedFileExample(matches: Event -> bool) returns (mine: Entry, other: Entry)
    requires forall e :: matches(e)
    ensures mine.key == ChunkKey("h", "0123456789abc", 0) && other.key == ChunkKey("h", "0123456789abd", 0)
    ensures FindsOther(mine, other, QueryBefore(Some(10_000_000), 0, matches))
  {
    var a, b := ChunkKey("h", "0123456789abc", 0), ChunkKey("h", "0123456789abd", 0);
    mine := Entry(a, Event(a.containerID, 5, 1, "mine"), "");
    other := Entry(b, Event(b.containerID, 6, 2, "other"), "");
    assert a.containerID[12] != b.containerID[12];
    assert a.containerID[..12] == b.containerID[..12];
    OtherIsFound(mine, other, QueryBefore(Some(10_000_000), 0, matches));
  }

  lemma NextFile(log: seq<Entry>, q: Query, chunks: seq<ChunkKey>, i: nat)
    requires i < |chunks|
    ensures FromFiles(log, q, chunks[i..]) ==
            Reverse(WantedOf(q, EventsAt(log, PathOf(chunks[i])))) + FromFiles(log, q, chunks[i + 1..])
  {
  }
}
