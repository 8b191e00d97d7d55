/** The chunk index of the on-disk log cache (internal/log_storage/store.go): deltas gathered
    in memory, flushed to SQLite by transactions that may overlap, fail and be put back. */
module ChunkIndex {
  const MILLIS_PER_DAY := 86_400_000

  /** The UTC day of a millisecond timestamp. */
  function DayOf(timestamp: int): (d: int)
    ensures d * 86_400_000 <= timestamp < (d + 1) * 86_400_000
  {
    timestamp / MILLIS_PER_DAY
  }

  datatype ChunkKey = ChunkKey(host: string, containerID: string, day: int)

  datatype Path = Path(host: string, container: string, day: int)

  /** Files are named by host, by the first 12 characters of the container id, and by day. */
  function PathOf(k: ChunkKey): (p: Path)
    ensures p.day == k.day && p.host == (if k.host != "" then k.host else "unknown")
    ensures p.container <= k.containerID && |p.container| == (if |k.containerID| < 12 then |k.containerID| else 12)
  {
    Path(if k.host == "" then "unknown" else k.host,
         if |k.containerID| > 12 then k.containerID[..12] else k.containerID,
         k.day)
  }

  datatype Event = Event(containerID: string, timestamp: int, id: nat, raw: string)

  /** One write that reached the file: the ghost history the index is measured against. */
  datatype Entry = Entry(key: ChunkKey, event: Event, identity: string)

  /** A pending delta, or a row of log_chunks. */
  datatype Delta = Delta(identity: string, path: Path, first: int, last: int, lines: nat)

  type Deltas = map<ChunkKey, Delta>

  function Min(a: int, b: int): int { if a <= b then a else b }
  function Max(a: int, b: int): int { if a >= b then a else b }

  // ---- What the index claims, and what happened ----

  datatype Span = Nothing | Span(lines: nat, first: int, last: int)

  function Merge(a: Span, b: Span): Span {
    if a.Nothing? then b
    else if b.Nothing? then a
    else Span(a.lines + b.lines, Min(a.first, b.first), Max(a.last, b.last))
  }

  function SpanIn(m: Deltas, k: ChunkKey): Span {
    if k in m then Span(m[k].lines, m[k].first, m[k].last) else Nothing
  }

  function SpanOfFlights(flights: seq<Deltas>, k: ChunkKey): Span {
    if flights == [] then Nothing else Merge(SpanIn(flights[0], k), SpanOfFlights(flights[1..], k))
  }

  /** The accepted writes of one chunk, in order. */
  function WritesOf(log: seq<Entry>, k: ChunkKey): seq<Entry> {
    if log == [] then []
    else WritesOf(log[..|log| - 1], k) + if log[|log| - 1].key == k then [log[|log| - 1]] else []
  }

  /** s spans exactly these writes: their number, their least and their greatest timestamp. */
  ghost predicate Spans(s: Span, writes: seq<Entry>) {
    if writes == [] then s == Nothing
    else
      && s.Span?
      && s.lines == |writes|
      && (exists w :: w in writes && w.event.timestamp == s.first)
      && (exists w :: w in writes && w.event.timestamp == s.last)
      && (forall w :: w in writes ==> s.first <= w.event.timestamp <= s.last)
  }

  // ---- The steps ----

  /** What `write` does to the pending deltas. */
  function Recorded(pending: Deltas, e: Entry): Deltas {
    var ts := e.event.timestamp;
    var d := if e.key in pending then pending[e.key] else Delta(e.identity, PathOf(e.key), ts, ts, 0);
    pending[e.key := Delta(e.identity, PathOf(e.key), Min(d.first, ts), Max(d.last, ts), d.lines + 1)]
  }

  /** Two deltas of one chunk put together; identity and path are those of the newer one. */
  function Combined(newer: Delta, older: Delta): Delta {
    newer.(first := Min(newer.first, older.first), last := Max(newer.last, older.last),
           lines := newer.lines + older.lines)
  }

  /** Both the upsert of a flush into the table and the putting back of a failed flush. */
  function Absorbed(newer: Deltas, older: Deltas): (r: Deltas) {
    map k | k in newer.Keys + older.Keys ::
      if k in newer && k in older then Combined(newer[k], older[k])
      else if k in newer then newer[k] else older[k]
  }

  datatype Index = Index(rows: Deltas, flights: seq<Deltas>, pending: Deltas, log: seq<Entry>)

  const EMPTY := Index(map[], [], map[], [])

  /** Write: a line reached its file. Take: a flush took the pending deltas. Restore: flush i
      failed at open, begin, exec or commit. Commit: the transaction of flush i committed. */
  datatype Step = Write(entry: Entry) | Take | Restore(i: nat) | Commit(i: nat)

  function Without<T>(s: seq<T>, i: nat): seq<T>
    requires i < |s|
  {
    s[..i] + s[i + 1..]
  }

  function Apply(ix: Index, step: Step): Index {
    match step
    case Write(e) => ix.(pending := Recorded(ix.pending, e), log := ix.log + [e])
    case Take => if ix.pending == map[] then ix else ix.(flights := ix.flights + [ix.pending], pending := map[])
    case Restore(i) =>
      if i >= |ix.flights| then ix
      else ix.(flights := Without(ix.flights, i), pending := Absorbed(ix.pending, ix.flights[i]))
    case Commit(i) =>
      if i >= |ix.flights| then ix
      else ix.(flights := Without(ix.flights, i), rows := Absorbed(ix.flights[i], ix.rows))
  }

  function Run(ix: Index, steps: seq<Step>): Index
    decreases |steps|
  {
    if steps == [] then ix else Run(Apply(ix, steps[0]), steps[1..])
  }

  // ---- Conservation ----

  function Total(ix: Index, k: ChunkKey): Span {
    Merge(SpanIn(ix.rows, k), Merge(SpanOfFlights(ix.flights, k), SpanIn(ix.pending, k)))
  }

  /** The committed row, the flushes under way and the pending delta of a chunk together
      span exactly the writes accepted for it. */
  ghost predicate ChunkConserved(ix: Index, k: ChunkKey) { Spans(Total(ix, k), WritesOf(ix.log, k)) }

  ghost predicate Conserved(ix: Index) { forall k :: ChunkConserved(ix, k) }

  /** Every delta and row was written for its own chunk under an identity used for that chunk. */
  ghost predicate ChunkLabelled(m: Deltas, log: seq<Entry>, k: ChunkKey) {
    k in m ==> m[k].path == PathOf(k) && exists e :: e in log && e.key == k && e.identity == m[k].identity
  }

  ghost predicate Labelled(m: Deltas, log: seq<Entry>) { forall k :: ChunkLabelled(m, log, k) }

  ghost predicate AllLabelled(ix: Index) {
    && Labelled(ix.rows, ix.log)
    && Labelled(ix.pending, ix.log)
    && (forall i :: 0 <= i < |ix.flights| ==> Labelled(ix.flights[i], ix.log))
  }

  lemma FlightFirst(d: Deltas, flights: seq<Deltas>, k: ChunkKey)
    ensures SpanOfFlights([d] + flights, k) == Merge(SpanIn(d, k), SpanOfFlights(flights, k))
  {
    assert ([d] + flights)[1..] == flights;
  }

  lemma {:induction false} FlightRemoved(flights: seq<Deltas>, i: nat, k: ChunkKey)
    requires i < |flights|
    ensures SpanOfFlights(flights, k) == Merge(SpanIn(flights[i], k), SpanOfFlights(Without(flights, i), k))
  {
    if i == 0 {
      assert Without(flights, 0) == flights[1..];
    } else {
      FlightRemoved(flights[1..], i - 1, k);
      var others := Without(flights[1..], i - 1);
      assert Without(flights, i) == [flights[0]] + others;
      FlightFirst(flights[0], others, k);
      MergeMoves(SpanIn(flights[0], k), SpanIn(flights[i], k), SpanOfFlights(others, k));
    }
  }

  lemma {:induction false} FlightAdded(flights: seq<Deltas>, d: Deltas, k: ChunkKey)
    ensures SpanOfFlights(flights + [d], k) == Merge(SpanOfFlights(flights, k), SpanIn(d, k))
  {
    if flights != [] {
      FlightAdded(flights[1..], d, k);
      assert (flights + [d])[1..] == flights[1..] + [d];
    } else {
      assert (flights + [d])[1..] == [];
    }
  }

  lemma RecordedSpan(pending: Deltas, e: Entry, k: ChunkKey)
    ensures SpanIn(Recorded(pending, e), k) ==
            if e.key == k then Merge(SpanIn(pending, k), Span(1, e.event.timestamp, e.event.timestamp))
            else SpanIn(pending, k)
  {
  }

  lemma MergeLast(a: Span, b: Span, c: Span, d: Span)
    ensures Merge(a, Merge(b, Merge(c, d))) == Merge(Merge(a, Merge(b, c)), d)
  {
  }

  lemma WritesNext(log: seq<Entry>, e: Entry, k: ChunkKey)
    ensures WritesOf(log + [e], k) == if e.key == k then WritesOf(log, k) + [e] else WritesOf(log, k)
  {
    assert (log + [e])[..|log|] == log;
  }

  lemma WriteConserves(ix: Index, e: Entry, k: ChunkKey)
    requires ChunkConserved(ix, k)
    ensures ChunkConserved(Apply(ix, Write(e)), k)
  {
    RecordedSpan(ix.pending, e, k);
    WritesNext(ix.log, e, k);
    if e.key == k {
      var ts := e.event.timestamp;
      MergeLast(SpanIn(ix.rows, k), SpanOfFlights(ix.flights, k), SpanIn(ix.pending, k), Span(1, ts, ts));
      SpansGrow(Total(ix, k), WritesOf(ix.log, k), e);
    }
  }

  lemma SpansGrow(s: Span, writes: seq<Entry>, e: Entry)
    requires Spans(s, writes)
    ensures Spans(Merge(s, Span(1, e.event.timestamp, e.event.timestamp)), writes + [e])
  {
  }

  lemma AbsorbedSpan(newer: Deltas, older: Deltas, k: ChunkKey)
    ensures SpanIn(Absorbed(newer, older), k) == Merge(SpanIn(newer, k), SpanIn(older, k))
  {
  }

  lemma MergeMoves(a: Span, b: Span, c: Span)
    ensures Merge(a, b) == Merge(b, a)
    ensures Merge(Merge(a, b), c) == Merge(b, Merge(a, c)) == Merge(b, Merge(c, a))
    ensures Merge(b, Merge(a, c)) == Merge(Merge(a, b), c) == Merge(a, Merge(b, c))
  {
  }

  lemma RestoreConserves(ix: Index, i: nat, k: ChunkKey)
    requires i < |ix.flights|
    ensures Total(Apply(ix, Restore(i)), k) == Total(ix, k)
  {
    FlightRemoved(ix.flights, i, k);
    AbsorbedSpan(ix.pending, ix.flights[i], k);
    MergeMoves(SpanIn(ix.flights[i], k), SpanOfFlights(Without(ix.flights, i), k), SpanIn(ix.pending, k));
  }

  lemma CommitConserves(ix: Index, i: nat, k: ChunkKey)
    requires i < |ix.flights|
    ensures Total(Apply(ix, Commit(i)), k) == Total(ix, k)
  {
    FlightRemoved(ix.flights, i, k);
    AbsorbedSpan(ix.flights[i], ix.rows, k);
    var others := SpanOfFlights(Without(ix.flights, i), k);
    MergeFirst(SpanIn(ix.flights[i], k), SpanIn(ix.rows, k), others, SpanIn(ix.pending, k));
  }

  lemma MergeFirst(a: Span, b: Span, c: Span, d: Span)
    ensures Merge(Merge(a, b), Merge(c, d)) == Merge(b, Merge(Merge(a, c), d))
  {
  }

  lemma FlushConserves(ix: Index, step: Step, k: ChunkKey)
    requires !step.Write?
    ensures Total(Apply(ix, step), k) == Total(ix, k)
  {
    match step
    case Take => FlightAdded(ix.flights, ix.pending, k);
    case Restore(i) => if i < |ix.flights| { RestoreConserves(ix, i, k); }
    case Commit(i) => if i < |ix.flights| { CommitConserves(ix, i, k); }
  }

  lemma StepConserves(ix: Index, step: Step)
    requires Conserved(ix)
    ensures Conserved(Apply(ix, step))
  {
    forall k
      ensures ChunkConserved(Apply(ix, step), k)
    {
      assert ChunkConserved(ix, k);
      if step.Write? {
        WriteConserves(ix, step.entry, k);
      } else {
        FlushConserves(ix, step, k);
      }
    }
  }

  lemma LabelsKept(newer: Deltas, older: Deltas, log: seq<Entry>)
    requires Labelled(newer, log) && Labelled(older, log)
    ensures Labelled(Absorbed(newer, older), log)
  {
    forall k
      ensures ChunkLabelled(Absorbed(newer, older), log, k)
    {
      assert ChunkLabelled(newer, log, k) && ChunkLabelled(older, log, k);
    }
  }

  lemma LabelsSurvive(m: Deltas, log: seq<Entry>, e: Entry)
    requires Labelled(m, log)
    ensures Labelled(m, log + [e])
  {
    forall k
      ensures ChunkLabelled(m, log + [e], k)
    {
      assert ChunkLabelled(m, log, k);
      if k in m {
        var w :| w in log && w.key == k && w.identity == m[k].identity;
        assert w in log + [e];
      }
    }
  }

  lemma RecordedLabelled(pending: Deltas, log: seq<Entry>, e: Entry)
    requires Labelled(pending, log + [e])
    ensures Labelled(Recorded(pending, e), log + [e])
  {
    assert e in log + [e];
    forall k
      ensures ChunkLabelled(Recorded(pending, e), log + [e], k)
    {
      assert ChunkLabelled(pending, log + [e], k);
    }
  }

  lemma StepKeepsLabels(ix: Index, step: Step)
    requires AllLabelled(ix)
    ensures AllLabelled(Apply(ix, step))
  {
    match step
    case Write(e) =>
      LabelsSurvive(ix.rows, ix.log, e);
      LabelsSurvive(ix.pending, ix.log, e);
      forall i | 0 <= i < |ix.flights|
        ensures Labelled(ix.flights[i], ix.log + [e])
      {
        LabelsSurvive(ix.flights[i], ix.log, e);
      }
      RecordedLabelled(ix.pending, ix.log, e);
    case Take =>
    case Restore(i) => if i < |ix.flights| { LabelsKept(ix.pending, ix.flights[i], ix.log); }
    case Commit(i) => if i < |ix.flights| { LabelsKept(ix.flights[i], ix.rows, ix.log); }
  }

  /** In every interleaving of writes and of flushes that fail or commit in any order, nothing
      is lost and nothing is counted twice. */
  lemma {:induction false} RunConserves(ix: Index, steps: seq<Step>)
    requires Conserved(ix) && AllLabelled(ix)
    ensures Conserved(Run(ix, steps)) && AllLabelled(Run(ix, steps))
    decreases |steps|
  {
    if steps != [] {
      StepConserves(ix, steps[0]);
      StepKeepsLabels(ix, steps[0]);
      RunConserves(Apply(ix, steps[0]), steps[1..]);
    }
  }

  lemma EmptyConserved()
    ensures Conserved(EMPTY) && AllLabelled(EMPTY)
  {
  }

  /** The positions of the writes to a chunk. */
  ghost function Positions(log: seq<Entry>, k: ChunkKey): set<int> { set i | 0 <= i < |log| && log[i].key == k }

  lemma {:induction false} WritesArePositions(log: seq<Entry>, k: ChunkKey)
    ensures |WritesOf(log, k)| == |Positions(log, k)|
    ensures forall w :: w in WritesOf(log, k) <==> w in log && w.key == k
  {
    if log != [] {
      var n := |log| - 1;
      WritesArePositions(log[..n], k);
      PositionsNext(log[..n], log[n], k);
      assert log == log[..n] + [log[n]];
    }
  }

  lemma PositionsOrNone(log: seq<Entry>, k: ChunkKey)
    ensures Positions(log, k) != {} <==> exists e :: e in log && e.key == k
    ensures WritesOf(log, k) != [] <==> Positions(log, k) != {}
  {
    WritesArePositions(log, k);
    if e :| e in log && e.key == k {
      var i :| 0 <= i < |log| && log[i] == e;
      assert i in Positions(log, k);
    }
    if i :| i in Positions(log, k) {
      assert log[i] in log;
    }
  }

  lemma PositionsNext(log: seq<Entry>, e: Entry, k: ChunkKey)
    ensures Positions(log + [e], k) == Positions(log, k) + if e.key == k then {|log|} else {}
    ensures |Positions(log + [e], k)| == |Positions(log, k)| + if e.key == k then 1 else 0
  {
    var all := log + [e];
    assert forall i :: 0 <= i < |log| ==> all[i] == log[i];
    assert Positions(all, k) == Positions(log, k) + if e.key == k then {|log|} else {};
  }

  /** The row counts the writes to its chunk and holds their least and their greatest timestamp. */
  ghost predicate RowTells(row: Delta, log: seq<Entry>, k: ChunkKey) {
    && row.lines == |Positions(log, k)|
    && (forall i :: i in Positions(log, k) ==> row.first <= log[i].event.timestamp <= row.last)
    && (exists i :: i in Positions(log, k) && log[i].event.timestamp == row.first)
    && (exists i :: i in Positions(log, k) && log[i].event.timestamp == row.last)
  }

  lemma SpansTell(row: Delta, log: seq<Entry>, k: ChunkKey)
    requires Spans(Span(row.lines, row.first, row.last), WritesOf(log, k))
    ensures RowTells(row, log, k)
  {
    WritesArePositions(log, k);
    var a :| a in WritesOf(log, k) && a.event.timestamp == row.first;
    var b :| b in WritesOf(log, k) && b.event.timestamp == row.last;
    forall i | i in Positions(log, k) ensures row.first <= log[i].event.timestamp <= row.last {
      assert log[i] in WritesOf(log, k);
    }
    var i :| 0 <= i < |log| && log[i] == a;
    var j :| 0 <= j < |log| && log[j] == b;
    assert i in Positions(log, k) && j in Positions(log, k);
  }

  /** Once everything is flushed, each row holds the exact line count and time range of its chunk,
      and a chunk has a row exactly when something was written to it. */
  lemma FlushedIndexIsExact(steps: seq<Step>, k: ChunkKey)
    requires var ix := Run(EMPTY, steps); ix.flights == [] && ix.pending == map[]
    ensures var ix := Run(EMPTY, steps);
            && Spans(SpanIn(ix.rows, k), WritesOf(ix.log, k))
            && (k in ix.rows <==> exists e :: e in ix.log && e.key == k)
            && (k in ix.rows ==> RowTells(ix.rows[k], ix.log, k) && ix.rows[k].path == PathOf(k))
  {
    EmptyConserved();
    RunConserves(EMPTY, steps);
    var ix := Run(EMPTY, steps);
    assert ChunkConserved(ix, k) && ChunkLabelled(ix.rows, ix.log, k);
    WritesArePositions(ix.log, k);
    if k in ix.rows {
      SpansTell(ix.rows[k], ix.log, k);
    }
    PositionsOrNone(ix.log, k);
  }

  // ---- Under which identity a chunk is filed ----

  /** One flush at a time: none begins while another is under way. */
  predicate Serial(ix: Index, step: Step) { step.Take? ==> ix.flights == [] }

  ghost predicate SerialRun(ix: Index, steps: seq<Step>)
    decreases |steps|
  {
    steps == [] || (Serial(ix, steps[0]) && SerialRun(Apply(ix, steps[0]), steps[1..]))
  }

  /** The newest delta or row of the chunk has the identity of its last write. */
  ghost predicate NewestLabel(ix: Index, k: ChunkKey) {
    |ix.flights| <= 1 &&
    var writes := WritesOf(ix.log, k);
    writes != [] ==>
      var id := writes[|writes| - 1].identity;
      if k in ix.pending then ix.pending[k].identity == id
      else if ix.flights != [] && k in ix.flights[0] then ix.flights[0][k].identity == id
      else k in ix.rows ==> ix.rows[k].identity == id
  }

  lemma StepKeepsNewest(ix: Index, step: Step, k: ChunkKey)
    requires NewestLabel(ix, k) && Serial(ix, step)
    ensures NewestLabel(Apply(ix, step), k)
  {
    match step
    case Write(e) => assert Apply(ix, step).log[..|ix.log|] == ix.log;
    case _ =>
  }

  lemma {:induction false} RunKeepsNewest(ix: Index, steps: seq<Step>, k: ChunkKey)
    requires NewestLabel(ix, k) && SerialRun(ix, steps)
    ensures NewestLabel(Run(ix, steps), k)
    decreases |steps|
  {
    if steps != [] {
      StepKeepsNewest(ix, steps[0], k);
      RunKeepsNewest(Apply(ix, steps[0]), steps[1..], k);
    }
  }

  lemma StartsNewest(k: ChunkKey)
    ensures NewestLabel(EMPTY, k)
  {
  }

  lemma WrittenIfFlushed(steps: seq<Step>, k: ChunkKey)
    requires var ix := Run(EMPTY, steps); ix.flights == [] && ix.pending == map[] && k in ix.rows
    ensures WritesOf(Run(EMPTY, steps).log, k) != []
  {
    FlushedIndexIsExact(steps, k);
    PositionsOrNone(Run(EMPTY, steps).log, k);
  }

  lemma FlushedLabel(ix: Index, k: ChunkKey)
    requires NewestLabel(ix, k) && ix.flights == [] && ix.pending == map[] && k in ix.rows && WritesOf(ix.log, k) != []
    ensures var writes := WritesOf(ix.log, k); ix.rows[k].identity == writes[|writes| - 1].identity
  {
  }

  /** If flushes do not overlap, then once everything is flushed each row is filed under the identity of
      the last write to its chunk, whatever failed in between. */
  lemma RowHasLastIdentity(steps: seq<Step>, k: ChunkKey)
    requires SerialRun(EMPTY, steps)
    requires var ix := Run(EMPTY, steps); ix.flights == [] && ix.pending == map[] && k in ix.rows
    ensures var ix := Run(EMPTY, steps);
            var writes := WritesOf(ix.log, k);
            writes != [] && ix.rows[k].identity == writes[|writes| - 1].identity
  {
    var ix := Run(EMPTY, steps);
    StartsNewest(k);
    RunKeepsNewest(EMPTY, steps, k);
    WrittenIfFlushed(steps, k);
    FlushedLabel(ix, k);
  }

  /** If flushes overlap, the older one may commit last and file the chunk under an older identity. */
  lemma OverlapKeepsOlderIdentity(k: ChunkKey, a: Event, b: Event)
    ensures var steps := [Write(Entry(k, a, "old")), Take, Write(Entry(k, b, "new")), Take, Commit(1), Commit(0)];
            var ix := Run(EMPTY, steps);
            ix.flights == [] && ix.pending == map[] && k in ix.rows && ix.rows[k].identity == "old"
  {
    var third := [Write(Entry(k, b, "new")), Take, Commit(1), Commit(0)];
    var s2 := Apply(Apply(EMPTY, Write(Entry(k, a, "old"))), Take);
    var s4 := Apply(Apply(s2, Write(Entry(k, b, "new"))), Take);
    TwoSteps(s2, third);
    TwoSteps(EMPTY, [Write(Entry(k, a, "old")), Take] + third);
    assert ([Write(Entry(k, a, "old")), Take] + third)[2..] == third && third[2..] == [Commit(1), Commit(0)];
    TwoSteps(s4, [Commit(1), Commit(0)]);
    assert [Commit(1), Commit(0)][2..] == [];
    assert [Write(Entry(k, a, "old")), Take] + third ==
           [Write(Entry(k, a, "old")), Take, Write(Entry(k, b, "new")), Take, Commit(1), Commit(0)];
  }

  lemma TwoSteps(ix: Index, steps: seq<Step>)
    requires |steps| >= 2
    ensures Run(ix, steps) == Run(Apply(Apply(ix, steps[0]), steps[1]), steps[2..])
  {
    assert steps[1..][1..] == steps[2..];
  }
}
