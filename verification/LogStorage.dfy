/** The store: day files, the memory of each file's last event, and the index with its flushes.
    `Write`, `Flush`, `CloseAll`, `TakePending` and the two halves of `FinishFlush` run under the store's
    mutex or inside one SQLite transaction: they are the atomic steps. `SyncForRead` and `SearchBefore`
    put several of them together and are stated for a search that no write interrupts. `log` remembers
    the writes that were accepted. */
module LogStorage {
  import opened Basics
  import opened Bytes
  import opened ReverseReading
  import opened ChunkIndex
  import opened DayFiles
  import opened ChunkSearch
  import opened SharedFiles

  const READ_CHUNK := 65536
  const DEFAULT_LIMIT := 200

  /** Where a flush fails, if it does; `ExecFails(n)` is a failure of the statement after the n-th. */
  datatype FlushOutcome = OpenFails | BeginFails | ExecFails(done: nat) | CommitFails | Commits

  /** The event agrees with the last one in time, id and text. */
  predicate RepeatsLast(events: seq<Event>, ev: Event) {
    && events != []
    && var last := events[|events| - 1]; last.timestamp == ev.timestamp && last.id == ev.id && last.raw == ev.raw
  }

  lemma RepeatsIff(events: seq<Event>, ev: Event)
    ensures RepeatsLast(events, ev) <==> LastKey(events) == Some(KeyOf(ev))
  {
  }

  /** No event directly follows one with the same timestamp, id and text. */
  ghost predicate NoRepeats(events: seq<Event>) {
    forall i :: 0 < i < |events| ==> KeyOf(events[i - 1]) != KeyOf(events[i])
  }

  function FileAt(files: map<Path, seq<Byte>>, p: Path): seq<Byte> {
    if p in files then files[p] else []
  }

  /** The file and what its writer still buffers hold exactly its events; while the file is open, its
      last event is remembered. */
  ghost predicate FileMatches(codec: Codec, files: map<Path, seq<Byte>>, writers: map<Path, seq<Byte>>,
                              recent: map<Path, Option<EventKey>>, log: seq<Entry>, p: Path)
  {
    && FileAt(files, p) + FileAt(writers, p) == Serialize(codec, EventsAt(log, p)) && NoRepeats(EventsAt(log, p))
    && (p in writers ==> p in recent && recent[p] == LastKey(EventsAt(log, p)))
  }

  ghost predicate FilesMatch(codec: Codec, files: map<Path, seq<Byte>>, writers: map<Path, seq<Byte>>,
                             recent: map<Path, Option<EventKey>>, log: seq<Entry>)
  {
    forall p :: FileMatches(codec, files, writers, recent, log, p)
  }

  ghost predicate IndexMatches(ix: Index) {
    Conserved(ix) && AllLabelled(ix) && FiledByDay(ix.log)
  }

  predicate Succeeds(outcome: FlushOutcome, taken: Deltas) {
    outcome.Commits? || (outcome.ExecFails? && outcome.done >= |taken|)
  }

  class LogStore {
    const codec: Codec
    var files: map<Path, seq<Byte>>
    var writers: map<Path, seq<Byte>>         // files held open, with the bytes not passed on yet
    var recent: map<Path, Option<EventKey>>
    var pending: Deltas
    var flights: seq<Deltas>                  // deltas taken by flushes still under way
    var rows: Deltas                          // the committed log_chunks table
    ghost var log: seq<Entry>

    ghost function Snapshot(): Index
      reads this
    {
      Index(rows, flights, pending, log)
    }

    ghost predicate Valid()
      reads this
    {
      Lossless(codec) && FilesMatch(codec, files, writers, recent, log) && IndexMatches(Snapshot())
    }

    constructor (codec: Codec)
      requires Lossless(codec)
      ensures Valid() && this.codec == codec && Snapshot() == EMPTY
    {
      this.codec := codec;
      files, writers, recent, pending, flights, rows, log := map[], map[], map[], map[], [], map[], [];
      new;
      EmptyConserved();
    }

    /** A line is stored and indexed unless it has no container, the file cannot be written, or
        it repeats the event at the end of its file; the writer passes on some of its bytes. */
    method Write(host: string, ev: Event, identity: string, openOk: bool, encodeOk: bool, spill: nat)
      returns (stored: bool)
      requires Valid()
      modifies this
      ensures Valid()
      ensures var k := ChunkKey(host, ev.containerID, DayOf(ev.timestamp));
              var repeated := RepeatsLast(EventsAt(old(log), PathOf(k)), ev);
              && (stored ==> ev.containerID != "" && encodeOk && !repeated)
              && (openOk && encodeOk && ev.containerID != "" && !repeated ==> stored)
              && Snapshot() == if stored then Apply(old(Snapshot()), ChunkIndex.Write(Entry(k, ev, identity)))
                               else old(Snapshot())
    {
      if ev.containerID == "" {
        return false;
      }
      var k := ChunkKey(host, ev.containerID, DayOf(ev.timestamp));
      var path := PathOf(k);
      if path !in writers {
        if !openOk {
          return false;
        }
        OpenFile(path);
      }
      assert FileMatches(codec, files, writers, recent, log, path);
      RepeatsIff(EventsAt(log, path), ev);
      if recent[path] == Some(KeyOf(ev)) || !encodeOk {
        return false;
      }
      Append(k, ev, identity);
      PassOn(path, spill);
      return true;
    }

    /** A buffered writer hands the first n bytes, or all it has, to its file. */
    method PassOn(path: Path, n: nat)
      requires FilesMatch(codec, files, writers, recent, log)
      modifies this`files, this`writers
      ensures FilesMatch(codec, files, writers, recent, log) && writers.Keys == old(writers.Keys)
      ensures path in writers && n >= |old(writers)[path]| ==> writers[path] == []
      ensures forall p :: p in writers && p != path ==> writers[p] == old(writers)[p]
    {
      if path in writers {
        var bytes := writers[path];
        var m := if n < |bytes| then n else |bytes|;
        BytesPassedOn(codec, files, writers, recent, log, path, m);
        files := files[path := FileAt(files, path) + bytes[..m]];
        writers := writers[path := bytes[m..]];
      }
    }

    /** `flush`: every writer hands on what it has. */
    method Flush()
      requires Valid()
      modifies this`files, this`writers
      ensures Valid() && Flushed() && writers.Keys == old(writers.Keys)
    {
      var todo := writers.Keys;
      while todo != {}
        invariant todo <= writers.Keys && writers.Keys == old(writers.Keys)
        invariant FilesMatch(codec, files, writers, recent, log)
        invariant forall p :: p in writers && p !in todo ==> writers[p] == []
      {
        var path :| path in todo;
        PassOn(path, |writers[path]|);
        todo := todo - {path};
      }
    }

    ghost predicate Flushed()
      reads this
    {
      forall p :: p in writers ==> writers[p] == []
    }

    method OpenFile(path: Path)
      requires Lossless(codec) && FilesMatch(codec, files, writers, recent, log) && path !in writers
      modifies this`writers, this`recent
      ensures FilesMatch(codec, files, writers, recent, log) && path in writers
    {
      ghost var writers0, recent0 := writers, recent;
      writers := writers[path := []];
      recent := recent[path := LastEventKey(codec, FileAt(files, path))];
      forall p
        ensures FileMatches(codec, files, writers, recent, log, p)
      {
        assert FileMatches(codec, files, writers0, recent0, log, p);
        assert FileAt(files, path) + [] == FileAt(files, path);
        LastEventKeyIsLast(codec, EventsAt(log, p));
      }
    }

    /** The accepted part of a write: append to the file, remember the event, update the delta. */
    method Append(k: ChunkKey, ev: Event, identity: string)
      requires Valid() && PathOf(k) in writers && PathOf(k) in recent
      requires recent[PathOf(k)] != Some(KeyOf(ev)) && k.day == DayOf(ev.timestamp)
      modifies this
      ensures Valid() && Snapshot() == Apply(old(Snapshot()), ChunkIndex.Write(Entry(k, ev, identity)))
    {
      ghost var e := Entry(k, ev, identity);
      ghost var after := Apply(Snapshot(), ChunkIndex.Write(e));
      IndexStep(Snapshot(), ChunkIndex.Write(e));
      AppendLine(k, ev, e);
      RecordDelta(k, ev, identity);
      log := log + [e];
      assert Snapshot() == after;
    }

    method AppendLine(k: ChunkKey, ev: Event, ghost e: Entry)
      requires FilesMatch(codec, files, writers, recent, log) && e.key == k && e.event == ev
      requires PathOf(k) in writers && PathOf(k) in recent && recent[PathOf(k)] != Some(KeyOf(ev))
      modifies this`writers, this`recent
      ensures FilesMatch(codec, files, writers, recent, log + [e])
    {
      var path := PathOf(k);
      FilesStep(codec, files, writers, recent, log, e);
      writers := writers[path := writers[path] + codec.encode(ev) + [NEWLINE]];
      recent := recent[path := Some(KeyOf(ev))];
    }

    method RecordDelta(k: ChunkKey, ev: Event, identity: string)
      modifies this`pending
      ensures pending == Recorded(old(pending), Entry(k, ev, identity))
    {
      var ts := ev.timestamp;
      var delta := if k in pending then pending[k] else Delta(identity, PathOf(k), ts, ts, 0);
      delta := delta.(identity := identity, path := PathOf(k));
      delta := delta.(first := Min(delta.first, ts), last := Max(delta.last, ts));
      delta := delta.(lines := delta.lines + 1);
      pending := pending[k := delta];
    }

    /** Buffers are flushed and handles closed for day rollover; nothing stored is lost. */
    method CloseAll()
      requires Valid()
      modifies this`files, this`writers
      ensures Valid() && writers == map[]
    {
      Flush();
      forall p
        ensures FileMatches(codec, files, map[], recent, log, p)
      {
        assert FileMatches(codec, files, writers, recent, log, p);
      }
      writers := map[];
    }

    /** First half of `flushIndex`: take the pending deltas away. */
    method TakePending()
      requires Valid()
      modifies this`pending, this`flights
      ensures Valid() && Snapshot() == Apply(old(Snapshot()), Take)
    {
      IndexStep(Snapshot(), Take);
      if pending != map[] {
        flights := flights + [pending];
        pending := map[];
      }
    }

    /** Second half of `flushIndex`: the transaction of flush i either commits as a whole, or its
        deltas go back among the pending ones. */
    method FinishFlush(i: nat, outcome: FlushOutcome)
      requires Valid() && i < |flights|
      modifies this`pending, this`flights, this`rows
      ensures Valid()
      ensures Snapshot() == Apply(old(Snapshot()), if Succeeds(outcome, old(flights)[i]) then Commit(i) else Restore(i))
    {
      ghost var step := if Succeeds(outcome, flights[i]) then Commit(i) else Restore(i);
      ghost var after := Apply(Snapshot(), step);
      IndexStep(Snapshot(), step);
      var taken := flights[i];
      var ok, tx := false, rows;
      if !outcome.OpenFails? && !outcome.BeginFails? {
        ok, tx := ExecAll(taken, outcome);
        ok := ok && !outcome.CommitFails?;
      }
      flights := Without(flights, i);
      if ok {
        rows := tx;
      } else {
        PutBack(taken);
      }
      assert Snapshot() == after;
    }

    /** The upserts of one transaction; `tx` is what a commit would make visible. */
    method ExecAll(taken: Deltas, outcome: FlushOutcome) returns (ok: bool, tx: Deltas)
      ensures ok <==> !(outcome.ExecFails? && outcome.done < |taken|)
      ensures ok ==> tx == Absorbed(taken, rows)
    {
      tx := rows;
      var todo := taken.Keys;
      var done := 0;
      NothingAbsorbed(taken, rows);
      while todo != {}
        invariant todo <= taken.Keys && done + |todo| == |taken.Keys|
        invariant outcome.ExecFails? ==> done <= outcome.done
        invariant tx == Absorbed(taken - todo, rows)
      {
        if outcome.ExecFails? && done == outcome.done {
          return false, tx;
        }
        var k :| k in todo;
        AbsorbStep(taken, rows, todo, k, tx);
        tx := tx[k := if k in tx then Combined(taken[k], tx[k]) else taken[k]];
        todo := todo - {k};
        done := done + 1;
      }
      ok := true;
    }

    /** `restore`: newer deltas take in the ones that were not flushed. */
    method PutBack(taken: Deltas)
      modifies this`pending
      ensures pending == Absorbed(old(pending), taken)
    {
      var todo := taken.Keys;
      NothingPutBack(pending, taken);
      while todo != {}
        invariant todo <= taken.Keys
        invariant pending == Absorbed(old(pending), taken - todo)
      {
        var k :| k in todo;
        PutBackStep(old(pending), taken, todo, k, pending);
        if k in pending {
          var newer := pending[k];
          newer := newer.(first := Min(newer.first, taken[k].first), last := Max(newer.last, taken[k].last));
          newer := newer.(lines := newer.lines + taken[k].lines);
          pending := pending[k := newer];
        } else {
          pending := pending[k := taken[k]];
        }
        todo := todo - {k};
      }
    }

    /** `syncForRead`: buffers go to the files, then pending deltas to the table if the flush succeeds. */
    method SyncForRead(outcome: FlushOutcome)
      requires Valid()
      modifies this`files, this`writers, this`pending, this`flights, this`rows
      ensures Valid() && Flushed() && flights == old(flights)
      ensures old(pending) == map[] || Succeeds(outcome, old(pending)) ==> pending == map[]
    {
      Flush();
      if pending != map[] {
        TakePending();
        assert Without(flights, |flights| - 1) == old(flights);
        FinishFlush(|flights| - 1, outcome);
      }
    }

    /** The newest matches of one container before a point in time, `chunks` being what SQLite answers.
        Whatever that is, the result is the first `limit` events of those files, and `more` says whether
        they hold more. If the flush went through and no other is under way, a right answer leads to the
        events of the naive scan: exactly if none is lost to rounding, and none of a stranger is found. */
    method SearchBefore(host: string, id: string, before: Option<int>, now: int, limit: int, matches: Event -> bool,
                        outcome: FlushOutcome, chunks: seq<ChunkKey>)
      returns (result: seq<Event>, more: bool)
      requires Valid()
      modifies this`files, this`writers, this`pending, this`flights, this`rows
      ensures Valid()
      ensures var all := FromFiles(log, QueryBefore(before, now, matches), chunks);
              var n := if limit <= 0 then 200 else limit;
              (more <==> |all| > n) && result == if |all| > n then all[..n] else all
      ensures var t := if before.None? then now else before.value;
              && QueryBefore(before, now, matches) == Query(t - 345_600_000_000_000, t, matches)
              && forall e :: e in result ==> matches(e) && t - 345_600_000_000_000 <= e.timestamp * 1_000_000 < t
      ensures old(flights) == [] && (old(pending) == map[] || Succeeds(outcome, old(pending))) ==>
                RightAnswer(rows, log, host, id, QueryBefore(before, now, matches), chunks)
    {
      SyncForRead(outcome);
      var n := if limit <= 0 then DEFAULT_LIMIT else limit;
      var q := QueryBefore(before, now, matches);
      if flights == [] && pending == map[] {
        RowsAreExact(Snapshot());
        SearchIsRight(rows, log, host, id, q, chunks);
      }
      result, more := SearchChunks(q, n, chunks);
      forall e | e in result ensures q.matches(e) && q.from <= e.timestamp * 1_000_000 < q.before {
        FromFilesMembers(log, q, chunks, e);
      }
    }

    /** File after file, until more than n events were found. */
    method SearchChunks(q: Query, n: nat, chunks: seq<ChunkKey>) returns (result: seq<Event>, more: bool)
      requires Valid() && Flushed()
      ensures var all := FromFiles(log, q, chunks);
              (more <==> |all| > n) && result == all[..Min(n, |all|)]
    {
      result := [];
      ghost var all := FromFiles(log, q, chunks);
      assert chunks[0..] == chunks;
      for i := 0 to |chunks|
        invariant |result| <= n
        invariant all == result + FromFiles(log, q, chunks[i..])
      {
        ghost var before := result;
        more, result := SearchChunk(chunks[i], q, n + 1, result);
        NextFile(log, q, chunks, i);
        Advance(all, before, Reverse(WantedOf(q, EventsAt(log, PathOf(chunks[i])))),
                FromFiles(log, q, chunks[i + 1..]), n);
        if more || |result| > n {
          return result[..n], true;
        }
      }
      more := false;
    }

    /** One file of the search is read backwards until enough was found. */
    method SearchChunk(k: ChunkKey, q: Query, stopAfter: nat, result0: seq<Event>)
      returns (more: bool, result: seq<Event>)
      requires Valid() && Flushed() && |result0| < stopAfter
      ensures var all := result0 + Reverse(WantedOf(q, EventsAt(log, PathOf(k))));
              && (more <==> |all| >= stopAfter)
              && result == if more then all[..stopAfter] else all
    {
      var file := FileAt(files, PathOf(k));
      assert FileMatches(codec, files, writers, recent, log, PathOf(k));
      assert file + [] == file;
      FoundInFile(codec, q, EventsAt(log, PathOf(k)));
      EarlyStopIsPrefix(Accepting(codec, q), Reverse(Split(file)), result0, stopAfter);
      more, result := ReadFileReverse(file, READ_CHUNK, Accepting(codec, q), stopAfter, result0);
    }
  }

  lemma IndexStep(ix: Index, step: Step)
    requires IndexMatches(ix)
    requires step.Write? ==> step.entry.key.day == DayOf(step.entry.event.timestamp)
    ensures IndexMatches(Apply(ix, step))
  {
    StepConserves(ix, step);
    StepKeepsLabels(ix, step);
  }

  lemma FilesStep(codec: Codec, files: map<Path, seq<Byte>>, writers: map<Path, seq<Byte>>,
                  recent: map<Path, Option<EventKey>>,
                  log: seq<Entry>, e: Entry)
    requires FilesMatch(codec, files, writers, recent, log)
    requires PathOf(e.key) in writers && PathOf(e.key) in recent && recent[PathOf(e.key)] != Some(KeyOf(e.event))
    ensures var p := PathOf(e.key);
            FilesMatch(codec, files, writers[p := writers[p] + codec.encode(e.event) + [NEWLINE]],
                       recent[p := Some(KeyOf(e.event))], log + [e])
  {
    var path := PathOf(e.key);
    var writers' := writers[path := writers[path] + codec.encode(e.event) + [NEWLINE]];
    var recent' := recent[path := Some(KeyOf(e.event))];
    forall p
      ensures FileMatches(codec, files, writers', recent', log + [e], p)
    {
      assert FileMatches(codec, files, writers, recent, log, p);
      FileGrows(codec, log, e, p);
      BufferGrows(FileAt(files, path), writers[path], codec.encode(e.event));
    }
  }

  lemma BytesPassedOn(codec: Codec, files: map<Path, seq<Byte>>, writers: map<Path, seq<Byte>>,
                      recent: map<Path, Option<EventKey>>, log: seq<Entry>, path: Path, m: nat)
    requires FilesMatch(codec, files, writers, recent, log) && path in writers && m <= |writers[path]|
    ensures FilesMatch(codec, files[path := FileAt(files, path) + writers[path][..m]],
                       writers[path := writers[path][m..]], recent, log)
  {
    var bytes := writers[path];
    var files', writers' := files[path := FileAt(files, path) + bytes[..m]], writers[path := bytes[m..]];
    SplitBytes(FileAt(files, path), bytes, m);
    forall p ensures FileMatches(codec, files', writers', recent, log, p) {
      assert FileMatches(codec, files, writers, recent, log, p);
    }
  }

  lemma SplitBytes(file: seq<Byte>, bytes: seq<Byte>, m: nat)
    requires m <= |bytes|
    ensures (file + bytes[..m]) + bytes[m..] == file + bytes
  {
  }

  lemma BufferGrows(file: seq<Byte>, buffer: seq<Byte>, line: seq<Byte>)
    ensures file + (buffer + line + [NEWLINE]) == file + buffer + line + [NEWLINE]
  {
  }

  lemma NothingAbsorbed(newer: Deltas, older: Deltas)
    ensures Absorbed(newer - newer.Keys, older) == older && Absorbed(newer - {}, older) == Absorbed(newer, older)
  {
    assert newer - {} == newer;
  }

  lemma NothingPutBack(newer: Deltas, older: Deltas)
    ensures Absorbed(newer, older - older.Keys) == newer && Absorbed(newer, older - {}) == Absorbed(newer, older)
  {
    assert older - {} == older;
  }

  lemma AbsorbStep(newer: Deltas, older: Deltas, todo: set<ChunkKey>, k: ChunkKey, tx: Deltas)
    requires k in todo && todo <= newer.Keys && tx == Absorbed(newer - todo, older)
    ensures tx[k := if k in tx then Combined(newer[k], tx[k]) else newer[k]] == Absorbed(newer - (todo - {k}), older)
  {
  }

  lemma PutBackStep(newer: Deltas, older: Deltas, todo: set<ChunkKey>, k: ChunkKey, now: Deltas)
    requires k in todo && todo <= older.Keys && now == Absorbed(newer, older - todo)
    ensures now[k := if k in now then Combined(now[k], older[k]) else older[k]] == Absorbed(newer, older - (todo - {k}))
  {
  }

  lemma Advance<T>(all: seq<T>, before: seq<T>, here: seq<T>, rest: seq<T>, n: nat)
    requires all == before + (here + rest)
    ensures all == before + here + rest
    ensures |before + here| > n ==> (before + here)[..n + 1][..n] == all[..n]
  {
  }

  lemma RowsAreExact(ix: Index)
    requires Conserved(ix) && ix.flights == [] && ix.pending == map[]
    ensures RowsExact(ix.rows, ix.log)
  {
    forall k
      ensures RowExact(ix.rows, ix.log, k)
    {
      assert ChunkConserved(ix, k);
    }
  }

  lemma FileGrows(codec: Codec, log: seq<Entry>, e: Entry, p: Path)
    ensures (log + [e])[..|log|] == log
    ensures var was, now := EventsAt(log, p), EventsAt(log + [e], p);
            if PathOf(e.key) == p then
              && now == was + [e.event]
              && Serialize(codec, now) == Serialize(codec, was) + codec.encode(e.event) + [NEWLINE]
              && (NoRepeats(was) && LastKey(was) != Some(KeyOf(e.event)) ==> NoRepeats(now))
            else now == was
  {
  }
}
