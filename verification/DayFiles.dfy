/** What a day file holds and how it is searched (internal/log_storage/store.go). */
module DayFiles {
  import opened Basics
  import opened Bytes
  import opened ReverseReading
  import opened ChunkIndex

  const NANOS_PER_MILLI := 1_000_000
  const NANOS_PER_DAY := 86_400_000_000_000

  /** The JSON encoding of events, taken as given; `Lossless` is what the store relies on. */
  datatype Codec = Codec(encode: Event -> seq<Byte>, decode: seq<Byte> -> Option<Event>)

  predicate IsSpace(b: Byte): (r: bool)
    ensures r <==> b in [9, 10, 11, 12, 13, 32]
  {
    b == 32 || 9 <= b <= 13
  }

  function TrimSpace(s: seq<Byte>): seq<Byte> { Trim(IsSpace, s) }

  /** Decoding undoes encoding; an encoded event is one line without blanks at its ends. */
  ghost predicate Codes(c: Codec, e: Event) {
    var line := c.encode(e);
    && c.decode(line) == Some(e)
    && NEWLINE !in line && line != [] && !IsSpace(line[0]) && !IsSpace(line[|line| - 1])
  }

  ghost predicate Lossless(c: Codec) { forall e: Event :: Codes(c, e) }

  /** The bytes of a file after appending these events, one encoded line each. */
  function Serialize(c: Codec, events: seq<Event>): seq<Byte> {
    if events == [] then []
    else Serialize(c, events[..|events| - 1]) + c.encode(events[|events| - 1]) + [NEWLINE]
  }

  function Encoded(c: Codec, events: seq<Event>): seq<seq<Byte>> {
    if events == [] then [] else Encoded(c, events[..|events| - 1]) + [c.encode(events[|events| - 1])]
  }

  lemma {:induction false} SplitSerialized(c: Codec, events: seq<Event>)
    requires Lossless(c)
    ensures Split(Serialize(c, events)) == Encoded(c, events) + [[]]
  {
    if events != [] {
      var init, last := events[..|events| - 1], c.encode(events[|events| - 1]);
      SplitSerialized(c, init);
      SplitAppend(Serialize(c, init) + last, [NEWLINE]);
      SplitAppend(Serialize(c, init), last);
      assert Codes(c, events[|events| - 1]);
      SplitOneLine(last);
      var newline: seq<Byte> := [NEWLINE];
      assert newline[1..] == [];
      assert Split(newline) == [[], []];
      var none: seq<Byte> := [];
      assert none + last == last && last + none == last;
    }
  }

  // ---- One line, one query ----

  datatype Query = Query(from: int, before: int, matches: Event -> bool)

  /** In the half-open window and matching; the window is in nanoseconds, timestamps in milliseconds. */
  predicate Wanted(q: Query, e: Event) {
    q.from <= e.timestamp * NANOS_PER_MILLI < q.before && q.matches(e)
  }

  /** `decodeReverseLine`. */
  function DecodeLine(c: Codec, q: Query, line: seq<Byte>): Option<Event> {
    var trimmed := TrimSpace(line);
    if trimmed == [] then None
    else match c.decode(trimmed)
      case None => None
      case Some(e) => if Wanted(q, e) then Some(e) else None
  }

  /** A line yields an event exactly if what is between its blanks decodes to it, the filter accepts it and
      it lies in the window. */
  lemma DecodesIff(c: Codec, q: Query, line: seq<Byte>, e: Event)
    ensures DecodeLine(c, q, line) == Some(e) <==>
            && TrimSpace(line) != [] && c.decode(TrimSpace(line)) == Some(e)
            && q.matches(e) && q.from <= e.timestamp * 1_000_000 < q.before
  {
  }

  function Accepting(c: Codec, q: Query): LineFilter<Event> { line => DecodeLine(c, q, line) }

  lemma EncodedLineDecodes(c: Codec, q: Query, e: Event)
    requires Lossless(c)
    ensures Accepting(c, q)(c.encode(e)) == if Wanted(q, e) then Some(e) else None
  {
    assert Codes(c, e);
    assert TrimSpace(c.encode(e)) == c.encode(e);
  }

  function WantedOf(q: Query, events: seq<Event>): seq<Event> {
    if events == [] then []
    else WantedOf(q, events[..|events| - 1]) + if Wanted(q, events[|events| - 1]) then [events[|events| - 1]] else []
  }

  lemma {:induction false} FoundInEncoded(c: Codec, q: Query, events: seq<Event>)
    requires Lossless(c)
    ensures Found(Accepting(c, q), Reverse(Encoded(c, events))) == Reverse(WantedOf(q, events))
  {
    if events != [] {
      var init, e := events[..|events| - 1], events[|events| - 1];
      FoundInEncoded(c, q, init);
      var line := c.encode(e);
      ReverseAppend(Encoded(c, init), [line]);
      ReverseAppend(WantedOf(q, init), [e]);
      assert Reverse([e]) == [e];
      assert Reverse([line]) == [line];
      assert Reverse(Encoded(c, events)) == [line] + Reverse(Encoded(c, init));
      assert ([line] + Reverse(Encoded(c, init)))[1..] == Reverse(Encoded(c, init));
      EncodedLineDecodes(c, q, e);
      assert WantedOf(q, init) + [] == WantedOf(q, init);
    }
  }

  /** A backwards scan of a day file finds the wanted events, last written first. */
  lemma FoundInFile(c: Codec, q: Query, events: seq<Event>)
    requires Lossless(c)
    ensures Found(Accepting(c, q), Reverse(Split(Serialize(c, events)))) == Reverse(WantedOf(q, events))
  {
    SplitSerialized(c, events);
    var none: seq<Byte> := [];
    ReverseAppend(Encoded(c, events), [none]);
    assert Reverse([none]) == [none];
    var lines := [none] + Reverse(Encoded(c, events));
    assert lines[1..] == Reverse(Encoded(c, events));
    FoundInEncoded(c, q, events);
  }

  // ---- The newest event of a file ----

  /** What makes a write a repetition of the one before it. */
  datatype EventKey = EventKey(timestamp: int, id: nat, raw: string)

  function KeyOf(e: Event): EventKey { EventKey(e.timestamp, e.id, e.raw) }

  /** `lastEventKey`: the key of the last line of the file, if there is one. */
  function LastEventKey(c: Codec, file: seq<Byte>): Option<EventKey> {
    var data := TrimSpace(file);
    if data == [] then None
    else
      var lines := Split(data);
      match c.decode(lines[|lines| - 1])
      case None => None
      case Some(e) => Some(KeyOf(e))
  }

  function LastKey(events: seq<Event>): Option<EventKey> {
    if events == [] then None else Some(KeyOf(events[|events| - 1]))
  }

  lemma {:induction false} SerializedHead(c: Codec, events: seq<Event>)
    requires Lossless(c) && events != []
    ensures Serialize(c, events) != [] && !IsSpace(Serialize(c, events)[0])
  {
    assert Codes(c, events[|events| - 1]);
    if |events| > 1 {
      SerializedHead(c, events[..|events| - 1]);
    }
  }

  lemma TrimsNewline(data: seq<Byte>)
    requires data != [] && !IsSpace(data[0]) && !IsSpace(data[|data| - 1])
    ensures TrimSpace(data + [NEWLINE]) == data
  {
    var file := data + [NEWLINE];
    assert TrimLeft(IsSpace, file) == file;
    assert file[..|file| - 1] == data;
    assert TrimRight(IsSpace, file) == TrimRight(IsSpace, data) == data;
  }

  lemma LastLine(c: Codec, init: seq<Event>, line: seq<Byte>)
    requires Lossless(c) && NEWLINE !in line
    ensures var lines := Split(Serialize(c, init) + line); lines[|lines| - 1] == line
  {
    SplitSerialized(c, init);
    SplitAppend(Serialize(c, init), line);
    SplitOneLine(line);
    var none: seq<Byte> := [];
    assert none + line == line;
  }

  lemma LastEventKeyIsLast(c: Codec, events: seq<Event>)
    requires Lossless(c)
    ensures LastEventKey(c, Serialize(c, events)) == LastKey(events)
  {
    if events != [] {
      var init, last := events[..|events| - 1], c.encode(events[|events| - 1]);
      var data := Serialize(c, init) + last;
      assert Serialize(c, events) == data + [NEWLINE];
      SerializedHead(c, events);
      assert Codes(c, events[|events| - 1]);
      assert data[0] == Serialize(c, events)[0] && data[|data| - 1] == last[|last| - 1];
      TrimsNewline(data);
      LastLine(c, init, last);
    }
  }
}
