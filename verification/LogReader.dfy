/** The demultiplexer of Docker's log stream (internal/docker/log_reader.go), in the format of the
    "Stream format" section of the ContainerAttach endpoint of the Docker Engine API: an 8-byte
    header (stream type, three ignored bytes, big-endian payload length) before each payload. */
module StreamFormat {
  import opened Bytes

  const HEADER := 8
  const LIMIT := 0x1_0000_0000

  datatype StdType = Stdout | Stderr

  datatype Error = EOF | UnexpectedEOF

  datatype Frame = Frame(payload: seq<Byte>, std: StdType)

  /** What one read yields, and how many bytes it takes from the stream. */
  datatype Result = Ok(frame: Frame, used: nat) | Err(error: Error, used: nat)

  function StdOf(b: Byte): StdType { if b == 2 then Stderr else Stdout }

  function Uint32(s: seq<Byte>): (n: nat)
    requires |s| == 4
    ensures n < LIMIT
  {
    var a: int, b: int, c: int, d: int := s[0], s[1], s[2], s[3];
    a * 0x100_0000 + b * 0x1_0000 + c * 0x100 + d
  }

  /** The first newline at or after i; |s| if there is none. */
  function NewlineFrom(s: seq<Byte>, i: nat): (j: nat)
    requires i <= |s|
    ensures i <= j <= |s| && (j < |s| ==> s[j] == NEWLINE)
    ensures forall k :: i <= k < j ==> s[k] != NEWLINE
    decreases |s| - i
  {
    if i == |s| || s[i] == NEWLINE then i else NewlineFrom(s, i + 1)
  }

  function ReadTtyLine(s: seq<Byte>): Result {
    var i := NewlineFrom(s, 0);
    if i == |s| then Err(EOF, |s|) else Ok(Frame(s[..i + 1], Stdout), i + 1)
  }

  function ReadDockerFrame(s: seq<Byte>): Result {
    if |s| == 0 then Err(EOF, 0)
    else if |s| < HEADER then Err(UnexpectedEOF, |s|)
    else
      var count := Uint32(s[4..HEADER]);
      if count == 0 then Ok(Frame([], StdOf(s[0])), HEADER)
      else if |s| < HEADER + count then Err(EOF, |s|)
      else Ok(Frame(s[HEADER..HEADER + count], StdOf(s[0])), HEADER + count)
  }

  /** An error leaves nothing behind: whatever was left of the stream is consumed. */
  function ReadFrame(s: seq<Byte>, tty: bool): (r: Result)
    ensures if r.Ok? then 0 < r.used <= |s| else r.used == |s|
  {
    if tty then ReadTtyLine(s) else ReadDockerFrame(s)
  }

  /** The frames in a stream of bytes, and the error that ends them. */
  datatype Frames = Stop(error: Error) | More(frame: Frame, rest: Frames)

  function FramesIn(s: seq<Byte>, tty: bool): Frames
    decreases |s|
  {
    match ReadFrame(s, tty)
    case Err(e, _) => Stop(e)
    case Ok(frame, used) => More(frame, FramesIn(s[used..], tty))
  }

  // ---- Joining frames into lines ----

  predicate EndsLine(s: seq<Byte>) { s != [] && s[|s| - 1] == NEWLINE }

  /** `strings.Cut(s, " ")`: what follows the first space, or nothing. */
  function AfterSpace(s: seq<Byte>): (r: seq<Byte>)
    ensures |r| <= |s|
  {
    if s == [] then [] else if s[0] == SPACE then s[1..] else AfterSpace(s[1..])
  }

  datatype Joined = Whole(line: Frame, rest: Frames) | Broken(error: Error)

  function Size(f: Frames): nat { if f.Stop? then 0 else 1 + Size(f.rest) }

  /** Continuation frames are appended, without their timestamp, until the line is complete. */
  function JoinTails(frames: Frames, message: seq<Byte>, std: StdType): (r: Joined)
    ensures r.Whole? ==> EndsLine(r.line.payload) && Size(r.rest) <= Size(frames)
    decreases frames
  {
    if EndsLine(message) then Whole(Frame(message, std), frames)
    else match frames
      case Stop(e) => Broken(e)
      case More(frame, rest) => JoinTails(rest, message + AfterSpace(frame.payload), std)
  }

  function NextLine(frames: Frames): (r: Joined)
    ensures r.Whole? ==> EndsLine(r.line.payload) && Size(r.rest) < Size(frames)
  {
    match frames
    case Stop(e) => Broken(e)
    case More(first, rest) => JoinTails(rest, first.payload, first.std)
  }

  /** Everything read until the first error. */
  function LinesIn(frames: Frames): (seq<Frame>, Error)
    decreases Size(frames)
  {
    match NextLine(frames)
    case Broken(e) => ([], e)
    case Whole(line, rest) => ([line] + LinesIn(rest).0, LinesIn(rest).1)
  }

  // ---- The daemon's side ----

  function BigEndian(n: nat): (s: seq<Byte>)
    requires n < LIMIT
    ensures |s| == 4
  {
    [n / 0x100_0000, n / 0x1_0000 % 0x100, n / 0x100 % 0x100, n % 0x100]
  }

  lemma BigEndianRoundTrip(n: nat)
    requires n < LIMIT
    ensures Uint32(BigEndian(n)) == n
  {
    var a, b, c := n / 0x100, n / 0x1_0000, n / 0x100_0000;
    assert n == a * 0x100 + n % 0x100;
    assert b == a / 0x100 && a == b * 0x100 + a % 0x100;
    assert c == b / 0x100 && b == c * 0x100 + b % 0x100;
  }

  /** A payload under a stream type; what the daemon puts into one frame. */
  datatype Chunk = Chunk(kind: Byte, payload: seq<Byte>)

  function EncodeFrame(c: Chunk): (s: seq<Byte>)
    requires |c.payload| < LIMIT
    ensures |s| == HEADER + |c.payload|
  {
    [c.kind, 0, 0, 0] + BigEndian(|c.payload|) + c.payload
  }

  function EncodeFrames(chunks: seq<Chunk>): seq<Byte>
    requires forall c :: c in chunks ==> |c.payload| < LIMIT
  {
    if chunks == [] then [] else EncodeFrame(chunks[0]) + EncodeFrames(chunks[1..])
  }

  /** The frames the chunks are read as, before the frames that follow them. */
  function AsFrames(chunks: seq<Chunk>, rest: Frames): Frames {
    if chunks == [] then rest else AsFrame(chunks[0], AsFrames(chunks[1..], rest))
  }

  function AsFrame(c: Chunk, rest: Frames): Frames { More(Frame(c.payload, StdOf(c.kind)), rest) }

  lemma {:induction false} AsFramesAppend(a: seq<Chunk>, b: seq<Chunk>, rest: Frames)
    ensures AsFrames(a + b, rest) == AsFrames(a, AsFrames(b, rest))
  {
    if a == [] {
      assert a + b == b;
    } else {
      assert (a + b)[1..] == a[1..] + b;
      AsFramesAppend(a[1..], b, rest);
    }
  }

  lemma FrameRoundTrip(c: Chunk, rest: seq<Byte>)
    requires |c.payload| < LIMIT
    ensures ReadDockerFrame(EncodeFrame(c) + rest) == Ok(Frame(c.payload, StdOf(c.kind)), HEADER + |c.payload|)
    ensures (EncodeFrame(c) + rest)[HEADER + |c.payload|..] == rest
  {
    var s := EncodeFrame(c) + rest;
    assert s[4..HEADER] == BigEndian(|c.payload|);
    BigEndianRoundTrip(|c.payload|);
    assert s[HEADER..HEADER + |c.payload|] == c.payload;
  }

  /** Framing is lossless: the bytes of any frames, empty ones included, are read back as those
      frames, and then the stream is at its end. */
  lemma {:induction false} FramesRoundTrip(chunks: seq<Chunk>)
    requires forall c :: c in chunks ==> |c.payload| < LIMIT
    ensures FramesIn(EncodeFrames(chunks), false) == AsFrames(chunks, Stop(EOF))
  {
    if chunks != [] {
      FrameRoundTrip(chunks[0], EncodeFrames(chunks[1..]));
      FramesRoundTrip(chunks[1..]);
    }
  }

  /** A later frame of a line: it repeats a timestamp and a space before the next piece. */
  datatype Tail = Tail(kind: Byte, timestamp: seq<Byte>, piece: seq<Byte>) {
    function ToChunk(): Chunk { Chunk(kind, timestamp + [SPACE] + piece) }
  }

  /** A line as the daemon cut it into frames. */
  datatype Line = Line(kind: Byte, first: seq<Byte>, tails: seq<Tail>) {
    function Text(): seq<Byte> { Glue(first, Pieces(tails)) }

    function ToChunks(): seq<Chunk> { [Chunk(kind, first)] + TailChunks(tails) }
  }

  function Pieces(tails: seq<Tail>): seq<seq<Byte>> {
    if tails == [] then [] else [tails[0].piece] + Pieces(tails[1..])
  }

  /** The message followed by the pieces. */
  function Glue(message: seq<Byte>, pieces: seq<seq<Byte>>): seq<Byte>
    decreases |pieces|
  {
    if pieces == [] then message else Glue(message + pieces[0], pieces[1..])
  }

  function TailChunks(tails: seq<Tail>): seq<Chunk> {
    if tails == [] then [] else [tails[0].ToChunk()] + TailChunks(tails[1..])
  }

  function AllChunks(lines: seq<Line>): seq<Chunk> {
    if lines == [] then [] else lines[0].ToChunks() + AllChunks(lines[1..])
  }

  /** The line ends with its last piece and not before. */
  ghost predicate EndsLast(message: seq<Byte>, pieces: seq<seq<Byte>>)
    decreases |pieces|
  {
    if pieces == [] then EndsLine(message)
    else !EndsLine(message) && EndsLast(message + pieces[0], pieces[1..])
  }

  ghost predicate WellCut(l: Line) {
    EndsLast(l.first, Pieces(l.tails)) && forall t :: t in l.tails ==> SPACE !in t.timestamp
  }

  lemma {:induction false} AfterSpaceSkipsTimestamp(timestamp: seq<Byte>, piece: seq<Byte>)
    requires SPACE !in timestamp
    ensures AfterSpace(timestamp + [SPACE] + piece) == piece
  {
    if timestamp != [] {
      AfterSpaceSkipsTimestamp(timestamp[1..], piece);
      assert (timestamp + [SPACE] + piece)[1..] == timestamp[1..] + [SPACE] + piece;
    }
  }

  /** The frames bring these pieces, each behind a timestamp, and go on with `rest`. */
  ghost predicate Bring(frames: Frames, pieces: seq<seq<Byte>>, rest: Frames)
    decreases |pieces|
  {
    if pieces == [] then frames == rest
    else frames.More? && AfterSpace(frames.frame.payload) == pieces[0] && Bring(frames.rest, pieces[1..], rest)
  }

  lemma {:induction false} TailsBringPieces(tails: seq<Tail>, rest: Frames)
    requires forall t :: t in tails ==> SPACE !in t.timestamp
    ensures Bring(AsFrames(TailChunks(tails), rest), Pieces(tails), rest)
  {
    if tails != [] {
      TailsBringPieces(tails[1..], rest);
      AfterSpaceSkipsTimestamp(tails[0].timestamp, tails[0].piece);
    }
  }

  lemma {:induction false} PiecesJoin(frames: Frames, pieces: seq<seq<Byte>>, message: seq<Byte>,
                                     std: StdType, rest: Frames)
    requires Bring(frames, pieces, rest) && EndsLast(message, pieces)
    ensures JoinTails(frames, message, std) == Whole(Frame(Glue(message, pieces), std), rest)
    decreases |pieces|
  {
    if pieces != [] {
      PiecesJoin(frames.rest, pieces[1..], message + pieces[0], std, rest);
    }
  }

  function Texts(lines: seq<Line>): seq<Frame> {
    if lines == [] then [] else [Frame(lines[0].Text(), StdOf(lines[0].kind))] + Texts(lines[1..])
  }

  lemma {:induction false} LinesJoin(lines: seq<Line>)
    requires forall l :: l in lines ==> WellCut(l)
    ensures LinesIn(AsFrames(AllChunks(lines), Stop(EOF))) == (Texts(lines), EOF)
    decreases |lines|
  {
    if lines != [] {
      var l, more := lines[0], AsFrames(AllChunks(lines[1..]), Stop(EOF));
      AsFramesAppend(l.ToChunks(), AllChunks(lines[1..]), Stop(EOF));
      assert l.ToChunks()[1..] == TailChunks(l.tails);
      assert l in lines && WellCut(l);
      TailsBringPieces(l.tails, more);
      PiecesJoin(AsFrames(TailChunks(l.tails), more), Pieces(l.tails), l.first, StdOf(l.kind), more);
      LinesJoin(lines[1..]);
      assert NextLine(AsFrames(AllChunks(lines), Stop(EOF))) == Whole(Frame(l.Text(), StdOf(l.kind)), more);
    }
  }

  /** These are the lines, each under stderr if its first frame has type 2, else under stdout. */
  ghost predicate Returned(lines: seq<Line>, frames: seq<Frame>) {
    && |frames| == |lines|
    && forall i :: 0 <= i < |lines| ==>
         frames[i].payload == lines[i].Text() && frames[i].std == if lines[i].kind == 2 then Stderr else Stdout
  }

  lemma {:induction false} TextsAreReturned(lines: seq<Line>)
    ensures Returned(lines, Texts(lines))
  {
    if lines != [] {
      TextsAreReturned(lines[1..]);
    }
  }

  /** What is returned of the first frame: nothing without a whole header, an empty frame for length 0,
      else exactly the payload of that length, big-endian in bytes 4 to 7, if all of it is there. */
  lemma FirstFrameIs(s: seq<Byte>)
    ensures s == [] ==> ReadDockerFrame(s) == Err(EOF, 0)
    ensures 0 < |s| < 8 ==> ReadDockerFrame(s) == Err(UnexpectedEOF, |s|)
    ensures |s| >= 8 ==>
              var n: nat := s[4] as int * 16_777_216 + s[5] as int * 65_536 + s[6] as int * 256 + s[7] as int;
              var std := if s[0] == 2 then Stderr else Stdout;
              ReadDockerFrame(s) ==
              if |s| >= 8 + n then Ok(Frame(s[8..8 + n], std), 8 + n) else Err(EOF, |s|)
  {
    if |s| >= 8 {
      var length := s[4..8];
      assert length[0] == s[4] && length[1] == s[5] && length[2] == s[6] && length[3] == s[7];
      assert s[8..8] == [];
    }
  }

  /** Whatever frames the daemon cuts the lines into, reading the encoded bytes returns exactly the
      lines, each under the stream of its first frame, and then the end of the stream. */
  lemma StreamRoundTrip(lines: seq<Line>)
    requires forall l :: l in lines ==> WellCut(l)
    requires forall c :: c in AllChunks(lines) ==> |c.payload| < LIMIT
    ensures LinesIn(FramesIn(EncodeFrames(AllChunks(lines)), false)) == (Texts(lines), EOF)
    ensures Returned(lines, LinesIn(FramesIn(EncodeFrames(AllChunks(lines)), false)).0)
  {
    FramesRoundTrip(AllChunks(lines));
    LinesJoin(lines);
    TextsAreReturned(lines);
  }

  // ---- A terminal has no frames ----

  function Concat(lines: seq<seq<Byte>>): seq<Byte> {
    if lines == [] then [] else lines[0] + Concat(lines[1..])
  }

  function Plain(lines: seq<seq<Byte>>): seq<Frame> {
    if lines == [] then [] else [Frame(lines[0], Stdout)] + Plain(lines[1..])
  }

  ghost predicate OneLine(l: seq<Byte>) {
    l != [] && l[|l| - 1] == NEWLINE && forall k :: 0 <= k < |l| - 1 ==> l[k] != NEWLINE
  }

  lemma FirstTtyLine(l: seq<Byte>, rest: seq<Byte>)
    requires OneLine(l)
    ensures ReadTtyLine(l + rest) == Ok(Frame(l, Stdout), |l|) && (l + rest)[|l|..] == rest
  {
  }

  /** With a TTY every newline-terminated line comes back as it is, all from stdout; an unfinished
      last line is not returned. */
  lemma {:induction false} TtyRoundTrip(lines: seq<seq<Byte>>, unfinished: seq<Byte>)
    requires forall l :: l in lines ==> OneLine(l)
    requires NEWLINE !in unfinished
    ensures LinesIn(FramesIn(Concat(lines) + unfinished, true)) == (Plain(lines), EOF)
    decreases |lines|
  {
    if lines == [] {
      assert Concat(lines) + unfinished == unfinished;
    } else {
      var rest := Concat(lines[1..]) + unfinished;
      assert Concat(lines) + unfinished == lines[0] + rest;
      FirstTtyLine(lines[0], rest);
      TtyRoundTrip(lines[1..], unfinished);
      assert NextLine(FramesIn(lines[0] + rest, true)) == Whole(Frame(lines[0], Stdout), FramesIn(rest, true));
    }
  }

  // ---- Where joining loses text ----

  /** A continuation frame loses its whole text if it holds no space, and keeps all of it only if
      there is nothing to keep. */
  lemma {:induction false} ContinuationNeedsSpace(payload: seq<Byte>)
    ensures SPACE !in payload ==> AfterSpace(payload) == []
    ensures AfterSpace(payload) == payload <==> payload == []
  {
    if payload != [] {
      ContinuationNeedsSpace(payload[1..]);
    }
  }

  /** What is left of a line behind its first space still ends the line; nothing is left exactly if
      the line has no space. */
  lemma {:induction false} RestEndsLine(payload: seq<Byte>)
    requires EndsLine(payload)
    ensures if SPACE in payload then EndsLine(AfterSpace(payload)) else AfterSpace(payload) == []
  {
    if payload[0] != SPACE && |payload| > 1 {
      RestEndsLine(payload[1..]);
    }
  }

  /** The line behind an empty frame is taken for a continuation: everything up to its first space
      is lost. A line without a space is lost whole, and the empty frame goes on to swallow the
      beginning of the next one. */
  lemma EmptyFrameSwallowsPrefix(kind: Byte, line: Chunk, rest: Frames)
    requires EndsLine(line.payload)
    ensures NextLine(AsFrame(Chunk(kind, []), AsFrame(line, rest))) ==
            if SPACE in line.payload then Whole(Frame(AfterSpace(line.payload), StdOf(kind)), rest)
            else NextLine(AsFrame(Chunk(kind, []), rest))
    ensures AfterSpace(line.payload) != line.payload
  {
    ContinuationNeedsSpace(line.payload);
    RestEndsLine(line.payload);
    var nothing: seq<Byte>, left := [], AfterSpace(line.payload);
    assert nothing + left == left;
    var frames := AsFrame(line, rest);
    assert NextLine(AsFrame(Chunk(kind, []), frames)) == JoinTails(frames, nothing, StdOf(kind));
    assert JoinTails(frames, nothing, StdOf(kind)) == JoinTails(rest, left, StdOf(kind));
    assert NextLine(AsFrame(Chunk(kind, []), rest)) == JoinTails(rest, nothing, StdOf(kind));
  }

  function AsLines(chunks: seq<Chunk>): seq<Frame> {
    if chunks == [] then [] else [Frame(chunks[0].payload, StdOf(chunks[0].kind))] + AsLines(chunks[1..])
  }

  lemma {:induction false} LinesEnd(frames: Frames)
    ensures forall l :: l in LinesIn(frames).0 ==> EndsLine(l.payload)
    decreases Size(frames)
  {
    var next := NextLine(frames);
    if next.Whole? {
      LinesEnd(next.rest);
    }
  }

  lemma {:induction false} AsLinesHas(chunks: seq<Chunk>, c: Chunk)
    requires c in chunks
    ensures Frame(c.payload, StdOf(c.kind)) in AsLines(chunks)
  {
    if c != chunks[0] {
      AsLinesHas(chunks[1..], c);
    }
  }

  lemma {:induction false} WholeLinesPass(chunks: seq<Chunk>)
    requires forall c :: c in chunks ==> EndsLine(c.payload)
    ensures LinesIn(AsFrames(chunks, Stop(EOF))) == (AsLines(chunks), EOF)
  {
    if chunks != [] {
      WholeLinesPass(chunks[1..]);
    }
  }

  /** The reader returns every frame as a line of its own, with nothing lost or joined, if and only if
      every frame ends with a newline; in particular no frame may be empty. */
  lemma FramesAreLinesIff(chunks: seq<Chunk>)
    ensures LinesIn(AsFrames(chunks, Stop(EOF))) == (AsLines(chunks), EOF) <==>
            forall c :: c in chunks ==> EndsLine(c.payload)
  {
    if forall c :: c in chunks ==> EndsLine(c.payload) {
      WholeLinesPass(chunks);
    } else {
      var c :| c in chunks && !EndsLine(c.payload);
      LinesEnd(AsFrames(chunks, Stop(EOF)));
      AsLinesHas(chunks, c);
    }
  }

  /** "ab", newline, in a frame behind an empty one is lost, and so is the first word of the next. */
  lemma EmptyFrameExample()
    ensures var empty, first, second := Chunk(1, []), Chunk(1, [97, 98, NEWLINE]), Chunk(1, [99, SPACE, 100, NEWLINE]);
            LinesIn(AsFrames([empty, first, second], Stop(EOF))) == ([Frame([100, NEWLINE], Stdout)], EOF)
  {
    var empty, first, second := Chunk(1, []), Chunk(1, [97, 98, NEWLINE]), Chunk(1, [99, SPACE, 100, NEWLINE]);
    var last := AsFrame(second, Stop(EOF));
    var chunks, two, one := [empty, first, second], [first, second], [second];
    assert chunks[1..] == two && two[1..] == one && one[1..] == [];
    assert AsFrames(one, Stop(EOF)) == last && AsFrames(two, Stop(EOF)) == AsFrame(first, last);
    EmptyFrameSwallowsPrefix(1, first, last);
    EmptyFrameSwallowsPrefix(1, second, Stop(EOF));
    assert AfterSpace(second.payload) == AfterSpace(second.payload[1..]) == second.payload[2..] == [100, NEWLINE];
    assert second.payload[1] == SPACE;
    var frames, line := AsFrames(chunks, Stop(EOF)), Frame([100, NEWLINE], Stdout);
    assert frames == AsFrame(empty, AsFrame(first, last));
    assert NextLine(frames) == Whole(line, Stop(EOF));
    assert LinesIn(Stop(EOF)) == ([], EOF) && LinesIn(frames) == ([line] + [], EOF);
    assert [line] + [] == [line];
  }
}

/** The reader: it advances a position in the stream and accumulates a message. */
module LogReading {
  import opened Bytes
  import opened StreamFormat

  class LogReader {
    const data: seq<Byte>
    const tty: bool
    var pos: nat

    ghost predicate Valid()
      reads this
    {
      pos <= |data|
    }

    ghost function Ahead(): Frames
      requires Valid()
      reads this
    {
      FramesIn(data[pos..], tty)
    }

    constructor (data: seq<Byte>, tty: bool)
      ensures Valid() && this.data == data && this.tty == tty && pos == 0
    {
      this.data, this.tty, pos := data, tty, 0;
    }

    method ReadEvent() returns (r: Result)
      requires Valid()
      modifies this
      ensures Valid() && pos == old(pos) + r.used
      ensures r.Ok? ==> old(Ahead()) == More(r.frame, Ahead()) && r.used > 0
      ensures r.Err? ==> old(Ahead()) == Stop(r.error) && pos == |data|
    {
      if tty {
        r := ReadString();
      } else {
        r := ReadChunk();
      }
      assert data[pos..][r.used..] == data[pos + r.used..];
      pos := pos + r.used;
    }

    method ReadString() returns (r: Result)
      requires Valid()
      ensures r == ReadTtyLine(data[pos..])
    {
      ghost var s := data[pos..];
      var end := pos;
      while end < |data| && data[end] != NEWLINE
        invariant pos <= end <= |data| && NewlineFrom(s, 0) == NewlineFrom(s, end - pos)
      {
        end := end + 1;
      }
      if end == |data| {
        r := Err(EOF, end - pos);
      } else {
        assert data[pos..end + 1] == s[..end + 1 - pos];
        r := Ok(Frame(data[pos..end + 1], Stdout), end + 1 - pos);
      }
    }

    method ReadChunk() returns (r: Result)
      requires Valid()
      ensures r == ReadDockerFrame(data[pos..])
    {
      ghost var s := data[pos..];
      if pos == |data| {
        return Err(EOF, 0);
      }
      if |data| - pos < HEADER {
        return Err(UnexpectedEOF, |data| - pos);
      }
      var header := data[pos..pos + HEADER];
      var count := Uint32(header[4..]);
      assert header[4..] == s[4..HEADER];
      if count == 0 {
        r := Ok(Frame([], StdOf(header[0])), HEADER);
      } else if |data| - pos - HEADER < count {
        r := Err(EOF, |data| - pos);
      } else {
        assert data[pos + HEADER..pos + HEADER + count] == s[HEADER..HEADER + count];
        r := Ok(Frame(data[pos + HEADER..pos + HEADER + count], StdOf(header[0])), HEADER + count);
      }
    }

    /** Returns the next complete line, joining its frames; an error loses the unfinished line. */
    method Read() returns (ok: bool, line: Frame, error: Error)
      requires Valid()
      modifies this
      ensures Valid() && pos >= old(pos)
      ensures ok ==> old(NextLine(Ahead())) == Whole(line, Ahead()) && pos > old(pos)
      ensures !ok ==> old(NextLine(Ahead())) == Broken(error) && pos == |data|
    {
      error := EOF;
      var first := ReadEvent();
      if first.Err? {
        return false, Frame([], Stdout), first.error;
      }
      line := first.frame;
      ghost var whole := JoinTails(Ahead(), line.payload, line.std);
      while !EndsLine(line.payload)
        invariant Valid() && pos > old(pos)
        invariant whole == JoinTails(Ahead(), line.payload, line.std)
        decreases |data| - pos
      {
        var tail := ReadEvent();
        if tail.Err? {
          return false, Frame([], line.std), tail.error;
        }
        line := line.(payload := line.payload + AfterSpace(tail.frame.payload));
      }
      ok := true;
    }

    /** The loop of `consumeReader`: every line until the stream ends, which takes every byte. */
    method ReadToEnd() returns (lines: seq<Frame>, error: Error)
      requires Valid()
      modifies this
      ensures (lines, error) == old(LinesIn(Ahead())) && pos == |data|
    {
      lines := [];
      ghost var all := LinesIn(Ahead());
      while true
        invariant Valid()
        invariant all.0 == lines + LinesIn(Ahead()).0 && all.1 == LinesIn(Ahead()).1
        decreases |data| - pos
      {
        ghost var before := Ahead();
        var ok, line, e := Read();
        if !ok {
          assert LinesIn(before) == ([], e);
          assert lines + [] == lines;
          return lines, e;
        }
        assert LinesIn(before).0 == [line] + LinesIn(Ahead()).0;
        lines := lines + [line];
      }
    }
  }
}
