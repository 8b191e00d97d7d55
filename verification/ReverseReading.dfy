/** Bytes and newline-separated text. */
module Bytes {
  type Byte = x: int | 0 <= x < 256

  const NEWLINE: Byte := 10
  const SPACE: Byte := 32

  function Reverse<T>(s: seq<T>): (r: seq<T>)
    ensures |r| == |s|
  {
    if s == [] then [] else Reverse(s[1..]) + [s[0]]
  }

  lemma {:induction false} ReverseAppend<T>(a: seq<T>, b: seq<T>)
    ensures Reverse(a + b) == Reverse(b) + Reverse(a)
  {
    if a == [] {
      assert a + b == b;
    } else {
      assert (a + b)[1..] == a[1..] + b;
      ReverseAppend(a[1..], b);
    }
  }

  /** `bytes.Split(s, "\n")`. */
  function Split(s: seq<Byte>): (r: seq<seq<Byte>>)
    ensures |r| > 0
  {
    if s == [] then [[]]
    else if s[0] == NEWLINE then [[]] + Split(s[1..])
    else Prepend(s[0], Split(s[1..]))
  }

  function Prepend(b: Byte, lines: seq<seq<Byte>>): (r: seq<seq<Byte>>)
    requires |lines| > 0
    ensures |r| == |lines|
  {
    [[b] + lines[0]] + lines[1..]
  }

  function Join(lines: seq<seq<Byte>>): seq<Byte>
    requires |lines| > 0
  {
    if |lines| == 1 then lines[0] else lines[0] + [NEWLINE] + Join(lines[1..])
  }

  /** Splitting loses nothing: the lines joined by newlines are the text, and no line holds one. */
  lemma {:induction false} SplitJoin(s: seq<Byte>)
    ensures Join(Split(s)) == s
    ensures forall line :: line in Split(s) ==> NEWLINE !in line
  {
    if s != [] {
      var rest := Split(s[1..]);
      SplitJoin(s[1..]);
      assert s == [s[0]] + s[1..];
      if s[0] == NEWLINE {
        assert Split(s)[1..] == rest;
      } else {
        assert Split(s)[1..] == rest[1..];
      }
    }
  }

  /** Two texts put together: the last line of the first runs on into the first of the second. */
  function Meet(x: seq<seq<Byte>>, y: seq<seq<Byte>>): seq<seq<Byte>>
    requires |x| > 0 && |y| > 0
  {
    x[..|x| - 1] + [x[|x| - 1] + y[0]] + y[1..]
  }

  lemma MeetOneLine(x: seq<seq<Byte>>, y: seq<seq<Byte>>)
    requires |x| > 0 && |y| > 0
    ensures Meet(x, [y[0]]) + y[1..] == Meet(x, y)
  {
  }

  lemma PrependMeet(b: Byte, x: seq<seq<Byte>>, y: seq<seq<Byte>>)
    requires |x| > 0 && |y| > 0
    ensures Prepend(b, Meet(x, y)) == Meet(Prepend(b, x), y)
  {
    if |x| == 1 {
      assert [b] + (x[0] + y[0]) == [b] + x[0] + y[0];
    }
  }

  lemma {:induction false} SplitAppend(a: seq<Byte>, b: seq<Byte>)
    ensures Split(a + b) == Meet(Split(a), Split(b))
  {
    if a == [] {
      assert a + b == b;
      var y := Split(b);
      assert Split(a)[0] + y[0] == y[0];
      assert y == [y[0]] + y[1..];
    } else {
      assert (a + b)[1..] == a[1..] + b;
      SplitAppend(a[1..], b);
      if a[0] == NEWLINE {
        assert Meet([[]] + Split(a[1..]), Split(b)) == [[]] + Meet(Split(a[1..]), Split(b));
      } else {
        PrependMeet(a[0], Split(a[1..]), Split(b));
      }
    }
  }

  lemma {:induction false} SplitOneLine(s: seq<Byte>)
    requires NEWLINE !in s
    ensures Split(s) == [s]
  {
    if s != [] {
      SplitOneLine(s[1..]);
      assert s == [s[0]] + s[1..];
    }
  }
}

/** Reading a day file backwards in chunks (internal/log_storage/store.go, readFileReverse). */
module ReverseReading {
  import opened Basics
  import opened Bytes

  /** Decides one line: `None` when the line is blank, unreadable, outside the range or no match. */
  type LineFilter<!T> = seq<Byte> -> Option<T>

  datatype Scan<T> = Scan(found: seq<T>, full: bool)

  /** The reference: take the lines one by one until `stopAfter` were found. */
  function ScanLines<T>(accept: LineFilter<T>, lines: seq<seq<Byte>>, found: seq<T>, stopAfter: int): Scan<T> {
    if lines == [] then Scan(found, false)
    else match accept(lines[0])
      case None => ScanLines(accept, lines[1..], found, stopAfter)
      case Some(e) =>
        if |found| + 1 >= stopAfter then Scan(found + [e], true)
        else ScanLines(accept, lines[1..], found + [e], stopAfter)
  }

  lemma {:induction false} ScanAppend<T>(accept: LineFilter<T>, a: seq<seq<Byte>>, b: seq<seq<Byte>>,
                                        found: seq<T>, stopAfter: int)
    ensures var first := ScanLines(accept, a, found, stopAfter);
            ScanLines(accept, a + b, found, stopAfter) ==
            if first.full then first else ScanLines(accept, b, first.found, stopAfter)
    decreases |a|
  {
    if a == [] {
      assert a + b == b;
    } else {
      assert (a + b)[1..] == a[1..] + b;
      match accept(a[0])
      case None => ScanAppend(accept, a[1..], b, found, stopAfter);
      case Some(e) => ScanAppend(accept, a[1..], b, found + [e], stopAfter);
    }
  }

  lemma ScanOne<T>(accept: LineFilter<T>, line: seq<Byte>, found: seq<T>, stopAfter: int)
    ensures ScanLines(accept, [line], found, stopAfter) ==
            match accept(line)
            case None => Scan(found, false)
            case Some(e) => Scan(found + [e], |found| + 1 >= stopAfter)
  {
  }

  /** Everything the filter finds in the lines. */
  function Found<T>(accept: LineFilter<T>, lines: seq<seq<Byte>>): seq<T> {
    if lines == [] then []
    else match accept(lines[0])
      case None => Found(accept, lines[1..])
      case Some(e) => [e] + Found(accept, lines[1..])
  }

  /** Stopping early yields a prefix of the full scan, and reports so exactly when the limit was met. */
  lemma {:induction false} EarlyStopIsPrefix<T>(accept: LineFilter<T>, lines: seq<seq<Byte>>,
                                               found: seq<T>, stopAfter: int)
    requires |found| < stopAfter
    ensures var all := found + Found(accept, lines);
            ScanLines(accept, lines, found, stopAfter) ==
            if |all| >= stopAfter then Scan(all[..stopAfter], true) else Scan(all, false)
    decreases |lines|
  {
    if lines != [] {
      match accept(lines[0])
      case None => EarlyStopIsPrefix(accept, lines[1..], found, stopAfter);
      case Some(e) =>
        assert found + Found(accept, lines) == found + [e] + Found(accept, lines[1..]);
        if |found| + 1 < stopAfter {
          EarlyStopIsPrefix(accept, lines[1..], found + [e], stopAfter);
        }
    }
  }

  /** Visits the lines of one chunk, last first, leaving out the first, which may be incomplete. */
  method VisitParts<T>(accept: LineFilter<T>, parts: seq<seq<Byte>>, stopAfter: int, result0: seq<T>)
    returns (full: bool, result: seq<T>)
    requires |parts| > 0
    ensures Scan(result, full) == ScanLines(accept, Reverse(parts[1..]), result0, stopAfter)
  {
    result := result0;
    var i := |parts| - 1;
    assert parts[i + 1..] == [];
    while i >= 1
      invariant 0 <= i < |parts|
      invariant ScanLines(accept, Reverse(parts[i + 1..]), result0, stopAfter) == Scan(result, false)
    {
      NextLine(accept, parts, i, result0, stopAfter, result);
      var decoded := accept(parts[i]);
      if decoded.Some? {
        result := result + [decoded.value];
        if |result| >= stopAfter {
          assert parts[1..] == parts[1..i] + parts[i..];
          ReverseAppend(parts[1..i], parts[i..]);
          ScanAppend(accept, Reverse(parts[i..]), Reverse(parts[1..i]), result0, stopAfter);
          return true, result;
        }
      }
      i := i - 1;
    }
    full := false;
  }

  /** For every file content and every chunk size, the lines of the file are visited once each,
      last line first, until the caller has enough; lines may span any number of chunks. */
  method ReadFileReverse<T>(file: seq<Byte>, chunkSize: nat, accept: LineFilter<T>, stopAfter: int, result0: seq<T>)
    returns (more: bool, result: seq<T>)
    requires chunkSize > 0
    requires accept([]).None?
    ensures Scan(result, more) == ScanLines(accept, Reverse(Split(file)), result0, stopAfter)
  {
    result := result0;
    var pos := |file|;
    var pending: seq<Byte> := [];
    while pos > 0
      invariant 0 <= pos <= |file|
      invariant pending == Split(file[pos..])[0]
      invariant ScanLines(accept, Reverse(Split(file[pos..])[1..]), result0, stopAfter) == Scan(result, false)
    {
      var n := if pos < chunkSize then pos else chunkSize;
      pos := pos - n;
      var data := file[pos..pos + n] + pending;
      var parts := Split(data);
      ChunkLines(accept, file, pos, n, parts, result0, stopAfter, result);
      pending := parts[0];
      more, result := VisitParts(accept, parts, stopAfter, result);
      if more {
        StopsHere(accept, file, pos, result0, stopAfter);
        return;
      }
    }
    assert file[0..] == file;
    NextLine(accept, Split(file), 0, result0, stopAfter, result);
    more := false;
    if |pending| > 0 {
      var decoded := accept(pending);
      if decoded.Some? {
        result := result + [decoded.value];
        if |result| >= stopAfter {
          return true, result;
        }
      }
    }
  }

  /** The lines from `pos` on are the chunk's lines, the last one completed by the pending bytes. */
  lemma SplitWithPending(file: seq<Byte>, pos: nat, n: nat, parts: seq<seq<Byte>>)
    requires pos + n <= |file| && parts == Split(file[pos..pos + n] + Split(file[pos + n..])[0])
    ensures Split(file[pos..]) == parts + Split(file[pos + n..])[1..]
  {
    var buf, tail := file[pos..pos + n], Split(file[pos + n..]);
    assert file[pos..] == buf + file[pos + n..];
    SplitAppend(buf, file[pos + n..]);
    SplitJoin(file[pos + n..]);
    assert tail[0] in tail;
    SplitOneLine(tail[0]);
    SplitAppend(buf, tail[0]);
    MeetOneLine(Split(buf), tail);
  }

  lemma ChunkLines<T>(accept: LineFilter<T>, file: seq<Byte>, pos: nat, n: nat, parts: seq<seq<Byte>>,
                      result0: seq<T>, stopAfter: int, result: seq<T>)
    requires pos + n <= |file| && parts == Split(file[pos..pos + n] + Split(file[pos + n..])[0])
    requires ScanLines(accept, Reverse(Split(file[pos + n..])[1..]), result0, stopAfter) == Scan(result, false)
    ensures Split(file[pos..])[0] == parts[0]
    ensures ScanLines(accept, Reverse(Split(file[pos..])[1..]), result0, stopAfter) ==
            ScanLines(accept, Reverse(parts[1..]), result, stopAfter)
  {
    var tail := Split(file[pos + n..]);
    SplitWithPending(file, pos, n, parts);
    assert (parts + tail[1..])[1..] == parts[1..] + tail[1..];
    ReverseAppend(parts[1..], tail[1..]);
    ScanAppend(accept, Reverse(tail[1..]), Reverse(parts[1..]), result0, stopAfter);
  }

  lemma NextLine<T>(accept: LineFilter<T>, lines: seq<seq<Byte>>, i: nat, result0: seq<T>,
                    stopAfter: int, result: seq<T>)
    requires i < |lines|
    requires ScanLines(accept, Reverse(lines[i + 1..]), result0, stopAfter) == Scan(result, false)
    ensures ScanLines(accept, Reverse(lines[i..]), result0, stopAfter) ==
            match accept(lines[i])
            case None => Scan(result, false)
            case Some(e) => Scan(result + [e], |result| + 1 >= stopAfter)
  {
    assert lines[i..][1..] == lines[i + 1..];
    ScanAppend(accept, Reverse(lines[i + 1..]), [lines[i]], result0, stopAfter);
    ScanOne(accept, lines[i], result, stopAfter);
  }

  /** Once the caller has enough, what lies before `pos` no longer matters. */
  lemma StopsHere<T>(accept: LineFilter<T>, file: seq<Byte>, pos: nat, result0: seq<T>, stopAfter: int)
    requires pos <= |file|
    requires ScanLines(accept, Reverse(Split(file[pos..])[1..]), result0, stopAfter).full
    ensures ScanLines(accept, Reverse(Split(file)), result0, stopAfter) ==
            ScanLines(accept, Reverse(Split(file[pos..])[1..]), result0, stopAfter)
  {
    var seen := Split(file[pos..])[1..];
    SplitAppend(file[..pos], file[pos..]);
    assert file == file[..pos] + file[pos..];
    var before := Split(file)[..|Split(file)| - |seen|];
    assert Split(file) == before + seen;
    ReverseAppend(before, seen);
    ScanAppend(accept, Reverse(seen), Reverse(before), result0, stopAfter);
  }
}
