/** A log event and the predicates that grouping rests on
    (internal/container/types.go, internal/container/event_generator.go). */
module LogEvents {
  datatype Kind = Single | Group | Complex

  /** What `LogEvent.Message` holds: a plain line, the fragments of a group, or parsed fields. */
  datatype Payload = Text(text: string) | Fragments(parts: seq<string>) | Fields(raw: string)

  const NO_LEVEL := "unknown"
  const MAX_GROUP_TIME_DELTA := 50

  datatype LogEvent = LogEvent(
    kind: Kind, payload: Payload, timestamp: int, id: nat, level: string, stream: string, containerID: string)
  {
    predicate HasLevel() { level != NO_LEVEL }

    predicate IsSimple() { kind.Single? || kind.Group? }

    predicate IsCloseTo(other: LogEvent) {
      Abs(timestamp - other.timestamp) < MAX_GROUP_TIME_DELTA
    }

    /** A line that can open a group. */
    predicate Opens() { IsSimple() && HasLevel() }

    /** The lines a reader of the stream sees in this event. */
    function Lines(): seq<Payload> {
      if kind.Group? && payload.Fragments? then
        seq(|payload.parts|, i requires 0 <= i < |payload.parts| => Text(payload.parts[i]))
      else [payload]
    }
  }

  function Abs(x: int): nat { if x < 0 then -x else x }
}

/** The regrouping of single lines into multi-line groups, stated on the whole input.

    `s` is everything the reader delivers before the buffer is closed. `late` holds the
    positions of the events that were not in the buffer within 50 ms of being peeked at:
    every event is waited for by at most one `peek`, so a set of positions describes every
    pattern of timeouts. */
module Grouping {
  import opened LogEvents

  datatype Segment = Segment(lo: nat, hi: nat)

  /** Line k may follow line k-1 in a group opened by line `start`. */
  predicate Continues(s: seq<LogEvent>, start: nat, k: nat)
    requires start < k < |s|
  {
    s[k].IsSimple() && (!s[k].HasLevel() || s[k].level == s[start].level) && s[k - 1].IsCloseTo(s[k])
  }

  /** Where the group opened by `start` and already holding everything before k ends. */
  function GroupEnd(s: seq<LogEvent>, late: set<nat>, start: nat, k: nat): (e: nat)
    requires start < k <= |s|
    ensures k <= e <= |s|
    decreases |s| - k
  {
    if k < |s| && k !in late && Continues(s, start, k) then GroupEnd(s, late, start, k + 1) else k
  }

  function SegmentEnd(s: seq<LogEvent>, late: set<nat>, start: nat): (e: nat)
    requires start < |s|
    ensures start < e <= |s|
  {
    if s[start].Opens() then GroupEnd(s, late, start, start + 1) else start + 1
  }

  function Segments(s: seq<LogEvent>, late: set<nat>, p: nat): (r: seq<Segment>)
    requires p <= |s|
    ensures forall x :: x in r ==> p <= x.lo < x.hi <= |s|
    decreases |s| - p
  {
    if p == |s| then []
    else [Segment(p, SegmentEnd(s, late, p))] + Segments(s, late, SegmentEnd(s, late, p))
  }

  /** The event emitted for a run of lines: a group takes its metadata from its first line. */
  function Render(lines: seq<LogEvent>): LogEvent
    requires lines != []
  {
    if |lines| == 1 then
      if lines[0].IsSimple() then lines[0].(kind := Single) else lines[0]
    else
      lines[0].(kind := Group, payload := Fragments(Texts(lines)))
  }

  function Texts(lines: seq<LogEvent>): seq<string> {
    seq(|lines|, i requires 0 <= i < |lines| => if lines[i].payload.Text? then lines[i].payload.text else "")
  }

  function Emitted(s: seq<LogEvent>, segments: seq<Segment>): seq<LogEvent>
    requires forall x :: x in segments ==> x.lo < x.hi <= |s|
  {
    if segments == [] then []
    else [Render(s[segments[0].lo..segments[0].hi])] + Emitted(s, segments[1..])
  }

  function Regroup(s: seq<LogEvent>, late: set<nat>, p: nat): seq<LogEvent>
    requires p <= |s|
  {
    Emitted(s, Segments(s, late, p))
  }

  lemma RegroupUnfold(s: seq<LogEvent>, late: set<nat>, p: nat)
    requires p < |s|
    ensures var e := SegmentEnd(s, late, p);
            Regroup(s, late, p) == [Render(s[p..e])] + Regroup(s, late, e)
  {
  }

  // ---- Conservation ----

  function Flatten(events: seq<LogEvent>): seq<Payload> {
    if events == [] then [] else events[0].Lines() + Flatten(events[1..])
  }

  /** The lines of the input: one payload per event. */
  function LinesOf(s: seq<LogEvent>): seq<Payload> {
    seq(|s|, i requires 0 <= i < |s| => s[i].payload)
  }

  /** What `createEvent` guarantees: simple events carry plain text, complex ones never look like groups. */
  ghost predicate FromReader(s: seq<LogEvent>) {
    forall i :: 0 <= i < |s| ==> s[i].IsSimple() ==> s[i].payload.Text?
  }

  lemma LinesSplit(s: seq<LogEvent>, p: nat, e: nat)
    requires p <= e <= |s|
    ensures LinesOf(s[p..]) == LinesOf(s[p..e]) + LinesOf(s[e..])
  {
  }

  lemma {:induction false} FlattenAppend(a: seq<LogEvent>, b: seq<LogEvent>)
    ensures Flatten(a + b) == Flatten(a) + Flatten(b)
  {
    if a == [] {
      assert a + b == b;
    } else {
      assert (a + b)[1..] == a[1..] + b;
      FlattenAppend(a[1..], b);
    }
  }

  lemma {:induction false} SegmentIsGroup(s: seq<LogEvent>, late: set<nat>, start: nat, k: nat)
    requires start < k <= |s|
    ensures forall i :: k <= i < GroupEnd(s, late, start, k) ==> i !in late && Continues(s, start, i)
    ensures var e := GroupEnd(s, late, start, k); e == |s| || e in late || !Continues(s, start, e)
    decreases |s| - k
  {
    if k < |s| && k !in late && Continues(s, start, k) {
      SegmentIsGroup(s, late, start, k + 1);
    }
  }

  lemma RenderKeepsLines(s: seq<LogEvent>, late: set<nat>, p: nat)
    requires p < |s| && FromReader(s)
    ensures Render(s[p..SegmentEnd(s, late, p)]).Lines() == LinesOf(s[p..SegmentEnd(s, late, p)])
  {
    var e := SegmentEnd(s, late, p);
    if s[p].Opens() {
      SegmentIsGroup(s, late, p, p + 1);
    }
    forall i | p <= i < e && e - p > 1
      ensures s[i].IsSimple()
    {
      assert i > p ==> Continues(s, p, i);
    }
    var seg := s[p..e];
    assert forall i :: 0 <= i < |seg| ==> seg[i] == s[p + i];
    assert Render(seg).Lines() == LinesOf(seg);
  }

  /** No line is lost, repeated or moved, whatever times out. */
  lemma {:induction false} RegroupConserves(s: seq<LogEvent>, late: set<nat>, p: nat)
    requires p <= |s| && FromReader(s)
    ensures Flatten(Regroup(s, late, p)) == LinesOf(s[p..])
    decreases |s| - p
  {
    if p < |s| {
      var e := SegmentEnd(s, late, p);
      RegroupUnfold(s, late, p);
      RegroupConserves(s, late, e);
      RenderKeepsLines(s, late, p);
      var r, rest := Render(s[p..e]), Regroup(s, late, e);
      assert ([r] + rest)[1..] == rest;
      LinesSplit(s, p, e);
    }
  }

  // ---- Shape of the groups ----

  /** Lines lo..hi form one legal group of at least two lines: the first has a level, none is complex,
      none has another level, and each follows within 50 ms. */
  ghost predicate IsGroup(s: seq<LogEvent>, seg: Segment)
    requires seg.lo < seg.hi <= |s|
  {
    && seg.lo + 2 <= seg.hi
    && s[seg.lo].kind != Complex && s[seg.lo].level != "unknown"
    && (forall k :: seg.lo < k < seg.hi ==>
          && s[k].kind != Complex
          && (s[k].level == "unknown" || s[k].level == s[seg.lo].level)
          && -50 < s[k].timestamp - s[k - 1].timestamp < 50)
  }

  /** A segment stops only where it must: at the end, at a timeout, after a line that opens no group, or
      before a line that is complex, has another level or comes 50 ms or more before or after. */
  ghost predicate IsMaximal(s: seq<LogEvent>, late: set<nat>, seg: Segment)
    requires seg.lo < seg.hi <= |s|
  {
    || seg.hi == |s| || seg.hi in late
    || s[seg.lo].kind == Complex || s[seg.lo].level == "unknown"
    || s[seg.hi].kind == Complex
    || (s[seg.hi].level != "unknown" && s[seg.hi].level != s[seg.lo].level)
    || !(-50 < s[seg.hi].timestamp - s[seg.hi - 1].timestamp < 50)
  }

  /** One line or a legal group, not running across a timeout and not stopping early. */
  ghost predicate IsSegment(s: seq<LogEvent>, late: set<nat>, seg: Segment)
    requires seg.lo < seg.hi <= |s|
  {
    && (seg.hi == seg.lo + 1 || IsGroup(s, seg))
    && (forall k :: seg.lo < k < seg.hi ==> k !in late)
    && IsMaximal(s, late, seg)
  }

  lemma SegmentEndIsSegment(s: seq<LogEvent>, late: set<nat>, p: nat)
    requires p < |s|
    ensures IsSegment(s, late, Segment(p, SegmentEnd(s, late, p)))
  {
    if s[p].Opens() {
      SegmentIsGroup(s, late, p, p + 1);
      forall k | p < k < SegmentEnd(s, late, p)
        ensures s[k].kind != Complex && (s[k].level == "unknown" || s[k].level == s[p].level)
        ensures -50 < s[k].timestamp - s[k - 1].timestamp < 50
      {
        assert Continues(s, p, k);
      }
    }
  }

  /** The segments tile the input from p; each is one line or a legal group, never runs
      across a timeout, and ends only at the end of the stream, at a timeout, or where the
      next line cannot continue it. */
  lemma {:induction false} SegmentsShape(s: seq<LogEvent>, late: set<nat>, p: nat)
    requires p <= |s|
    ensures var r := Segments(s, late, p);
            && (p < |s| ==> r != [] && r[0].lo == p && r[|r| - 1].hi == |s|)
            && (forall i :: 0 < i < |r| ==> r[i - 1].hi == r[i].lo)
            && (forall seg :: seg in r ==> IsSegment(s, late, seg))
    decreases |s| - p
  {
    if p < |s| {
      var e := SegmentEnd(s, late, p);
      SegmentEndIsSegment(s, late, p);
      SegmentsShape(s, late, e);
      var r, rest := Segments(s, late, p), Segments(s, late, e);
      assert r == [Segment(p, e)] + rest;
      forall i | 0 < i < |r|
        ensures r[i - 1].hi == r[i].lo
      {
        assert r[i] == rest[i - 1] && (i > 1 ==> r[i - 1] == rest[i - 2]);
      }
    }
  }

  /** The event for one line is that line, as a single unless it is complex; the event for several is a
      group of their texts with the time, id, level and stream of the first. */
  ghost predicate Shows(e: LogEvent, lines: seq<LogEvent>)
    requires lines != []
  {
    var first := lines[0];
    && e.timestamp == first.timestamp && e.id == first.id && e.level == first.level
    && e.stream == first.stream && e.containerID == first.containerID
    && if |lines| == 1 then
         e.payload == first.payload && e.kind == if first.kind == Complex then Complex else Single
       else
         && e.kind == Group && e.payload.Fragments? && |e.payload.parts| == |lines|
         && forall k :: 0 <= k < |lines| && lines[k].payload.Text? ==> e.payload.parts[k] == lines[k].payload.text
  }

  /** The i-th emitted event is the i-th segment, as a group exactly when it has several lines. */
  lemma {:induction false} EmittedAt(s: seq<LogEvent>, segments: seq<Segment>, i: nat)
    requires i < |segments|
    requires forall x :: x in segments ==> x.lo < x.hi <= |s|
    requires forall k :: 0 <= k < |s| ==> s[k].kind != Group
    ensures |Emitted(s, segments)| == |segments|
    ensures Emitted(s, segments)[i] == Render(s[segments[i].lo..segments[i].hi])
    ensures Shows(Emitted(s, segments)[i], s[segments[i].lo..segments[i].hi])
    ensures Emitted(s, segments)[i].kind == Group <==> segments[i].lo + 2 <= segments[i].hi
    decreases |segments|
  {
    if |segments| > 1 {
      EmittedAt(s, segments[1..], if i == 0 then 0 else i - 1);
    }
  }

  // ---- Timeouts only split ----

  lemma {:induction false} GroupEndMonotone(s: seq<LogEvent>, fewer: set<nat>, more: set<nat>, j: nat, p: nat, k: nat)
    requires fewer <= more
    requires j <= p < k <= |s| && s[j].level == s[p].level
    ensures GroupEnd(s, more, p, k) <= GroupEnd(s, fewer, j, k)
    decreases |s| - k
  {
    if k < |s| && k !in more && Continues(s, p, k) {
      GroupEndMonotone(s, fewer, more, j, p, k + 1);
    }
  }

  lemma {:induction false} GroupEndResume(s: seq<LogEvent>, late: set<nat>, j: nat, k: nat, p: nat)
    requires j < k <= |s| && k <= p <= GroupEnd(s, late, j, k)
    ensures GroupEnd(s, late, j, k) == GroupEnd(s, late, j, p)
    decreases p - k
  {
    if k < p {
      GroupEndResume(s, late, j, k + 1, p);
    }
  }

  lemma SegmentStaysInside(s: seq<LogEvent>, fewer: set<nat>, more: set<nat>, j: nat, p: nat)
    requires fewer <= more && j <= p < |s| && p < SegmentEnd(s, fewer, j)
    ensures SegmentEnd(s, more, p) <= SegmentEnd(s, fewer, j)
  {
    if s[p].Opens() {
      if p > j {
        SegmentIsGroup(s, fewer, j, j + 1);
        assert Continues(s, j, p);
        GroupEndResume(s, fewer, j, j + 1, p + 1);
      }
      GroupEndMonotone(s, fewer, more, j, p, p + 1);
    }
  }

  ghost predicate Inside(a: Segment, b: Segment) { b.lo <= a.lo && a.hi <= b.hi }

  lemma {:induction false} RefinesFrom(s: seq<LogEvent>, fewer: set<nat>, more: set<nat>, j: nat, p: nat, seg: Segment)
    returns (whole: Segment)
    requires fewer <= more && j <= p < |s| && p < SegmentEnd(s, fewer, j)
    requires seg in Segments(s, more, p)
    ensures whole in Segments(s, fewer, j) && Inside(seg, whole)
    decreases |s| - p
  {
    var e1, e2 := SegmentEnd(s, fewer, j), SegmentEnd(s, more, p);
    SegmentStaysInside(s, fewer, more, j, p);
    if seg == Segment(p, e2) {
      whole := Segment(j, e1);
    } else if e2 < e1 {
      whole := RefinesFrom(s, fewer, more, j, e2, seg);
    } else {
      whole := RefinesFrom(s, fewer, more, e1, e1, seg);
    }
  }

  /** Extra timeouts only split groups: every segment of the run with more timeouts lies
      inside one segment of the run with fewer, so no two lines that were apart are joined.
      The timeout-free run is the case `fewer == {}`. */
  lemma TimeoutsOnlySplit(s: seq<LogEvent>, fewer: set<nat>, more: set<nat>, p: nat)
    requires fewer <= more && p <= |s|
    ensures forall seg :: seg in Segments(s, more, p) ==>
              exists whole :: whole in Segments(s, fewer, p) && Inside(seg, whole)
  {
    forall seg | seg in Segments(s, more, p)
      ensures exists whole :: whole in Segments(s, fewer, p) && Inside(seg, whole)
    {
      var whole := RefinesFrom(s, fewer, more, p, p, seg);
    }
  }
}

/** The leading lines that `skipOrphanedLines` takes for the tail of a group already sent. */
module Orphans {
  import opened Basics
  import opened LogEvents
  import opened Grouping

  const MAX_ORPHAN_LINES := 1000
  const NEAR_START_MILLIS := 5000

  predicate NearStart(startedAt: Option<int>, e: LogEvent) {
    startedAt.Some? && e.timestamp > 0 && Abs(startedAt.value - e.timestamp) < NEAR_START_MILLIS
  }

  predicate IsOrphan(s: seq<LogEvent>, i: nat)
    requires i < |s|
  {
    s[i].IsSimple() && !s[i].HasLevel() && s[i].timestamp > 0 && (i == 0 || s[i - 1].IsCloseTo(s[i]))
  }

  /** Line i comes too long after the line before it. */
  predicate TimeGap(s: seq<LogEvent>, i: nat)
    requires 0 < i < |s|
  {
    s[i].timestamp > 0 && !s[i - 1].IsCloseTo(s[i])
  }

  /** Where normal processing starts, and whether the lines before it were shown or dropped. */
  datatype Skip = Skip(first: nat, shown: bool)

  function SkipFrom(s: seq<LogEvent>, late: set<nat>, i: nat): (r: Skip)
    requires i < |s|
    ensures i <= r.first <= |s|
    decreases |s| - i
  {
    if !IsOrphan(s, i) then Skip(i, i == 0 || TimeGap(s, i))
    else if i + 1 >= MAX_ORPHAN_LINES || i + 1 == |s| || i + 1 in late then Skip(i + 1, true)
    else SkipFrom(s, late, i + 1)
  }

  function SkipOrphans(s: seq<LogEvent>, late: set<nat>, startedAt: Option<int>): (r: Skip)
    ensures r.first <= |s|
  {
    if s == [] || NearStart(startedAt, s[0]) then Skip(0, true) else SkipFrom(s, late, 0)
  }

  function AsSingles(s: seq<LogEvent>): (r: seq<LogEvent>)
    ensures |r| == |s| && forall i :: 0 <= i < |s| ==> r[i].kind == Single && r[i].(kind := s[i].kind) == s[i]
  {
    seq(|s|, i requires 0 <= i < |s| => s[i].(kind := Single))
  }

  /** Everything `processBuffer` emits. */
  function Processed(s: seq<LogEvent>, late: set<nat>, startedAt: Option<int>): seq<LogEvent> {
    var k := SkipOrphans(s, late, startedAt);
    (if k.shown then AsSingles(s[..k.first]) else []) + Regroup(s, late, k.first)
  }

  function DroppedCount(s: seq<LogEvent>, late: set<nat>, startedAt: Option<int>): nat {
    var k := SkipOrphans(s, late, startedAt);
    if k.shown then 0 else k.first
  }

  /** The only circumstances under which the first d lines may disappear: fewer than 1000 lines without
      a level, each within 50 ms of the one before, not within 5 s of the container's start, followed in
      time by a line that is within 50 ms too, or has no timestamp, and is no such line itself. */
  ghost predicate MayDrop(s: seq<LogEvent>, late: set<nat>, startedAt: Option<int>, d: nat) {
    && 0 < d < |s| && d < 1000
    && !(startedAt.Some? && s[0].timestamp > 0 && -5000 < startedAt.value - s[0].timestamp < 5000)
    && (forall k :: 0 <= k < d ==> s[k].kind != Complex && s[k].level == "unknown" && s[k].timestamp > 0)
    && (forall k :: 0 < k < d ==> -50 < s[k].timestamp - s[k - 1].timestamp < 50)
    && (forall k :: 0 < k <= d ==> k !in late)
    && (s[d].timestamp > 0 ==>
          && -50 < s[d].timestamp - s[d - 1].timestamp < 50
          && (s[d].kind == Complex || s[d].level != "unknown"))
  }

  lemma {:induction false} SkipFromExact(s: seq<LogEvent>, late: set<nat>, i: nat, d: nat)
    requires i < |s| && i < MAX_ORPHAN_LINES && 0 < d
    requires forall k :: 0 <= k < i ==> IsOrphan(s, k)
    requires forall k :: 0 < k <= i ==> k !in late
    ensures SkipFrom(s, late, i) == Skip(d, false) <==>
            && d < |s| && d < MAX_ORPHAN_LINES
            && (forall k :: 0 <= k < d ==> IsOrphan(s, k))
            && (forall k :: 0 < k <= d ==> k !in late)
            && !IsOrphan(s, d) && !TimeGap(s, d)
    decreases |s| - i
  {
    if IsOrphan(s, i) && !(i + 1 >= MAX_ORPHAN_LINES || i + 1 == |s| || i + 1 in late) {
      SkipFromExact(s, late, i + 1, d);
    } else if IsOrphan(s, i) {
      if d > i {
        assert i + 1 in late ==> d >= i + 1 && 0 < i + 1 <= d;
      }
    }
  }

  lemma RunOfOrphans(s: seq<LogEvent>, d: nat)
    requires d <= |s|
    ensures (forall k :: 0 <= k < d ==> IsOrphan(s, k)) <==>
            && (forall k :: 0 <= k < d ==> s[k].kind != Complex && s[k].level == "unknown" && s[k].timestamp > 0)
            && (forall k :: 0 < k < d ==> -50 < s[k].timestamp - s[k - 1].timestamp < 50)
  {
    if forall k :: 0 <= k < d ==> IsOrphan(s, k) {
      forall k | 0 <= k < d
        ensures s[k].kind != Complex && s[k].level == "unknown" && s[k].timestamp > 0
        ensures k > 0 ==> -50 < s[k].timestamp - s[k - 1].timestamp < 50
      {
        assert IsOrphan(s, k);
      }
    }
  }

  /** Exactly d > 0 leading lines are dropped if and only if they form a short orphan run
      that a line close in time, but not itself an orphan, follows without a timeout. */
  lemma DropsExactlyOrphans(s: seq<LogEvent>, late: set<nat>, startedAt: Option<int>, d: nat)
    requires 0 < d
    ensures DroppedCount(s, late, startedAt) == d <==> MayDrop(s, late, startedAt, d)
  {
    if s != [] && !NearStart(startedAt, s[0]) {
      SkipFromExact(s, late, 0, d);
      if d < |s| {
        RunOfOrphans(s, d);
      }
    }
  }

  lemma {:induction false} SkipFromShown(s: seq<LogEvent>, late: set<nat>, i: nat, d: nat)
    requires i < |s| && i < MAX_ORPHAN_LINES && 0 < d
    requires forall k :: 0 <= k < i ==> IsOrphan(s, k)
    requires forall k :: 0 < k <= i ==> k !in late
    ensures SkipFrom(s, late, i) == Skip(d, true) <==>
            && i <= d <= |s| && d <= MAX_ORPHAN_LINES
            && (forall k :: 0 <= k < d ==> IsOrphan(s, k))
            && (forall k :: 0 < k < d ==> k !in late)
            && ((d > i && (d == MAX_ORPHAN_LINES || d == |s| || d in late)) || (d < |s| && TimeGap(s, d)))
    decreases |s| - i
  {
    if IsOrphan(s, i) {
      if !(i + 1 >= MAX_ORPHAN_LINES || i + 1 == |s| || i + 1 in late) {
        SkipFromShown(s, late, i + 1, d);
      }
    }
  }

  /** The first d lines were shown one by one: they are lines without a level close to each other, and
      they stop at 1000, at the end, at a timeout, or before a line that comes 50 ms or more apart. */
  ghost predicate ShowsFirst(s: seq<LogEvent>, late: set<nat>, startedAt: Option<int>, d: nat) {
    && 0 < d <= |s| && d <= 1000
    && !(startedAt.Some? && s[0].timestamp > 0 && -5000 < startedAt.value - s[0].timestamp < 5000)
    && (forall k :: 0 <= k < d ==> s[k].kind != Complex && s[k].level == "unknown" && s[k].timestamp > 0)
    && (forall k :: 0 < k < d ==> -50 < s[k].timestamp - s[k - 1].timestamp < 50)
    && (forall k :: 0 < k < d ==> k !in late)
    && (d == 1000 || d == |s| || d in late ||
        (s[d].timestamp > 0 && !(-50 < s[d].timestamp - s[d - 1].timestamp < 50)))
  }

  lemma NearStartIs(startedAt: Option<int>, e: LogEvent)
    ensures NearStart(startedAt, e) <==>
            startedAt.Some? && e.timestamp > 0 && -5000 < startedAt.value - e.timestamp < 5000
  {
  }

  lemma TimeGapIs(s: seq<LogEvent>, d: nat)
    requires 0 < d < |s|
    ensures TimeGap(s, d) <==> s[d].timestamp > 0 && !(-50 < s[d].timestamp - s[d - 1].timestamp < 50)
  {
  }

  /** Exactly the first d > 0 lines are taken out of the grouping and shown if and only if they are such a
      run; what is neither shown nor dropped is grouped. */
  lemma ShowsExactlyRuns(s: seq<LogEvent>, late: set<nat>, startedAt: Option<int>, d: nat)
    requires 0 < d
    ensures SkipOrphans(s, late, startedAt) == Skip(d, true) <==> ShowsFirst(s, late, startedAt, d)
  {
    if s != [] {
      NearStartIs(startedAt, s[0]);
      if !NearStart(startedAt, s[0]) {
        ShowsRuns(s, late, startedAt, d);
      }
    }
  }

  lemma ShowsRuns(s: seq<LogEvent>, late: set<nat>, startedAt: Option<int>, d: nat)
    requires 0 < d && s != [] && !NearStart(startedAt, s[0])
    ensures SkipFrom(s, late, 0) == Skip(d, true) <==> ShowsFirst(s, late, startedAt, d)
  {
    NearStartIs(startedAt, s[0]);
    SkipFromShown(s, late, 0, d);
    if d <= |s| {
      RunOfOrphans(s, d);
    }
    if d < |s| {
      TimeGapIs(s, d);
    }
  }

  lemma {:induction false} SinglesKeepLines(s: seq<LogEvent>)
    ensures Flatten(AsSingles(s)) == LinesOf(s)
  {
    if s != [] {
      SinglesKeepLines(s[1..]);
      assert AsSingles(s)[1..] == AsSingles(s[1..]);
      assert LinesOf(s) == [s[0].payload] + LinesOf(s[1..]);
    }
  }

  /** Whatever arrives and whatever times out, the emitted events flatten to the input lines
      in order, minus the dropped orphans at the front. */
  lemma ProcessedConserves(s: seq<LogEvent>, late: set<nat>, startedAt: Option<int>)
    requires FromReader(s)
    ensures DroppedCount(s, late, startedAt) <= |s|
    ensures Flatten(Processed(s, late, startedAt)) == LinesOf(s[DroppedCount(s, late, startedAt)..])
  {
    var k := SkipOrphans(s, late, startedAt);
    RegroupConserves(s, late, k.first);
    if k.shown {
      var front := AsSingles(s[..k.first]);
      SinglesKeepLines(s[..k.first]);
      FlattenAppend(front, Regroup(s, late, k.first));
      LinesSplit(s, 0, k.first);
      assert s[0..k.first] == s[..k.first];
    } else {
      assert [] + Regroup(s, late, k.first) == Regroup(s, late, k.first);
    }
  }
}

/** The generator itself: the one-event lookahead `next`, the buffer and the emitted events
    are updated step by step, and `Level` is overwritten on the event being peeked at. */
module EventGeneration {
  import opened Basics
  import opened LogEvents
  import opened Grouping
  import opened Orphans

  class EventGenerator {
    const input: seq<LogEvent>       // what the reader delivers before it closes the buffer
    const late: set<nat>             // events not there within 50 ms of being peeked at
    const startedAt: Option<int>
    var received: nat                // events taken from the buffer so far
    var next: Option<LogEvent>
    var events: seq<LogEvent>        // what was emitted

    ghost predicate Valid()
      reads this
    {
      received <= |input| && (next.Some? ==> received > 0) && FromReader(input)
    }

    /** Position of the event `NextEvent` will return. */
    ghost function Position(): nat
      requires Valid()
      reads this
    {
      if next.Some? then received - 1 else received
    }

    constructor (input: seq<LogEvent>, late: set<nat>, startedAt: Option<int>)
      requires FromReader(input)
      ensures Valid() && this.input == input && this.late == late && this.startedAt == startedAt
      ensures received == 0 && next == None && events == []
    {
      this.input, this.late, this.startedAt := input, late, startedAt;
      received, next, events := 0, None, [];
    }

    method NextEvent() returns (event: Option<LogEvent>)
      requires Valid()
      modifies this`received, this`next
      ensures Valid() && next == None
      ensures event.None? <==> old(Position()) == |input|
      ensures event.Some? ==> Position() == old(Position()) + 1
      ensures event.None? ==> Position() == old(Position())
      ensures old(next).Some? ==> event == old(next)
      ensures old(next).None? && event.Some? ==> event.value == input[old(received)]
    {
      if next.Some? {
        event := next;
        next := None;
      } else if received < |input| {
        event := Some(input[received]);
        received := received + 1;
      } else {
        event := None;
      }
    }

    method Peek() returns (event: Option<LogEvent>)
      requires Valid()
      modifies this`received, this`next
      ensures Valid() && Position() == old(Position())
      ensures event == next
      ensures old(next).Some? ==> next == old(next)
      ensures old(next).None? ==>
                next == if Position() == |input| || Position() in late then None else Some(input[Position()])
    {
      if next.None? && received < |input| && received !in late {
        next := Some(input[received]);
        received := received + 1;
      }
      event := next;
    }

    method FlushGroup(pending: seq<LogEvent>)
      requires forall e :: e in pending ==> e.IsSimple()
      modifies this`events
      ensures events == old(events) + if pending == [] then [] else [Render(pending)]
      ensures pending != [] ==> |events| == |old(events)| + 1 && Shows(events[|events| - 1], pending)
    {
      if |pending| == 1 {
        events := events + [pending[0].(kind := Single)];
      } else if |pending| > 1 {
        var fragments := [];
        for i := 0 to |pending|
          invariant fragments == Texts(pending)[..i]
        {
          fragments := fragments + [if pending[i].payload.Text? then pending[i].payload.text else ""];
        }
        assert fragments == Texts(pending);
        events := events + [pending[0].(kind := Group, payload := Fragments(fragments))];
      }
    }

    method EmitAsSingles(buffered: seq<LogEvent>)
      modifies this`events
      ensures events == old(events) + AsSingles(buffered)
    {
      for i := 0 to |buffered|
        invariant events == old(events) + AsSingles(buffered)[..i]
      {
        events := events + [buffered[i].(kind := Single)];
      }
    }

    /** The buffered lines were no orphans after all: show them and go on with the next event. */
    method ShowAndResume(buffered: seq<LogEvent>) returns (first: Option<LogEvent>)
      requires Valid() && next == None && events == [] && buffered == input[..received]
      modifies this
      ensures Valid() && next == None && events == AsSingles(buffered)
      ensures first.None? <==> |buffered| == |input|
      ensures first.Some? ==> first.value == input[|buffered|] && received == |buffered| + 1
    {
      EmitAsSingles(buffered);
      first := NextEvent();
    }

    /** The buffered lines are shown if the line that follows them comes after a gap, else dropped. */
    method ShowIfGap(buffered: seq<LogEvent>, lastTimestamp: int, current: LogEvent)
      requires |buffered| < |input| && buffered == input[..|buffered|] && current == input[|buffered|]
      requires buffered != [] ==> lastTimestamp == input[|buffered| - 1].timestamp > 0
      modifies this`events
      ensures var i := |buffered|;
              events == old(events) + if i == 0 || TimeGap(input, i) then AsSingles(buffered) else []
    {
      if |buffered| > 0 {
        var timeGap := lastTimestamp != 0 && current.timestamp > 0 &&
          Abs(lastTimestamp - current.timestamp) >= MAX_GROUP_TIME_DELTA;
        if timeGap {
          EmitAsSingles(buffered);
        }
      }
    }

    /** The orphans so far are buffered and shown to nobody; `current` comes next. */
    ghost predicate Skipping(buffered: seq<LogEvent>, lastTimestamp: int, current: LogEvent)
      reads this
    {
      && Valid() && next == None && events == []
      && |buffered| + 1 == received && buffered == input[..|buffered|] && current == input[|buffered|]
      && |buffered| < MAX_ORPHAN_LINES
      && (if buffered == [] then lastTimestamp == 0 else lastTimestamp == input[|buffered| - 1].timestamp > 0)
    }

    /** Skipping is over: `first` is the first event to process normally. */
    ghost predicate Skipped(k: Skip, first: Option<LogEvent>)
      reads this
    {
      && Valid() && next == None && k.first <= |input|
      && events == (if k.shown then AsSingles(input[..k.first]) else [])
      && (first.None? <==> k.first == |input|)
      && (first.Some? ==> first.value == input[k.first] && received == k.first + 1)
    }

    /** Returns the first event to process normally, after emitting or dropping the lines before it. */
    method SkipOrphanedLines() returns (first: Option<LogEvent>)
      requires Valid() && received == 0 && next == None && events == []
      modifies this
      ensures Skipped(SkipOrphans(input, late, startedAt), first)
    {
      first := NextEvent();
      if first.None? || NearStart(startedAt, first.value) {
        return;
      }
      var buffered: seq<LogEvent> := [];
      var lastTimestamp := 0;
      var done := false;
      ghost var skip := SkipFrom(input, late, 0);
      while !done
        invariant if done then Skipped(skip, first)
                  else first.Some? && Skipping(buffered, lastTimestamp, first.value) &&
                       skip == SkipFrom(input, late, |buffered|)
        decreases !done, |input| - |buffered|
      {
        var current := first.value;
        done, first := SkipTurn(buffered, lastTimestamp, current);
        lastTimestamp := current.timestamp;
        buffered := buffered + [current];
      }
    }

    /** One turn of the skipping loop. */
    method SkipTurn(buffered: seq<LogEvent>, lastTimestamp: int, current: LogEvent)
      returns (done: bool, following: Option<LogEvent>)
      requires Skipping(buffered, lastTimestamp, current)
      modifies this
      ensures done ==> Skipped(SkipFrom(input, late, |buffered|), following)
      ensures !done ==>
                && following.Some? && Skipping(buffered + [current], current.timestamp, following.value)
                && SkipFrom(input, late, |buffered|) == SkipFrom(input, late, |buffered| + 1)
    {
      var isOrphan := current.IsSimple() && !current.HasLevel() && current.timestamp > 0 &&
        (lastTimestamp == 0 || Abs(lastTimestamp - current.timestamp) < MAX_GROUP_TIME_DELTA);
      assert isOrphan == IsOrphan(input, |buffered|);
      if !isOrphan {
        ShowIfGap(buffered, lastTimestamp, current);
        return true, Some(current);
      }
      assert buffered + [current] == input[..|buffered| + 1];
      done, following := GoOn(buffered + [current]);
    }

    /** After one more orphan: if there are too many, or none follows in time, all are shown. */
    method GoOn(buffered: seq<LogEvent>) returns (done: bool, following: Option<LogEvent>)
      requires Valid() && next == None && events == [] && 0 < received && buffered == input[..received]
      modifies this
      ensures Valid() && next == None
      ensures var i := |buffered|; done <==> i >= MAX_ORPHAN_LINES || i == |input| || i in late
      ensures events == if done then AsSingles(buffered) else []
      ensures following.None? <==> |buffered| == |input|
      ensures following.Some? ==> following.value == input[|buffered|] && received == |buffered| + 1
    {
      done := |buffered| >= MAX_ORPHAN_LINES;
      if !done {
        var ahead := Peek();
        done := ahead.None?;
      }
      if done {
        following := ShowAndResume(buffered);
      } else {
        following := NextEvent();
      }
    }

    /** The state at the head of the grouping loop: `start` is where the open segment begins,
        and once `pending` is non-empty the event being looked ahead at already carries the
        level of the group. */
    ghost predicate AtLoopHead(pending: seq<LogEvent>, start: nat)
      reads this
    {
      && Valid() && start <= Position()
      && if pending == [] then
           start == Position() && (next.Some? ==> next.value == input[start])
         else
           HoldsGroup(input, late, pending, start, Position()) &&
           next == Some(input[Position()].(level := input[start].level))
    }

    /** What is emitted plus what is still to come from `start`. */
    ghost function Outcome(start: nat): seq<LogEvent>
      requires start <= |input|
      reads this
    {
      events + Regroup(input, late, start)
    }

    /** The whole pass: skip orphans, then group by peeking one event ahead. */
    method ProcessBuffer()
      requires Valid() && received == 0 && next == None && events == []
      modifies this
      ensures events == Processed(input, late, startedAt)
    {
      var pending: seq<LogEvent> := [];
      var first := SkipOrphanedLines();
      ghost var start: nat := SkipOrphans(input, late, startedAt).first;
      if first.None? {
        return;
      }
      next := first;
      ghost var total := Outcome(start);
      var done := false;
      while !done
        invariant AtLoopHead(pending, start)
        invariant Outcome(start) == total
        invariant done ==> pending == [] && start == |input|
        decreases |input| - Position(), !done
      {
        pending, done, start := Step(pending, start);
      }
    }

    /** One turn of the grouping loop. */
    method Step(pending: seq<LogEvent>, ghost start: nat)
      returns (pending': seq<LogEvent>, done: bool, ghost start': nat)
      requires AtLoopHead(pending, start)
      modifies this
      ensures AtLoopHead(pending', start') && Outcome(start') == old(Outcome(start))
      ensures done <==> old(Position()) == |input|
      ensures done ==> pending' == [] && start' == |input| && Position() == |input|
      ensures !done ==> Position() == old(Position()) + 1
    {
      var current := NextEvent();
      if current.None? {
        FlushGroup(pending);
        return [], true, start;
      }
      done := false;
      if !current.value.IsSimple() {
        assert pending == [];
        FlushGroup(pending);
        EmitComplex(current.value, start);
        pending', start' := [], start + 1;
      } else if |pending| == 0 {
        pending', start' := OpenOrEmit(current.value, start);
      } else {
        pending', start' := ContinueOrFlush(pending, current.value, start);
      }
    }

    method EmitComplex(current: LogEvent, ghost start: nat)
      requires start < |input| && current == input[start] && !current.IsSimple()
      modifies this`events
      ensures Outcome(start + 1) == old(Outcome(start))
    {
      SingleLine(input, late, start);
      Regrouped(events, current, Regroup(input, late, start + 1));
      events := events + [current];
    }

    /** A simple line outside any group either opens one with the next line or is emitted alone. */
    method OpenOrEmit(current: LogEvent, ghost start: nat) returns (pending': seq<LogEvent>, ghost start': nat)
      requires Valid() && next == None && 0 < received && start == received - 1
      requires current == input[start] && current.IsSimple()
      modifies this
      ensures AtLoopHead(pending', start') && Position() == start + 1
      ensures Outcome(start') == old(Outcome(start))
    {
      var ahead := Peek();
      if ahead.Some? && ahead.value.IsSimple() && CanStartGroup(current, ahead.value) {
        next := Some(ahead.value.(level := current.level));
        GroupOpens(input, late, start);
        return [current], start;
      }
      EmitSingle(current, start);
      return [], start + 1;
    }

    /** A line that no other continues is a segment of its own. */
    method EmitSingle(current: LogEvent, ghost start: nat)
      requires start < |input| && current == input[start] && current.IsSimple()
      requires !current.Opens() || start + 1 == |input| || start + 1 in late || !Continues(input, start, start + 1)
      modifies this`events
      ensures Outcome(start + 1) == old(Outcome(start))
    {
      SingleLine(input, late, start);
      Regrouped(events, current.(kind := Single), Regroup(input, late, start + 1));
      events := events + [current.(kind := Single)];
    }

    /** The group of the pending lines and this one, at `end`, is complete. */
    method CloseGroup(pending: seq<LogEvent>, current: LogEvent, ghost start: nat, ghost end: nat)
      requires HoldsGroup(input, late, pending, start, end) && current == input[end].(level := input[start].level)
      requires end + 1 == |input| || end + 1 in late || !Continues(input, start, end + 1)
      modifies this`events
      ensures Outcome(end + 1) == old(Outcome(start))
    {
      GroupCloses(input, late, pending, start, end);
      ghost var before, rest := events, Regroup(input, late, end + 1);
      var lines := pending + [current];
      FlushGroup(lines);
      Regrouped(before, Render(lines), rest);
    }

    /** A line of an open group is appended; the group is flushed unless the next line continues it. */
    method ContinueOrFlush(pending: seq<LogEvent>, current: LogEvent, ghost start: nat)
      returns (pending': seq<LogEvent>, ghost start': nat)
      requires Valid() && next == None && 0 < received
      requires HoldsGroup(input, late, pending, start, received - 1)
      requires current == input[received - 1].(level := input[start].level)
      modifies this
      ensures AtLoopHead(pending', start') && Position() == old(received)
      ensures Outcome(start') == old(Outcome(start))
    {
      ghost var position := received - 1;
      pending' := pending + [current];
      var ahead := Peek();
      if ahead.None? || !ahead.value.IsSimple() ||
         !CanContinueGroup(pending'[|pending'| - 1], ahead.value, pending'[0].level)
      {
        CloseGroup(pending, current, start, position);
        return [], position + 1;
      }
      next := Some(ahead.value.(level := pending'[0].level));
      GroupGrows(input, late, pending, start, position);
      return pending', start;
    }
  }

  /** `pending` holds the lines start..end, all carrying the level of the first, and the
      line at `end` is known to continue the group. */
  ghost predicate HoldsGroup(s: seq<LogEvent>, late: set<nat>, pending: seq<LogEvent>, start: nat, end: nat) {
    && start < end < |s| && |pending| == end - start
    && s[start].Opens()
    && (forall i :: 0 <= i < |pending| ==>
          pending[i] == s[start + i].(level := s[start].level) && pending[i].IsSimple())
    && s[end].IsSimple()
    && SegmentEnd(s, late, start) == GroupEnd(s, late, start, end + 1)
  }

  lemma Regrouped(before: seq<LogEvent>, e: LogEvent, rest: seq<LogEvent>)
    ensures (before + [e]) + rest == before + ([e] + rest)
  {
  }

  lemma GroupOpens(s: seq<LogEvent>, late: set<nat>, start: nat)
    requires start + 1 < |s| && start + 1 !in late && s[start].Opens() && Continues(s, start, start + 1)
    ensures HoldsGroup(s, late, [s[start]], start, start + 1)
  {
  }

  lemma GroupGrows(s: seq<LogEvent>, late: set<nat>, pending: seq<LogEvent>, start: nat, end: nat)
    requires HoldsGroup(s, late, pending, start, end)
    requires end + 1 < |s| && end + 1 !in late && Continues(s, start, end + 1)
    ensures HoldsGroup(s, late, pending + [s[end].(level := s[start].level)], start, end + 1)
  {
  }

  lemma GroupCloses(s: seq<LogEvent>, late: set<nat>, pending: seq<LogEvent>, start: nat, end: nat)
    requires HoldsGroup(s, late, pending, start, end)
    requires end + 1 == |s| || end + 1 in late || !Continues(s, start, end + 1)
    ensures Regroup(s, late, start) ==
            [Render(pending + [s[end].(level := s[start].level)])] + Regroup(s, late, end + 1)
    ensures forall e :: e in pending + [s[end].(level := s[start].level)] ==> e.IsSimple()
  {
    var whole, lines := pending + [s[end].(level := s[start].level)], s[start..end + 1];
    assert Texts(whole) == Texts(lines);
    RegroupUnfold(s, late, start);
  }

  predicate CanStartGroup(current: LogEvent, ahead: LogEvent) {
    current.HasLevel() && CanContinueGroup(current, ahead, current.level)
  }

  predicate CanContinueGroup(prev: LogEvent, ahead: LogEvent, groupLevel: string) {
    (!ahead.HasLevel() || ahead.level == groupLevel) && prev.IsCloseTo(ahead)
  }

  /** A line that opens no group, or cannot be continued by the next one, is emitted alone. */
  lemma SingleLine(s: seq<LogEvent>, late: set<nat>, p: nat)
    requires p < |s|
    requires !s[p].Opens() || p + 1 == |s| || p + 1 in late || !Continues(s, p, p + 1)
    ensures Regroup(s, late, p) == [if s[p].IsSimple() then s[p].(kind := Single) else s[p]] + Regroup(s, late, p + 1)
  {
  }
}
