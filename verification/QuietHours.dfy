/** Quiet-hour windows (internal/notification/manager.go, quiet_summary.go) in a time zone of fixed
    offset. Times are nanoseconds since the epoch. */
module QuietHours {
  import opened Basics

  const DAY := 86_400_000_000_000

  /** start, end: time of day. offset: what the zone adds to the epoch time. */
  datatype Window = Window(start: int, end: int, offset: int) {
    predicate Valid() { 0 <= start < DAY && 0 <= end < DAY }
  }

  datatype Period = Period(start: int, end: int)

  /** The local midnight before t. */
  function Midnight(w: Window, t: int): (m: int)
    ensures m <= t < m + DAY && (m + w.offset) % DAY == 0
  {
    (t + w.offset) / DAY * DAY - w.offset
  }

  predicate IsQuiet(w: Window, now: int) {
    var start, end := Midnight(w, now) + w.start, Midnight(w, now) + w.end;
    if start < end then start <= now < end else start <= now || now < end
  }

  function NextQuietEnd(w: Window, now: int): int {
    var candidate := Midnight(w, now) + w.end;
    if candidate < now then candidate + DAY else candidate
  }

  function SummaryPeriod(w: Window, now: int): Period {
    var today := Midnight(w, now) + w.end;
    var end := if now < today then today else today + DAY;
    var start := Midnight(w, end) + w.start;
    Period(if start < end then start else start - DAY, end)
  }

  // ---- The reference: start and end instants recur every day ----

  predicate Starts(w: Window, t: int) { (t + w.offset - w.start) % DAY == 0 }

  predicate Ends(w: Window, t: int) { (t + w.offset - w.end) % DAY == 0 }

  /** No quiet period ends later than `after` and not later than `upTo`. */
  ghost predicate NoEndIn(w: Window, after: int, upTo: int) { forall e :: after < e <= upTo ==> !Ends(w, e) }

  /** How long the window lasts: a whole day if start and end coincide. */
  function Length(w: Window): (n: int)
    ensures 0 < n <= DAY
  {
    if (w.end - w.start) % DAY == 0 then DAY else (w.end - w.start) % DAY
  }

  /** How long ago the window last started. */
  function Since(w: Window, t: int): (n: int)
    ensures 0 <= n < DAY
  {
    (t + w.offset - w.start) % DAY
  }

  /** Two instants congruent modulo a day and less than a day apart are the same. */
  lemma Congruent(a: int, b: int)
    requires a % DAY == b % DAY && -DAY < a - b < DAY
    ensures a == b
  {
  }

  lemma SinceMidnight(w: Window, t: int)
    requires w.Valid()
    ensures var d := t - Midnight(w, t); Since(w, t) == if d >= w.start then d - w.start else d - w.start + DAY
  {
    var d, q := t - Midnight(w, t), (t + w.offset) / DAY;
    assert t + w.offset == q * DAY + d;
    if d >= w.start {
      Remainder(q, d - w.start);
    } else {
      Remainder(q - 1, d - w.start + DAY);
    }
  }

  lemma Remainder(q: int, r: int)
    requires 0 <= r < DAY
    ensures (q * DAY + r) % DAY == r
  {
  }

  /** An instant is quiet exactly when the window last started less than its length ago. */
  lemma QuietIffRecent(w: Window, t: int)
    requires w.Valid()
    ensures IsQuiet(w, t) <==> Since(w, t) < Length(w)
  {
    SinceMidnight(w, t);
  }

  lemma EndsAtMidnightPlus(w: Window, t: int)
    requires w.Valid()
    ensures Ends(w, t) <==> t == Midnight(w, t) + w.end
  {
  }

  lemma EndsEveryDay(w: Window, t: int)
    ensures Ends(w, Midnight(w, t) + w.end) && Ends(w, Midnight(w, t) + w.end + DAY)
  {
    var m := Midnight(w, t) + w.offset;
    assert m % DAY == 0 && (m + DAY) % DAY == 0;
  }

  lemma EndsADayApart(w: Window, a: int, b: int)
    requires Ends(w, a) && Ends(w, b) && -DAY < a - b < DAY
    ensures a == b
  {
    Congruent(a + w.offset - w.end, b + w.offset - w.end);
  }

  lemma PeriodEnd(w: Window, now: int)
    requires w.Valid()
    ensures var p := SummaryPeriod(w, now);
            now < p.end <= now + DAY && Ends(w, p.end) && NoEndIn(w, now, p.end - 1)
  {
    EndsEveryDay(w, now);
    var p := SummaryPeriod(w, now);
    forall e | now < e <= p.end - 1 ensures !Ends(w, e) {
      if Ends(w, e) {
        EndsADayApart(w, e, p.end);
      }
    }
  }

  lemma PeriodStart(w: Window, end: int)
    requires w.Valid() && Ends(w, end)
    ensures var start := Midnight(w, end) + w.start;
            (if start < end then start else start - DAY) == end - Length(w) && Starts(w, end - Length(w))
  {
    EndsAtMidnightPlus(w, end);
  }

  /** The summary period ends at the first end instant after `now` and starts at the last start
      instant before that. */
  lemma PeriodIsNext(w: Window, now: int)
    requires w.Valid()
    ensures var p := SummaryPeriod(w, now);
            && now < p.end <= now + DAY && Ends(w, p.end) && NoEndIn(w, now, p.end - 1)
            && p.start == p.end - Length(w) && Starts(w, p.start)
  {
    PeriodEnd(w, now);
    PeriodStart(w, SummaryPeriod(w, now).end);
  }

  /** An instant is quiet exactly when it lies in its own summary period. */
  lemma QuietIffInPeriod(w: Window, now: int)
    requires w.Valid()
    ensures var p := SummaryPeriod(w, now); IsQuiet(w, now) <==> p.start <= now < p.end
  {
    PeriodIsNext(w, now);
    QuietIffRecent(w, now);
    var p := SummaryPeriod(w, now);
    InPeriodIffRecent(w, now, p.end);
  }

  lemma InPeriodIffRecent(w: Window, now: int, end: int)
    requires w.Valid() && Ends(w, end) && now < end <= now + DAY
    ensures end - Length(w) <= now <==> Since(w, now) < Length(w)
  {
    PeriodStart(w, end);
    BackIffRecent(now + w.offset - w.start, now - (end - Length(w)), Length(w));
  }

  lemma BackIffRecent(x: int, back: int, length: int)
    requires (x - back) % DAY == 0 && length - DAY <= back < length && 0 < length <= DAY
    ensures back >= 0 <==> x % DAY < length
  {
  }

  /** An instant is quiet exactly when some start instant lies at or before it with no end since. */
  lemma QuietIffNotEnded(w: Window, t: int)
    requires w.Valid()
    ensures IsQuiet(w, t) <==> exists s :: s <= t && Starts(w, s) && NoEndIn(w, s, t)
  {
    PeriodIsNext(w, t);
    QuietIffInPeriod(w, t);
    var p := SummaryPeriod(w, t);
    if IsQuiet(w, t) {
      forall e | p.start < e <= t ensures !Ends(w, e) {
        if Ends(w, e) {
          Congruent(e + w.offset - w.end, p.end + w.offset - w.end);
        }
      }
      assert NoEndIn(w, p.start, t);
    }
    if s :| s <= t && Starts(w, s) && NoEndIn(w, s, t) {
      PeriodIsNext(w, s);
      assert SummaryPeriod(w, s).end > t;
      SharePeriodIff(w, s, t);
      QuietIffInPeriod(w, s);
      QuietIffRecent(w, s);
    }
  }

  /** Two instants share a summary period if and only if no end instant lies in (t1, t2]. */
  lemma SharePeriodIff(w: Window, t1: int, t2: int)
    requires w.Valid() && t1 <= t2
    ensures SummaryPeriod(w, t1) == SummaryPeriod(w, t2) <==> NoEndIn(w, t1, t2)
  {
    PeriodIsNext(w, t1);
    PeriodIsNext(w, t2);
    var p, q := SummaryPeriod(w, t1), SummaryPeriod(w, t2);
    if p == q {
      assert NoEndIn(w, t1, t2);
    } else if p.end > t2 {
      Congruent(p.end + w.offset - w.end, q.end + w.offset - w.end);
    }
  }

  /** The delivery time is the end of the summary period, except at an end instant itself. */
  lemma NextEndIsPeriodEnd(w: Window, now: int)
    requires w.Valid()
    ensures NextQuietEnd(w, now) == SummaryPeriod(w, now).end <==> !Ends(w, now)
    ensures Ends(w, now) ==> NextQuietEnd(w, now) == now
  {
    EndsAtMidnightPlus(w, now);
  }

  /** A quiet instant is an end instant only if start and end coincide. */
  lemma QuietEndsOnlyIfSame(w: Window, now: int)
    requires w.Valid()
    ensures IsQuiet(w, now) && Ends(w, now) <==> w.start == w.end && Ends(w, now)
  {
    EndsAtMidnightPlus(w, now);
  }

  /** The quiet check and the delivery time read the clock separately. What was quiet at n1 is due
      no earlier than the end of its period, unless both reads hit the same end instant. */
  lemma DueAtPeriodEndIff(w: Window, n1: int, n2: int)
    requires w.Valid() && n1 <= n2
    ensures NextQuietEnd(w, n2) >= SummaryPeriod(w, n1).end <==> !(n1 == n2 && Ends(w, n1))
  {
    PeriodIsNext(w, n1);
    PeriodIsNext(w, n2);
    NextEndIsPeriodEnd(w, n2);
    var p := SummaryPeriod(w, n1);
    if n1 < n2 < p.end {
      assert !Ends(w, n2);
      SharePeriodIff(w, n1, n2);
      assert NoEndIn(w, n1, n2);
    }
  }
}

/** Which window applies to a subscription, and what becomes of an alert during quiet hours
    (internal/notification/processing.go). */
module QuietDelivery {
  import opened Basics
  import opened QuietHours

  /** Configured window; a missing end is an empty string, which parses as 00:00. */
  datatype Setting = Setting(enabled: bool, start: Option<int>, end: Option<int>, offset: int) {
    predicate Valid() { (start.Some? ==> 0 <= start.value < DAY) && (end.Some? ==> 0 <= end.value < DAY) }

    predicate Complete() { enabled && start.Some? && end.Some? }

    function AsWindow(): (w: Window)
      requires Valid()
      ensures w.Valid()
    {
      Window(if start.Some? then start.value else 0, if end.Some? then end.value else 0, offset)
    }
  }

  datatype Config = Config(everyone: Setting, own: Setting, bypass: bool) {
    predicate Valid() { everyone.Valid() && own.Valid() }

    /** The window that decides whether it is quiet. */
    function Deciding(): Setting { if own.Complete() then own else everyone }

    /** The window that the summary period is computed from. */
    function Summarising(): Setting { if own.enabled then own else everyone }
  }

  /** `effectiveQuietHours`: quiet read at n1, its end read at n2. */
  function EffectiveQuietHours(c: Config, n1: int, n2: int): (bool, int)
    requires c.Valid()
  {
    if c.bypass then (false, 0)
    else
      var w := c.Deciding().AsWindow();
      (c.Deciding().Complete() && IsQuiet(w, n1), NextQuietEnd(w, n2))
  }

  datatype Action = Send | Hold(until: int) | Aggregate(period: Period) | Enqueue(deliverAt: int)

  /** Clock reads of one call, in order, and what the queue answers. */
  datatype Call = Call(n1: int, n2: int, n3: int, n4: int, n5: int, stamp: int,
                       queue: bool, grouping: bool, pending: nat, hold: int)

  /** Quiet read at n1, its end at n2; `grouping` is what the queue says of the period. */
  predicate ShouldAggregateQuiet(c: Config, n1: int, n2: int, queue: bool, grouping: bool)
    requires c.Valid()
  {
    queue && !c.bypass && EffectiveQuietHours(c, n1, n2).0 && grouping
  }

  function SendOrQueue(c: Config, call: Call): Action
    requires c.Valid()
  {
    var (quiet, end) := EffectiveQuietHours(c, call.n1, call.n2);
    if quiet && call.queue then
      if ShouldAggregateQuiet(c, call.n3, call.n4, call.queue, call.grouping)
      then Aggregate(SummaryPeriod(c.Summarising().AsWindow(), call.stamp))
      else Enqueue(end + call.pending * 2 * SECOND)
    else if call.hold > 0 && call.queue then Hold(call.n5 + call.hold * SECOND)
    else Send
  }

  /** The window in force, or nothing. */
  ghost predicate QuietAt(c: Config, t: int)
    requires c.Valid()
  {
    !c.bypass && c.Deciding().Complete() && IsQuiet(c.Deciding().AsWindow(), t)
  }

  // ---- What is done, in the settings and instants alone ----

  /** The window in force: the subscription's own if it is enabled and complete, else everyone's if so. */
  predicate InForce(c: Config, start: int, end: int, offset: int) {
    if c.own.enabled && c.own.start.Some? && c.own.end.Some? then
      c.own.start == Some(start) && c.own.end == Some(end) && c.own.offset == offset
    else
      && c.everyone.enabled && c.everyone.start == Some(start) && c.everyone.end == Some(end)
      && c.everyone.offset == offset
  }

  /** The time of day comes round at t, every 24 hours. */
  predicate ComesRound(time: int, offset: int, t: int) { (t + offset - time) % 86_400_000_000_000 == 0 }

  /** The window started at b and has not ended by t. */
  ghost predicate RunsSince(start: int, end: int, offset: int, b: int, t: int) {
    b <= t && ComesRound(start, offset, b) && forall e :: b < e <= t ==> !ComesRound(end, offset, e)
  }

  ghost predicate QuietNow(c: Config, t: int) {
    !c.bypass && exists start, end, offset, b :: InForce(c, start, end, offset) && RunsSince(start, end, offset, b, t)
  }

  lemma RunsSinceIff(w: Window, b: int, t: int)
    ensures RunsSince(w.start, w.end, w.offset, b, t) <==> b <= t && Starts(w, b) && NoEndIn(w, b, t)
  {
    forall e ensures Ends(w, e) <==> ComesRound(w.end, w.offset, e) {
    }
    if RunsSince(w.start, w.end, w.offset, b, t) {
      forall e | b < e <= t ensures !Ends(w, e) {
        assert !ComesRound(w.end, w.offset, e);
      }
    }
    if NoEndIn(w, b, t) {
      forall e | b < e <= t ensures !ComesRound(w.end, w.offset, e) {
        assert !Ends(w, e);
      }
    }
  }

  lemma QuietNowIff(c: Config, t: int)
    requires c.Valid()
    ensures QuietAt(c, t) <==> QuietNow(c, t)
  {
    var w := c.Deciding().AsWindow();
    QuietIffNotEnded(w, t);
    forall b ensures RunsSince(w.start, w.end, w.offset, b, t) <==> b <= t && Starts(w, b) && NoEndIn(w, b, t) {
      RunsSinceIff(w, b, t);
    }
    if QuietAt(c, t) {
      var b :| b <= t && Starts(w, b) && NoEndIn(w, b, t);
      assert InForce(c, w.start, w.end, w.offset) && RunsSince(w.start, w.end, w.offset, b, t);
    }
    if QuietNow(c, t) {
      var start, end, offset, b :| InForce(c, start, end, offset) && RunsSince(start, end, offset, b, t);
      assert w == Window(start, end, offset);
    }
  }

  /** e is the first time at or after t that the window in force ends. */
  ghost predicate FirstEnd(c: Config, t: int, e: int) {
    exists start, end, offset :: InForce(c, start, end, offset) && FirstRound(end, offset, t, e)
  }

  ghost predicate FirstRound(time: int, offset: int, t: int, e: int) {
    t <= e && ComesRound(time, offset, e) && forall x :: t <= x < e ==> !ComesRound(time, offset, x)
  }

  lemma NextEndIsFirst(w: Window, t: int)
    requires w.Valid()
    ensures FirstRound(w.end, w.offset, t, NextQuietEnd(w, t))
  {
    var e := NextQuietEnd(w, t);
    EndsEveryDay(w, t);
    assert Ends(w, e) && t <= e < t + DAY;
    forall x | t <= x < e ensures !ComesRound(w.end, w.offset, x) {
      if Ends(w, x) {
        EndsADayApart(w, x, e);
      }
    }
  }

  /** The period an alert stamped t is summarised under: it ends when the override's end, if the override is
      enabled, or everyone's, comes round after t, and starts less than a day earlier; what is missing is 0. */
  ghost predicate PeriodOf(c: Config, t: int, p: Period) {
    var setting := if c.own.enabled then c.own else c.everyone;
    var start := if setting.start.Some? then setting.start.value else 0;
    var end := if setting.end.Some? then setting.end.value else 0;
    && FirstRound(end, setting.offset, t + 1, p.end)
    && ComesRound(start, setting.offset, p.start) && p.end - 86_400_000_000_000 <= p.start < p.end
  }

  lemma PeriodIsOf(c: Config, t: int)
    requires c.Valid()
    ensures PeriodOf(c, t, SummaryPeriod(c.Summarising().AsWindow(), t))
  {
    var w := c.Summarising().AsWindow();
    PeriodIsNext(w, t);
    var p := SummaryPeriod(w, t);
    assert Ends(w, p.end) && Starts(w, p.start);
    forall x | t + 1 <= x < p.end ensures !ComesRound(w.end, w.offset, x) {
      assert !Ends(w, x);
    }
  }

  /** What `sendOrQueue` does, and when. With a queue, what is quiet is kept, and nothing else is kept for
      the end of quiet hours: it is aggregated if it is still quiet at the second look and the queue says
      so, else due when the window in force next ends, two seconds later for each alert that is pending.
      Otherwise it is held back if there is a hold window and a queue, and sent if not. */
  lemma ActionIs(c: Config, call: Call)
    requires c.Valid()
    ensures var a := SendOrQueue(c, call);
            && (a.Send? || a.Hold? <==> !call.queue || !QuietNow(c, call.n1))
            && (a.Aggregate? <==> call.queue && QuietNow(c, call.n1) && QuietNow(c, call.n3) && call.grouping)
            && (a.Hold? <==> call.queue && !QuietNow(c, call.n1) && call.hold > 0)
            && (a.Hold? ==> a.until == call.n5 + call.hold * 1_000_000_000)
            && (a.Enqueue? ==> FirstEnd(c, call.n2, a.deliverAt - call.pending * 2_000_000_000))
            && (a.Aggregate? ==> PeriodOf(c, call.stamp, a.period))
  {
    var w := c.Deciding().AsWindow();
    QuietNowIff(c, call.n1);
    QuietNowIff(c, call.n3);
    PeriodIsOf(c, call.stamp);
    NextEndIsFirst(w, call.n2);
    if SendOrQueue(c, call).Enqueue? {
      assert InForce(c, w.start, w.end, w.offset);
    }
  }

  /** Whatever is enqueued is due no earlier than the end of the quiet period it fell into, if and
      only if the call did not start and look up the end at one and the same end instant with nothing
      else pending; for windows whose ends differ that is always. */
  lemma EnqueuedDueAfterQuiet(c: Config, call: Call)
    requires c.Valid() && call.n1 <= call.n2 && SendOrQueue(c, call).Enqueue?
    ensures var w := c.Deciding().AsWindow();
            var end := SummaryPeriod(w, call.n1).end;
            && call.n1 < end
            && (w.start != w.end ==> SendOrQueue(c, call).deliverAt >= end)
            && (SendOrQueue(c, call).deliverAt >= end <==>
                !(call.n1 == call.n2 && Ends(w, call.n1)) || call.pending * 2 * SECOND >= DAY)
  {
    var w := c.Deciding().AsWindow();
    DueAtPeriodEndIff(w, call.n1, call.n2);
    PeriodIsNext(w, call.n1);
    QuietEndsOnlyIfSame(w, call.n1);
    NextEndIsPeriodEnd(w, call.n1);
    if Ends(w, call.n1) {
      EndsAtMidnightPlus(w, call.n1);
    }
  }

  /** Quiet hours from 08:00 to 08:00: what is enqueued at 08:00 sharp is due at 08:00, a day early. */
  lemma EqualEndsExample()
    ensures var eight := 8 * 3600 * SECOND;
            var c := Config(Setting(true, Some(eight), Some(eight), 0), Setting(false, None, None, 0), false);
            var call := Call(eight, eight, eight, eight, eight, eight, true, false, 0, 0);
            && c.Valid() && SendOrQueue(c, call) == Enqueue(eight)
            && SummaryPeriod(c.Deciding().AsWindow(), eight).end == eight + DAY
  {
  }

  /** With the per-alert override off or complete, what is quiet lies in the period it is summarised
      under, whose end is the delivery time when start and end differ. */
  lemma SummarisedInItsPeriod(c: Config, t: int)
    requires c.Valid() && QuietAt(c, t) && (c.own.enabled ==> c.own.Complete())
    ensures var p := SummaryPeriod(c.Summarising().AsWindow(), t);
            && p.start <= t < p.end
            && (c.Deciding().start != c.Deciding().end ==> EffectiveQuietHours(c, t, t).1 == p.end)
  {
    var w := c.Summarising().AsWindow();
    QuietIffInPeriod(w, t);
    NextEndIsPeriodEnd(w, t);
    QuietEndsOnlyIfSame(w, t);
  }

  /** Window a covers window b: b starts within a and ends no later. */
  predicate Covers(a: Window, b: Window) {
    Length(a) == DAY || Lag(a, b) + Length(b) <= Length(a)
  }

  /** How long after a's start b's start comes. */
  function Lag(a: Window, b: Window): (n: int)
    ensures 0 <= n < DAY
  {
    ((b.start - b.offset) - (a.start - a.offset)) % DAY
  }

  lemma SinceShifted(a: Window, b: Window, t: int)
    ensures Since(a, t) == (Since(b, t) + Lag(a, b)) % DAY
  {
  }

  lemma CoveredIsQuiet(a: Window, b: Window, t: int)
    requires a.Valid() && b.Valid() && Covers(a, b) && IsQuiet(b, t)
    ensures IsQuiet(a, t)
  {
    QuietIffRecent(a, t);
    QuietIffRecent(b, t);
    SinceShifted(a, b, t);
    StaysWithin(Since(b, t), Lag(a, b), Length(a));
  }

  lemma StaysWithin(since: int, lag: int, length: int)
    requires 0 <= since && 0 <= lag && 0 < length <= DAY && (length == DAY || since + lag < length)
    ensures (since + lag) % DAY < length
  {
  }

  lemma UncoveredIsNotQuiet(a: Window, b: Window) returns (t: int)
    requires a.Valid() && b.Valid() && !Covers(a, b)
    ensures IsQuiet(b, t) && !IsQuiet(a, t)
  {
    var k := if Lag(a, b) >= Length(a) then 0 else Length(a) - Lag(a, b);
    t := b.start - b.offset + k;
    assert Since(b, t) == k;
    QuietIffRecent(a, t);
    QuietIffRecent(b, t);
    SinceShifted(a, b, t);
  }

  /** One window covers another exactly when every quiet instant of the other is quiet in it. */
  lemma CoversIff(a: Window, b: Window)
    requires a.Valid() && b.Valid()
    ensures Covers(a, b) <==> forall t :: IsQuiet(b, t) ==> IsQuiet(a, t)
  {
    if Covers(a, b) {
      forall t | IsQuiet(b, t) ensures IsQuiet(a, t) { CoveredIsQuiet(a, b, t); }
    } else {
      var t := UncoveredIsNotQuiet(a, b);
    }
  }

  /** An override that is enabled but incomplete is ignored by the quiet check and still used for the
      summary period. Everything quiet lies in the period it is summarised under if and only if the
      summarising window covers the deciding one. */
  lemma SummarisedInItsPeriodIff(c: Config)
    requires c.Valid() && !c.bypass && c.Deciding().Complete()
    ensures (forall t :: QuietAt(c, t) ==> IsQuiet(c.Summarising().AsWindow(), t)) <==>
            Covers(c.Summarising().AsWindow(), c.Deciding().AsWindow())
    ensures forall t :: IsQuiet(c.Summarising().AsWindow(), t) <==>
              var p := SummaryPeriod(c.Summarising().AsWindow(), t); p.start <= t < p.end
  {
    CoversIff(c.Summarising().AsWindow(), c.Deciding().AsWindow());
    forall t
      ensures QuietAt(c, t) <==> IsQuiet(c.Deciding().AsWindow(), t)
      ensures IsQuiet(c.Summarising().AsWindow(), t) <==>
                var p := SummaryPeriod(c.Summarising().AsWindow(), t); p.start <= t < p.end
    {
      QuietIffInPeriod(c.Summarising().AsWindow(), t);
    }
  }

  /** A hit of a log, metric or event alert: checked first, then stamped, and aggregated under the
      period of its stamp. */
  datatype Hit = Hit(n1: int, n2: int, stamp: int, queue: bool, grouping: bool)

  function AggregateHit(c: Config, hit: Hit): Option<Period>
    requires c.Valid()
  {
    if ShouldAggregateQuiet(c, hit.n1, hit.n2, hit.queue, hit.grouping)
    then Some(SummaryPeriod(c.Summarising().AsWindow(), hit.stamp))
    else None
  }

  /** A hit is aggregated exactly if there is a queue, it is quiet and the queue says so. */
  lemma AggregatedIff(c: Config, hit: Hit)
    requires c.Valid()
    ensures AggregateHit(c, hit).Some? <==> hit.queue && QuietNow(c, hit.n1) && hit.grouping
    ensures AggregateHit(c, hit).Some? ==> PeriodOf(c, hit.stamp, AggregateHit(c, hit).value)
  {
    QuietNowIff(c, hit.n1);
    PeriodIsOf(c, hit.stamp);
  }

  predicate Holds(p: Period, t: int) { p.start <= t < p.end }

  /** No quiet period ends between the two instants, whichever comes first. */
  ghost predicate NoEndBetween(w: Window, a: int, b: int) { if a <= b then NoEndIn(w, a, b) else NoEndIn(w, b, a) }

  /** The period of a stamp holds another instant if and only if no period ends between the two and the
      window is quiet at that instant. */
  lemma StampedPeriodIff(w: Window, n: int, stamp: int)
    requires w.Valid()
    ensures Holds(SummaryPeriod(w, stamp), n) <==> NoEndBetween(w, n, stamp) && IsQuiet(w, n)
  {
    PeriodIsNext(w, stamp);
    PeriodIsNext(w, n);
    QuietIffInPeriod(w, n);
    if n <= stamp {
      SharePeriodIff(w, n, stamp);
      if !NoEndIn(w, n, stamp) {
        EndMissesStart(w, n, stamp);
      }
    } else {
      SharePeriodIff(w, stamp, n);
      if !NoEndIn(w, stamp, n) {
        var e :| stamp < e <= n && Ends(w, e);
        assert SummaryPeriod(w, stamp).end <= e;
      }
    }
  }

  /** An instant before an end instant is before the start of any later period. */
  lemma EndMissesStart(w: Window, n: int, stamp: int)
    requires w.Valid() && n <= stamp && !NoEndIn(w, n, stamp)
    ensures SummaryPeriod(w, stamp).start > n
  {
    var e :| n < e <= stamp && Ends(w, e);
    PeriodIsNext(w, stamp);
    var p := SummaryPeriod(w, stamp);
    if p.end - e < DAY {
      EndsADayApart(w, e, p.end);
    }
  }

  /** What `sendOrQueue` aggregates goes under a period that holds the instant it was found quiet, if
      and only if no period ended since its timestamp and the summarising window is quiet. */
  lemma AggregatedInPeriodIff(c: Config, call: Call)
    requires c.Valid() && SendOrQueue(c, call).Aggregate?
    ensures var w := c.Summarising().AsWindow();
            Holds(SendOrQueue(c, call).period, call.n1) <==> NoEndBetween(w, call.n1, call.stamp) && IsQuiet(w, call.n1)
  {
    StampedPeriodIff(c.Summarising().AsWindow(), call.n1, call.stamp);
  }

  /** The same of a hit, which is stamped after it was found quiet. */
  lemma HitInPeriodIff(c: Config, hit: Hit)
    requires c.Valid() && AggregateHit(c, hit).Some?
    ensures var w := c.Summarising().AsWindow();
            Holds(AggregateHit(c, hit).value, hit.n1) <==> NoEndBetween(w, hit.n1, hit.stamp) && IsQuiet(w, hit.n1)
  {
    StampedPeriodIff(c.Summarising().AsWindow(), hit.n1, hit.stamp);
  }

  /** If no quiet period ends between stamp and check, the two are in one period. */
  ghost predicate CallInPeriod(c: Config, call: Call)
    requires c.Valid()
  {
    var action := SendOrQueue(c, call);
    action.Aggregate? && NoEndBetween(c.Summarising().AsWindow(), call.n1, call.stamp) ==> Holds(action.period, call.n1)
  }

  ghost predicate HitInPeriod(c: Config, hit: Hit)
    requires c.Valid()
  {
    var period := AggregateHit(c, hit);
    period.Some? && NoEndBetween(c.Summarising().AsWindow(), hit.n1, hit.stamp) ==> Holds(period.value, hit.n1)
  }

  /** Whatever is aggregated, at any of the places that do so, with no period ending between stamp and
      check, goes under a period that holds it: over all calls, if and only if the summarising window
      covers the deciding one; and over all hits likewise. */
  lemma AggregatesInPeriodIff(c: Config)
    requires c.Valid() && !c.bypass && c.Deciding().Complete()
    ensures (forall call :: CallInPeriod(c, call)) <==> Covers(c.Summarising().AsWindow(), c.Deciding().AsWindow())
    ensures (forall hit :: HitInPeriod(c, hit)) <==> Covers(c.Summarising().AsWindow(), c.Deciding().AsWindow())
  {
    var a, b := c.Summarising().AsWindow(), c.Deciding().AsWindow();
    if Covers(a, b) {
      forall call ensures CallInPeriod(c, call) {
        if SendOrQueue(c, call).Aggregate? {
          CoveredIsQuiet(a, b, call.n1);
          AggregatedInPeriodIff(c, call);
        }
      }
      forall hit ensures HitInPeriod(c, hit) {
        if AggregateHit(c, hit).Some? {
          CoveredIsQuiet(a, b, hit.n1);
          HitInPeriodIff(c, hit);
        }
      }
    } else {
      var t := UncoveredIsNotQuiet(a, b);
      QuietIffInPeriod(a, t);
      assert !CallInPeriod(c, Call(t, t, t, t, t, t, true, true, 0, 0));
      assert !HitInPeriod(c, Hit(t, t, t, true, true));
    }
  }

  /** Quiet hours 22:00-06:00 and no override: a hit checked just before 06:00 and stamped at 06:00 goes
      under the period that starts at 22:00. */
  lemma LateStampExample()
    ensures var hour := 3600 * SECOND;
            var c := Config(Setting(true, Some(22 * hour), Some(6 * hour), 0), Setting(false, None, None, 0), false);
            var hit := Hit(6 * hour - 1, 6 * hour - 1, 6 * hour, true, true);
            && c.Valid() && Covers(c.Summarising().AsWindow(), c.Deciding().AsWindow())
            && AggregateHit(c, hit) == Some(Period(22 * hour, 30 * hour))
  {
  }

  /** Quiet hours 22:00-06:00 for everyone and an override 09:00 with its end left out: an alert at
      23:00 is summarised under 09:00-24:00, one at 01:00 under a period that has not started. */
  lemma IncompleteOverrideExample()
    ensures var hour := 3600 * SECOND;
            var everyone, own := Setting(true, Some(22 * hour), Some(6 * hour), 0),
                                 Setting(true, Some(9 * hour), None, 0);
            var c := Config(everyone, own, false);
            && c.Valid() && QuietAt(c, 23 * hour) && QuietAt(c, hour)
            && SummaryPeriod(c.Summarising().AsWindow(), 23 * hour) == Period(9 * hour, 24 * hour)
            && SummaryPeriod(c.Summarising().AsWindow(), hour).start > hour
  {
  }
}
