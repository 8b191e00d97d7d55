/** Suppression by unique key (internal/notification/modifiers.go): within a window that opens at
    its first hit, a key is delivered once, on its threshold-th hit. Times are nanoseconds. */
module UniqueWindows {
  import opened Basics

  /** Where the states are kept: SQLite keeps the start of a window in whole seconds. */
  datatype Store = Memory | SQLite

  datatype Rule = Rule(window: int, threshold: int, store: Store) {
    predicate Valid() { window >= SECOND }

    function Threshold(): (n: nat)
      ensures n >= 1 && (threshold >= 1 ==> n == threshold) && (threshold < 1 ==> n == 1)
    {
      if threshold <= 1 then 1 else threshold
    }

    function Kept(time: int): (t: int)
      ensures store.Memory? ==> t == time
      ensures store.SQLite? ==> t % 1_000_000_000 == 0 && time - 1_000_000_000 < t <= time
    {
      if store.Memory? then time else time / SECOND * SECOND
    }
  }

  /** start is None for Go's zero time. */
  datatype UniqueState = UniqueState(count: nat, start: Option<int>, sent: bool)

  datatype Decision = Decision(allowed: bool, thresholdReached: bool, state: UniqueState)

  /** now: the time of the hit. created: the clock read when a missing state is created, which
      in memory is `now` itself and in SQLite a little later. */
  datatype Hit = Hit(key: string, now: int, created: int)

  function Advance(rule: Rule, s: UniqueState, now: int): Decision {
    var reset := s.start.None? || now > s.start.value + rule.window;
    var count := if reset then 1 else s.count + 1;
    var sent := !reset && s.sent;
    var allowed := !sent && count >= rule.Threshold();
    Decision(allowed, allowed && rule.Threshold() > 1,
      UniqueState(count, if reset then Some(now) else s.start, sent || allowed))
  }

  // ---- The reference: windows as runs of hits ----

  /** Clock reads do not go back from one hit to the next. */
  predicate Timely(hs: seq<Hit>, i: nat)
    requires i < |hs|
  {
    hs[i].now <= hs[i].created && (i > 0 ==> hs[i - 1].created <= hs[i].now)
  }

  predicate InOrder(hs: seq<Hit>) { forall i :: 0 <= i < |hs| ==> Timely(hs, i) }

  /** The kept start of the window that hit l opens. */
  function Start(rule: Rule, hs: seq<Hit>, l: nat): int
    requires l < |hs|
  {
    rule.Kept(if l == 0 then hs[0].created else hs[l].now)
  }

  /** The hit that opened the window of hit i. */
  function Opener(rule: Rule, hs: seq<Hit>, i: nat): (l: nat)
    requires rule.Valid() && i < |hs|
    ensures l <= i
  {
    if i == 0 then 0
    else
      var l := Opener(rule, hs, i - 1);
      if hs[i].now > Start(rule, hs, l) + rule.window then i else l
  }

  predicate Opens(rule: Rule, hs: seq<Hit>, i: nat)
    requires rule.Valid() && i < |hs|
  {
    Opener(rule, hs, i) == i
  }

  /** Hit i is the threshold-th of its window. */
  predicate Delivers(rule: Rule, hs: seq<Hit>, i: nat)
    requires rule.Valid() && i < |hs|
  {
    i - Opener(rule, hs, i) + 1 == if rule.threshold <= 1 then 1 else rule.threshold
  }

  // ---- The state machine follows the reference ----

  /** What is kept for a key after these hits. */
  function Expected(rule: Rule, hs: seq<Hit>): Option<UniqueState>
    requires rule.Valid()
  {
    if hs == [] then None
    else
      var l := Opener(rule, hs, |hs| - 1);
      Some(UniqueState(|hs| - l, Some(Start(rule, hs, l)), |hs| - l >= rule.Threshold()))
  }

  function Load(rule: Rule, kept: Option<UniqueState>, hit: Hit): UniqueState
    requires rule.Valid()
  {
    if kept.Some? then kept.value else UniqueState(0, Some(rule.Kept(hit.created)), false)
  }

  function Keep(rule: Rule, s: UniqueState): UniqueState
    requires rule.Valid() && s.start.Some?
  {
    s.(start := Some(rule.Kept(s.start.value)))
  }

  lemma {:induction false} OpenerOfPrefix(rule: Rule, hs: seq<Hit>, hit: Hit, i: nat)
    requires rule.Valid() && i < |hs|
    ensures Opener(rule, hs + [hit], i) == Opener(rule, hs, i)
  {
    if i > 0 {
      OpenerOfPrefix(rule, hs, hit, i - 1);
    }
  }

  lemma NextOpener(rule: Rule, hs: seq<Hit>, hit: Hit)
    requires rule.Valid() && hs != []
    ensures var l := Opener(rule, hs, |hs| - 1);
            Opener(rule, hs + [hit], |hs|) == if hit.now > Start(rule, hs, l) + rule.window then |hs| else l
  {
    OpenerOfPrefix(rule, hs, hit, |hs| - 1);
  }

  /** Evaluating a hit delivers exactly if it is the threshold-th of its window, and leaves behind
      exactly what the hits so far call for. */
  ghost predicate Follows(rule: Rule, hs: seq<Hit>, hit: Hit)
    requires rule.Valid()
  {
    var d := Advance(rule, Load(rule, Expected(rule, hs), hit), hit.now);
    && d.allowed == Delivers(rule, hs + [hit], |hs|)
    && d.state.start.Some?
    && Some(Keep(rule, d.state)) == Expected(rule, hs + [hit])
    && (d.thresholdReached <==> d.allowed && rule.threshold > 1)
  }

  lemma FirstFollows(rule: Rule, hit: Hit)
    requires rule.Valid() && hit.now <= hit.created
    ensures Follows(rule, [], hit)
  {
    assert [] + [hit] == [hit];
  }

  lemma NextFollows(rule: Rule, hs: seq<Hit>, hit: Hit)
    requires rule.Valid() && hs != []
    ensures Follows(rule, hs, hit)
  {
    NextOpener(rule, hs, hit);
  }

  lemma AdvanceFollowsWindows(rule: Rule, hs: seq<Hit>, hit: Hit)
    requires rule.Valid() && InOrder(hs + [hit])
    ensures Follows(rule, hs, hit)
  {
    assert Timely(hs + [hit], |hs|);
    if hs == [] {
      FirstFollows(rule, hit);
    } else {
      NextFollows(rule, hs, hit);
    }
  }

  // ---- What the windows promise ----

  /** Every hit from the opener of hit i up to i is in the same window. */
  lemma {:induction false} OpenerOpens(rule: Rule, hs: seq<Hit>, i: nat, k: nat)
    requires rule.Valid() && i < |hs| && Opener(rule, hs, i) <= k <= i
    ensures Opener(rule, hs, k) == Opener(rule, hs, i)
  {
    if k < i {
      OpenerOpens(rule, hs, i - 1, k);
    }
  }

  lemma {:induction false} OpenerMonotone(rule: Rule, hs: seq<Hit>, i: nat, j: nat)
    requires rule.Valid() && i <= j < |hs|
    ensures Opener(rule, hs, j) == Opener(rule, hs, i) || Opener(rule, hs, j) > i
  {
    if i < j {
      OpenerMonotone(rule, hs, i, j - 1);
    }
  }

  /** A hit belongs to the window of an earlier opener exactly when it is not later than the end
      of that window: nothing in between can close it. */
  lemma {:induction false} InWindowIff(rule: Rule, hs: seq<Hit>, l: nat, j: nat)
    requires rule.Valid() && InOrder(hs) && l <= j < |hs| && Opens(rule, hs, l)
    ensures Opener(rule, hs, j) == l <==> hs[j].now <= Start(rule, hs, l) + rule.window
  {
    assert Timely(hs, j);
    if l < j {
      assert Timely(hs, j - 1);
      InWindowIff(rule, hs, l, j - 1);
      OpenerMonotone(rule, hs, l, j - 1);
      OpenerMonotone(rule, hs, l, j);
    }
  }

  /** Window starts are more than the window apart, up to the precision they are kept with; in
      memory, more than the full window. */
  lemma WindowsApart(rule: Rule, hs: seq<Hit>, i: nat, j: nat)
    requires rule.Valid() && InOrder(hs) && i < j < |hs| && Opens(rule, hs, i) && Opens(rule, hs, j)
    ensures hs[j].now > Start(rule, hs, i) + rule.window
    ensures hs[j].now - hs[i].now > rule.window - 1_000_000_000
    ensures rule.store.Memory? ==> hs[j].now - hs[i].now > rule.window
  {
    InWindowIff(rule, hs, i, j);
    assert Timely(hs, i);
  }

  lemma {:induction false} LaterHit(hs: seq<Hit>, i: nat, j: nat)
    requires InOrder(hs) && i <= j < |hs|
    ensures hs[i].now <= hs[j].now
  {
    if i < j {
      LaterHit(hs, i, j - 1);
      assert Timely(hs, j) && Timely(hs, j - 1);
    }
  }

  /** Two deliveries are in different windows, the later one opened after the earlier delivery. */
  lemma DeliversOncePerWindow(rule: Rule, hs: seq<Hit>, i: nat, j: nat)
    requires rule.Valid() && InOrder(hs) && i < j < |hs| && Delivers(rule, hs, i) && Delivers(rule, hs, j)
    ensures Opener(rule, hs, i) <= i < Opener(rule, hs, j)
    ensures hs[j].now - hs[Opener(rule, hs, i)].now > rule.window - 1_000_000_000
  {
    OpenerMonotone(rule, hs, i, j);
    var l, m := Opener(rule, hs, i), Opener(rule, hs, j);
    OpenerOpens(rule, hs, i, l);
    OpenerOpens(rule, hs, j, m);
    WindowsApart(rule, hs, l, m);
    LaterHit(hs, m, j);
  }

  /** A window delivers if and only if its threshold-th hit comes in time. */
  lemma WindowDeliversIff(rule: Rule, hs: seq<Hit>, l: nat)
    requires rule.Valid() && InOrder(hs) && l < |hs| && Opens(rule, hs, l)
    ensures var k := if rule.threshold <= 1 then l else l + rule.threshold - 1;
            (exists i :: l <= i < |hs| && Opener(rule, hs, i) == l && Delivers(rule, hs, i)) <==>
            k < |hs| && hs[k].now <= Start(rule, hs, l) + rule.window
  {
    var k := l + rule.Threshold() - 1;
    if k < |hs| {
      InWindowIff(rule, hs, l, k);
    }
  }

  /** This hit comes next and opens a new window, although the one that opened the current window is
      no further back than the window lasts. */
  ghost predicate ReopensEarly(rule: Rule, hs: seq<Hit>, hit: Hit)
    requires rule.Valid() && hs != []
  {
    && InOrder(hs + [hit]) && Opens(rule, hs + [hit], |hs|)
    && hit.now <= hs[Opener(rule, hs, |hs| - 1)].now + rule.window
  }

  lemma InOrderNext(hs: seq<Hit>, hit: Hit)
    requires InOrder(hs) && hs != [] && hs[|hs| - 1].created <= hit.now <= hit.created
    ensures InOrder(hs + [hit])
  {
    var all := hs + [hit];
    forall i | 0 <= i < |all| ensures Timely(all, i) {
      assert i < |hs| ==> Timely(hs, i);
    }
  }

  /** After any history, a hit can open a new window too early if and only if the kept start of the
      current window lies before the hit that opened it, and there is still time for such a hit. */
  lemma RoundingReopensIff(rule: Rule, hs: seq<Hit>)
    requires rule.Valid() && InOrder(hs) && hs != []
    ensures var l := Opener(rule, hs, |hs| - 1);
            (exists hit :: ReopensEarly(rule, hs, hit)) <==>
            Start(rule, hs, l) < hs[l].now && hs[|hs| - 1].created <= hs[l].now + rule.window
  {
    var l := Opener(rule, hs, |hs| - 1);
    var end := hs[l].now + rule.window;
    forall hit | ReopensEarly(rule, hs, hit)
      ensures Start(rule, hs, l) < hs[l].now && hs[|hs| - 1].created <= end
    {
      NextOpener(rule, hs, hit);
      assert Timely(hs + [hit], |hs|);
    }
    if Start(rule, hs, l) < hs[l].now && hs[|hs| - 1].created <= end {
      var hit := Hit("", end, end);
      InOrderNext(hs, hit);
      NextOpener(rule, hs, hit);
      assert ReopensEarly(rule, hs, hit);
    }
  }

  /** Kept in memory, a window is never cut short. */
  lemma MemoryNeverReopens(rule: Rule, hs: seq<Hit>, hit: Hit)
    requires rule.Valid() && rule.store.Memory? && InOrder(hs) && hs != []
    ensures !ReopensEarly(rule, hs, hit)
  {
    RoundingReopensIff(rule, hs);
    var l := Opener(rule, hs, |hs| - 1);
    assert Timely(hs, l);
  }

  /** A window of one minute opened at 0.9 s is over after 60 s: a hit at 60.5 s opens the next. */
  lemma RoundingReopensExample()
    ensures var hs, hit := [Hit("k", 900_000_000, 900_000_000)], Hit("k", 60_500_000_000, 60_500_000_000);
            ReopensEarly(Rule(60 * SECOND, 1, SQLite), hs, hit)
  {
    var hs, hit := [Hit("k", 900_000_000, 900_000_000)], Hit("k", 60_500_000_000, 60_500_000_000);
    InOrderNext(hs, hit);
    NextOpener(Rule(60 * SECOND, 1, SQLite), hs, hit);
  }
}

/** The tracker of one subscription: states of all keys, updated in place. */
module UniqueTracking {
  import opened Basics
  import opened UniqueWindows

  /** The hits of one key. */
  ghost function Of(hs: seq<Hit>, key: string): (r: seq<Hit>)
    ensures forall h :: h in r ==> h in hs && h.key == key
  {
    if hs == [] then []
    else if hs[|hs| - 1].key == key then Of(hs[..|hs| - 1], key) + [hs[|hs| - 1]]
    else Of(hs[..|hs| - 1], key)
  }

  lemma InOrderInit(hs: seq<Hit>)
    requires InOrder(hs) && hs != []
    ensures InOrder(hs[..|hs| - 1])
  {
    var init := hs[..|hs| - 1];
    forall i | 0 <= i < |init| ensures Timely(init, i) {
      assert Timely(hs, i);
    }
  }

  /** The latest hit of a key is no later than the latest hit of all, which the next hit follows. */
  lemma {:induction false} OfBefore(hs: seq<Hit>, key: string)
    requires InOrder(hs) && Of(hs, key) != []
    ensures var r := Of(hs, key); r[|r| - 1].created <= hs[|hs| - 1].created
  {
    assert Timely(hs, |hs| - 1);
    if hs[|hs| - 1].key != key {
      InOrderInit(hs);
      OfBefore(hs[..|hs| - 1], key);
    }
  }

  lemma {:induction false} OfInOrder(hs: seq<Hit>, key: string)
    requires InOrder(hs)
    ensures InOrder(Of(hs, key))
  {
    if hs != [] {
      var init, last := hs[..|hs| - 1], hs[|hs| - 1];
      InOrderInit(hs);
      OfInOrder(init, key);
      if last.key == key {
        assert Timely(hs, |hs| - 1);
        var before := Of(init, key);
        if before != [] {
          OfBefore(init, key);
        }
        forall i | 0 <= i <= |before| ensures Timely(before + [last], i) {
          assert i < |before| ==> Timely(before, i);
        }
      }
    }
  }

  lemma OfNext(hs: seq<Hit>, hit: Hit)
    requires InOrder(hs + [hit])
    ensures Of(hs + [hit], hit.key) == Of(hs, hit.key) + [hit] && InOrder(Of(hs, hit.key) + [hit])
  {
    assert (hs + [hit])[..|hs|] == hs;
    OfInOrder(hs + [hit], hit.key);
  }

  /** The latest of these hits is the threshold-th of its window. */
  ghost predicate DeliversLast(rule: Rule, hs: seq<Hit>)
    requires rule.Valid()
  {
    hs != [] && Delivers(rule, hs, |hs| - 1)
  }

  lemma DecidesRight(rule: Rule, hs: seq<Hit>, hit: Hit)
    requires rule.Valid() && InOrder(hs + [hit])
    ensures var mine := Of(hs, hit.key);
            var d := Advance(rule, Load(rule, Expected(rule, mine), hit), hit.now);
            && d.allowed == DeliversLast(rule, Of(hs + [hit], hit.key))
            && d.state.start.Some?
            && Some(Keep(rule, d.state)) == Expected(rule, Of(hs + [hit], hit.key))
            && (d.thresholdReached <==> d.allowed && rule.threshold > 1)
  {
    OfNext(hs, hit);
    AdvanceFollowsWindows(rule, Of(hs, hit.key), hit);
  }

  class UniqueTracker {
    const rule: Rule
    var states: map<string, UniqueState>
    ghost var history: seq<Hit>

    ghost predicate Right(key: string)
      requires rule.Valid()
      reads this
    {
      Expected(rule, Of(history, key)) == if key in states then Some(states[key]) else None
    }

    ghost predicate Valid()
      reads this
    {
      rule.Valid() && InOrder(history) && forall key :: Right(key)
    }

    constructor (rule: Rule)
      requires rule.Valid()
      ensures Valid() && this.rule == rule && history == []
    {
      this.rule := rule;
      states := map[];
      history := [];
    }

    /** Whatever hits of other keys come in between, a hit is let through exactly when it is the
        threshold-th of its key's window. */
    method Evaluate(hit: Hit) returns (decision: Decision)
      requires Valid() && InOrder(history + [hit])
      modifies this
      ensures Valid() && history == old(history) + [hit]
      ensures decision.allowed <==> DeliversLast(rule, Of(history, hit.key))
      ensures decision.thresholdReached <==> decision.allowed && rule.threshold > 1
    {
      DecidesRight(rule, history, hit);
      var state := Lookup(hit);
      decision := Advance(rule, state, hit.now);
      Store(hit, Keep(rule, decision.state));
    }

    method Lookup(hit: Hit) returns (state: UniqueState)
      requires Valid()
      ensures state == Load(rule, Expected(rule, Of(history, hit.key)), hit)
    {
      assert Right(hit.key);
      if hit.key in states {
        return states[hit.key];
      }
      state := UniqueState(0, Some(rule.Kept(hit.created)), false);
    }

    method Store(hit: Hit, state: UniqueState)
      requires Valid() && InOrder(history + [hit])
      requires Some(state) == Expected(rule, Of(history + [hit], hit.key))
      modifies this
      ensures Valid() && history == old(history) + [hit]
    {
      states := states[hit.key := state];
      history := history + [hit];
      forall key ensures Right(key) {
        assert old(Right(key));
        assert history[..|history| - 1] == old(history);
      }
    }
  }
}
