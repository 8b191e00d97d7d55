/** Cooldown keys as stored in SQLite: "<subscription>:<container>:<kind>"
    (internal/notification/processing.go, internal/notification/manager.go). */
module CooldownKeys {
  import opened Basics
  import opened KeyText

  datatype Kind = Log | Metric | Event

  function Name(k: Kind): string {
    match k case Log => "log" case Metric => "metric" case Event => "event"
  }

  function KindOf(s: string): Option<Kind> {
    if s == "log" then Some(Log) else if s == "metric" then Some(Metric) else if s == "event" then Some(Event) else None
  }

  datatype Key = Key(sub: int, container: string, kind: Kind)

  function Print(k: Key): string { Decimal(k.sub) + (":" + (k.container + (":" + Name(k.kind)))) }

  /** How `RestorePersistentState` takes a key apart: at its first and at its last colon. */
  function Parse(s: string): Option<Key> {
    var i := FirstColon(s, 0);
    if i == |s| then None
    else
      var rest := s[i + 1..];
      var j := PastLastColon(rest, |rest|);
      if j == 0 then None
      else match (Atoi(s[..i]), KindOf(rest[j..]))
        case (Some(sub), Some(kind)) => Some(Key(sub, rest[..j - 1], kind))
        case _ => None
  }

  lemma PartsParse(a: string, container: string, name: string, sub: int, kind: Kind)
    requires ':' !in a && ':' !in name && Atoi(a) == Some(sub) && KindOf(name) == Some(kind)
    ensures Parse(a + (":" + (container + (":" + name)))) == Some(Key(sub, container, kind))
  {
    SplitFirst(a, container + (":" + name));
    SplitLast(container, name);
  }

  /** A stored key parses back to itself, even when the container id contains colons. */
  lemma KeyRoundTrip(k: Key)
    ensures Parse(Print(k)) == Some(k)
  {
    DecimalRoundTrip(k.sub);
    PartsParse(Decimal(k.sub), k.container, Name(k.kind), k.sub, k.kind);
  }

  /** The keys as they are stored. */
  lemma KeyReads(sub: int, container: string)
    ensures Print(Key(sub, container, Log)) == Decimal(sub) + (":" + (container + ":log"))
    ensures Print(Key(sub, container, Metric)) == Decimal(sub) + (":" + (container + ":metric"))
    ensures Print(Key(sub, container, Event)) == Decimal(sub) + (":" + (container + ":event"))
  {
    assert ":" + "log" == ":log" && ":" + "metric" == ":metric" && ":" + "event" == ":event";
  }

  /** A way of writing keys; all that matters about it is that it can be read back. */
  datatype Format = Format(write: Key -> string, read: string -> Option<Key>) {
    ghost predicate ReadsBack(k: Key) { read(write(k)) == Some(k) }

    ghost predicate Faithful() { forall k :: ReadsBack(k) }
  }

  const COLONS := Format(Print, Parse)

  lemma ColonsAreFaithful()
    ensures COLONS.Faithful()
  {
    forall k ensures COLONS.ReadsBack(k) { KeyRoundTrip(k); }
  }
}

/** Cooldowns over runs of alerts, process restarts and clean-ups (internal/notification/types.go,
    processing.go, manager.go, queue/queue.go). Times are nanoseconds; the store keeps seconds. */
module CooldownRuns {
  import opened Basics
  import opened CooldownKeys

  const MAX_COOLDOWN_SECONDS := 172_800

  function ClampSeconds(seconds: int): (r: int)
    ensures seconds <= 0 ==> r == 0
    ensures 0 < seconds <= 172_800 ==> r == seconds
    ensures seconds > 172_800 ==> r == 172_800
  {
    if seconds <= 0 then 0 else if seconds > MAX_COOLDOWN_SECONDS then MAX_COOLDOWN_SECONDS else seconds
  }

  /** One subscription; its settings do not change. */
  datatype Subscription = Subscription(id: int, cooldown: int, format: Format) {
    function Length(): (n: int)
      ensures n == 1_000_000_000 * ClampSeconds(cooldown)
    {
      ClampSeconds(cooldown) * SECOND
    }

    function KeyOf(t: Target): Key { Key(id, t.container, t.kind) }

    function KeyFor(t: Target): string { format.write(KeyOf(t)) }
  }

  datatype Target = Target(kind: Kind, container: string)

  /** When the last alert was recorded in memory, the clock read for its expiry, and whether storing
      that succeeded. */
  datatype Alert = Alert(sent: int, expiry: int, stored: bool)

  /** mem: the cooldown maps. rows: the cooldown_state table, expiry in seconds. last: history. */
  datatype State = State(mem: map<Target, int>, rows: map<string, int>, last: map<Target, Alert>, clock: int)

  /** Hit: a matching event that is not aggregated; the clock is read when checking, when setting
      and when storing, which may fail. Restart: the process restarts and restores. CleanUp: expired rows go. */
  datatype Step =
    | Hit(target: Target, check: int, sent: int, expiry: int, stored: bool)
    | Restart(now: int)
    | CleanUp(now: int)

  predicate Timely(s: State, step: Step) {
    match step
    case Hit(_, check, sent, expiry, _) => s.clock <= check <= sent <= expiry
    case Restart(now) => s.clock <= now
    case CleanUp(now) => s.clock <= now
  }

  /** The cooldown of a kind is consulted: log alerts ask for a positive one, the others for one
      that is not zero. */
  predicate Consulted(sub: Subscription, kind: Kind) { if kind.Log? then sub.cooldown > 0 else sub.cooldown != 0 }

  /** An alert is recorded in memory: metric alerts always are. */
  predicate Recorded(sub: Subscription, kind: Kind) { sub.cooldown > 0 || kind.Metric? }

  predicate Active(sub: Subscription, mem: map<Target, int>, t: Target, now: int) {
    Consulted(sub, t.kind) && t in mem && now < mem[t] + sub.Length()
  }

  predicate Sends(sub: Subscription, s: State, step: Step) {
    step.Hit? && !Active(sub, s.mem, step.target, step.check)
  }

  /** The targets of this subscription whose stored cooldown had not expired. */
  function Restored(sub: Subscription, rows: map<string, int>, now: int): map<Target, int> {
    map t | t in RowTargets(sub, rows) && sub.KeyFor(t) in rows && rows[sub.KeyFor(t)] > now / SECOND ::
      Since(sub, rows[sub.KeyFor(t)])
  }

  function RowTargets(sub: Subscription, rows: map<string, int>): set<Target> {
    set key | key in rows && sub.format.read(key).Some? && sub.format.read(key).value.sub == sub.id ::
      Target(sub.format.read(key).value.kind, sub.format.read(key).value.container)
  }

  function ExpirySecond(sub: Subscription, a: Alert): int { (a.expiry + sub.Length()) / SECOND }

  function Apply(sub: Subscription, s: State, step: Step): State {
    match step
    case Hit(t, check, sent, expiry, stored) =>
      if !Sends(sub, s, step) then s.(clock := expiry)
      else
        var a := Alert(sent, expiry, stored);
        State(if Recorded(sub, t.kind) then s.mem[t := sent] else s.mem,
              if sub.cooldown > 0 && stored then s.rows[sub.KeyFor(t) := ExpirySecond(sub, a)] else s.rows,
              s.last[t := a], expiry)
    case Restart(now) => s.(mem := Restored(sub, s.rows, now), clock := now)
    case CleanUp(now) => s.(rows := map k | k in s.rows && s.rows[k] > now / SECOND :: s.rows[k], clock := now)
  }

  ghost predicate IsRun(sub: Subscription, s: State, steps: seq<Step>)
    decreases |steps|
  {
    steps == [] || (Timely(s, steps[0]) && IsRun(sub, Apply(sub, s, steps[0]), steps[1..]))
  }

  ghost function After(sub: Subscription, s: State, steps: seq<Step>): State
    requires IsRun(sub, s, steps)
    decreases |steps|
  {
    if steps == [] then s else After(sub, Apply(sub, s, steps[0]), steps[1..])
  }

  // ---- What every step keeps ----

  /** If the last alert of t was stored, its memory is either exact, or restored from the stored second,
      or gone because that second has passed; the row is there until that second has passed. */
  ghost predicate Remembers(sub: Subscription, s: State, t: Target) {
    t in s.last ==>
      var a, until := s.last[t], ExpirySecond(sub, s.last[t]);
      && a.sent <= a.expiry <= s.clock
      && (a.stored ==>
            && (if t in s.mem then s.mem[t] == a.sent || s.mem[t] == until * SECOND - sub.Length()
                else s.clock >= until * SECOND)
            && (if sub.KeyFor(t) in s.rows then s.rows[sub.KeyFor(t)] == until else s.clock >= until * SECOND))
  }

  /** Whether it was stored or not: what is in memory is the last alert, or what the row says, or over. */
  ghost predicate Sound(sub: Subscription, s: State, t: Target) {
    t in s.last ==>
      var key := sub.KeyFor(t);
      if t in s.mem then
        || s.mem[t] == s.last[t].sent
        || if key in s.rows then s.mem[t] == Since(sub, s.rows[key]) else s.clock >= s.mem[t] + sub.Length()
      else key in s.rows ==> s.clock >= s.rows[key] * SECOND
  }

  /** The time of an alert with this expiry second. */
  function Since(sub: Subscription, expiry: int): int { expiry * SECOND - sub.Length() }

  ghost predicate Inv(sub: Subscription, s: State) { forall t :: Remembers(sub, s, t) && Sound(sub, s, t) }

  lemma KeysDiffer(sub: Subscription, t: Target, u: Target)
    requires sub.format.Faithful() && sub.KeyFor(t) == sub.KeyFor(u)
    ensures t == u
  {
    assert sub.format.ReadsBack(sub.KeyOf(t)) && sub.format.ReadsBack(sub.KeyOf(u));
  }

  lemma RowIsTarget(sub: Subscription, rows: map<string, int>, t: Target)
    requires sub.format.Faithful() && sub.KeyFor(t) in rows
    ensures t in RowTargets(sub, rows)
  {
    assert sub.format.ReadsBack(sub.KeyOf(t));
  }

  lemma StepRemembers(sub: Subscription, s: State, step: Step, t: Target)
    requires sub.cooldown > 0 && sub.format.Faithful() && Remembers(sub, s, t) && Timely(s, step)
    ensures Remembers(sub, Apply(sub, s, step), t)
  {
    match step
    case Hit(u, _, _, _, _) =>
      if u != t && sub.KeyFor(u) == sub.KeyFor(t) {
        KeysDiffer(sub, u, t);
      }
    case Restart(now) =>
      if sub.KeyFor(t) in s.rows {
        RowIsTarget(sub, s.rows, t);
      }
    case CleanUp(now) =>
  }

  lemma StepKeepsSound(sub: Subscription, s: State, step: Step, t: Target)
    requires sub.cooldown > 0 && sub.format.Faithful() && Sound(sub, s, t) && Timely(s, step)
    requires t in s.last ==> s.last[t].sent <= s.clock
    ensures Sound(sub, Apply(sub, s, step), t)
  {
    match step
    case Hit(u, _, _, _, _) =>
      if u != t && sub.KeyFor(u) == sub.KeyFor(t) {
        KeysDiffer(sub, u, t);
      }
    case Restart(now) =>
      if sub.KeyFor(t) in s.rows {
        RowIsTarget(sub, s.rows, t);
      }
    case CleanUp(now) =>
  }

  lemma StepKeepsInv(sub: Subscription, s: State, step: Step)
    requires sub.cooldown > 0 && sub.format.Faithful() && Inv(sub, s) && Timely(s, step)
    ensures Inv(sub, Apply(sub, s, step))
  {
    forall t ensures Remembers(sub, Apply(sub, s, step), t) && Sound(sub, Apply(sub, s, step), t) {
      assert Remembers(sub, s, t) && Sound(sub, s, t);
      StepRemembers(sub, s, step, t);
      StepKeepsSound(sub, s, step, t);
    }
  }

  lemma {:induction false} RunKeepsInv(sub: Subscription, s: State, steps: seq<Step>)
    requires sub.cooldown > 0 && sub.format.Faithful() && Inv(sub, s) && IsRun(sub, s, steps)
    ensures Inv(sub, After(sub, s, steps))
    decreases |steps|
  {
    if steps != [] {
      StepKeepsInv(sub, s, steps[0]);
      RunKeepsInv(sub, Apply(sub, s, steps[0]), steps[1..]);
    }
  }

  // ---- How far apart alerts are ----

  function Start(clock: int): State { State(map[], map[], map[], clock) }

  /** In any run of hits, restarts and clean-ups, an alert comes later than its predecessor of the
      same kind and container that was stored by more than the clamped cooldown less one second; by the
      full cooldown if the predecessor was sent no later than the whole second its expiry was cut to. */
  lemma AlertsKeepApart(sub: Subscription, clock: int, steps: seq<Step>, hit: Step)
    requires sub.format == COLONS && sub.cooldown > 0 && IsRun(sub, Start(clock), steps)
    requires var s := After(sub, Start(clock), steps); Timely(s, hit) && Sends(sub, s, hit) && hit.target in s.last
    ensures var a := After(sub, Start(clock), steps).last[hit.target];
            a.stored ==>
            && hit.check - a.sent > sub.Length() - SECOND
            && (a.expiry / SECOND * SECOND >= a.sent ==> hit.check - a.sent >= sub.Length())
  {
    ColonsAreFaithful();
    RunKeepsInv(sub, Start(clock), steps);
    var s := After(sub, Start(clock), steps);
    assert Remembers(sub, s, hit.target);
    var a := s.last[hit.target];
    UntilIs(sub, a);
  }

  /** The stored second is the cut expiry plus the cooldown, which is a whole number of seconds. */
  lemma UntilIs(sub: Subscription, a: Alert)
    ensures ExpirySecond(sub, a) * SECOND == a.expiry / SECOND * SECOND + sub.Length()
  {
  }

  /** Memory is exact as long as the process keeps running. */
  ghost predicate Exact(s: State) { forall t :: t in s.last ==> t in s.mem && s.mem[t] == s.last[t].sent }

  lemma {:induction false} ExactWithoutRestart(sub: Subscription, s: State, steps: seq<Step>)
    requires sub.cooldown > 0 && Exact(s) && IsRun(sub, s, steps) && (forall step :: step in steps ==> !step.Restart?)
    ensures Exact(After(sub, s, steps))
    decreases |steps|
  {
    if steps != [] {
      assert steps[0] in steps;
      ExactWithoutRestart(sub, Apply(sub, s, steps[0]), steps[1..]);
    }
  }

  /** Without a restart in between, two alerts are at least the full clamped cooldown apart. */
  lemma AlertsKeepApartInOneProcess(sub: Subscription, clock: int, steps: seq<Step>, hit: Step)
    requires sub.cooldown > 0 && IsRun(sub, Start(clock), steps)
    requires forall step :: step in steps ==> !step.Restart?
    requires var s := After(sub, Start(clock), steps); Timely(s, hit) && Sends(sub, s, hit) && hit.target in s.last
    ensures hit.check - After(sub, Start(clock), steps).last[hit.target].sent >= sub.Length()
  {
    ExactWithoutRestart(sub, Start(clock), steps);
  }

  /** Memory tells of no alert that was not sent. */
  ghost predicate NothingElse(s: State) { forall t :: t in s.mem ==> t in s.last }

  lemma {:induction false} NothingElseWithoutRestart(sub: Subscription, s: State, steps: seq<Step>)
    requires NothingElse(s) && IsRun(sub, s, steps) && (forall step :: step in steps ==> !step.Restart?)
    ensures NothingElse(After(sub, s, steps))
    decreases |steps|
  {
    if steps != [] {
      assert steps[0] in steps;
      NothingElseWithoutRestart(sub, Apply(sub, s, steps[0]), steps[1..]);
    }
  }

  /** Without a restart, a hit is sent exactly if there was no alert of its kind and container before, or
      the last one was at least the clamped cooldown ago. */
  lemma SentInOneProcessIff(sub: Subscription, clock: int, steps: seq<Step>, hit: Step)
    requires sub.cooldown > 0 && IsRun(sub, Start(clock), steps) && hit.Hit?
    requires forall step :: step in steps ==> !step.Restart?
    ensures var s := After(sub, Start(clock), steps);
            var seconds := if sub.cooldown > 172_800 then 172_800 else sub.cooldown;
            Sends(sub, s, hit) <==>
            hit.target !in s.last || hit.check - s.last[hit.target].sent >= seconds * 1_000_000_000
  {
    ExactWithoutRestart(sub, Start(clock), steps);
    NothingElseWithoutRestart(sub, Start(clock), steps);
  }

  /** Nothing in memory lies in the future. */
  ghost predicate Past(s: State) { s.rows == map[] && forall t :: t in s.mem ==> s.mem[t] <= s.clock }

  lemma {:induction false} NoCooldownKeepsPast(sub: Subscription, s: State, steps: seq<Step>)
    requires sub.cooldown <= 0 && Past(s) && IsRun(sub, s, steps)
    ensures Past(After(sub, s, steps))
    decreases |steps|
  {
    if steps != [] {
      NoCooldownKeepsPast(sub, Apply(sub, s, steps[0]), steps[1..]);
    }
  }

  /** Without a cooldown every hit is sent. */
  lemma NoCooldownSendsAll(sub: Subscription, clock: int, steps: seq<Step>, hit: Step)
    requires sub.cooldown <= 0 && IsRun(sub, Start(clock), steps) && hit.Hit?
    requires Timely(After(sub, Start(clock), steps), hit)
    ensures Sends(sub, After(sub, Start(clock), steps), hit)
  {
    NoCooldownKeepsPast(sub, Start(clock), steps);
  }

  /** A restored cooldown is active exactly until the stored second. */
  lemma RestoredActiveIff(sub: Subscription, rows: map<string, int>, t: Target, restart: int, now: int)
    requires sub.format.Faithful() && sub.cooldown > 0 && sub.KeyFor(t) in rows && restart <= now
    ensures Active(sub, Restored(sub, rows, restart), t, now) <==> now < rows[sub.KeyFor(t)] * SECOND
  {
    RowIsTarget(sub, rows, t);
  }

  /** In any state a run reaches: after a restart the next hit is sent exactly from the stored second on,
      or at once if nothing is stored. */
  lemma SentAfterRestartIff(sub: Subscription, s: State, restart: int, hit: Step)
    requires sub.format.Faithful() && sub.cooldown > 0 && Timely(s, Restart(restart))
    requires hit.Hit? && Timely(Apply(sub, s, Restart(restart)), hit)
    ensures Sends(sub, Apply(sub, s, Restart(restart)), hit) <==>
            sub.KeyFor(hit.target) !in s.rows || hit.check >= s.rows[sub.KeyFor(hit.target)] * SECOND
  {
    if sub.KeyFor(hit.target) in s.rows {
      RestoredActiveIff(sub, s.rows, hit.target, restart, hit.check);
    }
  }

  /** The run `later` leads up to a hit that is sent before the cooldown of the last alert is over. */
  ghost predicate SendsEarly(sub: Subscription, s: State, t: Target, later: seq<Step>, hit: Step)
    requires t in s.last
  {
    && IsRun(sub, s, later) && hit.Hit? && hit.target == t
    && var end := After(sub, s, later);
       && t in end.last && end.last[t] == s.last[t]
       && Timely(end, hit) && Sends(sub, end, hit) && hit.check < s.last[t].sent + sub.Length()
  }

  /** Up to `until` nothing of t is sent, whatever restarts. */
  ghost predicate Guarded(sub: Subscription, s: State, t: Target, until: int) {
    || s.clock >= until
    || (&& sub.KeyFor(t) in s.rows && s.rows[sub.KeyFor(t)] * SECOND >= until
        && t in s.mem && s.mem[t] + sub.Length() >= until)
  }

  lemma StaysGuarded(sub: Subscription, s: State, step: Step, t: Target, until: int)
    requires sub.cooldown > 0 && sub.format.Faithful() && Timely(s, step) && Guarded(sub, s, t, until)
    ensures Guarded(sub, Apply(sub, s, step), t, until)
  {
    match step
    case Hit(u, _, _, _, _) =>
      if u != t && sub.KeyFor(u) == sub.KeyFor(t) {
        KeysDiffer(sub, u, t);
      }
    case Restart(now) =>
      if sub.KeyFor(t) in s.rows {
        RowIsTarget(sub, s.rows, t);
      }
    case CleanUp(now) =>
  }

  lemma {:induction false} RunStaysGuarded(sub: Subscription, s: State, steps: seq<Step>, t: Target, until: int)
    requires sub.cooldown > 0 && sub.format.Faithful() && IsRun(sub, s, steps) && Guarded(sub, s, t, until)
    ensures Guarded(sub, After(sub, s, steps), t, until)
    decreases |steps|
  {
    if steps != [] {
      StaysGuarded(sub, s, steps[0], t, until);
      RunStaysGuarded(sub, Apply(sub, s, steps[0]), steps[1..], t, until);
    }
  }

  lemma RestartSendsEarly(sub: Subscription, s: State, t: Target) returns (later: seq<Step>, hit: Step)
    requires sub.format.Faithful() && sub.cooldown > 0 && t in s.last && s.clock < s.last[t].sent + sub.Length()
    requires sub.KeyFor(t) in s.rows ==> s.rows[sub.KeyFor(t)] * SECOND < s.last[t].sent + sub.Length()
    ensures SendsEarly(sub, s, t, later, hit)
  {
    var time := s.clock;
    if sub.KeyFor(t) in s.rows && s.rows[sub.KeyFor(t)] * SECOND > time {
      time := s.rows[sub.KeyFor(t)] * SECOND;
    }
    later, hit := [Restart(s.clock)], Hit(t, time, time, time, true);
    assert later[1..] == [];
    SentAfterRestartIff(sub, s, s.clock, hit);
  }

  /** Storing whole seconds, or failing to store, shortens the cooldown. Wherever a run has come to, some
      further run can send the next alert of t early if and only if the cooldown of the last one is not
      over and no row guards it to its end; if the last one was stored, that is if its expiry was cut to
      a second before it was sent. */
  lemma RestartShortensIff(sub: Subscription, clock: int, steps: seq<Step>, t: Target)
    requires sub.format == COLONS && sub.cooldown > 0 && IsRun(sub, Start(clock), steps)
    requires t in After(sub, Start(clock), steps).last
    ensures var s := After(sub, Start(clock), steps);
            var a, key := s.last[t], sub.KeyFor(t);
            && ((exists later, hit :: SendsEarly(sub, s, t, later, hit)) <==>
                s.clock < a.sent + sub.Length() &&
                (key in s.rows ==> s.rows[key] * SECOND < a.sent + sub.Length()))
            && (a.stored ==>
                 ((exists later, hit :: SendsEarly(sub, s, t, later, hit)) <==>
                  s.clock < a.sent + sub.Length() && a.expiry / SECOND * SECOND < a.sent))
  {
    ColonsAreFaithful();
    RunKeepsInv(sub, Start(clock), steps);
    var s := After(sub, Start(clock), steps);
    var a, key := s.last[t], sub.KeyFor(t);
    var until := a.sent + sub.Length();
    assert Remembers(sub, s, t) && Sound(sub, s, t);
    UntilIs(sub, a);
    if s.clock < until && (key in s.rows ==> s.rows[key] * SECOND < until) {
      var later, hit := RestartSendsEarly(sub, s, t);
    } else {
      assert Guarded(sub, s, t, until);
      forall later, hit ensures !SendsEarly(sub, s, t, later, hit) {
        if SendsEarly(sub, s, t, later, hit) {
          RunStaysGuarded(sub, s, later, t, until);
        }
      }
    }
  }

  /** A first alert at `time`, a restart right after it, and the next hit. */
  ghost predicate SentAgain(sub: Subscription, t: Target, time: int, stored: bool, next: int) {
    var s := Apply(sub, Start(0), Hit(t, time, time, time, stored));
    Sends(sub, Apply(sub, s, Restart(time)), Hit(t, next, next, next, true))
  }

  lemma SentAgainIff(sub: Subscription, t: Target, time: int, stored: bool, next: int)
    requires sub.format.Faithful() && sub.cooldown > 0 && 0 <= time <= next
    ensures SentAgain(sub, t, time, stored, next) <==> !stored || next >= (time + sub.Length()) / SECOND * SECOND
  {
    var s := Apply(sub, Start(0), Hit(t, time, time, time, stored));
    SentAfterRestartIff(sub, s, time, Hit(t, next, next, next, true));
  }

  /** A cooldown of 60 seconds, an alert at 0.9 s: after a restart the next one can come at 60 s, not
      only at 60.9 s; at once, if the first one was not stored. */
  lemma RestartShortensExample(sub: Subscription, t: Target) returns (time: int, next: int)
    requires sub.format.Faithful() && sub.cooldown == 60
    ensures time == 900_000_000 && next == 60 * SECOND < time + sub.Length()
    ensures SentAgain(sub, t, time, true, next) && SentAgain(sub, t, time, false, time)
  {
    time, next := 900_000_000, 60 * SECOND;
    SentAgainIff(sub, t, time, true, next);
    SentAgainIff(sub, t, time, false, time);
  }

  // ---- Restoring row by row ----

  /** The row with this key holds an unexpired cooldown of t. */
  ghost predicate Speaks(sub: Subscription, rows: map<string, int>, now: int, key: string, t: Target) {
    key in rows && rows[key] > now / SECOND && sub.format.read(key) == Some(sub.KeyOf(t))
  }

  /** mem has t exactly if one of these rows holds an unexpired cooldown of t, and the time of one. */
  ghost predicate RestoredFrom(sub: Subscription, rows: map<string, int>, mem: map<Target, int>, now: int,
                               keys: set<string>, t: Target)
  {
    if t in mem then exists key :: key in keys && Speaks(sub, rows, now, key, t) && mem[t] == Since(sub, rows[key])
    else forall key :: key in keys ==> !Speaks(sub, rows, now, key, t)
  }

  /** What one row does to the restored maps. */
  function WithRow(sub: Subscription, rows: map<string, int>, mem: map<Target, int>,
                   now: int, key: string): map<Target, int>
    requires key in rows
  {
    var parsed := sub.format.read(key);
    if rows[key] > now / SECOND && parsed.Some? && parsed.value.sub == sub.id then
      mem[Target(parsed.value.kind, parsed.value.container) := Since(sub, rows[key])]
    else mem
  }

  lemma RowRestores(sub: Subscription, rows: map<string, int>, mem: map<Target, int>, now: int, keys: set<string>,
                    key: string, t: Target)
    requires key in rows && RestoredFrom(sub, rows, mem, now, keys, t)
    ensures RestoredFrom(sub, rows, WithRow(sub, rows, mem, now, key), now, keys + {key}, t)
  {
    var mem' := WithRow(sub, rows, mem, now, key);
    if Speaks(sub, rows, now, key, t) {
      assert key in keys + {key} && mem'[t] == Since(sub, rows[key]);
    } else if t in mem {
      var k :| k in keys && Speaks(sub, rows, now, k, t) && mem[t] == Since(sub, rows[k]);
      assert k in keys + {key};
    }
  }

  /** The rows were stored by alerts, of this or of other subscriptions. */
  ghost predicate Written(sub: Subscription, rows: map<string, int>) {
    forall key :: key in rows ==> exists k :: key == sub.format.write(k)
  }

  lemma {:induction false} RunWritesRows(sub: Subscription, s: State, steps: seq<Step>)
    requires Written(sub, s.rows) && IsRun(sub, s, steps)
    ensures Written(sub, After(sub, s, steps).rows)
    decreases |steps|
  {
    if steps != [] {
      var next := Apply(sub, s, steps[0]);
      forall key | key in next.rows ensures exists k :: key == sub.format.write(k) {
        if key !in s.rows {
          assert key == sub.format.write(sub.KeyOf(steps[0].target));
        }
      }
      RunWritesRows(sub, next, steps[1..]);
    }
  }

  lemma WriterIsKey(sub: Subscription, rows: map<string, int>, now: int, key: string, t: Target)
    requires sub.format.Faithful() && Written(sub, rows) && Speaks(sub, rows, now, key, t)
    ensures key == sub.KeyFor(t)
  {
    var k :| key == sub.format.write(k);
    assert sub.format.ReadsBack(k);
  }

  /** From rows that alerts have stored, exactly the unexpired cooldowns are restored. */
  lemma RestoredIs(sub: Subscription, rows: map<string, int>, mem: map<Target, int>, now: int)
    requires sub.format.Faithful() && Written(sub, rows)
    requires forall t :: RestoredFrom(sub, rows, mem, now, rows.Keys, t)
    ensures mem == Restored(sub, rows, now)
  {
    forall t
      ensures t in mem <==> t in Restored(sub, rows, now)
      ensures t in mem ==> mem[t] == Restored(sub, rows, now)[t]
    {
      assert RestoredFrom(sub, rows, mem, now, rows.Keys, t);
      if t in mem {
        var key :| key in rows.Keys && Speaks(sub, rows, now, key, t) && mem[t] == Since(sub, rows[key]);
        WriterIsKey(sub, rows, now, key, t);
        RowIsTarget(sub, rows, t);
      } else if sub.KeyFor(t) in rows {
        assert sub.format.ReadsBack(sub.KeyOf(t));
        assert !Speaks(sub, rows, now, sub.KeyFor(t), t);
      }
    }
  }
}

/** The same steps as the program takes them: maps updated in place, rows restored one by one. */
module CooldownGate {
  import opened Basics
  import opened CooldownKeys
  import opened CooldownRuns

  class Gate {
    const sub: Subscription
    var logs: map<string, int>
    var metrics: map<string, int>
    var events: map<string, int>
    var rows: map<string, int>

    constructor (sub: Subscription, rows: map<string, int>)
      ensures this.sub == sub && this.rows == rows && logs == metrics == events == map[]
    {
      this.sub, this.rows := sub, rows;
      logs, metrics, events := map[], map[], map[];
    }

    ghost function At(t: Target): Option<int>
      reads this
    {
      var m := match t.kind case Log => logs case Metric => metrics case Event => events;
      if t.container in m then Some(m[t.container]) else None
    }

    /** The maps hold what `mem` holds. */
    ghost predicate Holds(mem: map<Target, int>)
      reads this
    {
      forall t :: At(t) == if t in mem then Some(mem[t]) else None
    }

    method IsActive(t: Target, now: int, ghost mem: map<Target, int>) returns (active: bool)
      requires Holds(mem)
      ensures active == Active(sub, mem, t, now)
    {
      assert At(t) == if t in mem then Some(mem[t]) else None;
      if sub.cooldown == 0 || (t.kind.Log? && sub.cooldown <= 0) {
        return false;
      }
      var m := match t.kind case Log => logs case Metric => metrics case Event => events;
      if t.container !in m {
        return false;
      }
      active := now < m[t.container] + sub.Length();
    }

    method Set(t: Target, time: int, ghost mem: map<Target, int>)
      requires Holds(mem)
      modifies this`logs, this`metrics, this`events
      ensures Holds(mem[t := time])
    {
      match t.kind {
        case Log => logs := logs[t.container := time];
        case Metric => metrics := metrics[t.container := time];
        case Event => events := events[t.container := time];
      }
      forall u
        ensures At(u) == if u in mem[t := time] then Some(mem[t := time][u]) else None
      {
        assert old(At(u)) == if u in mem then Some(mem[u]) else None;
      }
    }

    /** The gate in front of an alert: skip it, or record and store the cooldown. */
    method Process(hit: Step, ghost s: State) returns (passed: bool)
      requires hit.Hit? && Holds(s.mem) && rows == s.rows
      modifies this
      ensures passed == Sends(sub, s, hit)
      ensures Holds(Apply(sub, s, hit).mem) && rows == Apply(sub, s, hit).rows
    {
      var active := IsActive(hit.target, hit.check, s.mem);
      if active {
        return false;
      }
      if sub.cooldown > 0 || hit.target.kind.Metric? {
        Set(hit.target, hit.sent, s.mem);
      }
      if sub.cooldown > 0 && hit.stored {
        rows := rows[sub.KeyFor(hit.target) := (hit.expiry + sub.Length()) / SECOND];
      }
      return true;
    }

    /** `RestorePersistentState` in a fresh process, whatever the rows and their order: a target is
        restored exactly if a row holds an unexpired cooldown of it. From rows that alerts have stored,
        the maps end up as after the restart of a run. */
    method Restore(now: int) returns (ghost mem: map<Target, int>)
      requires Holds(map[])
      modifies this`logs, this`metrics, this`events
      ensures Holds(mem) && forall t :: RestoredFrom(sub, rows, mem, now, rows.Keys, t)
      ensures sub.format.Faithful() && Written(sub, rows) ==> mem == Restored(sub, rows, now)
    {
      var todo := rows.Keys;
      mem := map[];
      while todo != {}
        invariant todo <= rows.Keys && Holds(mem)
        invariant forall t :: RestoredFrom(sub, rows, mem, now, rows.Keys - todo, t)
      {
        var key :| key in todo;
        ghost var before, seen := mem, rows.Keys - todo;
        mem := RestoreRow(key, now, mem);
        todo := todo - {key};
        assert seen + {key} == rows.Keys - todo;
        forall t ensures RestoredFrom(sub, rows, mem, now, rows.Keys - todo, t) {
          assert RestoredFrom(sub, rows, before, now, seen, t);
          RowRestores(sub, rows, before, now, seen, key, t);
        }
      }
      assert rows.Keys - todo == rows.Keys;
      if sub.format.Faithful() && Written(sub, rows) {
        RestoredIs(sub, rows, mem, now);
      }
    }

    method RestoreRow(key: string, now: int, ghost mem: map<Target, int>) returns (ghost mem': map<Target, int>)
      requires Holds(mem) && key in rows
      modifies this`logs, this`metrics, this`events
      ensures mem' == WithRow(sub, rows, mem, now, key) && Holds(mem')
    {
      mem' := mem;
      if rows[key] > now / SECOND {
        var parsed := sub.format.read(key);
        if parsed.Some? && parsed.value.sub == sub.id {
          var t := Target(parsed.value.kind, parsed.value.container);
          Set(t, Since(sub, rows[key]), mem);
          mem' := mem[t := Since(sub, rows[key])];
        }
      }
    }
  }
}
