/** The log listener's streams (internal/notification/log_listener.go). Starting, stopping and the
    end of a stream interleave freely; each operation on a concurrent map, each `cancel` and each
    return of `StreamLogs` is one step. While `Compute` runs its callback it holds the container's
    entry: other operations on that entry wait, operations on the other map do not. */
module LogListener {
  type ContainerId = string
  type StreamId = nat

  /** A stream that was installed: its container, whether its context was cancelled, whether
      `StreamLogs` has returned, and whether `cleanupStream` has run. */
  datatype Stream = Stream(container: ContainerId, cancelled: bool, ended: bool, cleaned: bool) {
    predicate Live() { !cancelled && !ended }
  }

  /** starting: streams installed by a start that has not stored the client yet.
      taken: streams a stop has removed from the map but not cancelled yet.
      leaving: streams a stop has cancelled, before it deletes the client.
      cleaning: containers whose client `cleanupStream` has deleted, before it deletes the entry. */
  datatype State = State(
    active: map<ContainerId, StreamId>,
    clients: set<ContainerId>,
    streams: map<StreamId, Stream>,
    starting: set<StreamId>,
    taken: set<StreamId>,
    leaving: set<StreamId>,
    cleaning: set<ContainerId>)

  const INIT := State(map[], {}, map[], {}, {}, {}, {})

  datatype Step =
    | Install(c: ContainerId, id: StreamId)   // startListening: cancel the old entry, store the new one
    | StoreClient(id: StreamId)               // startListening: remember the owning client, start the goroutine
    | End(id: StreamId)                       // StreamLogs returns
    | CleanupForget(id: StreamId)             // cleanupStream: the entry is its own, delete the client
    | CleanupRemove(id: StreamId)             // cleanupStream: delete the entry
    | CleanupSkip(id: StreamId)               // cleanupStream: the entry is not its own
    | StopTake(c: ContainerId)                // stopListening: LoadAndDelete
    | StopCancel(id: StreamId)
    | StopForget(id: StreamId)                // stopListening: delete the client

  /** The entry of the stream's container is this stream. */
  predicate Owns(s: State, id: StreamId) {
    id in s.streams && s.streams[id].container in s.active && s.active[s.streams[id].container] == id
  }

  /** The stream has ended and its cleanup can get hold of the entry. */
  predicate Cleans(s: State, id: StreamId) {
    id in s.streams && s.streams[id].ended && !s.streams[id].cleaned && s.streams[id].container !in s.cleaning
  }

  predicate Enabled(s: State, step: Step) {
    match step
    case Install(c, id) => id !in s.streams && c !in s.cleaning
    case StoreClient(id) => id in s.starting && id in s.streams
    case End(id) => id in s.streams && !s.streams[id].ended && id !in s.starting
    case CleanupForget(id) => Cleans(s, id) && Owns(s, id)
    case CleanupRemove(id) => id in s.streams && s.streams[id].container in s.cleaning && Owns(s, id)
    case CleanupSkip(id) => Cleans(s, id) && !Owns(s, id)
    case StopTake(c) => c in s.active && c !in s.cleaning
    case StopCancel(id) => id in s.taken && id in s.streams
    case StopForget(id) => id in s.leaving && id in s.streams
  }

  function Cancel(streams: map<StreamId, Stream>, id: StreamId): map<StreamId, Stream> {
    if id in streams then streams[id := streams[id].(cancelled := true)] else streams
  }

  function Apply(s: State, step: Step): State
    requires Enabled(s, step)
  {
    match step
    case Install(c, id) =>
      var streams := if c in s.active then Cancel(s.streams, s.active[c]) else s.streams;
      s.(streams := streams[id := Stream(c, false, false, false)], active := s.active[c := id],
         starting := s.starting + {id})
    case StoreClient(id) => s.(starting := s.starting - {id}, clients := s.clients + {s.streams[id].container})
    case End(id) => s.(streams := s.streams[id := s.streams[id].(ended := true)])
    case CleanupForget(id) =>
      var c := s.streams[id].container;
      s.(clients := s.clients - {c}, cleaning := s.cleaning + {c})
    case CleanupRemove(id) =>
      var c := s.streams[id].container;
      s.(streams := s.streams[id := s.streams[id].(cleaned := true)],
         active := s.active - {c}, cleaning := s.cleaning - {c})
    case CleanupSkip(id) => s.(streams := s.streams[id := s.streams[id].(cleaned := true)])
    case StopTake(c) => s.(active := s.active - {c}, taken := s.taken + {s.active[c]})
    case StopCancel(id) =>
      s.(streams := Cancel(s.streams, id), taken := s.taken - {id}, leaving := s.leaving + {id})
    case StopForget(id) => s.(leaving := s.leaving - {id}, clients := s.clients - {s.streams[id].container})
  }

  ghost predicate IsRun(s: State, steps: seq<Step>)
    decreases |steps|
  {
    steps == [] || (Enabled(s, steps[0]) && IsRun(Apply(s, steps[0]), steps[1..]))
  }

  ghost function After(s: State, steps: seq<Step>): State
    requires IsRun(s, steps)
    decreases |steps|
  {
    if steps == [] then s else After(Apply(s, steps[0]), steps[1..])
  }

  // ---- No stream is forgotten ----

  /** A map entry belongs to a stream of that container that is neither cancelled nor cleaned up. */
  ghost predicate EntryOk(s: State, c: ContainerId) {
    c in s.active ==>
      && s.active[c] in s.streams
      && s.streams[s.active[c]].container == c
      && !s.streams[s.active[c]].cancelled && !s.streams[s.active[c]].cleaned
      && s.active[c] !in s.taken
  }

  /** A live stream is its container's map entry, or some stop holds it and is about to cancel it. */
  ghost predicate Held(s: State, id: StreamId) {
    id in s.streams && s.streams[id].Live() ==>
      id in s.taken || (s.streams[id].container in s.active && s.active[s.streams[id].container] == id)
  }

  /** A cleanup works on the entry of a stream that has ended. */
  ghost predicate CleaningOk(s: State, c: ContainerId) {
    c in s.active && s.active[c] in s.streams && s.streams[s.active[c]].ended
  }

  ghost predicate Inv(s: State) {
    && (forall c :: EntryOk(s, c))
    && (forall id :: Held(s, id))
    && (forall c :: c in s.cleaning ==> CleaningOk(s, c))
    && (forall id :: id in s.taken ==> id in s.streams)
    && (forall id :: id in s.streams && s.streams[id].cleaned ==> s.streams[id].ended)
  }

  lemma EntryKept(s: State, step: Step, c: ContainerId)
    requires Inv(s) && Enabled(s, step)
    ensures EntryOk(Apply(s, step), c)
  {
    assert EntryOk(s, c);
    match step
    case Install(d, id) => assert EntryOk(s, d);
    case StopTake(d) => assert EntryOk(s, d);
    case _ =>
  }

  lemma HeldKept(s: State, step: Step, id: StreamId)
    requires Inv(s) && Enabled(s, step)
    ensures Held(Apply(s, step), id)
  {
    assert Held(s, id);
    match step
    case Install(c, _) => assert EntryOk(s, c);
    case StopTake(c) => assert EntryOk(s, c);
    case _ =>
  }

  lemma StepKeepsInv(s: State, step: Step)
    requires Inv(s) && Enabled(s, step)
    ensures Inv(Apply(s, step))
  {
    forall c ensures EntryOk(Apply(s, step), c) { EntryKept(s, step, c); }
    forall id ensures Held(Apply(s, step), id) { HeldKept(s, step, id); }
    match step
    case StopTake(c) => assert EntryOk(s, c);
    case _ =>
  }

  lemma {:induction false} RunKeepsInv(s: State, steps: seq<Step>)
    requires Inv(s) && IsRun(s, steps)
    ensures Inv(After(s, steps))
    decreases |steps|
  {
    if steps != [] {
      StepKeepsInv(s, steps[0]);
      RunKeepsInv(Apply(s, steps[0]), steps[1..]);
    }
  }

  ghost predicate SameContainerLive(s: State, a: StreamId, b: StreamId) {
    && a in s.streams && b in s.streams
    && !s.streams[a].cancelled && !s.streams[a].ended && !s.streams[b].cancelled && !s.streams[b].ended
    && s.streams[a].container == s.streams[b].container
  }

  /** In every interleaving: a live stream is its container's entry or in the hands of a stop, so
      with no stop half done a container has at most one live stream; and an entry whose stream
      has ended is still going to be cleaned up by that stream. */
  lemma NoStreamLeaks(steps: seq<Step>, a: StreamId, b: StreamId)
    requires IsRun(INIT, steps)
    ensures var s := After(INIT, steps);
            && (a in s.streams && !s.streams[a].cancelled && !s.streams[a].ended ==>
                  a in s.taken || (s.streams[a].container in s.active && s.active[s.streams[a].container] == a))
            && (s.taken == {} && SameContainerLive(s, a, b) ==> a == b)
            && (forall c :: c in s.active ==> s.active[c] in s.streams && !s.streams[s.active[c]].cleaned)
  {
    RunKeepsInv(INIT, steps);
    var s := After(INIT, steps);
    assert Held(s, a) && Held(s, b);
    forall c | c in s.active
      ensures s.active[c] in s.streams && !s.streams[s.active[c]].cleaned
    {
      assert EntryOk(s, c);
    }
  }

  /** The steps of cleaning up an ended stream remove at most that stream's own entry and its
      container's client, and stop no live stream. */
  lemma CleanupSparesNewerStreams(steps: seq<Step>, id: StreamId, step: Step)
    requires IsRun(INIT, steps) && Enabled(After(INIT, steps), step)
    requires step in {CleanupForget(id), CleanupRemove(id), CleanupSkip(id)}
    ensures var s, t := After(INIT, steps), Apply(After(INIT, steps), step);
            && (forall c :: c in s.active && s.active[c] != id ==> c in t.active && t.active[c] == s.active[c])
            && (forall c :: c in t.active ==> c in s.active && t.active[c] == s.active[c])
            && (!step.CleanupForget? ==> forall c :: c in t.active ==> t.active[c] != id)
            && (forall x :: x in s.streams && !s.streams[x].cancelled && !s.streams[x].ended ==>
                  x in t.streams && !t.streams[x].cancelled && !t.streams[x].ended)
            && (forall c :: c in s.clients && c !in t.clients ==> c in s.active && s.active[c] == id)
  {
    RunKeepsInv(INIT, steps);
    var s := After(INIT, steps);
    var c := s.streams[id].container;
    assert EntryOk(s, c);
    if step.CleanupRemove? {
      assert CleaningOk(s, c);
    }
    forall d | d in s.active
      ensures d != c ==> s.active[d] != id
    {
      assert EntryOk(s, d);
    }
  }

  // ---- The owning client ----

  /** Every container being listened to, once its start has finished and unless it is just being
      cleaned up, has its client on record. */
  ghost predicate ClientsKnown(s: State) {
    forall c :: c in s.active ==> s.active[c] in s.starting || c in s.clients || c in s.cleaning
  }

  /** No start of a container overlaps a stop of it. */
  ghost predicate NoOverlap(s: State, step: Step) {
    step.Install? ==> forall id :: id in s.taken + s.leaving && id in s.streams ==> s.streams[id].container != step.c
  }

  ghost predicate Serial(s: State, steps: seq<Step>)
    requires IsRun(s, steps)
    decreases |steps|
  {
    steps == [] || (NoOverlap(s, steps[0]) && Serial(Apply(s, steps[0]), steps[1..]))
  }

  ghost predicate StopsAlone(s: State) {
    && (forall id :: id in s.taken + s.leaving ==> id in s.streams && s.streams[id].container !in s.active)
    && (forall id :: id in s.starting ==> id in s.streams)
  }

  /** A stop deletes the client although the container is being listened to again. */
  ghost predicate ForgetsNeeded(s: State, step: Step) {
    && step.StopForget? && step.id in s.streams
    && var c := s.streams[step.id].container;
       c in s.active && s.active[c] !in s.starting && c !in s.cleaning
  }

  ghost predicate NeverForgetsNeeded(s: State, steps: seq<Step>)
    requires IsRun(s, steps)
    decreases |steps|
  {
    steps == [] || (!ForgetsNeeded(s, steps[0]) && NeverForgetsNeeded(Apply(s, steps[0]), steps[1..]))
  }

  /** The clients are known before and after each step of the run. */
  ghost predicate AlwaysKnown(s: State, steps: seq<Step>)
    requires IsRun(s, steps)
    decreases |steps|
  {
    ClientsKnown(s) && (steps == [] || AlwaysKnown(Apply(s, steps[0]), steps[1..]))
  }

  /** No step but such a stop can lose a client that is needed. */
  lemma OnlyStopsForget(s: State, step: Step)
    requires Inv(s) && ClientsKnown(s) && Enabled(s, step)
    ensures ClientsKnown(Apply(s, step)) <==> !ForgetsNeeded(s, step)
  {
    forall c | c in s.active
      ensures s.active[c] in s.streams && s.streams[s.active[c]].container == c
    {
      assert EntryOk(s, c);
    }
    if ForgetsNeeded(s, step) {
      var c := s.streams[step.id].container;
      assert c in Apply(s, step).active;
    }
  }

  /** Over every run: the clients of all containers listened to stay known throughout if and only if
      no stop deletes the client after the container has been started again. */
  lemma {:induction false} ClientsKnownIff(s: State, steps: seq<Step>)
    requires IsRun(s, steps) && Inv(s) && ClientsKnown(s)
    ensures AlwaysKnown(s, steps) <==> NeverForgetsNeeded(s, steps)
    decreases |steps|
  {
    if steps != [] {
      StepKeepsInv(s, steps[0]);
      OnlyStopsForget(s, steps[0]);
      if !ForgetsNeeded(s, steps[0]) {
        ClientsKnownIff(Apply(s, steps[0]), steps[1..]);
      }
    }
  }

  /** If no start of a container overlaps a stop of it, its client stays known throughout. */
  lemma {:induction false} SerialRunsKnowClients(s: State, steps: seq<Step>)
    requires IsRun(s, steps) && Serial(s, steps) && Inv(s) && ClientsKnown(s) && StopsAlone(s)
    ensures AlwaysKnown(s, steps)
    decreases |steps|
  {
    if steps != [] {
      StepKeepsInv(s, steps[0]);
      OnlyStopsForget(s, steps[0]);
      SerialStep(s, steps[0]);
      SerialRunsKnowClients(Apply(s, steps[0]), steps[1..]);
    }
  }

  lemma SerialStep(s: State, step: Step)
    requires Inv(s) && Enabled(s, step) && NoOverlap(s, step) && StopsAlone(s)
    ensures !ForgetsNeeded(s, step) && StopsAlone(Apply(s, step))
  {
    forall c | c in s.active
      ensures s.active[c] in s.streams && s.streams[s.active[c]].container == c
    {
      assert EntryOk(s, c);
    }
  }

  /** A container restarted between the two halves of a stop is listened to without its client. */
  lemma OverlapCanLoseClient() returns (steps: seq<Step>)
    ensures IsRun(INIT, steps)
    ensures var s := After(INIT, steps);
            "c" in s.active && s.active["c"] !in s.starting && s.taken == s.leaving == {} && "c" !in s.clients
  {
    steps := [];
    var s := INIT;
    steps, s := Extend(steps, s, Install("c", 1));
    steps, s := Extend(steps, s, StoreClient(1));
    steps, s := Extend(steps, s, StopTake("c"));
    steps, s := Extend(steps, s, StopCancel(1));
    steps, s := Extend(steps, s, Install("c", 2));
    steps, s := Extend(steps, s, StoreClient(2));
    steps, s := Extend(steps, s, StopForget(1));
  }

  lemma Extend(steps: seq<Step>, s: State, step: Step) returns (steps': seq<Step>, s': State)
    requires IsRun(INIT, steps) && After(INIT, steps) == s && Enabled(s, step)
    ensures IsRun(INIT, steps') && After(INIT, steps') == s' && s' == Apply(s, step)
  {
    ExtendFrom(INIT, steps, step);
    steps', s' := steps + [step], Apply(s, step);
  }

  lemma {:induction false} ExtendFrom(s: State, steps: seq<Step>, step: Step)
    requires IsRun(s, steps) && Enabled(After(s, steps), step)
    ensures IsRun(s, steps + [step]) && After(s, steps + [step]) == Apply(After(s, steps), step)
    decreases |steps|
  {
    if steps == [] {
      assert (steps + [step])[1..] == [];
    } else {
      assert (steps + [step])[1..] == steps[1..] + [step];
      ExtendFrom(Apply(s, steps[0]), steps[1..], step);
    }
  }
}
