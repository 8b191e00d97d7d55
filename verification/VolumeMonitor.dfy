/** The volume monitor's refresh queue (internal/container/volume_monitor.go): a `pending` set
    keeps an id from being queued twice, a bounded channel hands ids to the workers. Goroutines
    interleave at every map or channel operation; each operation is one step here, and any
    number of enqueuers and workers may be inside `enqueue` and `worker` at once. */
module VolumeMonitor {
  type Id = string

  const QUEUE_SIZE := 64

  /** stored: enqueuers between LoadOrStore and the send. dropping: enqueuers that found the queue
      full and have not deleted the id yet. received: workers between the receive and the delete.
      released: workers about to refresh. */
  datatype State = State(
    pending: set<Id>,
    queue: seq<Id>,
    stored: multiset<Id>,
    dropping: multiset<Id>,
    received: multiset<Id>,
    released: multiset<Id>)

  const INIT := State({}, [], multiset{}, multiset{}, multiset{}, multiset{})

  datatype Step =
    | Store(id: Id)         // enqueue: the id was not pending
    | Suppress(id: Id)      // enqueue: the id was pending, give up
    | Send(id: Id)
    | FindFull(id: Id)
    | Drop(id: Id)
    | Receive
    | Release(id: Id)       // worker: delete from pending
    | StartRefresh(id: Id)

  predicate Enabled(s: State, step: Step) {
    match step
    case Store(id) => id !in s.pending
    case Suppress(id) => id in s.pending
    case Send(id) => id in s.stored && |s.queue| < QUEUE_SIZE
    case FindFull(id) => id in s.stored && |s.queue| >= QUEUE_SIZE
    case Drop(id) => id in s.dropping
    case Receive => s.queue != []
    case Release(id) => id in s.received
    case StartRefresh(id) => id in s.released
  }

  /** What an enabled step does. */
  function Apply(s: State, step: Step): State {
    match step
    case Store(id) => s.(pending := s.pending + {id}, stored := s.stored + multiset{id})
    case Suppress(_) => s
    case Send(id) => s.(stored := s.stored - multiset{id}, queue := s.queue + [id])
    case FindFull(id) => s.(stored := s.stored - multiset{id}, dropping := s.dropping + multiset{id})
    case Drop(id) => s.(dropping := s.dropping - multiset{id}, pending := s.pending - {id})
    case Receive =>
      if s.queue == [] then s
      else s.(queue := s.queue[1..], received := s.received + multiset{s.queue[0]})
    case Release(id) =>
      s.(received := s.received - multiset{id}, pending := s.pending - {id}, released := s.released + multiset{id})
    case StartRefresh(id) => s.(released := s.released - multiset{id})
  }

  /** steps is a run of the protocol from s. */
  ghost predicate IsRun(s: State, steps: seq<Step>)
    decreases |steps|
  {
    steps == [] || (Enabled(s, steps[0]) && IsRun(Apply(s, steps[0]), steps[1..]))
  }

  ghost function After(s: State, steps: seq<Step>): State
    requires IsRun(s, steps)
    decreases |steps|
  {
    if steps == [] then s else After(Apply(s, steps[0]), steps[1..])
  }

  lemma RunStarts(s: State, step: Step, rest: seq<Step>)
    requires Enabled(s, step) && IsRun(Apply(s, step), rest)
    ensures IsRun(s, [step] + rest) && After(s, [step] + rest) == After(Apply(s, step), rest)
  {
    assert ([step] + rest)[1..] == rest;
  }

  // ---- One token per pending id ----

  /** How many goroutines and queue slots are responsible for a pending id. */
  function Tokens(s: State, id: Id): nat {
    s.stored[id] + s.dropping[id] + multiset(s.queue)[id] + s.received[id]
  }

  ghost predicate IdInv(s: State, id: Id) { Tokens(s, id) == if id in s.pending then 1 else 0 }

  ghost predicate Inv(s: State) {
    (forall id :: IdInv(s, id)) && |s.queue| <= QUEUE_SIZE
  }

  lemma IdKept(s: State, step: Step, id: Id)
    requires IdInv(s, id) && Enabled(s, step)
    ensures IdInv(Apply(s, step), id)
  {
    if step.Receive? {
      assert s.queue == [s.queue[0]] + s.queue[1..];
    }
  }

  lemma StepKeepsInv(s: State, step: Step)
    requires Inv(s) && Enabled(s, step)
    ensures Inv(Apply(s, step))
  {
    forall id ensures IdInv(Apply(s, step), id) { IdKept(s, step, id); }
  }

  lemma {:induction false} RunKeepsInv(s: State, steps: seq<Step>)
    requires Inv(s) && IsRun(s, steps)
    ensures Inv(After(s, steps))
    decreases |steps|
  {
    if steps != [] {
      StepKeepsInv(s, steps[0]);
      RunKeepsInv(Apply(s, steps[0]), steps[1..]);
    }
  }

  /** In every reachable state an id is pending exactly when one, and only one, goroutine or
      queue slot is responsible for it; the queue never holds an id twice nor more than 64. */
  lemma OneTokenPerPendingId(steps: seq<Step>, id: Id)
    requires IsRun(INIT, steps)
    ensures var s := After(INIT, steps);
            && Tokens(s, id) == (if id in s.pending then 1 else 0)
            && |s.queue| <= 64
            && forall i, j :: 0 <= i < j < |s.queue| ==> s.queue[i] != s.queue[j]
  {
    RunKeepsInv(INIT, steps);
    var s := After(INIT, steps);
    assert IdInv(s, id);
    forall i, j | 0 <= i < j < |s.queue|
      ensures s.queue[i] != s.queue[j]
    {
      TwiceMeansTwo(s.queue, i, j);
      assert IdInv(s, s.queue[i]);
    }
  }

  lemma TwiceMeansTwo(q: seq<Id>, i: nat, j: nat)
    requires i < j < |q|
    ensures q[i] == q[j] ==> multiset(q)[q[i]] >= 2
  {
    assert q == q[..j] + [q[j]] + q[j + 1..];
    assert q[i] in q[..j];
  }

  // ---- A suppressed enqueue is served ----

  /** A refresh of id is on its way: queued, received, or about to start. */
  ghost predicate Coming(s: State, id: Id) {
    id in multiset(s.queue) + s.received + s.released
  }

  /** With a single observer no other enqueue is half done when one begins. */
  ghost predicate OneObserver(s: State) {
    s.stored == multiset{} && s.dropping == multiset{}
  }

  lemma ComingStays(s: State, step: Step, id: Id)
    requires Enabled(s, step) && Coming(s, id) && step != StartRefresh(id)
    ensures Coming(Apply(s, step), id)
  {
    if step.Receive? {
      assert s.queue == [s.queue[0]] + s.queue[1..];
    }
  }

  lemma {:induction false} ComingUntilRefresh(s: State, steps: seq<Step>, id: Id)
    requires IsRun(s, steps) && Coming(s, id) && StartRefresh(id) !in steps
    ensures Coming(After(s, steps), id)
    decreases |steps|
  {
    if steps != [] {
      ComingStays(s, steps[0], id);
      ComingUntilRefresh(Apply(s, steps[0]), steps[1..], id);
    }
  }

  /** With one observer, an enqueue is suppressed only while a refresh that has not started yet is
      on its way; whatever happens next, it stays on its way until it starts, and a worker can
      always take the next step towards it. */
  lemma SuppressedIsServed(before: seq<Step>, id: Id, later: seq<Step>)
    requires IsRun(INIT, before) && OneObserver(After(INIT, before))
    requires Enabled(After(INIT, before), Suppress(id))
    requires IsRun(After(INIT, before), later) && StartRefresh(id) !in later
    ensures var s := After(After(INIT, before), later);
            && Coming(s, id)
            && (Enabled(s, Receive) || Enabled(s, Release(id)) || Enabled(s, StartRefresh(id)))
  {
    RunKeepsInv(INIT, before);
    var s := After(INIT, before);
    assert IdInv(s, id);
    ComingUntilRefresh(s, later, id);
  }

  function Receives(steps: seq<Step>): nat {
    if steps == [] then 0 else (if steps[0].Receive? then 1 else 0) + Receives(steps[1..])
  }

  /** A worker has the id, or is about to refresh it. */
  ghost predicate Reached(s: State, id: Id) { id in s.received + s.released }

  ghost predicate WaitsAt(s: State, id: Id, p: nat) { p < |s.queue| && s.queue[p] == id }

  lemma ReachedStays(s: State, step: Step, id: Id)
    requires Enabled(s, step) && Reached(s, id) && step != StartRefresh(id)
    ensures Reached(Apply(s, step), id)
  {
  }

  lemma WaitingMovesUp(s: State, step: Step, id: Id, p: nat)
    requires Enabled(s, step) && WaitsAt(s, id, p)
    ensures if !step.Receive? then WaitsAt(Apply(s, step), id, p)
            else if p > 0 then WaitsAt(Apply(s, step), id, p - 1)
            else Reached(Apply(s, step), id)
  {
  }

  lemma {:induction false} ReachedUntilRefresh(s: State, steps: seq<Step>, id: Id)
    requires IsRun(s, steps) && StartRefresh(id) !in steps && Reached(s, id)
    ensures Reached(After(s, steps), id)
    decreases |steps|
  {
    if steps != [] {
      ReachedStays(s, steps[0], id);
      ReachedUntilRefresh(Apply(s, steps[0]), steps[1..], id);
    }
  }

  /** The wait is bounded: an id at position p of the queue is with a worker, or its refresh has
      started, once p + 1 more ids were received. */
  lemma {:induction false} QueuedIdIsReached(s: State, steps: seq<Step>, id: Id, p: nat)
    requires IsRun(s, steps) && StartRefresh(id) !in steps && WaitsAt(s, id, p) && Receives(steps) > p
    ensures Reached(After(s, steps), id)
    decreases |steps|
  {
    WaitingMovesUp(s, steps[0], id, p);
    var next := Apply(s, steps[0]);
    if !steps[0].Receive? {
      QueuedIdIsReached(next, steps[1..], id, p);
    } else if p > 0 {
      QueuedIdIsReached(next, steps[1..], id, p - 1);
    } else {
      ReachedUntilRefresh(next, steps[1..], id);
    }
  }

  // ---- Why one observer ----

  /** The id was given up: nobody is going to refresh it, and nobody keeps it pending. */
  ghost predicate Lost(s: State, id: Id) { id !in s.pending && !Coming(s, id) }

  /** Names of different lengths are different ids. */
  function Name(n: nat): (r: Id)
    ensures |r| == n
  {
    seq(n, _ => 'x')
  }

  lemma {:induction false} LongerThanAll(ids: set<Id>) returns (n: nat)
    ensures forall id :: id in ids ==> |id| < n
    decreases |ids|
  {
    if ids == {} {
      n := 0;
    } else {
      var id :| id in ids;
      var m := LongerThanAll(ids - {id});
      n := if m > |id| then m else |id| + 1;
    }
  }

  lemma FullIsLost(s: State, id: Id) returns (later: seq<Step>)
    requires IdInv(s, id) && |s.queue| == QUEUE_SIZE && id in s.stored && id !in s.released
    ensures IsRun(s, later) && StartRefresh(id) !in later && Lost(After(s, later), id)
  {
    var t := Apply(s, FindFull(id));
    RunStarts(t, Drop(id), []);
    RunStarts(s, FindFull(id), [Drop(id)]);
    later := [FindFull(id)] + [Drop(id)];
    assert [Drop(id)] + [] == [Drop(id)];
  }

  /** Observers of other ids fill the queue, then the enqueuer of this one finds it full. */
  lemma {:induction false} StoredIsLost(s: State, id: Id) returns (later: seq<Step>)
    requires IdInv(s, id) && |s.queue| <= QUEUE_SIZE && id in s.stored && id !in s.released
    ensures IsRun(s, later) && StartRefresh(id) !in later && Lost(After(s, later), id)
    decreases QUEUE_SIZE - |s.queue|
  {
    if |s.queue| == QUEUE_SIZE {
      later := FullIsLost(s, id);
    } else {
      var n := LongerThanAll(s.pending);
      var other := Name(n);
      var t := Apply(s, Store(other));
      var u := Apply(t, Send(other));
      IdKept(s, Store(other), id);
      IdKept(t, Send(other), id);
      var rest := StoredIsLost(u, id);
      RunStarts(t, Send(other), rest);
      RunStarts(s, Store(other), [Send(other)] + rest);
      later := [Store(other)] + ([Send(other)] + rest);
    }
  }

  /** Whether a pending id can still be given up without a refresh, in any state: if and only if an
      enqueuer holds it, who may yet find the queue full, and no worker is about to refresh it. */
  lemma PendingIsLostIff(s: State, id: Id)
    requires Inv(s) && id in s.pending
    ensures (exists later :: IsRun(s, later) && StartRefresh(id) !in later && Lost(After(s, later), id)) <==>
            id in s.stored + s.dropping && id !in s.released
  {
    assert IdInv(s, id);
    if id in s.released || id !in s.stored + s.dropping {
      forall later | IsRun(s, later) && StartRefresh(id) !in later
        ensures !Lost(After(s, later), id)
      {
        ComingUntilRefresh(s, later, id);
      }
    } else if id in s.stored {
      var later := StoredIsLost(s, id);
    } else {
      var later := [Drop(id)];
      RunStarts(s, Drop(id), []);
      assert [Drop(id)] + [] == later;
      assert Lost(After(s, later), id);
    }
  }

  /** With two observers a suppressed enqueue can be lost: the first stores the id, the second is
      suppressed, the first finds the queue full and drops the id. */
  lemma TwoObserversCanLose() returns (before: seq<Step>, id: Id, later: seq<Step>)
    ensures IsRun(INIT, before) && Enabled(After(INIT, before), Suppress(id))
    ensures IsRun(After(INIT, before), later) && StartRefresh(id) !in later
    ensures Lost(After(After(INIT, before), later), id)
  {
    id := Name(1);
    before := [Store(id)] + [];
    RunStarts(INIT, Store(id), []);
    RunKeepsInv(INIT, before);
    var s := After(INIT, before);
    PendingIsLostIff(s, id);
    later :| IsRun(s, later) && StartRefresh(id) !in later && Lost(After(s, later), id);
  }
}
