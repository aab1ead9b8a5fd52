/** Permit-bounded tasks: a semaphore, and the tasks that are spawned first and acquire a permit then. */
module Permits {
  import opened Bytes

  datatype TaskState = Waiting | Running | Ended

  /** A semaphore and every task that was ever spawned to use it. */
  datatype Pool = Pool(max: nat, available: nat, tasks: seq<TaskState>)

  datatype PoolAction = Spawn | Acquire(i: nat) | End(i: nat) | Abandon(i: nat)

  function Fresh(max: nat): Pool { Pool(max, max, []) }

  function PoolStep(p: Pool, a: PoolAction): Option<Pool> {
    match a
    case Spawn => Some(p.(tasks := p.tasks + [Waiting]))
    case Acquire(i) =>
      if i < |p.tasks| && p.tasks[i] == Waiting && p.available > 0
      then Some(p.(tasks := p.tasks[i := Running], available := p.available - 1)) else None
    case End(i) =>
      if i < |p.tasks| && p.tasks[i] == Running
      then Some(p.(tasks := p.tasks[i := Ended], available := p.available + 1)) else None
    case Abandon(i) =>
      if i < |p.tasks| && p.tasks[i] == Waiting then Some(p.(tasks := p.tasks[i := Ended])) else None
  }

  function Count(tasks: seq<TaskState>, s: TaskState): nat {
    if tasks == [] then 0 else Count(tasks[..|tasks| - 1], s) + (if tasks[|tasks| - 1] == s then 1 else 0)
  }

  lemma CountSnoc(tasks: seq<TaskState>, t: TaskState, s: TaskState)
    ensures Count(tasks + [t], s) == Count(tasks, s) + (if t == s then 1 else 0)
  {
    assert (tasks + [t])[..|tasks|] == tasks;
  }

  lemma {:induction false} CountUpdate(tasks: seq<TaskState>, i: nat, t: TaskState, s: TaskState)
    requires i < |tasks|
    ensures Count(tasks[i := t], s) + (if tasks[i] == s then 1 else 0) == Count(tasks, s) + (if t == s then 1 else 0)
  {
    var n := |tasks| - 1;
    if i < n {
      CountUpdate(tasks[..n], i, t, s);
      assert tasks[i := t][..n] == tasks[..n][i := t];
    } else {
      assert tasks[i := t][..n] == tasks[..n];
    }
  }

  lemma {:induction false} NoneCounted(tasks: seq<TaskState>, s: TaskState)
    ensures Count(tasks, s) == 0 <==> forall i :: 0 <= i < |tasks| ==> tasks[i] != s
    ensures Count(tasks, s) <= |tasks|
  {
    if tasks != [] {
      var n := |tasks| - 1;
      NoneCounted(tasks[..n], s);
      assert forall i :: 0 <= i < n ==> tasks[..n][i] == tasks[i];
    }
  }

  /** Permits are conserved: those available and those held are all there are. */
  predicate Conserved(p: Pool) { p.available + Count(p.tasks, Running) == p.max }

  lemma PoolStepConserves(p: Pool, a: PoolAction)
    requires Conserved(p) && PoolStep(p, a).Some?
    ensures Conserved(PoolStep(p, a).value) && PoolStep(p, a).value.max == p.max
  {
    match a
    case Spawn => CountSnoc(p.tasks, Waiting, Running);
    case Acquire(i) => CountUpdate(p.tasks, i, Running, Running);
    case End(i) => CountUpdate(p.tasks, i, Ended, Running);
    case Abandon(i) => CountUpdate(p.tasks, i, Ended, Running);
  }

  predicate AllEnded(p: Pool) { forall i :: 0 <= i < |p.tasks| ==> p.tasks[i] == Ended }

  /** What conservation says: never more holders than permits, and all permits back when all tasks are done. */
  lemma ConservedMeans(p: Pool)
    requires Conserved(p)
    ensures Count(p.tasks, Running) <= p.max && p.available <= p.max
    ensures AllEnded(p) ==> p.available == p.max
  {
    if AllEnded(p) { NoneCounted(p.tasks, Running); }
  }

  /** How much work the spawned tasks still have. */
  function Work(p: Pool): nat { 2 * Count(p.tasks, Waiting) + Count(p.tasks, Running) }

  lemma StepDoesWork(p: Pool, a: PoolAction)
    requires PoolStep(p, a).Some? && !a.Spawn?
    ensures Work(PoolStep(p, a).value) < Work(p)
  {
    match a
    case Acquire(i) => CountUpdate(p.tasks, i, Running, Waiting); CountUpdate(p.tasks, i, Running, Running);
    case End(i) => CountUpdate(p.tasks, i, Ended, Waiting); CountUpdate(p.tasks, i, Ended, Running);
    case Abandon(i) => CountUpdate(p.tasks, i, Ended, Waiting); CountUpdate(p.tasks, i, Ended, Running);
  }

  /** No task can acquire a permit or finish. */
  ghost predicate PoolStuck(p: Pool) { forall i :: PoolStep(p, Acquire(i)).None? && PoolStep(p, End(i)).None? }

  /** The semaphore never deadlocks its tasks, unless it has no permits at all: tasks that cannot go on are
      done, if and only if there is a permit or nothing waits. */
  lemma StuckOnlyWhenDone(p: Pool)
    requires Conserved(p) && PoolStuck(p)
    ensures AllEnded(p) <==> p.max > 0 || Count(p.tasks, Waiting) == 0
  {
    NoneCounted(p.tasks, Running);
    NoneCounted(p.tasks, Waiting);
    forall i | 0 <= i < |p.tasks| ensures p.tasks[i] != Running {
      assert PoolStep(p, End(i)).None?;
    }
    forall i | 0 <= i < |p.tasks| && p.max > 0 ensures p.tasks[i] != Waiting {
      assert PoolStep(p, Acquire(i)).None?;
    }
  }

  // ---- runs of one pool

  function PoolRun(p: Pool, actions: seq<PoolAction>): Option<Pool>
    decreases |actions|
  {
    if actions == [] then Some(p)
    else match PoolStep(p, actions[0])
      case None => None
      case Some(q) => PoolRun(q, actions[1..])
  }

  lemma {:induction false} PoolRunConserves(p: Pool, actions: seq<PoolAction>)
    requires Conserved(p) && PoolRun(p, actions).Some?
    ensures Conserved(PoolRun(p, actions).value) && PoolRun(p, actions).value.max == p.max
    decreases |actions|
  {
    if actions != [] {
      PoolStepConserves(p, actions[0]);
      PoolRunConserves(PoolStep(p, actions[0]).value, actions[1..]);
    }
  }

  lemma FreshConserved(max: nat)
    ensures Conserved(Fresh(max))
  {
    NoneCounted([], Running);
  }

  function Spawns(actions: seq<PoolAction>): nat {
    if actions == [] then 0 else (if actions[0].Spawn? then 1 else 0) + Spawns(actions[1..])
  }

  lemma SpawnAddsWork(p: Pool)
    ensures Work(PoolStep(p, Spawn).value) == Work(p) + 2
  {
    CountSnoc(p.tasks, Waiting, Waiting);
    CountSnoc(p.tasks, Waiting, Running);
  }

  lemma {:induction false} RunDoesWork(p: Pool, actions: seq<PoolAction>)
    requires PoolRun(p, actions).Some?
    ensures Work(PoolRun(p, actions).value) + |actions| <= Work(p) + 3 * Spawns(actions)
    decreases |actions|
  {
    if actions != [] {
      var q := PoolStep(p, actions[0]).value;
      if actions[0].Spawn? { SpawnAddsWork(p); } else { StepDoesWork(p, actions[0]); }
      RunDoesWork(q, actions[1..]);
    }
  }

  /** A pool with a permit, over every run: permits are conserved, each spawned task accounts for at most three
      actions, and a run that can go no further has ended all its tasks and got all permits back. */
  lemma PoolRunsEnd(max: nat, actions: seq<PoolAction>)
    requires max > 0 && PoolRun(Fresh(max), actions).Some?
    ensures var p := PoolRun(Fresh(max), actions).value;
            && p.available + Count(p.tasks, Running) == max && Count(p.tasks, Running) <= max
            && |actions| <= 3 * Spawns(actions)
            && (PoolStuck(p) ==> AllEnded(p) && p.available == max)
  {
    var p := PoolRun(Fresh(max), actions).value;
    FreshConserved(max);
    PoolRunConserves(Fresh(max), actions);
    ConservedMeans(p);
    RunDoesWork(Fresh(max), actions);
    assert Work(Fresh(max)) == 0;
    if PoolStuck(p) { StuckOnlyWhenDone(p); }
  }

  /** Only holders are bounded: tasks are spawned before they acquire, so any number can be waiting. */
  lemma WaitersAreUnbounded(max: nat, n: nat)
    ensures var run := seq(n, _ => Spawn);
            PoolRun(Fresh(max), run) == Some(Pool(max, max, seq(n, _ => Waiting)))
  {
    SpawnMany(Fresh(max), n);
    assert Fresh(max).tasks + seq(n, _ => Waiting) == seq(n, _ => Waiting);
  }

  lemma {:induction false} SpawnMany(p: Pool, n: nat)
    ensures PoolRun(p, seq(n, _ => Spawn)) == Some(p.(tasks := p.tasks + seq(n, _ => Waiting)))
    decreases n
  {
    var run, more := seq(n, _ => Spawn), seq(n, _ => Waiting);
    if n == 0 {
      assert p.tasks + more == p.tasks;
    } else {
      assert run[1..] == seq(n - 1, _ => Spawn);
      SpawnMany(p.(tasks := p.tasks + [Waiting]), n - 1);
      assert p.tasks + [Waiting] + seq(n - 1, _ => Waiting) == p.tasks + more;
    }
  }

  // ---- the server: connections, and the streams they accept

  /** `parent[j]` is the connection that accepted stream `j`. */
  datatype ServerState = ServerState(connections: Pool, streams: Pool, parent: seq<nat>)

  datatype ServerAction =
    | ConnectionArrives
    | ConnectionAcquires(i: nat)
    | ConnectionEnds(i: nat)
    | ConnectionDropped(i: nat)
    | AcceptStream(i: nat)
    | StreamAcquires(j: nat)
    | StreamEnds(j: nat)

  function ServerInit(maxConnections: nat, maxStreams: nat): ServerState {
    ServerState(Fresh(maxConnections), Fresh(maxStreams), [])
  }

  function OnConnections(s: ServerState, a: PoolAction): Option<ServerState> {
    match PoolStep(s.connections, a) case None => None case Some(p) => Some(s.(connections := p))
  }

  function OnStreams(s: ServerState, a: PoolAction): Option<ServerState> {
    match PoolStep(s.streams, a) case None => None case Some(p) => Some(s.(streams := p))
  }

  /** Streams are accepted only by a connection that holds its permit; a stream outlives its connection's loop. */
  function ServerStep(s: ServerState, a: ServerAction): Option<ServerState> {
    match a
    case ConnectionArrives => OnConnections(s, Spawn)
    case ConnectionAcquires(i) => OnConnections(s, Acquire(i))
    case ConnectionEnds(i) => OnConnections(s, End(i))
    case ConnectionDropped(i) => OnConnections(s, Abandon(i))
    case AcceptStream(i) =>
      if i < |s.connections.tasks| && s.connections.tasks[i] == Running
      then Some(s.(streams := s.streams.(tasks := s.streams.tasks + [Waiting]), parent := s.parent + [i])) else None
    case StreamAcquires(j) => OnStreams(s, Acquire(j))
    case StreamEnds(j) => OnStreams(s, End(j))
  }

  function ServerRun(s: ServerState, actions: seq<ServerAction>): Option<ServerState>
    decreases |actions|
  {
    if actions == [] then Some(s)
    else match ServerStep(s, actions[0])
      case None => None
      case Some(t) => ServerRun(t, actions[1..])
  }

  /** Both semaphores conserve their permits, and no stream came from a connection that never held one. */
  predicate ServerInv(s: ServerState) {
    && Conserved(s.connections) && Conserved(s.streams) && |s.parent| == |s.streams.tasks|
    && forall j :: 0 <= j < |s.parent| ==>
         s.parent[j] < |s.connections.tasks| && s.connections.tasks[s.parent[j]] != Waiting
  }

  /** A connection that held a permit never waits again. */
  lemma NeverWaitsAgain(p: Pool, a: PoolAction, i: nat)
    requires PoolStep(p, a).Some? && i < |p.tasks| && p.tasks[i] != Waiting
    ensures i < |PoolStep(p, a).value.tasks| && PoolStep(p, a).value.tasks[i] != Waiting
  {
  }

  lemma ConnectionSide(s: ServerState, a: PoolAction)
    requires ServerInv(s) && PoolStep(s.connections, a).Some?
    ensures ServerInv(s.(connections := PoolStep(s.connections, a).value))
  {
    PoolStepConserves(s.connections, a);
    forall j | 0 <= j < |s.parent|
      ensures s.parent[j] < |PoolStep(s.connections, a).value.tasks|
              && PoolStep(s.connections, a).value.tasks[s.parent[j]] != Waiting
    {
      NeverWaitsAgain(s.connections, a, s.parent[j]);
    }
  }

  lemma ServerStepInv(s: ServerState, a: ServerAction)
    requires ServerInv(s) && ServerStep(s, a).Some?
    ensures ServerInv(ServerStep(s, a).value)
    ensures ServerStep(s, a).value.connections.max == s.connections.max
            && ServerStep(s, a).value.streams.max == s.streams.max
  {
    match a
    case ConnectionArrives => ConnectionSide(s, Spawn);
    case ConnectionAcquires(i) => ConnectionSide(s, Acquire(i));
    case ConnectionEnds(i) => ConnectionSide(s, End(i));
    case ConnectionDropped(i) => ConnectionSide(s, Abandon(i));
    case AcceptStream(i) => PoolStepConserves(s.streams, Spawn);
    case StreamAcquires(j) => PoolStepConserves(s.streams, Acquire(j));
    case StreamEnds(j) => PoolStepConserves(s.streams, End(j));
  }

  lemma {:induction false} ServerRunInv(s: ServerState, actions: seq<ServerAction>)
    requires ServerInv(s) && ServerRun(s, actions).Some?
    ensures var t := ServerRun(s, actions).value;
            ServerInv(t) && t.connections.max == s.connections.max && t.streams.max == s.streams.max
    decreases |actions|
  {
    if actions != [] {
      ServerStepInv(s, actions[0]);
      ServerRunInv(ServerStep(s, actions[0]).value, actions[1..]);
    }
  }

  /** Over every interleaving of connections and streams the permits available and those held make up the
      configured maximum, no more connection loops and stream handlers run than that, and when all tasks have
      ended all permits are back. */
  lemma ServerPermitsConserved(maxConnections: nat, maxStreams: nat, actions: seq<ServerAction>)
    requires ServerRun(ServerInit(maxConnections, maxStreams), actions).Some?
    ensures var s := ServerRun(ServerInit(maxConnections, maxStreams), actions).value;
            && s.connections.available + Count(s.connections.tasks, Running) == maxConnections
            && s.streams.available + Count(s.streams.tasks, Running) == maxStreams
            && Count(s.connections.tasks, Running) <= maxConnections && Count(s.streams.tasks, Running) <= maxStreams
            && (AllEnded(s.connections) ==> s.connections.available == maxConnections)
            && (AllEnded(s.streams) ==> s.streams.available == maxStreams)
            && (Count(s.connections.tasks, Running) + Count(s.connections.tasks, Ended) == 0 ==> s.streams.tasks == [])
  {
    FreshConserved(maxConnections);
    FreshConserved(maxStreams);
    ServerRunInv(ServerInit(maxConnections, maxStreams), actions);
    var s := ServerRun(ServerInit(maxConnections, maxStreams), actions).value;
    ConservedMeans(s.connections);
    ConservedMeans(s.streams);
    NoneCounted(s.connections.tasks, Running);
    NoneCounted(s.connections.tasks, Ended);
    if s.streams.tasks != [] { assert s.connections.tasks[s.parent[0]] != Waiting; }
  }
}
