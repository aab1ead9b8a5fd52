/** Datagram dispatch by handshake stream-id (src/datagram.rs): the handler table against a plain account of
    its history, and the dispatch tasks that race with registrations. */
module Datagram {
  import opened Bytes
  import opened Errors
  import opened Permits
  import Wire
  import Varint

  type Table = map<nat, nat>

  datatype Delivery = Delivery(handler: nat, streamId: nat, payload: seq<byte>)

  /** Where a frame goes in the present table. */
  function Route(handlers: Table, frame: seq<byte>): RpcResult<Delivery> {
    if frame == [] then Err(DatagramTooShort(0))
    else match Wire.DecodeStreamId(frame)
      case Err(e) => Err(e)
      case Ok((id, payload)) =>
        if id in handlers then Ok(Delivery(handlers[id], id, payload)) else Err(DatagramStreamIdUnknown(id))
  }

  /** What the table has been through. */
  datatype Change = Registered(id: nat, handler: nat) | Unregistered(id: nat)

  class DatagramDispatcher {
    var handlers: Table
    const maxInFlight: nat
    ghost var changes: seq<Change>       // every successful or failed attempt, in order
    ghost var delivered: seq<Delivery>   // every handler call, in order

    ghost predicate Valid() reads this { handlers == TableAfter(changes) }

    /** Zero permits would deadlock every delivery; the source asserts against it. */
    constructor WithMaxInFlight(max: nat)
      requires max > 0
      ensures Valid() && handlers == map[] && changes == [] && delivered == [] && maxInFlight == max
    {
      handlers := map[];
      maxInFlight := max;
      changes := [];
      delivered := [];
    }

    method Register(id: nat, handler: nat) returns (r: RpcResult<()>)
      requires Valid()
      modifies this
      ensures Valid() && changes == old(changes) + [Registered(id, handler)] && delivered == old(delivered)
      ensures r.Ok? <==> id !in old(handlers)
      ensures handlers == if r.Ok? then old(handlers)[id := handler] else old(handlers)
      ensures r.Err? ==> r.error == DatagramStreamIdCollision(id)
    {
      changes := changes + [Registered(id, handler)];
      assert changes[..|changes| - 1] == old(changes);
      if id in handlers {
        return Err(DatagramStreamIdCollision(id));
      }
      handlers := handlers[id := handler];
      r := Ok(());
    }

    method Unregister(id: nat) returns (previous: Option<nat>)
      requires Valid()
      modifies this
      ensures Valid() && changes == old(changes) + [Unregistered(id)] && delivered == old(delivered)
      ensures previous == if id in old(handlers) then Some(old(handlers)[id]) else None
      ensures handlers == old(handlers) - {id}
    {
      changes := changes + [Unregistered(id)];
      assert changes[..|changes| - 1] == old(changes);
      previous := if id in handlers then Some(handlers[id]) else None;
      handlers := handlers - {id};
    }

    /** Decodes the prefix, looks the handler up and calls it with the rest of the frame. */
    method Dispatch(frame: seq<byte>, run: (nat, seq<byte>) -> RpcResult<()>) returns (r: RpcResult<()>)
      requires Valid()
      modifies this`delivered
      ensures Valid()
      ensures var route := Route(handlers, frame);
              if route.Ok?
              then delivered == old(delivered) + [route.value] && r == run(route.value.handler, route.value.payload)
              else delivered == old(delivered) && r == Err(route.error)
    {
      if frame == [] {
        return Err(DatagramTooShort(0));
      }
      var parsed := Wire.DecodeStreamId(frame);
      match parsed
      case Err(e) => return Err(e);
      case Ok((id, rest)) =>
        var payload := frame[|frame| - |rest|..];
        assert payload == rest;
        if id !in handlers {
          return Err(DatagramStreamIdUnknown(id));
        }
        delivered := delivered + [Delivery(handlers[id], id, payload)];
        r := run(handlers[id], payload);
    }
  }

  // ---- the table against its history

  /** The table as the operations leave it: a registration of a taken id changes nothing. */
  function TableAfter(changes: seq<Change>): Table {
    if changes == [] then map[]
    else
      var before := TableAfter(changes[..|changes| - 1]);
      match changes[|changes| - 1]
      case Registered(id, handler) => if id in before then before else before[id := handler]
      case Unregistered(id) => before - {id}
  }

  /** Who owns an id by its history alone: the first registration since the id was last unregistered. */
  function FirstRegistration(changes: seq<Change>, id: nat): Option<nat> {
    if changes == [] then None
    else match changes[0]
      case Registered(i, handler) => if i == id then Some(handler) else FirstRegistration(changes[1..], id)
      case Unregistered(_) => FirstRegistration(changes[1..], id)
  }

  /** How many operations had happened when the id was last unregistered. */
  function LastUnregistered(changes: seq<Change>, id: nat): (n: nat)
    ensures n <= |changes|
  {
    if changes == [] then 0
    else if changes[|changes| - 1] == Unregistered(id) then |changes|
    else LastUnregistered(changes[..|changes| - 1], id)
  }

  function Owner(changes: seq<Change>, id: nat): Option<nat> {
    FirstRegistration(changes[LastUnregistered(changes, id)..], id)
  }

  lemma {:induction false} FirstRegistrationSnoc(changes: seq<Change>, c: Change, id: nat)
    ensures FirstRegistration(changes + [c], id) ==
            if FirstRegistration(changes, id).Some? then FirstRegistration(changes, id)
            else if c.Registered? && c.id == id then Some(c.handler) else None
  {
    if changes == [] {
      assert (changes + [c])[1..] == [];
    } else {
      assert (changes + [c])[1..] == changes[1..] + [c];
      FirstRegistrationSnoc(changes[1..], c, id);
    }
  }

  /** The table refines the history: after any sequence of registrations, failed ones included, and
      unregistrations, an id maps to the handler first registered since it was last unregistered. */
  lemma {:induction false} TableIsOwners(changes: seq<Change>, id: nat)
    ensures Owner(changes, id) == if id in TableAfter(changes) then Some(TableAfter(changes)[id]) else None
  {
    if changes != [] {
      var front, last := changes[..|changes| - 1], changes[|changes| - 1];
      TableIsOwners(front, id);
      var n := LastUnregistered(front, id);
      if last == Unregistered(id) {
        assert changes[|changes|..] == [];
      } else {
        assert changes[n..] == front[n..] + [last];
        FirstRegistrationSnoc(front[n..], last, id);
      }
    }
  }

  /** Dispatching an encoded stream-id and any payload goes to the id's owner with exactly that payload, or
      reports exactly that id as unknown. */
  lemma RouteIsOwner(changes: seq<Change>, id: nat, payload: seq<byte>)
    requires id < Varint.U64
    ensures var route := Route(TableAfter(changes), Varint.Encode(id) + payload);
            match Owner(changes, id)
            case Some(handler) => route == Ok(Delivery(handler, id, payload))
            case None => route == Err(DatagramStreamIdUnknown(id))
  {
    Wire.StreamIdRoundTrip(id, payload);
    TableIsOwners(changes, id);
    assert Varint.Encode(id) + payload != [];
  }

  /** What a lookup must answer, by the history of the table: the empty frame is too short, an unreadable prefix
      is malformed, and a readable one names its id, which has an owner or not. */
  function Expected(changes: seq<Change>, frame: seq<byte>): RpcResult<Delivery> {
    if frame == [] then Err(DatagramTooShort(0))
    else match Varint.TakeU64(frame)
      case None => Err(Wire.LEB128_READ)
      case Some((id, payload)) =>
        match Owner(changes, id)
        case None => Err(DatagramStreamIdUnknown(id))
        case Some(handler) => Ok(Delivery(handler, id, payload))
  }

  lemma RouteIsExpected(changes: seq<Change>, frame: seq<byte>)
    ensures Route(TableAfter(changes), frame) == Expected(changes, frame)
  {
    if frame != [] && Varint.TakeU64(frame).Some? { TableIsOwners(changes, Varint.TakeU64(frame).value.0); }
  }

  /** Only the empty frame is reported as too short. A frame that breaks off inside its prefix is malformed, and
      so is every other one whose prefix cannot be read. */
  lemma TooShortIsEmpty(handlers: Table, frame: seq<byte>, len: nat)
    ensures Route(handlers, frame) == Err(DatagramTooShort(len)) <==> frame == [] && len == 0
    ensures Route(handlers, frame) == Err(Wire.LEB128_READ) <==> frame != [] && Varint.TakeU64(frame).None?
    ensures frame != [] && Varint.FirstEnd(frame, 10).Short? ==> Route(handlers, frame) == Err(Wire.LEB128_READ)
    ensures Wire.LEB128_READ.MalformedFrame?
  {
  }

  // ---- dispatch tasks that race with registrations

  /** A lookup: how many changes of the table preceded it, and what it answered. */
  datatype Lookup = Lookup(after: nat, answer: RpcResult<Delivery>)

  /** One inbound datagram: `outcome` is set at its lookup. */
  datatype Inbound = Inbound(frame: seq<byte>, outcome: Option<Lookup>)

  /** A handler call: which task made it, when it looked up, and with what. */
  datatype Call = Call(task: nat, after: nat, what: Delivery)

  datatype State = State(changes: seq<Change>, pool: Pool, inbound: seq<Inbound>, calls: seq<Call>)

  datatype Action =
    | Change(c: Change)
    | Arrive(frame: seq<byte>)
    | Permit(i: nat)
    | LookUp(i: nat)
    | Finish(i: nat)

  function Init(max: nat): State { State([], Fresh(max), [], []) }

  /** Registrations and lookups are atomic; a task is spawned on arrival, acquires a permit, looks its handler
      up and runs it, and gives the permit back. */
  function Step(s: State, a: Action): Option<State> {
    match a
    case Change(c) => Some(s.(changes := s.changes + [c]))
    case Arrive(frame) =>
      Some(s.(pool := s.pool.(tasks := s.pool.tasks + [Waiting]), inbound := s.inbound + [Inbound(frame, None)]))
    case Permit(i) =>
      (match PoolStep(s.pool, Acquire(i)) case None => None case Some(p) => Some(s.(pool := p)))
    case LookUp(i) =>
      if i < |s.pool.tasks| && i < |s.inbound| && s.pool.tasks[i] == Running && s.inbound[i].outcome.None?
      then
        var route := Route(TableAfter(s.changes), s.inbound[i].frame);
        Some(s.(inbound := s.inbound[i := s.inbound[i].(outcome := Some(Lookup(|s.changes|, route)))],
                calls := if route.Ok? then s.calls + [Call(i, |s.changes|, route.value)] else s.calls))
      else None
    case Finish(i) =>
      if i < |s.inbound| && s.inbound[i].outcome.Some?
      then (match PoolStep(s.pool, End(i)) case None => None case Some(p) => Some(s.(pool := p)))
      else None
  }

  function Run(s: State, actions: seq<Action>): Option<State>
    decreases |actions|
  {
    if actions == [] then Some(s)
    else match Step(s, actions[0])
      case None => None
      case Some(t) => Run(t, actions[1..])
  }

  /** A call was made by the one task whose lookup answered with it. */
  predicate CallRight(s: State, c: Call) {
    c.task < |s.inbound| && s.inbound[c.task].outcome == Some(Lookup(c.after, Ok(c.what)))
  }

  /** A lookup answered what the history of the table up to it says: the call of the id's owner at that moment
      with the payload of the frame, or the one error that is right. */
  predicate LookupRight(changes: seq<Change>, frame: seq<byte>, l: Lookup) {
    l.after <= |changes| && l.answer == Expected(changes[..l.after], frame)
  }

  predicate TaskRight(s: State, i: nat)
    requires i < |s.inbound| == |s.pool.tasks|
  {
    var outcome := s.inbound[i].outcome;
    && (s.pool.tasks[i] == Waiting ==> outcome.None?)
    && (s.pool.tasks[i] == Ended ==> outcome.Some?)
    && (outcome.Some? ==> LookupRight(s.changes, s.inbound[i].frame, outcome.value))
    && (outcome.Some? && outcome.value.answer.Ok? ==> exists k :: 0 <= k < |s.calls| && s.calls[k].task == i)
  }

  predicate Inv(s: State) {
    && Conserved(s.pool) && |s.inbound| == |s.pool.tasks|
    && (forall k :: 0 <= k < |s.calls| ==> CallRight(s, s.calls[k]))
    && (forall k, l :: 0 <= k < l < |s.calls| ==> s.calls[k].task != s.calls[l].task)
    && (forall i :: 0 <= i < |s.inbound| ==> TaskRight(s, i))
  }

  lemma ChangeInv(s: State, c: Change)
    requires Inv(s)
    ensures Inv(s.(changes := s.changes + [c]))
  {
    var t := s.(changes := s.changes + [c]);
    forall k | 0 <= k < |t.calls| ensures CallRight(t, t.calls[k]) {
      assert CallRight(s, s.calls[k]);
    }
    forall i | 0 <= i < |t.inbound| ensures TaskRight(t, i) {
      assert TaskRight(s, i);
      if t.inbound[i].outcome.Some? {
        var after := t.inbound[i].outcome.value.after;
        assert t.changes[..after] == s.changes[..after];
      }
    }
  }

  lemma ArriveInv(s: State, t: State, frame: seq<byte>)
    requires Inv(s) && Step(s, Arrive(frame)) == Some(t)
    ensures Inv(t)
  {
    PoolStepConserves(s.pool, Spawn);
    forall k | 0 <= k < |t.calls| ensures CallRight(t, t.calls[k]) { assert CallRight(s, s.calls[k]); }
    forall i | 0 <= i < |t.inbound| ensures TaskRight(t, i) { if i < |s.inbound| { assert TaskRight(s, i); } }
  }

  lemma PermitInv(s: State, t: State, a: Action)
    requires Inv(s) && Step(s, a) == Some(t) && (a.Permit? || a.Finish?)
    ensures Inv(t)
  {
    PoolStepConserves(s.pool, if a.Permit? then Acquire(a.i) else End(a.i));
    forall k | 0 <= k < |t.calls| ensures CallRight(t, t.calls[k]) { assert CallRight(s, s.calls[k]); }
    forall i | 0 <= i < |t.inbound| ensures TaskRight(t, i) { assert TaskRight(s, i); }
  }

  lemma LookUpCalls(s: State, t: State, i: nat)
    requires Inv(s) && Step(s, LookUp(i)) == Some(t)
    ensures forall k :: 0 <= k < |t.calls| ==> CallRight(t, t.calls[k])
    ensures forall k, l :: 0 <= k < l < |t.calls| ==> t.calls[k].task != t.calls[l].task
  {
    forall k | 0 <= k < |s.calls| ensures s.calls[k].task != i && CallRight(t, s.calls[k]) {
      assert CallRight(s, s.calls[k]);
    }
  }

  lemma LookUpInv(s: State, t: State, i: nat)
    requires Inv(s) && Step(s, LookUp(i)) == Some(t)
    ensures Inv(t)
  {
    LookUpCalls(s, t, i);
    forall j | 0 <= j < |t.inbound| ensures TaskRight(t, j) {
      assert TaskRight(s, j);
      if j == i {
        RouteIsExpected(s.changes, s.inbound[i].frame);
        assert t.changes[..|t.changes|] == s.changes;
        if t.inbound[i].outcome.value.answer.Ok? { assert t.calls[|s.calls|].task == i; }
      } else if t.inbound[j].outcome.Some? && t.inbound[j].outcome.value.answer.Ok? {
        var k :| 0 <= k < |s.calls| && s.calls[k].task == j;
        assert t.calls[k].task == j;
      }
    }
  }

  lemma StepInv(s: State, a: Action)
    requires Inv(s) && Step(s, a).Some?
    ensures Inv(Step(s, a).value) && Step(s, a).value.pool.max == s.pool.max
  {
    var t := Step(s, a).value;
    match a
    case Change(c) => ChangeInv(s, c);
    case Arrive(frame) => ArriveInv(s, t, frame);
    case Permit(i) => PermitInv(s, t, a);
    case LookUp(i) => LookUpInv(s, t, i);
    case Finish(i) => PermitInv(s, t, a);
  }

  lemma {:induction false} RunInv(s: State, actions: seq<Action>)
    requires Inv(s) && Run(s, actions).Some?
    ensures Inv(Run(s, actions).value) && Run(s, actions).value.pool.max == s.pool.max
    decreases |actions|
  {
    if actions != [] {
      StepInv(s, actions[0]);
      RunInv(Step(s, actions[0]).value, actions[1..]);
    }
  }

  /** In every interleaving of arrivals, lookups, registrations and unregistrations: every lookup answers exactly
      what the history of the table up to that moment says - the owner then with the payload of the frame, the
      id as unknown exactly when it had no owner then, or the frame as unreadable; a task makes exactly one call
      if it was routed and none otherwise; and permits are conserved. */
  lemma EveryRunRoutes(max: nat, actions: seq<Action>)
    requires Run(Init(max), actions).Some?
    ensures var s := Run(Init(max), actions).value;
            && (forall k :: 0 <= k < |s.calls| ==> CallRight(s, s.calls[k]))
            && (forall k, l :: 0 <= k < l < |s.calls| ==> s.calls[k].task != s.calls[l].task)
            && |s.inbound| == |s.pool.tasks|
            && (forall i :: 0 <= i < |s.inbound| ==> TaskRight(s, i))
            && s.pool.available + Count(s.pool.tasks, Running) == max
            && (AllEnded(s.pool) ==> s.pool.available == max)
  {
    FreshConserved(max);
    RunInv(Init(max), actions);
    ConservedMeans(Run(Init(max), actions).value.pool);
  }
}
