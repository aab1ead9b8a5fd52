/** How the server's answer closes: without a loss or a failed write it is always one whole word, and once the
    handler has returned the server task closes it by its own steps alone. */
module CallClosing {
  import opened Bytes
  import opened Quic
  import opened Streaming
  import opened FrameStreams
  import opened CallWire
  import opened Pumps
  import opened Call
  import opened CallResponse
  import opened CallRuns

  /** A failure shows on the wire: a stream that was lost or broke off is not intact. */
  predicate FailuresShow(p: Response) {
    && (p.wire.end == Some(Lost) ==> !p.wire.intact)
    && (p.task == Joining(Broken) ==> !p.wire.intact)
    && (p.task == Closed(false) && p.wire.intact ==> p.wire.log == [])
  }

  /** Everything the handler left behind can be written, and its channel end went with it. */
  predicate HandlerLeft(p: Response) {
    && (forall i :: 0 <= i < |p.given| ==> SendableItem(p.given[i]))
    && (p.outcome.Some? ==> !p.senderAlive && Sendable(FinalFrame(p.outcome.value)))
  }

  predicate ClosingInv(p: Response) { FailuresShow(p) && HandlerLeft(p) }

  // ---- kept by every step

  lemma TaskLeavesHandler(p: Response, a: Action)
    requires HandlerLeft(p) && TaskStep(p, a).Some?
    ensures HandlerLeft(TaskStep(p, a).value)
  {
  }

  /** A write can fail only on an open or a lost stream, and afterwards the stream is not intact. */
  lemma CutShows(w: Wire, f: Frame, cut: nat, end: Ending)
    requires Sendable(f) && StillOpen(w) && (w.end == Some(Lost) ==> !w.intact)
    ensures !Cut(w, f, cut, end).intact
  {
  }

  lemma FailShows(cfg: Config, p: Response, cut: nat, end: Ending)
    requires TaskInv(cfg, p) && FailuresShow(p) && DrainFailStep(p, cut, end).Some?
    ensures FailuresShow(DrainFailStep(p, cut, end).value)
  {
    match p.task
    case Acking(ack) => CutShows(p.wire, ack, cut, end);
    case Emitting(item) => CutShows(p.wire, ItemFrame(item), cut, end);
    case Finalising(result) => CutShows(p.wire, FinalFrame(result), cut, end);
  }

  lemma MoveShows(p: Response, a: Action)
    requires FailuresShow(p) && TaskStep(p, a).Some? && !a.DrainFail?
    ensures FailuresShow(TaskStep(p, a).value)
  {
  }

  lemma TaskClosing(cfg: Config, p: Response, a: Action)
    requires TaskInv(cfg, p) && ClosingInv(p) && TaskStep(p, a).Some?
    ensures ClosingInv(TaskStep(p, a).value)
  {
    TaskLeavesHandler(p, a);
    if a.DrainFail? { FailShows(cfg, p, a.cut, a.end); } else { MoveShows(p, a); }
  }

  lemma ReceiveClosing(p: Response, a: Action)
    requires ClosingInv(p) && ReceiveStep(p, a).Some?
    ensures ClosingInv(ReceiveStep(p, a).value)
  {
  }

  lemma EmitClosing(p: Response, a: Action)
    requires ClosingInv(p) && EmitStep(p, a).Some?
    ensures ClosingInv(EmitStep(p, a).value)
  {
  }

  lemma JointClosing(cfg: Config, s: State, a: Action, t: State)
    requires TaskInv(cfg, s.resp) && ClosingInv(s.resp) && JointStep(cfg, s, a) == Some(t)
    ensures ClosingInv(t.resp)
  {
    match a
    case ServerOpen =>
    case ClientAck => AfterReadKeeps(s.resp.wire);
    case ServerAck =>
    case HandlerReturn(r) =>
  }

  lemma AfterReadKeeps(w: Wire)
    ensures AfterRead(w).end == w.end && AfterRead(w).intact == w.intact && AfterRead(w).log == w.log
  {
  }

  lemma ResponseUntouched(cfg: Config, s: State, a: Action, t: State)
    requires IsWriter(a) || IsInbound(a) || IsOutbound(a)
    requires Step(cfg, s, a) == Some(t)
    ensures t.resp == s.resp
  {
  }

  lemma StepClosing(cfg: Config, s: State, a: Action, t: State)
    requires TaskInv(cfg, s.resp) && ClosingInv(s.resp) && Step(cfg, s, a) == Some(t)
    ensures ClosingInv(t.resp)
  {
    if IsWriter(a) || IsInbound(a) || IsOutbound(a) { ResponseUntouched(cfg, s, a, t); }
    else if IsTask(a) { TaskClosing(cfg, s.resp, a); }
    else if IsReceive(a) { ReceiveClosing(s.resp, a); }
    else if IsEmit(a) { EmitClosing(s.resp, a); }
    else { JointClosing(cfg, s, a, t); }
  }

  lemma {:induction false} RunClosing(cfg: Config, s: State, actions: seq<Action>)
    requires Inv(cfg, s) && ClosingInv(s.resp) && Run(cfg, s, actions).Some?
    ensures ClosingInv(Run(cfg, s, actions).value.resp)
    decreases |actions|
  {
    if actions != [] {
      var t := Step(cfg, s, actions[0]).value;
      StepInv(cfg, s, actions[0], t);
      StepClosing(cfg, s, actions[0], t);
      RunClosing(cfg, t, actions[1..]);
    }
  }

  lemma ReachableClosing(cfg: Config, s: State)
    requires ValidConfig(cfg) && Reachable(cfg, s)
    ensures Inv(cfg, s) && ClosingInv(s.resp)
  {
    var actions :| Run(cfg, Init(cfg), actions) == Some(s);
    InitInv(cfg);
    ReachableInv(cfg, s);
    RunClosing(cfg, Init(cfg), actions);
  }

  // ---- without a failure the answer is whole

  predicate Over(t: Task) { t.Closed? || t == TurnedAway }

  /** Exactly one word of the server's language is on the wire, with nothing missing and nothing after it. */
  ghost predicate WholeAnswer(w: Wire) {
    w.intact && AllSendable(w.log) && CompleteWord(w.log) && w.written == EncodeAll(w.log)
  }

  lemma OverIsWhole(cfg: Config, p: Response)
    requires WireInv(p.wire) && TaskInv(cfg, p) && FailuresShow(p) && Over(p.task) && p.wire.intact && p.wire.log != []
    ensures WholeAnswer(p.wire)
  {
    OutputLanguage(cfg, p);
  }

  // ---- the server task closes by itself

  /** What the server task has still to do once its handler has returned. */
  function TaskWork(p: Response): nat {
    2 * |p.queue| + match p.task
                    case Emitting(_) => 4
                    case Draining => 3
                    case Joining(_) => 2
                    case Finalising(_) => 1
                    case _ => 0
  }

  /** The handler has returned, and no write has failed. */
  predicate Finishing(p: Response) {
    RunningTask(p.task) && p.outcome.Some? && p.wire.end.None? && p.task != Joining(Broken)
  }

  lemma ItemSendable(cfg: Config, p: Response)
    requires TaskInv(cfg, p) && HandlerLeft(p)
    ensures p.task.Emitting? ==> SendableItem(p.task.item)
  {
    if p.task.Emitting? { assert p.given[|p.drained| - 1] == p.drained[|p.drained| - 1]; }
  }

  /** The server task's next step: it always has one. */
  function NextMove(p: Response): Action {
    match p.task
    case Draining => if p.queue == [] then DrainSeeEnd else DrainTake
    case Emitting(_) => DrainWrite
    case Joining(_) => Join
    case _ => Finalise
  }

  lemma MoveExists(p: Response)
    requires HandlerLeft(p) && Finishing(p) && (p.task.Emitting? ==> SendableItem(p.task.item))
    requires p.task.Finalising? ==> p.outcome == Some(p.task.result)
    ensures TaskStep(p, NextMove(p)).Some?
  {
  }

  lemma MoveEffect(p: Response, n: Response)
    requires Finishing(p) && TaskStep(p, NextMove(p)) == Some(n)
    ensures TaskWork(n) < TaskWork(p) && OnTheWay(p, n) && (Finishing(n) || n.task == Closed(true))
  {
  }

  lemma Moves(cfg: Config, p: Response)
    requires TaskInv(cfg, p) && HandlerLeft(p) && Finishing(p)
    ensures var next := TaskStep(p, NextMove(p));
            && next.Some? && TaskWork(next.value) < TaskWork(p) && OnTheWay(p, next.value)
            && (Finishing(next.value) || next.value.task == Closed(true))
  {
    ItemSendable(cfg, p);
    MoveExists(p);
    MoveEffect(p, TaskStep(p, NextMove(p)).value);
  }

  /** What the server task is on the way to, and does not change on it. */
  predicate OnTheWay(p: Response, n: Response) {
    n.wire.intact == p.wire.intact && n.given == p.given && n.outcome == p.outcome
  }

  lemma MoveIsStep(cfg: Config, s: State)
    requires TaskStep(s.resp, NextMove(s.resp)).Some?
    ensures IsTask(NextMove(s.resp))
    ensures Step(cfg, s, NextMove(s.resp)) == Some(s.(resp := TaskStep(s.resp, NextMove(s.resp)).value))
  {
  }

  lemma OwnStep(cfg: Config, s: State) returns (t: State)
    requires Inv(cfg, s) && ClosingInv(s.resp) && Finishing(s.resp)
    ensures Step(cfg, s, NextMove(s.resp)) == Some(t) && IsTask(NextMove(s.resp))
    ensures Inv(cfg, t) && ClosingInv(t.resp) && TaskWork(t.resp) < TaskWork(s.resp) && OnTheWay(s.resp, t.resp)
    ensures Finishing(t.resp) || t.resp.task == Closed(true)
  {
    Moves(cfg, s.resp);
    MoveIsStep(cfg, s);
    t := Step(cfg, s, NextMove(s.resp)).value;
    StepInv(cfg, s, NextMove(s.resp), t);
    StepClosing(cfg, s, NextMove(s.resp), t);
  }

  lemma RunOnwards(cfg: Config, s: State, a: Action, t: State, more: seq<Action>)
    requires Step(cfg, s, a) == Some(t)
    ensures Run(cfg, s, [a] + more) == Run(cfg, t, more)
  {
    assert ([a] + more)[1..] == more;
  }

  /** A run of the server task alone that ends in its orderly close. */
  predicate ClosingRun(cfg: Config, s: State, actions: seq<Action>) {
    && |actions| <= TaskWork(s.resp)
    && (forall i :: 0 <= i < |actions| ==> IsTask(actions[i]))
    && var t := Run(cfg, s, actions);
       t.Some? && t.value.resp.task == Closed(true) && OnTheWay(s.resp, t.value.resp)
  }

  lemma ClosingRunOnwards(cfg: Config, s: State, a: Action, t: State, more: seq<Action>)
    requires Step(cfg, s, a) == Some(t) && IsTask(a) && TaskWork(t.resp) < TaskWork(s.resp)
    requires OnTheWay(s.resp, t.resp) && ClosingRun(cfg, t, more)
    ensures ClosingRun(cfg, s, [a] + more)
  {
    RunOnwards(cfg, s, a, t, more);
  }

  lemma AlreadyClosed(cfg: Config, s: State)
    requires s.resp.task == Closed(true)
    ensures ClosingRun(cfg, s, [])
  {
  }

  lemma {:induction false} ClosesFrom(cfg: Config, s: State) returns (actions: seq<Action>)
    requires Inv(cfg, s) && ClosingInv(s.resp) && (Finishing(s.resp) || s.resp.task == Closed(true))
    ensures ClosingRun(cfg, s, actions)
    decreases TaskWork(s.resp)
  {
    if s.resp.task == Closed(true) {
      actions := [];
      AlreadyClosed(cfg, s);
    } else {
      var t := OwnStep(cfg, s);
      var more := ClosesFrom(cfg, t);
      ClosingRunOnwards(cfg, s, NextMove(s.resp), t, more);
      actions := [NextMove(s.resp)] + more;
    }
  }

  lemma ClosedIsWhole(cfg: Config, s: State)
    requires Inv(cfg, s) && ClosingInv(s.resp) && s.resp.task == Closed(true) && s.resp.wire.intact
    ensures WholeAnswer(s.resp.wire)
  {
    OverIsWhole(cfg, s.resp);
  }

  /** From any reachable state in which the handler has returned and no write has failed, the server task
      closes its answer by a bounded number of its own steps, whatever everyone else leaves undone; what is
      then on the wire is exactly one word of its language, with exactly one terminal frame and that last. */
  lemma ClosesByItself(cfg: Config, s: State)
    requires ValidConfig(cfg) && Reachable(cfg, s) && Finishing(s.resp)
    ensures exists actions :: ClosingRun(cfg, s, actions) && WholeAnswer(Run(cfg, s, actions).value.resp.wire)
  {
    ReachableClosing(cfg, s);
    var actions := ClosesFrom(cfg, s);
    RunInv(cfg, s, actions);
    RunClosing(cfg, s, actions);
    ClosedIsWhole(cfg, Run(cfg, s, actions).value);
  }
}
