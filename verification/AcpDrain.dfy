/**
Cancellation: under the dispatch discipline of installing a steer receiver only
while no prompt is in flight, every drain runs without one and on a fixed deadline.
*/
module AcpDrain {
  import opened Prelude
  import opened AcpTypes
  import opened AcpMachine
  import opened AcpInvariant
  import opened AcpTheorems

  /** `install_steer_rx` is called only while no prompt is in flight. */
  predicate Disciplined(w: World, es: seq<Event>)
    decreases |es|
  {
    es == [] || ((es[0].action.Install? ==> w.lastPromptId.None?) && Disciplined(Step(w, es[0]), es[1..]))
  }

  predicate Receiverless(l: Loop)
  {
    && !l.hasRx && l.pending.None?
    && (l.kind.GraceDrain? && l.kind.grace <= CLEANUP ==> l.hard <= l.idleDeadline)
  }

  predicate DrainInv(w: World)
  {
    && (w.lastPromptId.Some? && w.steerRx ==> !w.conn.open)
    && (w.task.LoopTask? && !w.task.loop.kind.PromptLoop? ==> Receiverless(w.task.loop))
  }

  /** Handling a frame never reopens the slot. */
  lemma DispatchStaysClosed(c: Conn, m: Inbound, fate: Fate)
    ensures Dispatch(c, m, fate).0.open ==> c.open
  {
  }

  lemma LineKeepsDrain(w: World, l: Loop, m: Inbound, later: nat, fate: Fate)
    requires DrainInv(w) && w.task == LoopTask(l) && LoopInv(w, l)
    ensures DrainInv(LineArm(w, l, m, later, fate))
  {
    DispatchStaysClosed(Emit(w.conn, Read(m)), m, fate);
  }

  lemma SteerKeepsDrain(w: World, l: Loop, fate: Fate)
    requires DrainInv(w) && w.task == LoopTask(l)
    ensures DrainInv(SteerArm(w, l, fate))
  {
  }

  lemma LoopKeepsDrain(w: World, l: Loop, wait: nat, pick: Pick)
    requires DrainInv(w) && w.task == LoopTask(l) && LoopInv(w, l)
    ensures DrainInv(LoopTurn(w, l, wait, pick))
  {
    if w.clock < NextDeadline(l) {
      match pick {
        case Line(m, later, fate) => LineKeepsDrain(Pass(w, wait), l, m, later, fate);
        case Steer(fate) => SteerKeepsDrain(Pass(w, wait), l, fate);
        case _ =>
      }
    }
  }

  lemma RpcKeepsDrain(w: World, wait: nat, pick: Pick)
    requires DrainInv(w) && w.task.RpcTask?
    ensures DrainInv(RpcTurn(w, w.task, wait, pick))
  {
    if pick.Line? {
      DispatchStaysClosed(Emit(w.conn, Read(pick.m)), pick.m, pick.fate);
    }
  }

  lemma CancelKeepsDrain(w: World, grace: Option<nat>, answer: Fate, notice: Fate, wait: nat)
    requires DrainInv(w) && w.task.NoTask?
    ensures DrainInv(StartCancel(w, grace, answer, notice, wait))
  {
  }

  lemma BeginKeepsDrain(w: World, a: Action)
    requires DrainInv(w) && w.task.NoTask? && (a.Install? ==> w.lastPromptId.None?)
    ensures DrainInv(Begin(w, a))
  {
    match a {
      case Cancel(grace, answer, notice, wait) => CancelKeepsDrain(w, grace, answer, notice, wait);
      case _ =>
    }
  }

  lemma StepKeepsDrain(w: World, e: Event)
    requires TaskInv(w) && DrainInv(w) && (e.action.Install? ==> w.lastPromptId.None?)
    ensures DrainInv(Step(w, e))
  {
    var v := Pass(w, e.dt);
    if e.action.Turn? {
      match v.task {
        case NoTask =>
        case RpcTask(_, _, _) => RpcKeepsDrain(v, e.action.wait, e.action.pick);
        case LoopTask(l) => LoopKeepsDrain(v, l, e.action.wait, e.action.pick);
      }
    } else if v.task.NoTask? {
      BeginKeepsDrain(v, e.action);
    }
  }

  lemma {:induction false} RunKeepsDrain(w: World, es: seq<Event>)
    requires Inv(w) && DrainInv(w) && Disciplined(w, es)
    ensures DrainInv(Run(w, es))
    decreases |es|
  {
    if es == [] {
    } else {
      StepKeeps(w, es[0]);
      StepKeepsDrain(w, es[0]);
      RunKeepsDrain(Step(w, es[0]), es[1..]);
    }
  }

  /** In every disciplined run, a drain that is reached has no steer receiver and no steer in flight. */
  lemma DrainsHaveNoReceiver(es: seq<Event>)
    requires Disciplined(Initial(), es)
    ensures var w := Run(Initial(), es);
            w.task.LoopTask? && !w.task.loop.kind.PromptLoop? ==> !w.task.loop.hasRx && w.task.loop.pending.None?
  {
    RunKeepsDrain(Initial(), es);
  }

  // ----- when a deadline can be renewed -----

  /** Whatever happens, the loop keeps its hard deadline as long as it goes on. */
  ghost predicate DeadlineFixed(w: World)
    requires w.task.LoopTask?
  {
    forall es :: StaysInLoop(w, es) ==>
      Run(w, es).task.LoopTask? && Run(w, es).task.loop.hard == w.task.loop.hard
  }

  lemma NoReceiverNoSteer(w: World, e: Event)
    requires w.task.LoopTask? && !w.task.loop.hasRx && w.task.loop.pending.None? && Step(w, e).task.LoopTask?
    ensures var l := Step(w, e).task.loop; !l.hasRx && l.pending.None? && l.hard == w.task.loop.hard
  {
    HardMovesExactly(w, e);
  }

  lemma {:induction false} NoReceiverFixed(w: World, es: seq<Event>)
    requires StaysInLoop(w, es) && !w.task.loop.hasRx && w.task.loop.pending.None?
    ensures Run(w, es).task.LoopTask? && Run(w, es).task.loop.hard == w.task.loop.hard
    decreases |es|
  {
    if es == [] {
    } else {
      NoReceiverNoSteer(w, es[0]);
      NoReceiverFixed(Step(w, es[0]), es[1..]);
    }
  }

  lemma {:induction false} ExpiredFixed(w: World, es: seq<Event>)
    requires StaysInLoop(w, es) && w.clock >= w.task.loop.hard
    ensures Run(w, es).task.LoopTask? && Run(w, es).task.loop.hard == w.task.loop.hard
    decreases |es|
  {
    if es == [] {
    } else {
      if es[0].action.Turn? {
        LateIterationTimesOut(w, es[0]);
      }
      ExpiredFixed(Step(w, es[0]), es[1..]);
    }
  }

  function Message(m: Inbound, later: nat): Event
  {
    Event(0, Turn(0, Line(m, later, Done)))
  }

  const RUN_STARTED := Inbound(None, SessionUpdate(SessionInfo(SetRun("r"))), None, Payload("", false, Unrecognized))

  function Answered(id: nat): Inbound
  {
    Inbound(Some(Num(id)), Absent, None, Payload("", false, Unrecognized))
  }

  /** The agent reports a run, a steer is taken and written as request `id`, and the agent accepts it. */
  function Renewal(id: nat, later: nat): seq<Event>
  {
    [Message(RUN_STARTED, 0), Event(0, Turn(0, Steer(Done))), Message(Answered(id), later)]
  }

  lemma RunReported(w: World)
    requires w.task.LoopTask? && w.clock < NextDeadline(w.task.loop)
    ensures var v := Step(w, Message(RUN_STARTED, 0));
            && v.task == LoopTask(Active(w.task.loop, w.clock)) && v.clock == w.clock && v.conn.activeRun.Some?
            && v.conn.open == w.conn.open && v.conn.nextId == w.conn.nextId
  {
  }

  lemma SteerWritten(w: World)
    requires w.task.LoopTask? && w.clock < NextDeadline(w.task.loop) && w.task.loop.hasRx && w.task.loop.pending.None?
    requires w.conn.open && w.conn.activeRun.Some?
    ensures var v := Step(w, Event(0, Turn(0, Steer(Done))));
            && v.task == LoopTask(w.task.loop.(pending := Some(Pending(w.conn.nextId, Goose, w.conn.taken))))
            && v.clock == w.clock
  {
  }

  lemma SteerAccepted(w: World, later: nat)
    requires w.task.LoopTask? && w.clock < NextDeadline(w.task.loop)
    requires w.task.loop.pending.Some? && w.task.loop.pending.value.transport.Goose?
    requires w.clock + later + w.task.loop.maxDuration > w.task.loop.hard
    ensures var v := Step(w, Message(Answered(w.task.loop.pending.value.id), later));
            v.task.LoopTask? && v.task.loop.hard == w.clock + later + w.task.loop.maxDuration
  {
  }

  /** Any loop with a receiver that can still iterate can have its deadline renewed. */
  lemma ReceiverRenews(w: World, later: nat)
    requires w.task.LoopTask?
    requires var l := w.task.loop;
             && l.hasRx && l.pending.None? && l.idle > 0 && l.id != w.conn.nextId
             && w.conn.open && w.clock < NextDeadline(l) && w.clock + later + l.maxDuration > l.hard
    ensures var es := Renewal(w.conn.nextId, later);
            && StaysInLoop(w, es) && Run(w, es).task.LoopTask?
            && Run(w, es).task.loop.hard == w.clock + later + w.task.loop.maxDuration
  {
    var es := Renewal(w.conn.nextId, later);
    var w1, w2 := Step(w, es[0]), Step(Step(w, es[0]), es[1]);
    var w3 := Step(w2, es[2]);
    RunReported(w);
    SteerWritten(w1);
    SteerAccepted(w2, later);
    assert es[1..][1..] == es[2..] && es[2..][1..] == [];
    assert Run(w2, es[2..]) == w3 && StaysInLoop(w2, es[2..]);
    assert Run(w1, es[1..]) == w3 && StaysInLoop(w1, es[1..]);
  }

  /**
  The deadline of a drain is fixed exactly if no receiver was installed when the
  cancellation began, or the deadline had already passed when the drain started.
  */
  lemma DrainFixedExactly(w: World, e: Event)
    requires Inv(w) && w.task.NoTask? && e.action.Cancel? && Step(w, e).task.LoopTask?
    ensures var v := Step(w, e);
            DeadlineFixed(v) <==> !w.steerRx || v.clock >= v.task.loop.hard
  {
    var v := Step(w, e);
    DrainStarts(w, e);
    if !w.steerRx {
      forall es | StaysInLoop(v, es)
        ensures Run(v, es).task.LoopTask? && Run(v, es).task.loop.hard == v.task.loop.hard
      {
        NoReceiverFixed(v, es);
      }
    } else if v.clock >= v.task.loop.hard {
      forall es | StaysInLoop(v, es)
        ensures Run(v, es).task.LoopTask? && Run(v, es).task.loop.hard == v.task.loop.hard
      {
        ExpiredFixed(v, es);
      }
    } else {
      StepKeeps(w, e);
      ReceiverRenews(v, 1);
      assert StaysInLoop(v, Renewal(v.conn.nextId, 1));
    }
  }

  lemma DrainStarts(w: World, e: Event)
    requires w.task.NoTask? && e.action.Cancel? && Step(w, e).task.LoopTask?
    ensures var v := Step(w, e); var l := v.task.loop;
            v.conn.open && l.hasRx == w.steerRx && FreshDrain(l, v.clock)
  {
    var v := Pass(w, e.dt);
    var a := e.action;
    CancelUntilStarts(v.(currentHard := None), DrainKind(a.grace), DrainDeadline(v, a.grace),
                      a.answer, a.notice, a.wait);
  }

  /** A drain that has just started at `now`. */
  predicate FreshDrain(l: Loop, now: nat)
  {
    && l.pending.None? && l.idle == CLEANUP && l.idleDeadline == now + CLEANUP
    && (now < l.hard ==> now + l.maxDuration == l.hard)
  }

  lemma NoticeStarts(w: World, c: Conn, kind: LoopKind, id: nat, hard: nat, notice: Fate, wait: nat)
    requires w.task.NoTask? && SendNotice(w, c, kind, id, hard, notice, wait).task.LoopTask?
    ensures var v := SendNotice(w, c, kind, id, hard, notice, wait); var l := v.task.loop;
            v.conn.open && l.hasRx == w.steerRx && FreshDrain(l, v.clock)
  {
  }

  lemma CancelUntilStarts(w: World, kind: LoopKind, hard: nat, answer: Fate, notice: Fate, wait: nat)
    requires w.task.NoTask? && CancelUntil(w, kind, hard, answer, notice, wait).task.LoopTask?
    ensures var v := CancelUntil(w, kind, hard, answer, notice, wait); var l := v.task.loop;
            v.conn.open && l.hasRx == w.steerRx && FreshDrain(l, v.clock)
  {
    var id, v, c := w.lastPromptId.value, w.(lastPromptId := None), w.conn;
    if c.pendingPermission.None? {
      NoticeStarts(v, c, kind, id, hard, notice, wait);
    } else if c.permissionResponded {
      NoticeStarts(v, c.(pendingPermission := None, permissionResponded := false), kind, id, hard, notice, wait);
    } else {
      var d := Answer(c, Cancelled(c.pendingPermission.value), answer, false).0;
      NoticeStarts(v, d, kind, id, hard, notice, wait);
    }
  }

  /** The drain awaits the cancelled prompt, until the grace is over or the inherited budget is, with a floor. */
  lemma CancelDrainsTo(w: World, e: Event)
    requires w.task.NoTask? && e.action.Cancel? && Step(w, e).task.LoopTask?
    ensures var l := Step(w, e).task.loop; var now := w.clock + e.dt;
            && w.lastPromptId == Some(l.id) && Step(w, e).lastPromptId.None? && Step(w, e).currentHard.None?
            && l.idle == CLEANUP
            && match e.action.grace
               case Some(g) => l.kind == GraceDrain(g) && l.hard == now + g
               case None =>
                 && l.kind.CleanupDrain? && l.hard >= now + CLEANUP
                 && (w.currentHard.Some? ==> l.hard >= w.currentHard.value)
                 && (l.hard == now + CLEANUP || w.currentHard == Some(l.hard))
  {
  }

  /** Before the drain, a permission still owed an answer is answered `cancelled`, and then the agent is notified. */
  lemma CancelTellsAgent(w: World, e: Event)
    requires Inv(w) && w.task.NoTask? && e.action.Cancel? && Step(w, e).task.LoopTask?
    ensures var v := Step(w, e); var owed := w.conn.pendingPermission;
            && v.conn.pendingPermission.None? && v.conn.open
            && v.conn.trace ==
               After(if owed.Some? then After(w.conn.trace, Wire(Cancelled(owed.value))) else w.conn.trace,
                     Wire(CancelNotice))
  {
  }

  lemma {:induction false} StaysAsLong(w: World, es: seq<Event>, i: nat)
    requires StaysInLoop(w, es) && i <= |es|
    ensures StaysInLoop(w, es[..i])
    decreases i
  {
    if i == 0 {
    } else {
      StaysAsLong(Step(w, es[0]), es[1..], i - 1);
      assert es[..i][1..] == es[1..][..i - 1];
    }
  }

  /** Through a whole prompt the hard deadline is at least start plus budget, and exactly that without a receiver. */
  lemma PromptBudget(w: World, e: Event, es: seq<Event>)
    requires w.task.NoTask? && e.action.Prompt? && StaysInLoop(Step(w, e), es)
    ensures var v := Run(Step(w, e), es); var due := w.clock + e.dt + e.action.max;
            v.task.LoopTask? && v.task.loop.hard >= due && (!w.steerRx ==> v.task.loop.hard == due)
  {
    PromptStarts(w, e);
    HardNeverDecreases(Step(w, e), es);
    if !w.steerRx {
      NoReceiverFixed(Step(w, e), es);
    }
  }

  /** A bounded cancellation without a receiver begins no iteration after its grace, counted from the call. */
  lemma GraceIsKept(w: World, e: Event, es: seq<Event>, i: nat)
    requires w.task.NoTask? && e.action.Cancel? && e.action.grace.Some? && !w.steerRx
    requires StaysInLoop(Step(w, e), es) && i < |es| && es[i].action.Turn?
    ensures Run(Step(w, e), es[..i]).clock + es[i].dt < w.clock + e.dt + e.action.grace.value
  {
    CancelDrainsTo(w, e);
    DrainStarts(w, e);
    StaysAsLong(Step(w, e), es, i);
    NoReceiverFixed(Step(w, e), es[..i]);
    NoLateIteration(Step(w, e), es, i);
  }

  /** A bounded cancellation never reports a hard timeout, and with a grace of at most 30 s no idle timeout. */
  lemma GraceReplies(es: seq<Event>, wait: nat, pick: Pick)
    requires Disciplined(Initial(), es) && !pick.Dropped?
    requires var w := Run(Initial(), es); w.task.LoopTask? && w.task.loop.kind.GraceDrain?
    ensures var w := Run(Initial(), es);
            var r := Reported(LoopTurn(w, w.task.loop, wait, pick));
            && r != Some(Err(HardTimeout))
            && (w.task.loop.kind.grace <= CLEANUP ==> r != Some(Err(IdleTimeout)))
  {
    var w := Run(Initial(), es);
    ReachableInv(es);
    RunKeepsDrain(Initial(), es);
    TimeoutsAreDue(w, w.task.loop, wait, pick);
  }

  // ----- where the promises end -----

  const UNANSWERABLE := Inbound(None, RequestPermission(None), None, Payload("", false, Unrecognized))

  /** A prompt is under way and a steer over the Goose transport is in flight. */
  const STEERED_PROMPT: seq<Event> :=
    [Event(0, Install), Event(0, Prompt(10 * SECOND, 60 * SECOND, Done, 0)), Message(RUN_STARTED, 1),
     Event(0, Turn(0, Steer(Done)))]

  lemma SteeredPromptState()
    ensures var w := Run(Initial(), STEERED_PROMPT);
            && w.task.LoopTask? && w.task.loop.pending == Some(Pending(1, Goose, 0)) && w.task.loop.kind.PromptLoop?
            && w.clock == 0 && NextDeadline(w.task.loop) > 0 && w.task.loop.id == 0
  {
    var es := STEERED_PROMPT;
    var w1 := Step(Initial(), es[0]);
    var w2 := Step(w1, es[1]);
    var w3 := Step(w2, es[2]);
    var w4 := Step(w3, es[3]);
    assert es[1..][1..] == es[2..] && es[2..][1..] == es[3..] && es[3..][1..] == [];
    assert Run(w3, es[3..]) == w4;
    assert Run(w2, es[2..]) == w4;
    assert Run(w1, es[1..]) == w4;
  }

  /**
  The read loop does not answer the steer in flight on every return path: a
  permission request without an id makes it return and the oneshot is dropped.
  */
  lemma ReturnWithoutDrain()
    ensures var w := Run(Initial(), STEERED_PROMPT + [Message(UNANSWERABLE, 1)]);
            && Reported(w) == Some(Err(Protocol))
            && w.conn.trace.earlier.After? && w.conn.trace.earlier.last == Closed(0)
  {
    SteeredPromptState();
    RunSnoc(Initial(), STEERED_PROMPT, Message(UNANSWERABLE, 1));
  }

  /** A receiver installed while a cancelled prompt is still in flight. */
  const CANCELLED: seq<Event> :=
    [Event(0, Prompt(10 * SECOND, 60 * SECOND, Done, 0)), Event(0, Turn(0, Dropped)), Event(0, Install),
     Event(0, Cancel(Some(CLEANUP), Done, Done, 0))]
  const UNDISCIPLINED: seq<Event> :=
    CANCELLED + [Message(RUN_STARTED, 1)] + [Event(0, Turn(0, Steer(Done)))] + [Message(Answered(1), 1)]

  lemma CancelledState()
    ensures var w := Run(Initial(), CANCELLED);
            && w.conn.open && w.conn.taken == 0 && w.conn.nextId == 1 && w.clock == 0
            && w.task == LoopTask(Loop(GraceDrain(CLEANUP), 0, CLEANUP, CLEANUP, true, None, CLEANUP, CLEANUP, 0))
  {
    var es := CANCELLED;
    var w1 := Step(Initial(), es[0]);
    var w2 := Step(w1, es[1]);
    var w3 := Step(w2, es[2]);
    var w4 := Step(w3, es[3]);
    assert es[1..][1..] == es[2..] && es[2..][1..] == es[3..] && es[3..][1..] == [];
    assert Run(w3, es[3..]) == w4;
    assert Run(w2, es[2..]) == w4;
    assert Run(w1, es[1..]) == w4;
  }

  lemma UndisciplinedState()
    ensures var w := Run(Initial(), UNDISCIPLINED);
            && w.task.LoopTask? && w.task.loop.kind == GraceDrain(CLEANUP) && w.task.loop.hasRx
            && w.task.loop.idleDeadline == CLEANUP < w.task.loop.hard == CLEANUP + 1
  {
    var started := CANCELLED + [Message(RUN_STARTED, 1)];
    var steered := started + [Event(0, Turn(0, Steer(Done)))];
    CancelledState();
    RunSnoc(Initial(), CANCELLED, Message(RUN_STARTED, 1));
    RunSnoc(Initial(), started, Event(0, Turn(0, Steer(Done))));
    RunSnoc(Initial(), steered, Message(Answered(1), 1));
  }

  /** Without the discipline a steer renews a 30 s drain, which then ends in an idle timeout. */
  lemma DisciplineIsNeeded()
    ensures var w := Run(Initial(), UNDISCIPLINED);
            && w.task.LoopTask? && w.task.loop.kind == GraceDrain(CLEANUP)
            && Reported(LoopTurn(w, w.task.loop, 0, Wake)) == Some(Err(IdleTimeout))
  {
    UndisciplinedState();
  }
}
