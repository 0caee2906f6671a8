/**
What the ACP client guarantees over whole runs, against any agent, any clock, any
write failures and any dropped futures.
*/
module AcpTheorems {
  import opened Prelude
  import opened AcpTypes
  import opened AcpMachine
  import opened AcpInvariant

  /** The history of a run from a fresh client. */
  function History(es: seq<Event>): Trace
  {
    Run(Initial(), es).conn.trace
  }

  lemma ReachableInv(es: seq<Event>)
    ensures Inv(Run(Initial(), es)) && Good(History(es))
  {
    RunKeeps(Initial(), es);
  }

  lemma {:induction false} MomentJustified(t: Trace, h: Trace, o: Obs)
    requires Good(t) && Moment(After(h, o), t)
    ensures Good(h) && Justified(h, o)
  {
    if After(h, o) != t {
      MomentJustified(t.earlier, h, o);
    }
  }

  // ----- steers -----

  lemma {:induction false} ResolutionsCount(t: Trace, k: nat)
    requires Good(t)
    ensures Resolutions(t, k) == if k in ResolvedSet(t) then 1 else 0
  {
    if t.Start? {
    } else {
      ResolutionsCount(t.earlier, k);
    }
  }

  /** In every run, each steer request taken is resolved exactly once, unless it is the one in flight. */
  lemma SteerResolvedOnce(es: seq<Event>, k: nat)
    ensures var w := Run(Initial(), es);
            Resolutions(w.conn.trace, k) == if k < w.conn.taken && InFlight(w) != Some(k) then 1 else 0
  {
    ReachableInv(es);
    ResolutionsCount(History(es), k);
  }

  /** A steer request is taken only when every earlier one is resolved: at most one is in flight. */
  lemma OneSteerAtATime(es: seq<Event>, h: Trace, k: nat)
    requires Moment(After(h, Taken(k)), History(es))
    ensures k !in TakenSet(h) && forall j :: j in TakenSet(h) ==> Resolutions(h, j) == 1
  {
    ReachableInv(es);
    MomentJustified(History(es), h, Taken(k));
    forall j | j in TakenSet(h) ensures Resolutions(h, j) == 1 {
      ResolutionsCount(h, j);
    }
  }

  /** `Success` is sent only for a steer whose frame arrived and whose response positively accepted it. */
  lemma SuccessMeansDelivered(es: seq<Event>, h: Trace, k: nat)
    requires Moment(After(h, Acked(k, Success)), History(es))
    ensures Delivered(h, k)
  {
    ReachableInv(es);
    MomentJustified(History(es), h, Acked(k, Success));
  }

  /** Every ack says what happened: an error or outcome is the agent's answer to that very steer. */
  lemma AcksAreTrue(es: seq<Event>, h: Trace, k: nat, ack: Ack)
    requires Moment(After(h, Acked(k, ack)), History(es))
    ensures AckFits(h, k, ack)
  {
    ReachableInv(es);
    MomentJustified(History(es), h, Acked(k, ack));
  }

  lemma {:induction false} NextMoment(t: Trace, h: Trace) returns (o: Obs)
    requires Moment(h, t) && h != t
    ensures Moment(After(h, o), t)
  {
    if t.earlier == h {
      o := t.last;
    } else {
      o := NextMoment(t.earlier, h);
    }
  }

  /** A neutral release is followed at once by the return of the call it was taken under. */
  lemma NeutralReleaseReturns(es: seq<Event>, h: Trace, k: nat) returns (id: nat, r: Reply)
    requires Moment(After(h, Acked(k, PromptCompletedNeutral)), History(es))
    ensures Moment(After(After(h, Acked(k, PromptCompletedNeutral)), Returned(id, r)), History(es))
  {
    ReachableInv(es);
    var released := After(h, Acked(k, PromptCompletedNeutral));
    var o := NextMoment(History(es), released);
    MomentJustified(History(es), released, o);
    id, r := o.id, o.reply;
  }

  /** After a steer was acked as a transport failure, the slot is closed and no frame reaches the agent any more. */
  lemma SilentAfterTransportFailure(es: seq<Event>, h: Trace, f: Frame)
    ensures Severed(History(es)) ==> !Run(Initial(), es).conn.open
    ensures Moment(After(h, Wire(f)), History(es)) ==> !Severed(h)
  {
    ReachableInv(es);
    if Moment(After(h, Wire(f)), History(es)) {
      MomentJustified(History(es), h, Wire(f));
    }
  }

  /** Yet the steer acked so may have arrived whole: wherever one can be taken, the flush alone may fail. */
  lemma TransportFailureMayDeliver(w: World, l: Loop)
    requires l.hasRx && l.pending.None? && w.conn.open && w.conn.activeRun.Some?
    ensures var k, id := w.conn.taken, w.conn.nextId;
            SteerArm(w, l, Broken(true, Failure)).conn.trace ==
            After(After(After(w.conn.trace, Taken(k)), Wire(Request(id, SteerCall(k, Goose, w.conn.activeRun)))),
                  Acked(k, TransportFailed(Io)))
  {
  }

  /** A steer frame names the freshest run, or goes over the extension the agent advertised. */
  lemma SteerFrameFits(es: seq<Event>, h: Trace, id: nat, k: nat, transport: Transport, run: Option<string>)
    requires Moment(After(h, Wire(Request(id, SteerCall(k, transport, run)))), History(es))
    ensures run == LatestRun(h) && (transport.Goose? <==> run.Some?)
    ensures transport.AcpExtension? ==> Capable(h)
  {
    ReachableInv(es);
    MomentJustified(History(es), h, Wire(Request(id, SteerCall(k, transport, run))));
  }

  /** The capability is recorded only from an answer to `initialize` that carried it. */
  lemma CapabilityCameFromAgent(es: seq<Event>, h: Trace, supported: bool)
    requires Moment(After(h, Initialized(supported)), History(es))
    ensures InitializeAnswered(h, supported)
  {
    ReachableInv(es);
    MomentJustified(History(es), h, Initialized(supported));
  }

  // ----- a steer dropped unanswered -----

  /** Handling `m` fails or is cut off. */
  predicate Breaks(c: Conn, m: Inbound, fate: Fate)
  {
    match m.verb
    case RequestPermission(options) => m.id.None? || Choose(options).None? || !c.open || fate.Broken?
    case Unknown => m.id.Some? && (!c.open || fate.Broken?)
    case _ => false
  }

  /** The event drops a steer's oneshot unanswered. */
  predicate ClosesSteer(w: World, e: Event)
  {
    && w.task.LoopTask? && e.action.Turn?
    && var l := w.task.loop;
    && w.clock + e.dt < NextDeadline(l)
    && match e.action.pick
       case Dropped => l.pending.Some?
       case Steer(fate) =>
         l.hasRx && l.pending.None? && Transports(w.conn).Some? && w.conn.open && fate.Broken? && fate.how.Drop?
       case Line(m, _, fate) =>
         l.pending.Some? && !Answers(m, l.pending.value.id) && !Answers(m, l.id) && Breaks(w.conn, m, fate)
       case _ => false
  }

  lemma BreaksExactly(c: Conn, m: Inbound, fate: Fate)
    ensures Dispatch(Emit(c, Read(m)), m, fate).1.Wrote? <==> !Breaks(c, m, fate)
  {
  }

  lemma DispatchCloses(w: World, c: Conn, l: Loop, m: Inbound, fate: Fate)
    ensures Closings(DispatchArm(w, c, l, m, fate).conn.trace) == Closings(c.trace) +
            if l.pending.Some? && !Dispatch(c, m, fate).1.Wrote? then 1 else 0
  {
    var (d, r) := Dispatch(c, m, fate);
    DispatchFrame(c, m, fate);
    assert Closings(d.trace) == Closings(c.trace);
    if r.Failed? {
      ReturnCloses(w, d, l, Err(r.error));
    }
  }

  lemma ReturnCloses(w: World, c: Conn, l: Loop, r: Reply)
    ensures Closings(Return(w, c, l, r).conn.trace) == Closings(c.trace) + if l.pending.Some? then 1 else 0
  {
    assert Closings(DropLocals(c, l).trace) == Closings(c.trace) + if l.pending.Some? then 1 else 0;
  }

  lemma LineCloses(w: World, l: Loop, m: Inbound, later: nat, fate: Fate)
    ensures Closings(LineArm(w, l, m, later, fate).conn.trace) == Closings(w.conn.trace) +
            if l.pending.Some? && !Answers(m, l.pending.value.id) && !Answers(m, l.id) && Breaks(w.conn, m, fate)
            then 1 else 0
  {
    var c := Emit(w.conn, Read(m));
    assert Closings(c.trace) == Closings(w.conn.trace);
    BreaksExactly(w.conn, m, fate);
    DispatchCloses(w, c, Active(l, w.clock), m, fate);
    EndingCloses(w, c, Active(l, w.clock), if m.error.Some? then Err(AgentError(m.error.value)) else Ok(m.result));
  }

  lemma SteerCloses(w: World, l: Loop, fate: Fate)
    ensures Closings(SteerArm(w, l, fate).conn.trace) == Closings(w.conn.trace) +
            if l.hasRx && l.pending.None? && Transports(w.conn).Some? && w.conn.open && fate.Broken? && fate.how.Drop?
            then 1 else 0
  {
    var d := TakeSteer(w.conn, fate).0;
    var taken := Emit(w.conn.(taken := w.conn.taken + 1), Taken(w.conn.taken));
    assert Closings(taken.trace) == Closings(w.conn.trace);
    assert Closings(d.trace) == Closings(w.conn.trace);
  }

  lemma NoticeCloses(w: World, c: Conn, kind: LoopKind, id: nat, hard: nat, notice: Fate, wait: nat)
    ensures Closings(SendNotice(w, c, kind, id, hard, notice, wait).conn.trace) == Closings(c.trace)
  {
    WriteCloses(c, CancelNotice, notice);
  }

  lemma CancelUntilCloses(w: World, kind: LoopKind, hard: nat, answer: Fate, notice: Fate, wait: nat)
    ensures Closings(CancelUntil(w, kind, hard, answer, notice, wait).conn.trace) == Closings(w.conn.trace)
  {
    if w.lastPromptId.Some? {
      var id, v, c := w.lastPromptId.value, w.(lastPromptId := None), w.conn;
      if c.pendingPermission.None? {
        NoticeCloses(v, c, kind, id, hard, notice, wait);
      } else if c.permissionResponded {
        NoticeCloses(v, c.(pendingPermission := None, permissionResponded := false), kind, id, hard, notice, wait);
      } else {
        WriteCloses(c, Cancelled(c.pendingPermission.value), answer);
        NoticeCloses(v, Answer(c, Cancelled(c.pendingPermission.value), answer, false).0, kind, id, hard, notice, wait);
      }
    }
  }

  lemma CancelCloses(w: World, grace: Option<nat>, answer: Fate, notice: Fate, wait: nat)
    ensures Closings(StartCancel(w, grace, answer, notice, wait).conn.trace) == Closings(w.conn.trace)
  {
    CancelUntilCloses(w.(currentHard := None), DrainKind(grace), DrainDeadline(w, grace), answer, notice, wait);
  }

  lemma WriteCloses(c: Conn, f: Frame, fate: Fate)
    ensures Closings(Write(c, f, fate).0.trace) == Closings(c.trace)
  {
  }

  lemma RpcCloses(w: World, wait: nat, pick: Pick)
    requires w.task.RpcTask?
    ensures Closings(RpcTurn(w, w.task, wait, pick).conn.trace) == Closings(w.conn.trace)
  {
    if pick.Line? {
      var c := Emit(w.conn, Read(pick.m));
      assert Closings(c.trace) == Closings(w.conn.trace);
      assert Closings(RecordCapability(c, pick.m).trace) == Closings(c.trace);
      DispatchFrame(c, pick.m, pick.fate);
      assert Closings(Dispatch(c, pick.m, pick.fate).0.trace) == Closings(c.trace);
    }
  }

  lemma EndingCloses(w: World, c: Conn, l: Loop, r: Reply)
    ensures Closings(NeutralReturn(w, c, l, r).conn.trace) == Closings(c.trace)
  {
    assert Closings(Neutral(c, l).trace) == Closings(c.trace);
  }

  lemma LoopCloses(w: World, l: Loop, wait: nat, pick: Pick)
    ensures Closings(LoopTurn(w, l, wait, pick).conn.trace) == Closings(w.conn.trace) +
            if ClosesSteer(w.(task := LoopTask(l)), Event(0, Turn(wait, pick))) then 1 else 0
  {
    if w.clock >= NextDeadline(l) {
      EndingCloses(w, w.conn, l, TimeoutReply(l));
    } else {
      var v := Pass(w, wait);
      match pick {
        case Line(m, later, fate) => LineCloses(v, l, m, later, fate);
        case Steer(fate) => SteerCloses(v, l, fate);
        case Eof => EndingCloses(v, v.conn, l, Err(AgentExited));
        case TooLong => EndingCloses(v, v.conn, l, Err(Protocol));
        case ReadError => EndingCloses(v, v.conn, l, Err(Io));
        case Wake =>
          EndingCloses(if v.clock < NextDeadline(l) then v.(clock := NextDeadline(l)) else v,
                       v.conn, l, TimeoutReply(l));
        case Skip =>
        case Dropped =>
      }
    }
  }

  lemma StartRpcCloses(w: World, initialize: bool, fate: Fate, wait: nat)
    ensures Closings(StartRpc(w, initialize, fate, wait).conn.trace) == Closings(w.conn.trace)
  {
    WriteCloses(w.conn.(nextId := w.conn.nextId + 1),
                Request(w.conn.nextId, if initialize then InitializeCall else OtherCall), fate);
  }

  lemma StartPromptCloses(w: World, idle: nat, max: nat, fate: Fate, wait: nat)
    ensures Closings(StartPrompt(w, idle, max, fate, wait).conn.trace) == Closings(w.conn.trace)
  {
    WriteCloses(w.conn.(nextId := w.conn.nextId + 1), Request(w.conn.nextId, PromptCall), fate);
  }

  lemma BeginCloses(w: World, a: Action)
    ensures Closings(Begin(w, a).conn.trace) == Closings(w.conn.trace)
  {
    match a {
      case Notify(fate) => WriteCloses(w.conn, CancelNotice, fate);
      case Rpc(initialize, fate, wait) => StartRpcCloses(w, initialize, fate, wait);
      case Prompt(idle, max, fate, wait) => StartPromptCloses(w, idle, max, fate, wait);
      case Cancel(grace, answer, notice, wait) => CancelCloses(w, grace, answer, notice, wait);
      case _ =>
    }
  }

  /**
  A steer is left unanswered exactly when the future is dropped with one in hand,
  or when an error of the permission handler or of the -32601 write is propagated
  past one in flight.
  */
  lemma ClosedExactly(w: World, e: Event)
    ensures Closings(Step(w, e).conn.trace) == Closings(w.conn.trace) + if ClosesSteer(w, e) then 1 else 0
  {
    var v := Pass(w, e.dt);
    if e.action.Turn? {
      match v.task {
        case NoTask =>
        case RpcTask(_, _, _) => RpcCloses(v, e.action.wait, e.action.pick);
        case LoopTask(l) => LoopCloses(v, l, e.action.wait, e.action.pick);
      }
    } else if v.task.NoTask? {
      BeginCloses(v, e.action);
    }
  }

  // ----- permissions -----

  /** In every run, a permission id is answered only while its latest request is unanswered. */
  lemma PermissionAnsweredAtMostOnce(es: seq<Event>, h: Trace, v: Id, f: Frame)
    requires Moment(After(h, Wire(f)), History(es)) && AnswersPermission(Wire(f), v)
    ensures Outstanding(h, v) && !Outstanding(After(h, Wire(f)), v)
  {
    ReachableInv(es);
    MomentJustified(History(es), h, Wire(f));
  }

  /** So at every moment an id has been answered at most as often as it was asked. */
  lemma AnswersNeverExceedRequests(es: seq<Event>, h: Trace, v: Id)
    requires Moment(h, History(es))
    ensures Responses(h, v) + (if Outstanding(h, v) then 1 else 0) <= Requests(h, v)
  {
    ReachableInv(es);
    MomentGood(History(es), h);
    ResponsesBounded(h, v);
  }

  lemma {:induction false} MomentGood(t: Trace, h: Trace)
    requires Good(t) && Moment(h, t)
    ensures Good(h)
  {
    if h != t {
      MomentGood(t.earlier, h);
    }
  }

  /** A granting answer goes to the request just read, with the option the protocol prefers. */
  lemma AnswersAreForTheRequestRead(es: seq<Event>, h: Trace, f: Frame)
    requires Moment(After(h, Wire(f)), History(es))
    ensures f.Selected? ==> Grants(h, f.to, f.optionId)
    ensures f.MethodNotFound? ==> Unsupported(h, f.to)
  {
    ReachableInv(es);
    MomentJustified(History(es), h, Wire(f));
  }

  /** A permission kept as pending has not been answered. */
  lemma PendingMeansUnanswered(es: seq<Event>)
    ensures var c := Run(Initial(), es).conn;
            c.pendingPermission.Some? ==>
              && !c.permissionResponded
              && (c.open ==> Outstanding(c.trace, c.pendingPermission.value))
  {
    ReachableInv(es);
  }

  // ----- ids and replies -----

  lemma {:induction false} BelowMember(t: Trace, n: nat, id: nat, call: Call)
    requires IdsBelow(t, n) && Has(t, Wire(Request(id, call)))
    ensures id < n
  {
    if t.last != Wire(Request(id, call)) {
      BelowMember(t.earlier, n, id, call);
    }
  }

  /** Request ids on the wire strictly increase. */
  lemma RequestIdsIncrease(es: seq<Event>, h: Trace, id: nat, call: Call, id': nat, call': Call)
    requires Moment(After(h, Wire(Request(id', call'))), History(es))
    requires Has(h, Wire(Request(id, call)))
    ensures id < id'
  {
    ReachableInv(es);
    MomentJustified(History(es), h, Wire(Request(id', call')));
    BelowMember(h, id', id, call);
  }

  /** An id is issued once: two requests with one id are the same. */
  lemma {:induction false} OneRequestPerId(t: Trace, id: nat, call: Call, call': Call)
    requires Good(t) && Has(t, Wire(Request(id, call))) && Has(t, Wire(Request(id, call')))
    ensures call == call'
  {
    if t.last == Wire(Request(id, call)) || t.last == Wire(Request(id, call')) {
      var other := if t.last == Wire(Request(id, call)) then call' else call;
      if Has(t.earlier, Wire(Request(id, other))) {
        BelowMember(t.earlier, id, id, other);
      }
    } else {
      OneRequestPerId(t.earlier, id, call, call');
    }
  }

  lemma {:induction false} IssuedCall(t: Trace, id: nat) returns (call: Call)
    requires Issued(t, id)
    ensures Has(t, Wire(Request(id, call))) && !call.SteerCall?
  {
    if Issued(t.earlier, id) {
      call := IssuedCall(t.earlier, id);
    } else {
      call := t.last.f.call;
    }
  }

  lemma {:induction false} IssuedBefore(t: Trace, id: nat)
    requires Issued(BeforeRead(t), id)
    ensures Issued(t, id)
  {
    if t.last.Read? {
    } else {
      IssuedBefore(t.earlier, id);
    }
  }

  lemma IssuedForNoSteer(t: Trace, id: nat, call: Call)
    requires Good(t) && Issued(t, id) && Has(t, Wire(Request(id, call)))
    ensures !call.SteerCall?
  {
    var issued := IssuedCall(t, id);
    OneRequestPerId(t, id, issued, call);
  }

  /**
  A result or agent error that a call returns is the last frame read. That frame
  was read after the call's own request went out, it answers that request and no
  steer or other request, and it is the first answer to the request ever returned.
  */
  lemma ReplyBelongsToCall(es: seq<Event>, h: Trace, id: nat, r: Reply)
    requires Moment(After(h, Returned(id, r)), History(es)) && FromAgent(r)
    ensures LastRead(h).Some? && Issued(BeforeRead(h), id) && !Settled(h, id)
    ensures r.Ok? ==> r.value == LastRead(h).value.result && LastRead(h).value.error.None?
    ensures r.Err? ==> LastRead(h).value.error == Some(r.error.text)
    ensures forall other, call :: Has(h, Wire(Request(other, call))) && Answers(LastRead(h).value, other) ==>
              other == id && !call.SteerCall?
  {
    ReachableInv(es);
    MomentJustified(History(es), h, Returned(id, r));
    IssuedBefore(h, id);
    forall other, call | Has(h, Wire(Request(other, call))) && Answers(LastRead(h).value, other)
      ensures other == id && !call.SteerCall?
    {
      IssuedForNoSteer(h, id, call);
    }
  }

  // ----- deadlines -----

  /** The same read loop runs before, between and after all of `es`. */
  predicate StaysInLoop(w: World, es: seq<Event>)
    decreases |es|
  {
    w.task.LoopTask? && (es == [] || StaysInLoop(Step(w, es[0]), es[1..]))
  }

  /** The event is the response that renews the hard deadline. */
  predicate RenewsHard(w: World, e: Event)
  {
    && w.task.LoopTask? && e.action.Turn? && e.action.pick.Line?
    && var l := w.task.loop; var now := w.clock + e.dt; var at := now + e.action.wait + e.action.pick.later;
    && now < NextDeadline(l)
    && l.pending.Some? && Answers(e.action.pick.m, l.pending.value.id)
    && e.action.pick.m.error.None?
    && (l.pending.value.transport.Goose? || e.action.pick.m.result.outcome.Injected?)
    && at + l.maxDuration > l.hard
  }

  /** A running loop keeps its identity; its hard deadline moves exactly on a renewing response, and forward. */
  lemma HardMovesExactly(w: World, e: Event)
    requires w.task.LoopTask? && Step(w, e).task.LoopTask?
    ensures var l, l' := w.task.loop, Step(w, e).task.loop;
            && l'.kind == l.kind && l'.id == l.id && l'.idle == l.idle && l'.maxDuration == l.maxDuration
            && l'.hasRx == l.hasRx
            && l'.hard == (if RenewsHard(w, e) then Step(w, e).clock + l.maxDuration else l.hard)
            && l'.hard >= l.hard
  {
    var v := Pass(w, e.dt);
    if e.action.Turn? && e.action.pick.Line? && v.clock < NextDeadline(v.task.loop) {
      LineHard(Pass(v, e.action.wait), v.task.loop, e.action.pick.m, e.action.pick.later, e.action.pick.fate);
    }
  }

  lemma LineHard(w: World, l: Loop, m: Inbound, later: nat, fate: Fate)
    requires LineArm(w, l, m, later, fate).task.LoopTask?
    ensures var v := LineArm(w, l, m, later, fate); var l' := v.task.loop;
            && l'.kind == l.kind && l'.id == l.id && l'.idle == l.idle && l'.maxDuration == l.maxDuration
            && l'.hasRx == l.hasRx
            && l'.hard == if l.pending.Some? && Answers(m, l.pending.value.id) && Renews(l.pending.value.transport, m)
                             && w.clock + later + l.maxDuration > l.hard
                          then v.clock + l.maxDuration else l.hard
  {
  }

  /** Throughout a prompt, the hard deadline is mirrored in the client and the idle deadline tracks activity. */
  lemma PromptDeadlines(es: seq<Event>)
    ensures var w := Run(Initial(), es);
            w.task.LoopTask? ==>
              var l := w.task.loop;
              && l.idleDeadline == l.lastActivity + l.idle && l.lastActivity <= w.clock
              && (l.kind.PromptLoop? ==> w.currentHard == Some(l.hard) && w.lastPromptId == Some(l.id))
  {
    ReachableInv(es);
  }

  /** A prompt that is under way went out whole under a fresh id, with its deadlines counted from the start. */
  lemma PromptStarts(w: World, e: Event)
    requires w.task.NoTask? && e.action.Prompt? && Step(w, e).task.LoopTask?
    ensures var v := Step(w, e); var l := v.task.loop;
            && v.conn.trace == After(w.conn.trace, Wire(Request(w.conn.nextId, PromptCall)))
            && l.kind.PromptLoop? && l.id == w.conn.nextId && l.hasRx == w.steerRx && l.pending.None? && !v.steerRx
            && l.hard == w.clock + e.dt + e.action.max && l.idleDeadline == v.clock + e.action.idle
            && l.maxDuration == e.action.max
  {
  }

  /** After a prompt returned, it counts as in flight, with its deadline kept, exactly if it timed out. */
  lemma PromptEnds(w: World, wait: nat, pick: Pick)
    requires Inv(w) && w.task.LoopTask? && w.task.loop.kind.PromptLoop? && !pick.Dropped?
    requires var v := LoopTurn(w, w.task.loop, wait, pick); v.task.NoTask? && Reported(v).Some?
    ensures var v := LoopTurn(w, w.task.loop, wait, pick);
            if Reported(v) in {Some(Err(IdleTimeout)), Some(Err(HardTimeout))}
            then v.lastPromptId == Some(w.task.loop.id) && v.currentHard == Some(w.task.loop.hard)
            else v.lastPromptId.None? && v.currentHard.None?
  {
    var l := w.task.loop;
    if w.clock < NextDeadline(l) && pick.Line? {
      LinePromptEnds(Pass(w, wait), l, pick.m, pick.later, pick.fate);
    }
  }

  lemma LinePromptEnds(w: World, l: Loop, m: Inbound, later: nat, fate: Fate)
    requires l.kind.PromptLoop? && Reported(LineArm(w, l, m, later, fate)).Some?
    ensures var v := LineArm(w, l, m, later, fate);
            v.lastPromptId.None? && v.currentHard.None? && !IsTimeout(Reported(v))
  {
    LineNeverTimesOut(w, l, m, later, fate);
    var c := Emit(w.conn, Read(m));
    DispatchFrame(c, m, fate);
  }

  /** Over a whole loop the hard deadline never decreases. */
  lemma {:induction false} HardNeverDecreases(w: World, es: seq<Event>)
    requires StaysInLoop(w, es)
    ensures Run(w, es).task.LoopTask? && w.task.loop.hard <= Run(w, es).task.loop.hard
    decreases |es|
  {
    if es == [] {
    } else {
      HardMovesExactly(w, es[0]);
      HardNeverDecreases(Step(w, es[0]), es[1..]);
    }
  }

  /** An iteration that begins at or past a deadline reads nothing, answers the steer in flight, and times out. */
  lemma LateIterationTimesOut(w: World, e: Event)
    requires w.task.LoopTask? && e.action.Turn? && w.clock + e.dt >= NextDeadline(w.task.loop)
    ensures var l := w.task.loop; var v := Step(w, e);
            && v.task.NoTask?
            && v.conn.trace == After(Neutral(w.conn, l).trace, Returned(l.id, Surface(l.kind, TimeoutReply(l))))
  {
  }

  /**
  However fast the agent emits output, no iteration of a loop that goes on begins
  past its deadline: one outcome at most is handled after it, the one awaited when it passed.
  */
  lemma {:induction false} NoLateIteration(w: World, es: seq<Event>, i: nat)
    requires StaysInLoop(w, es) && i < |es| && es[i].action.Turn?
    ensures var v := Run(w, es[..i]);
            v.task.LoopTask? && v.clock + es[i].dt < NextDeadline(v.task.loop) <= v.task.loop.hard
    decreases i
  {
    if i > 0 {
      NoLateIteration(Step(w, es[0]), es[1..], i - 1);
      assert es[..i][1..] == es[1..][..i - 1];
    } else if w.clock + es[0].dt >= NextDeadline(w.task.loop) {
      LateIterationTimesOut(w, es[0]);
    }
  }

  /** The reply of a call that has just returned. */
  function Reported(w: World): Option<Reply>
  {
    if w.task.NoTask? && w.conn.trace.After? && w.conn.trace.last.Returned? then Some(w.conn.trace.last.reply) else None
  }

  predicate IsTimeout(r: Option<Reply>)
  {
    r == Some(Err(IdleTimeout)) || r == Some(Err(HardTimeout)) || r == Some(Err(CancelDrainTimeout))
  }

  lemma DispatchNeverTimesOut(w: World, c: Conn, l: Loop, m: Inbound, fate: Fate)
    requires c.trace.After? && c.trace.last.Read?
    ensures !IsTimeout(Reported(DispatchArm(w, c, l, m, fate)))
  {
    DispatchFrame(c, m, fate);
  }

  lemma LineNeverTimesOut(w: World, l: Loop, m: Inbound, later: nat, fate: Fate)
    ensures !IsTimeout(Reported(LineArm(w, l, m, later, fate)))
  {
    var c := Emit(w.conn, Read(m));
    DispatchNeverTimesOut(w, c, Active(l, w.clock), m, fate);
    EndedWith(w, c, Active(l, w.clock), if m.error.Some? then Err(AgentError(m.error.value)) else Ok(m.result));
  }

  lemma SteerNeverTimesOut(w: World, l: Loop, fate: Fate)
    requires w.task.LoopTask?
    ensures Reported(SteerArm(w, l, fate)).None?
  {
  }

  lemma EndedWith(w: World, c: Conn, l: Loop, r: Reply)
    ensures var v := NeutralReturn(w, c, l, r);
            v.clock == w.clock && Reported(v) == Some(Surface(l.kind, r))
  {
  }

  /** A loop reports a timeout only once the deadline it was waiting for has passed. */
  lemma TimeoutsAreDue(w: World, l: Loop, wait: nat, pick: Pick)
    requires w.task == LoopTask(l) && !pick.Dropped?
    ensures var v := LoopTurn(w, l, wait, pick);
            IsTimeout(Reported(v)) ==>
              Reported(v) == Some(Surface(l.kind, TimeoutReply(l))) && v.clock >= NextDeadline(l)
  {
    if w.clock >= NextDeadline(l) {
      EndedWith(w, w.conn, l, TimeoutReply(l));
    } else {
      var v := Pass(w, wait);
      match pick {
        case Line(m, later, fate) => LineNeverTimesOut(v, l, m, later, fate);
        case Steer(fate) => SteerNeverTimesOut(v, l, fate);
        case Eof => EndedWith(v, v.conn, l, Err(AgentExited));
        case TooLong => EndedWith(v, v.conn, l, Err(Protocol));
        case ReadError => EndedWith(v, v.conn, l, Err(Io));
        case Wake =>
          EndedWith(if v.clock < NextDeadline(l) then v.(clock := NextDeadline(l)) else v, v.conn, l, TimeoutReply(l));
        case Skip =>
      }
    }
  }

  /** An idle timeout means that much silence, a hard timeout that the hard deadline passed. */
  lemma TimeoutsAreTrue(es: seq<Event>, wait: nat, pick: Pick)
    requires Run(Initial(), es).task.LoopTask? && !pick.Dropped?
    ensures var w := Run(Initial(), es); var l := w.task.loop; var v := LoopTurn(w, l, wait, pick);
            && (Reported(v) == Some(Err(IdleTimeout)) ==> v.clock >= l.lastActivity + l.idle)
            && (Reported(v) in {Some(Err(HardTimeout)), Some(Err(CancelDrainTimeout))} ==> v.clock >= l.hard)
  {
    ReachableInv(es);
    var w := Run(Initial(), es);
    TimeoutsAreDue(w, w.task.loop, wait, pick);
  }
}
