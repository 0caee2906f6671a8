/**
What every step of the ACP client keeps: each observation was justified by the
history before it, and the client's fields agree with that history.
*/
module AcpInvariant {
  import opened Prelude
  import opened AcpTypes
  import opened AcpMachine

  // ----- justification of single observations -----

  /** A complete frame carrying steer request `k` over `transport` with this id reached the agent. */
  predicate Sent(t: Trace, id: nat, k: nat, transport: Transport)
  {
    t.After? && (Sent(t.earlier, id, k, transport)
                 || (t.last.Wire? && t.last.f.Request? && t.last.f.id == id && t.last.f.call.SteerCall?
                     && t.last.f.call.req == k && t.last.f.call.transport == transport))
  }

  /** The last frame read answers the frame that carried steer request `k`, and was read after that went out. */
  predicate SteerAnswered(t: Trace, k: nat, transport: Transport)
  {
    && LastRead(t).Some?
    && var m := LastRead(t).value;
    && m.verb.Absent? && m.id.Some? && m.id.value.Num? && Sent(BeforeRead(t), m.id.value.n, k, transport)
  }

  /** That answer carries no error and delivers the steer. */
  predicate Delivered(t: Trace, k: nat)
  {
    || (SteerAnswered(t, k, Goose) && LastRead(t).value.error.None?)
    || (&& SteerAnswered(t, k, AcpExtension) && LastRead(t).value.error.None?
        && LastRead(t).value.result.outcome != Unrecognized)
  }

  /** The steer frame fits what the agent had reported when it was written. */
  predicate SteerFits(t: Trace, c: Call)
    requires c.SteerCall?
  {
    && c.run == LatestRun(t)
    && c.req in TakenSet(t) - ResolvedSet(t)
    && match c.transport
       case Goose => c.run.Some?
       case AcpExtension => c.run.None? && Capable(t)
  }

  /** What an ack says is what happened. */
  predicate AckFits(t: Trace, k: nat, ack: Ack)
  {
    match ack
    case Success => Delivered(t, k)
    case AgentRejected(text) =>
      (SteerAnswered(t, k, Goose) || SteerAnswered(t, k, AcpExtension)) && LastRead(t).value.error == Some(text)
    case OutcomeRejected =>
      && SteerAnswered(t, k, AcpExtension)
      && LastRead(t).value.error.None? && LastRead(t).value.result.outcome.Unrecognized?
    case RunIdMissing => LatestRun(t).None? && !Capable(t)
    case PromptCompletedNeutral => AwaitedId(t, k).Some?
    case TransportFailed(_) => true
  }

  predicate FirstOf(options: seq<PermissionOption>, kind: OptionKind, i: nat)
  {
    i < |options| && options[i].kind == kind && forall j :: 0 <= j < i ==> options[j].kind != kind
  }

  /** The option answers: the first `allow_once`, or without any, the first `reject_once` with its default id. */
  predicate Permitted(options: seq<PermissionOption>, optionId: string)
  {
    || (exists i :: 0 <= i < |options| && FirstOf(options, AllowOnce, i) && options[i].optionId == Some(optionId))
    || (&& (forall j :: 0 <= j < |options| ==> options[j].kind != AllowOnce)
        && exists i :: 0 <= i < |options| && FirstOf(options, RejectOnce, i)
                       && optionId == if options[i].optionId.Some? then options[i].optionId.value else "reject")
  }

  /** The last frame read is the permission request `v`, and it is answered with a permitted option. */
  predicate Grants(t: Trace, v: Id, optionId: string)
  {
    && LastRead(t).Some?
    && var m := LastRead(t).value;
    && m.id == Some(v) && m.verb.RequestPermission? && m.verb.options.Some?
    && Permitted(m.verb.options.value, optionId)
  }

  lemma {:induction false} FoundFirst(options: seq<PermissionOption>, kind: OptionKind, i: nat)
    requires FirstOf(options, kind, i)
    ensures FindKind(options, kind) == Some(options[i])
  {
    if i == 0 {
    } else {
      FoundFirst(options[1..], kind, i - 1);
    }
  }

  lemma {:induction false} FoundIndex(options: seq<PermissionOption>, kind: OptionKind) returns (i: nat)
    ensures FindKind(options, kind).Some? ==> FirstOf(options, kind, i)
    ensures FindKind(options, kind).None? ==> forall j :: 0 <= j < |options| ==> options[j].kind != kind
  {
    i := 0;
    if options != [] && options[0].kind != kind {
      var j := FoundIndex(options[1..], kind);
      i := j + 1;
    }
  }

  /** The client's choice is exactly the permitted option. */
  lemma ChooseExactly(options: Option<seq<PermissionOption>>, optionId: string)
    ensures Choose(options) == Some(optionId) <==> options.Some? && Permitted(options.value, optionId)
  {
    if options.Some? {
      var i := FoundIndex(options.value, AllowOnce);
      var j := FoundIndex(options.value, RejectOnce);
      if FindKind(options.value, AllowOnce).Some? {
        FoundFirst(options.value, AllowOnce, i);
      } else if FindKind(options.value, RejectOnce).Some? {
        FoundFirst(options.value, RejectOnce, j);
      }
    }
  }

  predicate Unsupported(t: Trace, v: Id)
  {
    LastRead(t).Some? && LastRead(t).value.verb.Unknown? && LastRead(t).value.id == Some(v)
  }

  predicate InitializeAnswered(t: Trace, supported: bool)
  {
    && LastRead(t).Some?
    && var m := LastRead(t).value;
    && m.verb.Absent? && m.error.None? && m.id.Some? && m.id.value.Num?
    && Has(BeforeRead(t), Wire(Request(m.id.value.n, InitializeCall)))
    && m.result.steering == supported
  }

  /**
  A reply taken from the agent is the last frame read. It answers `id`, which had
  been issued by then for no steer, and it is the first answer to `id` returned.
  */
  predicate ReplyRead(t: Trace, id: nat, r: Reply)
  {
    FromAgent(r) ==>
      && Issued(BeforeRead(t), id) && !Settled(t, id)
      && LastRead(t).Some?
      && var m := LastRead(t).value;
      && Answers(m, id)
      && match r
         case Ok(p) => m.error.None? && p == m.result
         case Err(e) => m.error == Some(e.text)
  }

  /** A neutral release is followed at once by the return, and nothing goes out after a transport failure. */
  predicate Follows(t: Trace, o: Obs)
  {
    (Releasing(t) ==> o.Returned?) && (o.Wire? ==> !Severed(t))
  }

  /** What happened before accounts for the observation. */
  predicate Grounded(t: Trace, o: Obs)
  {
    match o
    case Read(_) => true
    case Wire(Request(id, call)) => IdsBelow(t, id) && (call.SteerCall? ==> SteerFits(t, call))
    case Wire(Selected(v, optionId)) => Outstanding(t, v) && Grants(t, v, optionId)
    case Wire(Cancelled(v)) => Outstanding(t, v)
    case Wire(MethodNotFound(v)) => Unsupported(t, v)
    case Wire(CancelNotice) => true
    case Initialized(supported) => InitializeAnswered(t, supported)
    case Taken(k) => k !in TakenSet(t) && TakenSet(t) == ResolvedSet(t)
    case Acked(k, ack) => k in TakenSet(t) - ResolvedSet(t) && AckFits(t, k, ack)
    case Closed(k) => k in TakenSet(t) - ResolvedSet(t)
    case Returned(id, r) => ReplyRead(t, id, r)
  }

  predicate Justified(t: Trace, o: Obs)
  {
    Follows(t, o) && Grounded(t, o)
  }

  predicate Good(t: Trace)
  {
    t.Start? || (Good(t.earlier) && Justified(t.earlier, t.last))
  }

  // ----- the invariant -----

  predicate PermissionInv(c: Conn)
  {
    c.pendingPermission.Some? ==>
      && !c.permissionResponded
      && (c.open ==> Outstanding(c.trace, c.pendingPermission.value))
  }

  /** All steer requests taken are resolved, except the one still owed an answer. */
  ghost predicate SteerInv(c: Conn, owed: Option<nat>)
  {
    && (forall k: nat :: k in TakenSet(c.trace) <==> k < c.taken)
    && match owed
       case None => ResolvedSet(c.trace) == TakenSet(c.trace)
       case Some(k) => k in TakenSet(c.trace) && ResolvedSet(c.trace) == TakenSet(c.trace) - {k}
  }

  predicate AgentInv(c: Conn)
  {
    && c.activeRun == LatestRun(c.trace)
    && c.steeringSupported == Capable(c.trace)
    && IdsBelow(c.trace, c.nextId)
    && (c.open ==> !Severed(c.trace))
  }

  ghost predicate Core(c: Conn, owed: Option<nat>)
  {
    Good(c.trace) && PermissionInv(c) && SteerInv(c, owed) && AgentInv(c)
  }

  ghost predicate Base(c: Conn, owed: Option<nat>)
  {
    Core(c, owed) && !Releasing(c.trace)
  }

  /** The steer's frame is out, and no answer to it was read. */
  predicate InTransit(t: Trace, p: Pending)
  {
    Sent(t, p.id, p.req, p.transport) && AwaitedId(t, p.req) == Some(p.id)
  }

  /** The agent was asked and its answer has not been returned. */
  predicate Live(t: Trace, id: nat)
  {
    Issued(t, id) && !Settled(t, id)
  }

  /** A prompt in flight is live, unless its frame may not have gone out; then the slot is closed. */
  predicate PromptLive(c: Conn, prompt: Option<nat>)
  {
    prompt.Some? ==> prompt.value < c.nextId && (c.open ==> Live(c.trace, prompt.value))
  }

  predicate LoopInv(w: World, l: Loop)
  {
    && l.id < w.conn.nextId && Live(w.conn.trace, l.id)
    && (l.pending.Some? ==> l.id < l.pending.value.id < w.conn.nextId && InTransit(w.conn.trace, l.pending.value))
    && l.idleDeadline == l.lastActivity + l.idle
    && l.lastActivity <= w.clock
    && (l.kind.PromptLoop? ==> w.currentHard == Some(l.hard) && w.lastPromptId == Some(l.id))
    && (!l.kind.PromptLoop? ==> w.lastPromptId.None?)
  }

  predicate TaskInv(w: World)
  {
    && PromptLive(w.conn, w.lastPromptId)
    && match w.task
       case NoTask => true
       case RpcTask(id, initialize, _) =>
         && id < w.conn.nextId && Live(w.conn.trace, id) && w.lastPromptId != Some(id)
         && (initialize ==> Has(w.conn.trace, Wire(Request(id, InitializeCall))))
       case LoopTask(l) => LoopInv(w, l)
  }

  /** The steer request a loop has in flight. */
  function Owed(l: Loop): Option<nat>
  {
    if l.pending.Some? then Some(l.pending.value.req) else None
  }

  function InFlight(w: World): Option<nat>
  {
    if w.task.LoopTask? then Owed(w.task.loop) else None
  }

  ghost predicate Inv(w: World)
  {
    Base(w.conn, InFlight(w)) && TaskInv(w)
  }

  // ----- consequences of Good -----

  lemma {:induction false} ResponsesBounded(t: Trace, v: Id)
    requires Good(t)
    ensures Responses(t, v) + (if Outstanding(t, v) then 1 else 0) <= Requests(t, v)
  {
    if t.Start? {
    } else {
      ResponsesBounded(t.earlier, v);
    }
  }

  lemma {:induction false} IssuedBelow(t: Trace, n: nat, id: nat)
    requires IdsBelow(t, n) && Issued(t, id)
    ensures id < n
  {
    if Issued(t.earlier, id) {
      IssuedBelow(t.earlier, n, id);
    }
  }

  lemma {:induction false} IdsBelowBeforeRead(t: Trace, n: nat)
    requires IdsBelow(t, n)
    ensures IdsBelow(BeforeRead(t), n)
  {
    if t.Start? || t.last.Read? {
    } else {
      IdsBelowBeforeRead(t.earlier, n);
    }
  }

  /** Only issued ids are ever settled. */
  lemma {:induction false} SettledBelow(t: Trace, n: nat, id: nat)
    requires Good(t) && IdsBelow(t, n) && Settled(t, id)
    ensures id < n
  {
    if Settled(t.earlier, id) {
      SettledBelow(t.earlier, n, id);
    } else {
      IdsBelowBeforeRead(t.earlier, n);
      IssuedBelow(BeforeRead(t.earlier), n, id);
    }
  }

  lemma {:induction false} IdsBelowMonotone(t: Trace, n: nat, m: nat)
    requires n <= m && IdsBelow(t, n)
    ensures IdsBelow(t, m)
  {
    if t.Start? {
    } else {
      IdsBelowMonotone(t.earlier, n, m);
    }
  }

  lemma LiveStays(t: Trace, o: Obs, id: nat)
    requires Live(t, id) && !(o.Returned? && o.id == id && FromAgent(o.reply))
    ensures Live(After(t, o), id)
  {
  }

  // ----- single observations and writes -----

  lemma WriteKeeps(c: Conn, owed: Option<nat>, f: Frame, fate: Fate)
    requires Base(c, owed)
    requires !f.Selected? && !f.Cancelled?
    requires Grounded(c.trace, Wire(f)) && (f.Request? ==> f.id < c.nextId)
    ensures Base(Write(c, f, fate).0, owed)
  {
  }

  lemma AnswerKeeps(c: Conn, owed: Option<nat>, f: Frame, fate: Fate, responded: bool)
    requires Base(c, owed)
    requires (f.Selected? || f.Cancelled?) && c.pendingPermission == Some(f.to)
    requires f.Selected? ==> Grants(c.trace, f.to, f.optionId)
    ensures Base(Answer(c, f, fate, responded).0, owed)
  {
  }

  lemma ReadKeeps(c: Conn, owed: Option<nat>, m: Inbound)
    requires Base(c, owed) && RunNews(Read(m)).KeepRun?
    ensures Base(Emit(c, Read(m)), owed)
  {
  }

  lemma PermissionKeeps(c: Conn, owed: Option<nat>, m: Inbound, fate: Fate)
    requires Base(c, owed) && m.verb.RequestPermission?
    ensures Base(HandlePermission(Emit(c, Read(m)), m.id, Choose(m.verb.options), fate).0, owed)
  {
    ReadKeeps(c, owed, m);
    if m.id.Some? {
      var d := Emit(c, Read(m)).(pendingPermission := m.id, permissionResponded := false);
      assert Base(d, owed);
      if Choose(m.verb.options).Some? {
        ChooseExactly(m.verb.options, Choose(m.verb.options).value);
        AnswerKeeps(d, owed, Selected(m.id.value, Choose(m.verb.options).value), fate, true);
      }
    }
  }

  lemma UpdateKeeps(c: Conn, owed: Option<nat>, m: Inbound)
    requires Base(c, owed) && m.verb.SessionUpdate?
    ensures Base(HandleUpdate(Emit(c, Read(m)), m.verb.update), owed)
  {
  }

  lemma DispatchKeeps(c: Conn, owed: Option<nat>, m: Inbound, fate: Fate)
    requires Base(c, owed)
    ensures Base(Dispatch(Emit(c, Read(m)), m, fate).0, owed)
  {
    match m.verb {
      case SessionUpdate(_) => UpdateKeeps(c, owed, m);
      case RequestPermission(_) => PermissionKeeps(c, owed, m, fate);
      case Unknown =>
        ReadKeeps(c, owed, m);
        if m.id.Some? {
          WriteKeeps(Emit(c, Read(m)), owed, MethodNotFound(m.id.value), fate);
        }
      case _ => ReadKeeps(c, owed, m);
    }
  }

  /** Handling a frame issues no id, adds at most one frame, and fails only with the client's own errors. */
  lemma DispatchFrame(c: Conn, m: Inbound, fate: Fate)
    ensures var (d, r) := Dispatch(c, m, fate);
            && d.nextId == c.nextId && d.taken == c.taken && d.steeringSupported == c.steeringSupported
            && (d.open ==> c.open)
            && (d.trace == c.trace
                || (d.trace.After? && d.trace.earlier == c.trace && d.trace.last.Wire? && !d.trace.last.f.Request?))
            && (r.Failed? ==> r.error in {Io, WriteTimeout, Protocol})
  {
  }

  lemma ResolveKeeps(c: Conn, k: nat, o: Obs)
    requires Base(c, Some(k)) && Resolution(o) && o.req == k
    requires o.Acked? ==> AckFits(c.trace, k, o.ack)
    requires TransportFailure(o) ==> !c.open
    ensures Core(Emit(c, o), None)
    ensures !(o.Acked? && o.ack.PromptCompletedNeutral?) ==> Base(Emit(c, o), None)
  {
  }

  lemma ReturnedKeeps(c: Conn, id: nat, r: Reply)
    requires Core(c, None) && ReplyRead(c.trace, id, r)
    ensures Base(Emit(c, Returned(id, r)), None)
  {
  }

  lemma IssueKeeps(c: Conn, call: Call, fate: Fate)
    requires Base(c, None) && !call.SteerCall?
    ensures var (d, r) := Issue(c, call, fate);
            && Base(d, None) && d.nextId == c.nextId + 1
            && (r.Wrote? ==> Has(d.trace, Wire(Request(c.nextId, call))) && Live(d.trace, c.nextId))
            && (!r.Wrote? ==> !d.open) && (r.Failed? ==> !r.error.AgentError?)
  {
    if Settled(c.trace, c.nextId) {
      SettledBelow(c.trace, c.nextId, c.nextId);
    }
    IdsBelowMonotone(c.trace, c.nextId, c.nextId + 1);
    WriteKeeps(c.(nextId := c.nextId + 1), None, Request(c.nextId, call), fate);
  }

  // ----- ending a read loop -----

  lemma DropLocalsKeeps(c: Conn, l: Loop)
    requires Core(c, Owed(l)) && (l.pending.Some? ==> !Releasing(c.trace))
    ensures var d := DropLocals(c, l);
            && Core(d, None) && (!Releasing(c.trace) ==> Base(d, None)) && d.nextId == c.nextId && d.open == c.open
            && LastRead(d.trace) == LastRead(c.trace) && BeforeRead(d.trace) == BeforeRead(c.trace)
  {
    if l.pending.Some? {
      ResolveKeeps(c, l.pending.value.req, Closed(l.pending.value.req));
    }
  }

  lemma ReturnKeeps(w: World, c: Conn, l: Loop, r: Reply)
    requires Core(c, Owed(l)) && (l.pending.Some? ==> !Releasing(c.trace)) && ReplyRead(c.trace, l.id, r)
    requires PromptLive(c, w.lastPromptId) && (l.kind.PromptLoop? || w.lastPromptId.None?)
    ensures Inv(Return(w, c, l, r))
  {
    DropLocalsKeeps(c, l);
    ReturnedKeeps(DropLocals(c, l), l.id, Surface(l.kind, r));
  }

  lemma NeutralReturnKeeps(w: World, c: Conn, l: Loop, r: Reply)
    requires Base(c, Owed(l)) && ReplyRead(c.trace, l.id, r)
    requires l.pending.Some? ==> InTransit(c.trace, l.pending.value)
    requires PromptLive(c, w.lastPromptId) && (l.kind.PromptLoop? || w.lastPromptId.None?)
    ensures Inv(NeutralReturn(w, c, l, r))
  {
    if l.pending.Some? {
      ResolveKeeps(c, l.pending.value.req, Acked(l.pending.value.req, PromptCompletedNeutral));
    }
    ReturnKeeps(w, Neutral(c, l), l.(pending := None), r);
  }

  lemma AbandonKeeps(w: World, c: Conn, l: Loop)
    requires Base(c, Owed(l)) && PromptLive(c, w.lastPromptId)
    ensures Inv(Abandon(w, c, l))
  {
    DropLocalsKeeps(c, l);
  }

  // ----- the steer arm and its response -----

  lemma TakeKeeps(c: Conn)
    requires Base(c, None)
    ensures Base(Emit(c.(taken := c.taken + 1), Taken(c.taken)), Some(c.taken))
  {
  }

  lemma SteerWriteKeeps(d: Conn, owed: Option<nat>, call: Call, fate: Fate)
    requires Base(d, owed) && call.SteerCall? && SteerFits(d.trace, call)
    ensures Base(Write(d.(nextId := d.nextId + 1), Request(d.nextId, call), fate).0, owed)
  {
    IdsBelowMonotone(d.trace, d.nextId, d.nextId + 1);
    WriteKeeps(d.(nextId := d.nextId + 1), owed, Request(d.nextId, call), fate);
  }

  lemma TakeSteerKeeps(c: Conn, id: nat, fate: Fate)
    requires Base(c, None) && Live(c.trace, id)
    ensures var (d, r) := TakeSteer(c, fate);
            && Base(d, Some(c.taken)) && Live(d.trace, id) && (d.open ==> c.open)
            && (r.Wrote? ==> Transports(c).Some? && d.nextId == c.nextId + 1
                             && InTransit(d.trace, Pending(c.nextId, Transports(c).value, c.taken)))
            && d.nextId >= c.nextId
  {
    TakeKeeps(c);
    LiveStays(c.trace, Taken(c.taken), id);
    if Transports(c).Some? {
      var d := Emit(c.(taken := c.taken + 1), Taken(c.taken));
      var call := SteerCall(c.taken, Transports(c).value, c.activeRun);
      SteerWriteKeeps(d, Some(c.taken), call, fate);
      var written := Write(d.(nextId := d.nextId + 1), Request(d.nextId, call), fate).0;
      if written.trace != d.trace {
        LiveStays(d.trace, Wire(Request(d.nextId, call)), id);
      }
    }
  }

  lemma SteerArmKeeps(w: World, l: Loop, fate: Fate)
    requires Base(w.conn, Owed(l)) && TaskInv(w) && w.task == LoopTask(l)
    ensures Inv(SteerArm(w, l, fate))
  {
    if l.hasRx && l.pending.None? {
      TakeSteerKeeps(w.conn, l.id, fate);
      var k := w.conn.taken;
      var (d, r) := TakeSteer(w.conn, fate);
      if r.Failed? {
        var ack := Acked(k, if Transports(w.conn).None? then RunIdMissing else TransportFailed(r.error));
        ResolveKeeps(d, k, ack);
        LiveStays(d.trace, ack, l.id);
      } else if r == Gone {
        ResolveKeeps(d, k, Closed(k));
        LiveStays(d.trace, Closed(k), l.id);
      }
    }
  }

  lemma VerdictFits(t: Trace, p: Pending, m: Inbound)
    requires LastRead(t) == Some(m) && Answers(m, p.id) && InTransit(BeforeRead(t), p)
    ensures AckFits(t, p.req, SteerVerdict(p.transport, m))
  {
    assert SteerAnswered(t, p.req, p.transport);
    if p.transport.Goose? {
      assert SteerAnswered(t, p.req, Goose);
    } else {
      assert SteerAnswered(t, p.req, AcpExtension);
    }
  }

  /** An ack leaves a loop with no steer in flight as it was. */
  lemma AckedLoopKeeps(w: World, c: Conn, o: Obs, l: Loop)
    requires Base(Emit(c, o), None) && o.Acked? && l.pending.None?
    requires TaskInv(w.(conn := c, task := LoopTask(l)))
    ensures Inv(Continue(w, Emit(c, o), l))
  {
    LiveStays(c.trace, o, l.id);
  }

  lemma SteerAnswerKeeps(w: World, c: Conn, l: Loop, m: Inbound, later: nat)
    requires Base(c, Owed(l)) && TaskInv(w.(conn := c, task := LoopTask(l.(pending := None))))
    requires l.pending.Some? && LastRead(c.trace) == Some(m) && Answers(m, l.pending.value.id)
    requires InTransit(BeforeRead(c.trace), l.pending.value)
    ensures Inv(SteerAnswer(w, c, l, l.pending.value, m, later))
  {
    var p := l.pending.value;
    var ack := Acked(p.req, SteerVerdict(p.transport, m));
    VerdictFits(c.trace, p, m);
    ResolveKeeps(c, p.req, ack);
    AckedLoopKeeps(w, c, ack, l.(pending := None));
  }

  // ----- one iteration -----

  /** Reading a frame that answers no steer leaves the loop as it was, but for the activity. */
  lemma ReadLoopKeeps(w: World, l: Loop, m: Inbound)
    requires TaskInv(w.(task := LoopTask(l))) && (l.pending.Some? ==> !Answers(m, l.pending.value.id))
    ensures TaskInv(w.(conn := Emit(w.conn, Read(m)), task := LoopTask(Active(l, w.clock))))
  {
    LiveStays(w.conn.trace, Read(m), l.id);
  }

  lemma DispatchArmKeeps(w: World, l: Loop, m: Inbound, fate: Fate)
    requires Base(w.conn, Owed(l)) && TaskInv(w.(conn := Emit(w.conn, Read(m)), task := LoopTask(l)))
    ensures Inv(DispatchArm(w, Emit(w.conn, Read(m)), l, m, fate))
  {
    var c := Emit(w.conn, Read(m));
    DispatchKeeps(w.conn, Owed(l), m, fate);
    DispatchFrame(c, m, fate);
    var (d, r) := Dispatch(c, m, fate);
    match r {
      case Wrote =>
      case Failed(e) => ReturnKeeps(w, d, l, Err(e));
      case Gone => AbandonKeeps(w, d, l);
    }
  }

  lemma LineArmKeeps(w: World, l: Loop, m: Inbound, later: nat, fate: Fate)
    requires Base(w.conn, Owed(l)) && TaskInv(w.(task := LoopTask(l)))
    ensures Inv(LineArm(w, l, m, later, fate))
  {
    var c := Emit(w.conn, Read(m));
    var k := Active(l, w.clock);
    if l.pending.Some? && Answers(m, l.pending.value.id) {
      ReadKeeps(w.conn, Owed(l), m);
      ReadLoopKeeps(w, l.(pending := None), m);
      SteerAnswerKeeps(w, c, k, m, later);
    } else {
      ReadLoopKeeps(w, l, m);
      if Answers(m, l.id) {
        ReadKeeps(w.conn, Owed(l), m);
        NeutralReturnKeeps(w, c, k, if m.error.Some? then Err(AgentError(m.error.value)) else Ok(m.result));
      } else if m.verb == SessionUpdate(ToolCall) {
        ReadKeeps(w.conn, Owed(l), m);
      } else {
        DispatchArmKeeps(w, k, m, fate);
      }
    }
  }

  lemma LoopTurnKeeps(w: World, l: Loop, wait: nat, pick: Pick)
    requires Inv(w) && w.task == LoopTask(l)
    ensures Inv(LoopTurn(w, l, wait, pick))
  {
    if w.clock >= NextDeadline(l) {
      NeutralReturnKeeps(w, w.conn, l, TimeoutReply(l));
    } else {
      var v := Pass(w, wait);
      match pick {
        case Eof => NeutralReturnKeeps(v, v.conn, l, Err(AgentExited));
        case TooLong => NeutralReturnKeeps(v, v.conn, l, Err(Protocol));
        case ReadError => NeutralReturnKeeps(v, v.conn, l, Err(Io));
        case Skip =>
        case Line(m, later, fate) => LineArmKeeps(v, l, m, later, fate);
        case Steer(fate) => SteerArmKeeps(v, l, fate);
        case Wake =>
          NeutralReturnKeeps(if v.clock < NextDeadline(l) then v.(clock := NextDeadline(l)) else v,
                             v.conn, l, TimeoutReply(l));
        case Dropped => AbandonKeeps(v, v.conn, l);
      }
    }
  }

  lemma RecordKeeps(c: Conn, m: Inbound)
    requires Base(c, None) && LastRead(c.trace) == Some(m) && InitializeAnswered(c.trace, m.result.steering)
    ensures var d := RecordCapability(c, m);
            && Base(d, None) && LastRead(d.trace) == Some(m) && BeforeRead(d.trace) == BeforeRead(c.trace)
  {
  }

  lemma RpcReturnKeeps(w: World, c: Conn, id: nat, r: Reply)
    requires Base(c, None) && ReplyRead(c.trace, id, r)
    requires PromptLive(c, w.lastPromptId) && w.lastPromptId != Some(id)
    ensures Inv(RpcReturn(w, c, id, r))
  {
    ReturnedKeeps(c, id, r);
    if w.lastPromptId.Some? && c.open {
      LiveStays(c.trace, Returned(id, r), w.lastPromptId.value);
    }
  }

  lemma RpcAnswerKeeps(w: World, m: Inbound)
    requires Inv(w) && w.task.RpcTask? && Answers(m, w.task.rpc)
    ensures Inv(RpcLine(w, w.task, m, Done))
  {
    var id := w.task.rpc;
    var c := Emit(w.conn, Read(m));
    ReadKeeps(w.conn, None, m);
    if m.error.Some? {
      RpcReturnKeeps(w, c, id, Err(AgentError(m.error.value)));
    } else if w.task.initialize {
      RecordKeeps(c, m);
      RpcReturnKeeps(w, RecordCapability(c, m), id, Ok(m.result));
    } else {
      RpcReturnKeeps(w, c, id, Ok(m.result));
    }
  }

  lemma RpcLineKeeps(w: World, m: Inbound, fate: Fate)
    requires Inv(w) && w.task.RpcTask?
    ensures Inv(RpcLine(w, w.task, m, fate))
  {
    if Answers(m, w.task.rpc) {
      RpcAnswerKeeps(w, m);
    } else {
      var c := Emit(w.conn, Read(m));
      DispatchKeeps(w.conn, None, m, fate);
      DispatchFrame(c, m, fate);
      var (d, r) := Dispatch(c, m, fate);
      if r.Failed? {
        RpcReturnKeeps(w, d, w.task.rpc, Err(r.error));
      }
    }
  }

  lemma RpcTurnKeeps(w: World, wait: nat, pick: Pick)
    requires Inv(w) && w.task.RpcTask?
    ensures Inv(RpcTurn(w, w.task, wait, pick))
  {
    var v := Pass(w, wait);
    match pick {
      case Line(m, _, fate) => RpcLineKeeps(v, m, fate);
      case Eof => RpcReturnKeeps(v, v.conn, w.task.rpc, Err(AgentExited));
      case TooLong => RpcReturnKeeps(v, v.conn, w.task.rpc, Err(Protocol));
      case ReadError => RpcReturnKeeps(v, v.conn, w.task.rpc, Err(Io));
      case Wake =>
        RpcReturnKeeps(if v.clock < w.task.deadline then v.(clock := w.task.deadline) else v,
                       v.conn, w.task.rpc, Err(Timeout));
      case _ =>
    }
  }

  // ----- operations -----

  lemma StartRpcKeeps(w: World, initialize: bool, fate: Fate, wait: nat)
    requires Inv(w) && w.task.NoTask?
    ensures Inv(StartRpc(w, initialize, fate, wait))
  {
    var call := if initialize then InitializeCall else OtherCall;
    IssueKeeps(w.conn, call, fate);
    var (d, r) := Issue(w.conn, call, fate);
    if r.Failed? {
      ReturnedKeeps(d, w.conn.nextId, Err(r.error));
    }
  }

  lemma StartPromptKeeps(w: World, idle: nat, max: nat, fate: Fate, wait: nat)
    requires Inv(w) && w.task.NoTask?
    ensures Inv(StartPrompt(w, idle, max, fate, wait))
  {
    IssueKeeps(w.conn, PromptCall, fate);
    var (d, r) := Issue(w.conn, PromptCall, fate);
    if r.Failed? {
      ReturnedKeeps(d, w.conn.nextId, Err(r.error));
    }
  }

  lemma SendNoticeKeeps(w: World, c: Conn, kind: LoopKind, id: nat, hard: nat, notice: Fate, wait: nat)
    requires Base(c, None) && w.task.NoTask? && id < c.nextId && !kind.PromptLoop? && w.lastPromptId.None?
    requires c.open ==> Live(c.trace, id)
    ensures Inv(SendNotice(w, c, kind, id, hard, notice, wait))
  {
    WriteKeeps(c, None, CancelNotice, notice);
    var (d, r) := Write(c, CancelNotice, notice);
    if r.Failed? {
      ReturnedKeeps(d, id, Err(r.error));
    }
  }

  lemma CancelUntilKeeps(w: World, kind: LoopKind, hard: nat, answer: Fate, notice: Fate, wait: nat)
    requires Inv(w) && w.task.NoTask? && !kind.PromptLoop?
    ensures Inv(CancelUntil(w, kind, hard, answer, notice, wait))
  {
    if w.lastPromptId.Some? {
      var id, c := w.lastPromptId.value, w.conn;
      var v := w.(lastPromptId := None);
      if c.pendingPermission.None? {
        SendNoticeKeeps(v, c, kind, id, hard, notice, wait);
      } else {
        var f := Cancelled(c.pendingPermission.value);
        AnswerKeeps(c, None, f, answer, false);
        var (d, r) := Answer(c, f, answer, false);
        match r {
          case Wrote => SendNoticeKeeps(v, d, kind, id, hard, notice, wait);
          case Failed(e) => ReturnedKeeps(d, id, Err(e));
          case Gone =>
        }
      }
    }
  }

  lemma StartCancelKeeps(w: World, grace: Option<nat>, answer: Fate, notice: Fate, wait: nat)
    requires Inv(w) && w.task.NoTask?
    ensures Inv(StartCancel(w, grace, answer, notice, wait))
  {
    CancelUntilKeeps(w.(currentHard := None), DrainKind(grace), DrainDeadline(w, grace), answer, notice, wait);
  }

  lemma TurnedKeeps(w: World, wait: nat, pick: Pick)
    requires Inv(w)
    ensures Inv(Turned(w, wait, pick))
  {
    match w.task {
      case NoTask =>
      case RpcTask(_, _, _) => RpcTurnKeeps(w, wait, pick);
      case LoopTask(l) => LoopTurnKeeps(w, l, wait, pick);
    }
  }

  lemma BeginKeeps(w: World, a: Action)
    requires Inv(w) && w.task.NoTask?
    ensures Inv(Begin(w, a))
  {
    match a {
      case Notify(fate) => WriteKeeps(w.conn, None, CancelNotice, fate);
      case Rpc(initialize, fate, wait) => StartRpcKeeps(w, initialize, fate, wait);
      case Prompt(idle, max, fate, wait) => StartPromptKeeps(w, idle, max, fate, wait);
      case Cancel(grace, answer, notice, wait) => StartCancelKeeps(w, grace, answer, notice, wait);
      case _ =>
    }
  }

  /** Every step keeps the invariant. */
  lemma StepKeeps(w: World, e: Event)
    requires Inv(w)
    ensures Inv(Step(w, e))
  {
    var v := Pass(w, e.dt);
    if e.action.Turn? {
      TurnedKeeps(v, e.action.wait, e.action.pick);
    } else if v.task.NoTask? {
      BeginKeeps(v, e.action);
    }
  }

  /** The invariant holds throughout every run. */
  lemma {:induction false} RunKeeps(w: World, es: seq<Event>)
    requires Inv(w)
    ensures Inv(Run(w, es))
    decreases |es|
  {
    if es == [] {
    } else {
      StepKeeps(w, es[0]);
      RunKeeps(Step(w, es[0]), es[1..]);
    }
  }
}
