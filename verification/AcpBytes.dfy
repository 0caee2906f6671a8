/**
The bytes of a whole client run: the step machine's writes are calls of the frame
writer, so what the agent reads on the pipe is exactly the trace's frames.
*/
module AcpBytes {
  import opened Prelude
  import opened AcpTypes
  import opened AcpMachine
  import opened AcpInvariant
  import opened AcpReplies
  import opened AcpTheorems
  import opened FrameWriter

  /** What the pipe can tell of a connection: whether it is open, and the frames that arrived whole. */
  datatype Slot = Slot(open: bool, frames: seq<Frame>)

  function WireFrames(t: Trace): seq<Frame>
  {
    if t.Start? then []
    else if t.last.Wire? then WireFrames(t.earlier) + [t.last.f]
    else WireFrames(t.earlier)
  }

  function SlotOf(c: Conn): Slot
  {
    Slot(c.open, WireFrames(c.trace))
  }

  function Put(s: Slot, a: Attempt): Slot
  {
    if !s.open then s
    else match a.fate
      case Done => Slot(true, s.frames + [a.f])
      case Broken(full, _) => Slot(false, if full then s.frames + [a.f] else s.frames)
  }

  /** What a log of calls leaves in a fresh slot. */
  function PutAll(log: Log): Slot
  {
    match log
    case NoCalls => Slot(true, [])
    case Logged(earlier, call) => Put(PutAll(earlier), call)
  }

  // ----- the calls account for everything on the wire -----

  /** The trace's frames, and whether the slot is open, are what the calls made of it. */
  predicate Accounted(c: Conn)
  {
    SlotOf(c) == PutAll(c.calls)
  }

  // ----- requests are answered in turn -----

  /** The last frame that crossed, in either direction. */
  function LastFrame(t: Trace): Option<Obs>
  {
    if t.Start? then None
    else if t.last.Read? || t.last.Wire? then Some(t.last)
    else LastFrame(t.earlier)
  }

  /** The agent's request was the last frame to cross, and it is owed a reply. */
  ghost predicate Due(t: Trace)
  {
    LastFrame(t).Some? && LastFrame(t).value.Read? && exists f :: Owes(LastFrame(t).value.m, f)
  }

  /** Whatever goes out right after such a request is that reply. */
  ghost predicate InTurn(t: Trace, o: Obs)
  {
    o.Wire? && Due(t) ==> Owes(LastFrame(t).value.m, o.f)
  }

  ghost predicate Orderly(t: Trace)
  {
    t.Start? || (Orderly(t.earlier) && InTurn(t.earlier, t.last))
  }

  /** Between steps no reply is due, unless the slot is closed. */
  ghost predicate Served(c: Conn)
  {
    Orderly(c.trace) && (c.open ==> !Due(c.trace))
  }

  // ----- every step keeps both -----

  ghost predicate Sound(c: Conn)
  {
    Accounted(c) && Served(c)
  }

  lemma WriteSound(c: Conn, f: Frame, fate: Fate)
    requires Sound(c)
    ensures Sound(Write(c, f, fate).0)
  {
  }

  lemma EmitSound(c: Conn, o: Obs)
    requires Sound(c) && !o.Wire? && !o.Read?
    ensures Sound(Emit(c, o))
  {
  }

  lemma ReadSound(c: Conn, m: Inbound)
    requires Sound(c) && !m.verb.RequestPermission? && !m.verb.Unknown?
    ensures Sound(Emit(c, Read(m)))
  {
  }

  lemma ReplySound(c: Conn, m: Inbound, f: Frame, fate: Fate)
    requires Sound(c) && Owes(m, f)
    ensures Sound(Dispatch(Emit(c, Read(m)), m, fate).0)
  {
    var read := Emit(c, Read(m));
    OwedIsWritten(read, m, f, fate);
    OwedIsLogged(read, m, f, fate);
    assert LastFrame(read.trace) == Some(Read(m));
    var d := Dispatch(read, m, fate).0;
    assert SlotOf(read) == SlotOf(c);
    assert SlotOf(d) == Put(SlotOf(read), Attempt(f, fate)) == PutAll(d.calls);
  }

  lemma OwedIsLogged(c: Conn, m: Inbound, f: Frame, fate: Fate)
    requires Owes(m, f)
    ensures Dispatch(c, m, fate).0.calls == Logged(c.calls, Attempt(f, fate))
  {
    if f.Selected? {
      ChooseExactly(m.verb.options, f.optionId);
    }
  }

  /** A frame that is owed nothing makes the client write nothing. */
  lemma NothingOwed(c: Conn, m: Inbound, fate: Fate)
    requires forall f :: !Owes(m, f)
    ensures var d := Dispatch(c, m, fate).0; d.trace == c.trace && d.calls == c.calls && d.open == c.open
  {
    if m.verb.RequestPermission? && m.id.Some? {
      NothingPermitted(m);
    } else if m.verb.Unknown? && m.id.Some? {
      assert Owes(m, MethodNotFound(m.id.value));
    }
  }

  lemma DispatchSound(c: Conn, m: Inbound, fate: Fate)
    requires Sound(c)
    ensures Sound(Dispatch(Emit(c, Read(m)), m, fate).0)
  {
    if f :| Owes(m, f) {
      ReplySound(c, m, f, fate);
    } else {
      NothingOwed(Emit(c, Read(m)), m, fate);
      assert !Due(After(c.trace, Read(m)));
    }
  }

  lemma ReturnSound(w: World, c: Conn, l: Loop, r: Reply)
    requires Sound(c)
    ensures Sound(Return(w, c, l, r).conn)
  {
    if l.pending.Some? {
      EmitSound(c, Closed(l.pending.value.req));
    }
    EmitSound(DropLocals(c, l), Returned(l.id, Surface(l.kind, r)));
  }

  lemma NeutralReturnSound(w: World, c: Conn, l: Loop, r: Reply)
    requires Sound(c)
    ensures Sound(NeutralReturn(w, c, l, r).conn)
  {
    if l.pending.Some? {
      EmitSound(c, Acked(l.pending.value.req, PromptCompletedNeutral));
    }
    ReturnSound(w, Neutral(c, l), l.(pending := None), r);
  }

  lemma LineSound(w: World, l: Loop, m: Inbound, later: nat, fate: Fate)
    requires Sound(w.conn)
    ensures Sound(LineArm(w, l, m, later, fate).conn)
  {
    var c := Emit(w.conn, Read(m));
    var l := Active(l, w.clock);
    if m.verb.Absent? || m.verb == SessionUpdate(ToolCall) {
      ReadSound(w.conn, m);
    }
    if l.pending.Some? && Answers(m, l.pending.value.id) {
      var p := l.pending.value;
      EmitSound(c, Acked(p.req, SteerVerdict(p.transport, m)));
    } else if Answers(m, l.id) {
      NeutralReturnSound(w, c, l, if m.error.Some? then Err(AgentError(m.error.value)) else Ok(m.result));
    } else if m.verb != SessionUpdate(ToolCall) {
      DispatchSound(w.conn, m, fate);
      var (d, r) := Dispatch(c, m, fate);
      if r.Failed? {
        ReturnSound(w, d, l, Err(r.error));
      }
    }
  }

  lemma TakeSound(c: Conn, fate: Fate)
    requires Sound(c)
    ensures Sound(TakeSteer(c, fate).0)
  {
    var d := Emit(c.(taken := c.taken + 1), Taken(c.taken));
    EmitSound(c, Taken(c.taken));
    if Transports(c).Some? {
      WriteSound(d.(nextId := c.nextId + 1),
                     Request(c.nextId, SteerCall(c.taken, Transports(c).value, c.activeRun)), fate);
    }
  }

  lemma SteerSound(w: World, l: Loop, fate: Fate)
    requires Sound(w.conn)
    ensures Sound(SteerArm(w, l, fate).conn)
  {
    TakeSound(w.conn, fate);
  }

  lemma LoopSound(w: World, l: Loop, wait: nat, pick: Pick)
    requires Sound(w.conn)
    ensures Sound(LoopTurn(w, l, wait, pick).conn)
  {
    var v := Pass(w, wait);
    if w.clock >= NextDeadline(l) {
      NeutralReturnSound(w, w.conn, l, TimeoutReply(l));
    } else {
      match pick {
        case Line(m, later, fate) => LineSound(v, l, m, later, fate);
        case Steer(fate) => SteerSound(v, l, fate);
        case Eof => NeutralReturnSound(v, v.conn, l, Err(AgentExited));
        case TooLong => NeutralReturnSound(v, v.conn, l, Err(Protocol));
        case ReadError => NeutralReturnSound(v, v.conn, l, Err(Io));
        case Wake =>
          NeutralReturnSound(if v.clock < NextDeadline(l) then v.(clock := NextDeadline(l)) else v,
                                 v.conn, l, TimeoutReply(l));
        case _ =>
      }
    }
  }

  lemma RpcSound(w: World, wait: nat, pick: Pick)
    requires w.task.RpcTask? && Sound(w.conn)
    ensures Sound(RpcTurn(w, w.task, wait, pick).conn)
  {
    if pick.Line? {
      var c := Emit(w.conn, Read(pick.m));
      if Answers(pick.m, w.task.rpc) {
        ReadSound(w.conn, pick.m);
        EmitSound(c, Initialized(pick.m.result.steering));
      } else {
        DispatchSound(w.conn, pick.m, pick.fate);
      }
    }
  }

  lemma NoticeSound(w: World, c: Conn, kind: LoopKind, id: nat, hard: nat, notice: Fate, wait: nat)
    requires Sound(c)
    ensures Sound(SendNotice(w, c, kind, id, hard, notice, wait).conn)
  {
    WriteSound(c, CancelNotice, notice);
  }

  lemma CancelSound(w: World, kind: LoopKind, hard: nat, answer: Fate, notice: Fate, wait: nat)
    requires Sound(w.conn)
    ensures Sound(CancelUntil(w, kind, hard, answer, notice, wait).conn)
  {
    if w.lastPromptId.Some? {
      var id, v, c := w.lastPromptId.value, w.(lastPromptId := None), w.conn;
      if c.pendingPermission.None? {
        NoticeSound(v, c, kind, id, hard, notice, wait);
      } else if c.permissionResponded {
        NoticeSound(v, c.(pendingPermission := None, permissionResponded := false), kind, id, hard, notice, wait);
      } else {
        WriteSound(c, Cancelled(c.pendingPermission.value), answer);
        var (d, r) := Answer(c, Cancelled(c.pendingPermission.value), answer, false);
        if r.Wrote? {
          NoticeSound(v, d, kind, id, hard, notice, wait);
        }
      }
    }
  }

  lemma IssueSound(c: Conn, call: Call, fate: Fate)
    requires Sound(c)
    ensures Sound(Issue(c, call, fate).0)
  {
    WriteSound(c.(nextId := c.nextId + 1), Request(c.nextId, call), fate);
  }

  lemma StartRpcSound(w: World, initialize: bool, fate: Fate, wait: nat)
    requires Sound(w.conn)
    ensures Sound(StartRpc(w, initialize, fate, wait).conn)
  {
    IssueSound(w.conn, if initialize then InitializeCall else OtherCall, fate);
  }

  lemma StartPromptSound(w: World, idle: nat, max: nat, fate: Fate, wait: nat)
    requires Sound(w.conn)
    ensures Sound(StartPrompt(w, idle, max, fate, wait).conn)
  {
    IssueSound(w.conn, PromptCall, fate);
  }

  lemma BeginSound(w: World, a: Action)
    requires Sound(w.conn)
    ensures Sound(Begin(w, a).conn)
  {
    match a {
      case Notify(fate) => WriteSound(w.conn, CancelNotice, fate);
      case Rpc(initialize, fate, wait) => StartRpcSound(w, initialize, fate, wait);
      case Prompt(idle, max, fate, wait) => StartPromptSound(w, idle, max, fate, wait);
      case Cancel(grace, answer, notice, wait) =>
        CancelSound(w.(currentHard := None), DrainKind(grace), DrainDeadline(w, grace), answer, notice, wait);
      case _ =>
    }
  }

  /** Whatever a step does, the wire stays what the calls made of it, and requests are answered in turn. */
  lemma StepSound(w: World, e: Event)
    requires Sound(w.conn)
    ensures Sound(Step(w, e).conn)
  {
    var v := Pass(w, e.dt);
    if e.action.Turn? {
      match v.task {
        case NoTask =>
        case RpcTask(_, _, _) => RpcSound(v, e.action.wait, e.action.pick);
        case LoopTask(l) => LoopSound(v, l, e.action.wait, e.action.pick);
      }
    } else if v.task.NoTask? {
      BeginSound(v, e.action);
    }
  }

  lemma {:induction false} RunSound(w: World, es: seq<Event>)
    requires Sound(w.conn)
    ensures Sound(Run(w, es).conn)
    decreases |es|
  {
    if es == [] {
    } else {
      StepSound(w, es[0]);
      RunSound(Step(w, es[0]), es[1..]);
    }
  }

  lemma {:induction false} OrderlyMoment(t: Trace, h: Trace, o: Obs)
    requires Orderly(t) && Moment(After(h, o), t)
    ensures InTurn(h, o)
  {
    if After(h, o) != t {
      OrderlyMoment(t.earlier, h, o);
    }
  }

  /**
  In every run, the first frame that reaches the agent after a request of its own
  is the reply that request is owed; and if none has reached it by the end of the
  run, the slot is closed.
  */
  lemma AgentIsAnsweredInTurn(es: seq<Event>, h: Trace, f: Frame)
    ensures Moment(After(h, Wire(f)), History(es)) && Due(h) ==> Owes(LastFrame(h).value.m, f)
    ensures Due(History(es)) ==> !Run(Initial(), es).conn.open
  {
    RunSound(Initial(), es);
    if Moment(After(h, Wire(f)), History(es)) {
      OrderlyMoment(History(es), h, Wire(f));
    }
  }

  // ----- bytes -----

  function Encoded(fs: seq<Frame>, encode: Frame -> seq<Byte>): seq<seq<Byte>>
  {
    seq(|fs|, i requires 0 <= i < |fs| => encode(fs[i]))
  }

  /** The bytes on the pipe are the frames that arrived; a torn last frame shuts the pipe. */
  predicate Represents(p: Pipe, s: Slot, encode: Frame -> seq<Byte>)
  {
    && p.open == s.open
    && (p.open ==> p.wire == Frames(Encoded(s.frames, encode)))
    && Lines(p.wire) == Encoded(s.frames, encode)
  }

  /** The byte-level call with the matching fate; `at` is where a torn frame is cut. */
  function CallOf(a: Attempt, encode: Frame -> seq<Byte>, at: nat): FrameCall
  {
    var body := encode(a.f);
    FrameCall(body, match a.fate
               case Done => None
               case Broken(full, _) => Some(if full then |body| + 1 else if at <= |body| then at else |body|))
  }

  lemma {:induction false} FramesSnoc(bodies: seq<seq<Byte>>, b: seq<Byte>)
    ensures Frames(bodies + [b]) == Frames(bodies) + Framed(b)
    decreases |bodies|
  {
    if bodies == [] {
      assert bodies + [b] == [b] && [b][1..] == [];
    } else {
      assert (bodies + [b])[1..] == bodies[1..] + [b];
      FramesSnoc(bodies[1..], b);
    }
  }

  /** Wherever the byte-level write is cut, it represents the frame-level write. */
  lemma WriteRefines(p: Pipe, s: Slot, a: Attempt, encode: Frame -> seq<Byte>, at: nat)
    requires Represents(p, s, encode) && forall g :: Clean(encode(g))
    ensures Represents(Deliver(p, CallOf(a, encode, at)), Put(s, a), encode)
  {
    if s.open {
      var call := CallOf(a, encode, at);
      LinesOfFrames(Encoded(s.frames, encode), Portion(call));
      if call.cut.Some? && call.cut.value <= |call.body| {
        LinesOfPartial(Portion(call), []);
      } else {
        assert Encoded(s.frames + [a.f], encode) == Encoded(s.frames, encode) + [call.body];
        FramesSnoc(Encoded(s.frames, encode), call.body);
        LinesOfFrame(call.body, [], []);
        assert Framed(call.body) + [] == Framed(call.body) && [] + call.body == call.body;
      }
    }
  }

  function Size(log: Log): nat
  {
    match log case NoCalls => 0 case Logged(earlier, _) => Size(earlier) + 1
  }

  /** The calls of a log on bytes, the n-th one cut at `at(n)` if it is torn. */
  function Calls(log: Log, encode: Frame -> seq<Byte>, at: nat -> nat): seq<FrameCall>
  {
    match log
    case NoCalls => []
    case Logged(earlier, call) => Calls(earlier, encode, at) + [CallOf(call, encode, at(Size(earlier)))]
  }

  lemma {:induction false} DeliverSnoc(p: Pipe, cs: seq<FrameCall>, c: FrameCall)
    ensures DeliverAll(p, cs + [c]) == Deliver(DeliverAll(p, cs), c)
    decreases |cs|
  {
    if cs == [] {
      assert cs + [c] == [c] && [c][1..] == [];
      assert DeliverAll(p, [c]) == DeliverAll(Deliver(p, c), [c][1..]);
    } else {
      assert (cs + [c])[1..] == cs[1..] + [c];
      DeliverSnoc(Deliver(p, cs[0]), cs[1..], c);
    }
  }

  lemma {:induction false} CallsRefine(log: Log, encode: Frame -> seq<Byte>, at: nat -> nat)
    requires forall g :: Clean(encode(g))
    ensures Represents(DeliverAll(Pipe(true, []), Calls(log, encode, at)), PutAll(log), encode)
  {
    match log {
      case NoCalls =>
        assert Encoded([], encode) == [];
      case Logged(earlier, call) =>
        CallsRefine(earlier, encode, at);
        var cut := at(Size(earlier));
        DeliverSnoc(Pipe(true, []), Calls(earlier, encode, at), CallOf(call, encode, cut));
        WriteRefines(DeliverAll(Pipe(true, []), Calls(earlier, encode, at)), PutAll(earlier), call, encode, cut);
    }
  }

  /**
  In every run, wherever the broken ones among the calls it made are cut, what
  those calls put on the pipe reads exactly as the frames of the trace: none is
  missing, torn, reordered or made up.
  */
  lemma AgentReadsTrace(es: seq<Event>, encode: Frame -> seq<Byte>, at: nat -> nat)
    requires forall g :: Clean(encode(g))
    ensures var c := Run(Initial(), es).conn;
            Represents(DeliverAll(Pipe(true, []), Calls(c.calls, encode, at)), SlotOf(c), encode)
  {
    RunSound(Initial(), es);
    CallsRefine(Run(Initial(), es).conn.calls, encode, at);
  }
}
