/**
What the ACP client does with each thing that can happen to it, read off the trace:
which frames go out, which answers are returned and when, for every state and event.
*/
module AcpReplies {
  import opened Prelude
  import opened AcpTypes
  import opened AcpMachine
  import opened AcpInvariant

  /** The running read loop gets to select: its deadlines are ahead. */
  predicate InTime(w: World, e: Event)
  {
    && w.task.LoopTask? && e.action.Turn?
    && w.clock + e.dt < w.task.loop.idleDeadline && w.clock + e.dt < w.task.loop.hard
  }

  /** The running loop, either of the two, reads frame `m`. */
  predicate Reads(w: World, e: Event, m: Inbound)
  {
    (InTime(w, e) || (w.task.RpcTask? && e.action.Turn?)) && e.action.pick.Line? && e.action.pick.m == m
  }

  /** The id of the request the running loop waits for. */
  function Awaited(t: Task): nat
    requires !t.NoTask?
  {
    if t.RpcTask? then t.rpc else t.loop.id
  }

  /** The frame answers the steer in flight. */
  predicate AnswersSteer(w: World, m: Inbound)
  {
    w.task.LoopTask? && w.task.loop.pending.Some? && Answers(m, w.task.loop.pending.value.id)
  }

  /** The history with the steer in flight released neutrally. */
  function Released(t: Trace, task: Task): Trace
  {
    if task.LoopTask? && task.loop.pending.Some?
    then After(t, Acked(task.loop.pending.value.req, PromptCompletedNeutral)) else t
  }

  /** The history with the steer in flight dropped unanswered. */
  function Abandoned(t: Trace, task: Task): Trace
  {
    if task.LoopTask? && task.loop.pending.Some? then After(t, Closed(task.loop.pending.value.req)) else t
  }

  // ----- answers to the client's own requests -----

  /** What the agent's answer says: its result, or its error. */
  function Said(m: Inbound): Reply
  {
    if m.error.None? then Ok(m.result) else Err(AgentError(m.error.value))
  }

  /** The answer to the request a read loop waits for is returned at once, result or error, and ends the loop. */
  lemma AnswerIsReturned(w: World, e: Event, m: Inbound)
    requires Reads(w, e, m) && Answers(m, Awaited(w.task)) && !AnswersSteer(w, m)
    ensures var v := Step(w, e);
            && v.task.NoTask?
            && v.conn.trace.After? && v.conn.trace.last == Returned(Awaited(w.task), Said(m))
            && (w.task.LoopTask? ==> v.conn.trace.earlier == Released(After(w.conn.trace, Read(m)), w.task))
  {
  }

  /** An error-less answer to `initialize` records the capability it carries, before it is returned. */
  lemma InitializeRecords(w: World, e: Event, m: Inbound)
    requires Reads(w, e, m) && w.task.RpcTask? && Answers(m, w.task.rpc)
    ensures var v := Step(w, e);
            if w.task.initialize && m.error.None?
            then v.conn.trace.earlier == After(After(w.conn.trace, Read(m)), Initialized(m.result.steering))
                 && v.conn.steeringSupported == m.result.steering
            else v.conn.trace.earlier == After(w.conn.trace, Read(m))
                 && v.conn.steeringSupported == w.conn.steeringSupported
  {
  }

  /** What the answer to a steer means for its sender. */
  function Verdict(transport: Transport, m: Inbound): Ack
  {
    if m.error.Some? then AgentRejected(m.error.value)
    else if transport == AcpExtension && m.result.outcome == Unrecognized then OutcomeRejected
    else Success
  }

  /** The answer to the steer in flight is acked at once, and the loop goes on without it. */
  lemma SteerAnswerIsAcked(w: World, e: Event, m: Inbound)
    requires Reads(w, e, m) && AnswersSteer(w, m)
    ensures var v := Step(w, e); var p := w.task.loop.pending.value;
            && v.conn.trace == After(After(w.conn.trace, Read(m)), Acked(p.req, Verdict(p.transport, m)))
            && v.task.LoopTask? && v.task.loop.pending.None?
  {
  }

  // ----- the agent's own requests -----

  /** `f` is the reply that the agent's request `m` is owed. */
  predicate Owes(m: Inbound, f: Frame)
  {
    match f
    case Selected(v, optionId) =>
      m.id == Some(v) && m.verb.RequestPermission? && m.verb.options.Some? && Permitted(m.verb.options.value, optionId)
    case MethodNotFound(v) => m.id == Some(v) && m.verb.Unknown?
    case _ => false
  }

  /** A permission request that cannot be answered: it has no id, or permits no option. */
  ghost predicate Unanswerable(m: Inbound)
  {
    m.verb.RequestPermission? && forall f :: !Owes(m, f)
  }

  /** A frame that asks for nothing. */
  predicate Silent(m: Inbound)
  {
    !m.verb.Absent? && !m.verb.RequestPermission? && !(m.verb.Unknown? && m.id.Some?)
  }

  /** What a dispatched frame comes to, given how its handling ended. */
  lemma Dispatched(w: World, e: Event, m: Inbound)
    requires Reads(w, e, m) && !m.verb.Absent? && m.verb != SessionUpdate(ToolCall)
    ensures var (d, r) := Dispatch(Emit(w.conn, Read(m)), m, e.action.pick.fate); var v := Step(w, e);
            && v.conn.open == d.open && v.conn.pendingPermission == d.pendingPermission
            && v.conn.permissionResponded == d.permissionResponded
            && (v.task.NoTask? <==> !r.Wrote?) && (r.Wrote? ==> Awaited(v.task) == Awaited(w.task))
            && v.conn.trace ==
               match r
               case Wrote => d.trace
               case Failed(error) => After(Abandoned(d.trace, w.task), Returned(Awaited(w.task), Err(error)))
               case Gone => Abandoned(d.trace, w.task)
  {
    DispatchFrame(Emit(w.conn, Read(m)), m, e.action.pick.fate);
  }

  /** The reply owed is what handling the frame writes. */
  lemma OwedIsWritten(c: Conn, m: Inbound, f: Frame, fate: Fate)
    requires Owes(m, f)
    ensures var (d, r) := Dispatch(c, m, fate);
            if !c.open then !d.open && d.trace == c.trace && r == Failed(Io)
            else match fate
              case Done => d.open && d.trace == After(c.trace, Wire(f)) && r == Wrote
                           && (f.Selected? ==> d.pendingPermission.None? && d.permissionResponded)
              case Broken(full, how) =>
                !d.open && d.trace == (if full then After(c.trace, Wire(f)) else c.trace)
                && r == match how case Failure => Failed(Io) case Expiry => Failed(WriteTimeout) case Drop => Gone
  {
    if f.Selected? {
      ChooseExactly(m.verb.options, f.optionId);
    }
  }

  /** With stdin open and the write whole, the reply owed goes out right behind the request, and the loop goes on. */
  lemma RequestIsAnswered(w: World, e: Event, m: Inbound, f: Frame)
    requires Reads(w, e, m) && Owes(m, f) && w.conn.open && e.action.pick.fate.Done?
    ensures var v := Step(w, e);
            && v.conn.trace == After(After(w.conn.trace, Read(m)), Wire(f)) && v.conn.open
            && !v.task.NoTask? && Awaited(v.task) == Awaited(w.task)
            && (f.Selected? ==> v.conn.pendingPermission.None? && v.conn.permissionResponded)
  {
    Dispatched(w, e, m);
    OwedIsWritten(Emit(w.conn, Read(m)), m, f, e.action.pick.fate);
  }

  /** If the slot is closed, the reply fails at once, and the call with it. */
  lemma ClosedSlotFailsReply(w: World, e: Event, m: Inbound, f: Frame)
    requires Reads(w, e, m) && Owes(m, f) && !w.conn.open
    ensures var v := Step(w, e);
            && v.task.NoTask? && !v.conn.open
            && v.conn.trace ==
               After(Abandoned(After(w.conn.trace, Read(m)), w.task), Returned(Awaited(w.task), Err(Io)))
  {
    Dispatched(w, e, m);
    OwedIsWritten(Emit(w.conn, Read(m)), m, f, e.action.pick.fate);
  }

  /** A reply whose write breaks closes the slot; the call fails with the write, or disappears with it. */
  lemma BrokenReplyEndsCall(w: World, e: Event, m: Inbound, f: Frame)
    requires Reads(w, e, m) && Owes(m, f) && w.conn.open && e.action.pick.fate.Broken?
    ensures var v := Step(w, e); var fate := e.action.pick.fate;
            var read := After(w.conn.trace, Read(m));
            var written := if fate.full then After(read, Wire(f)) else read;
            && v.task.NoTask? && !v.conn.open
            && v.conn.trace ==
               match fate.how
               case Failure => After(Abandoned(written, w.task), Returned(Awaited(w.task), Err(Io)))
               case Expiry => After(Abandoned(written, w.task), Returned(Awaited(w.task), Err(WriteTimeout)))
               case Drop => Abandoned(written, w.task)
  {
    Dispatched(w, e, m);
    OwedIsWritten(Emit(w.conn, Read(m)), m, f, e.action.pick.fate);
  }

  lemma NothingPermitted(m: Inbound)
    requires Unanswerable(m) && m.id.Some?
    ensures Choose(m.verb.options).None?
  {
    var choice := Choose(m.verb.options);
    if choice.Some? {
      ChooseExactly(m.verb.options, choice.value);
      assert Owes(m, Selected(m.id.value, choice.value));
    }
  }

  /** An unanswerable permission request writes nothing and fails the call; its id stays pending for a cancel. */
  lemma UnanswerableFailsCall(w: World, e: Event, m: Inbound)
    requires Reads(w, e, m) && Unanswerable(m)
    ensures var v := Step(w, e);
            && v.task.NoTask? && v.conn.open == w.conn.open
            && v.conn.trace ==
               After(Abandoned(After(w.conn.trace, Read(m)), w.task), Returned(Awaited(w.task), Err(Protocol)))
            && v.conn.pendingPermission == if m.id.Some? then m.id else w.conn.pendingPermission
  {
    Dispatched(w, e, m);
    if m.id.Some? {
      NothingPermitted(m);
    }
  }

  /** Any other frame writes nothing, answers nothing and leaves the loop waiting; so does a response to nobody. */
  lemma OtherFramesAreOnlyRead(w: World, e: Event, m: Inbound)
    requires Reads(w, e, m)
    requires Silent(m) || (m.verb.Absent? && !Answers(m, Awaited(w.task)) && !AnswersSteer(w, m))
    ensures var v := Step(w, e);
            && v.conn.trace == After(w.conn.trace, Read(m)) && v.conn.open == w.conn.open
            && v.conn.pendingPermission == w.conn.pendingPermission
            && !v.task.NoTask? && Awaited(v.task) == Awaited(w.task)
  {
    if Silent(m) && m.verb != SessionUpdate(ToolCall) {
      Dispatched(w, e, m);
    }
  }

  /** A frame is owed one reply at most. */
  lemma OwesOne(m: Inbound, f: Frame, g: Frame)
    requires Owes(m, f) && Owes(m, g)
    ensures f == g
  {
    if f.Selected? {
      ChooseExactly(m.verb.options, f.optionId);
      ChooseExactly(m.verb.options, g.optionId);
    }
  }

  // ----- activity -----

  /** Every frame read counts as activity when it is read, and a tool call once more when it was handled. */
  lemma ActivityExactly(w: World, e: Event)
    requires InTime(w, e) && Step(w, e).task.LoopTask?
    ensures var l, at := Step(w, e).task.loop, w.clock + e.dt + e.action.wait; var pick := e.action.pick;
            if !pick.Line? then
              l.lastActivity == w.task.loop.lastActivity && l.idleDeadline == w.task.loop.idleDeadline
            else
              && l.lastActivity == (if pick.m.verb == SessionUpdate(ToolCall) then at + pick.later else at)
              && l.idleDeadline == l.lastActivity + l.idle
  {
  }

  // ----- steers -----

  /** A steer request is taken only with a receiver and no steer in flight. */
  lemma SteerWaits(w: World, e: Event)
    requires InTime(w, e) && e.action.pick.Steer? && !(w.task.loop.hasRx && w.task.loop.pending.None?)
    ensures Step(w, e).conn == w.conn && Step(w, e).task == w.task
  {
  }

  /** The transport of a steer: Goose with a run id, else the extension if it was advertised. */
  function Carrier(c: Conn): Option<Transport>
  {
    match (c.activeRun, c.steeringSupported)
    case (Some(_), _) => Some(Goose)
    case (None, true) => Some(AcpExtension)
    case (None, false) => None
  }

  /** A steer that some transport can carry goes out at once, and then it alone is in flight. */
  lemma SteerIsSent(w: World, e: Event)
    requires InTime(w, e) && e.action.pick == Steer(Done) && w.task.loop.hasRx && w.task.loop.pending.None?
    requires w.conn.open && Carrier(w.conn).Some?
    ensures var v := Step(w, e); var k, id, carrier := w.conn.taken, w.conn.nextId, Carrier(w.conn).value;
            && v.conn.trace ==
               After(After(w.conn.trace, Taken(k)), Wire(Request(id, SteerCall(k, carrier, w.conn.activeRun))))
            && v.conn.nextId == id + 1
            && v.task.LoopTask? && v.task.loop.pending == Some(Pending(id, carrier, k))
  {
  }

  /** A steer whose frame cannot be written closes the slot and is acked as a transport failure, or dropped. */
  lemma SteerWriteFails(w: World, e: Event)
    requires InTime(w, e) && e.action.pick.Steer? && w.task.loop.hasRx && w.task.loop.pending.None?
    requires Carrier(w.conn).Some? && (!w.conn.open || e.action.pick.fate.Broken?)
    ensures var v := Step(w, e); var k, fate := w.conn.taken, e.action.pick.fate;
            var call := SteerCall(k, Carrier(w.conn).value, w.conn.activeRun);
            var taken := After(w.conn.trace, Taken(k));
            var written := if w.conn.open && fate.full then After(taken, Wire(Request(w.conn.nextId, call))) else taken;
            && !v.conn.open
            && if w.conn.open && fate.how.Drop? then v.task.NoTask? && v.conn.trace == After(written, Closed(k))
               else
                 var error := if w.conn.open && fate.how.Expiry? then WriteTimeout else Io;
                 v.task == w.task && v.conn.trace == After(written, Acked(k, TransportFailed(error)))
  {
  }

  /** A steer that none can carry is turned down, and nothing is written. */
  lemma SteerIsTurnedDown(w: World, e: Event)
    requires InTime(w, e) && e.action.pick.Steer? && w.task.loop.hasRx && w.task.loop.pending.None?
    requires Carrier(w.conn).None?
    ensures var v := Step(w, e);
            && v.conn.trace == After(After(w.conn.trace, Taken(w.conn.taken)), Acked(w.conn.taken, RunIdMissing))
            && v.conn.nextId == w.conn.nextId && v.task == w.task
  {
  }

  // ----- how a loop ends -----

  /** What ends a loop other than an answer, and what it reports. */
  function Ending(pick: Pick): Option<Error>
  {
    match pick
    case Eof => Some(AgentExited)
    case TooLong => Some(Protocol)
    case ReadError => Some(Io)
    case _ => None
  }

  lemma LoopEndsWith(w: World, e: Event)
    requires (InTime(w, e) || (w.task.RpcTask? && e.action.Turn?)) && Ending(e.action.pick).Some?
    ensures var v := Step(w, e);
            && v.task.NoTask?
            && v.conn.trace == After(Released(w.conn.trace, w.task),
                                     Returned(Awaited(w.task), Err(Ending(e.action.pick).value)))
  {
  }

  /** The timeout a loop reports: idle if that deadline is strictly first, else hard, or in a bounded drain its own. */
  function Expired(l: Loop): Error
  {
    if l.idleDeadline < l.hard then IdleTimeout else if l.kind.GraceDrain? then CancelDrainTimeout else HardTimeout
  }

  /** A loop whose deadline passes, before it selects or while it waits, releases the steer and reports that. */
  lemma DeadlineEndsLoop(w: World, e: Event)
    requires w.task.LoopTask? && e.action.Turn? && (!InTime(w, e) || e.action.pick.Wake?)
    ensures var v := Step(w, e); var l := w.task.loop;
            && v.task.NoTask?
            && v.conn.trace == After(Released(w.conn.trace, w.task), Returned(l.id, Err(Expired(l))))
            && (v.clock >= l.idleDeadline || v.clock >= l.hard)
  {
  }

  /** A plain request whose timeout fires reports that. */
  lemma RequestTimesOut(w: World, e: Event)
    requires w.task.RpcTask? && e.action.Turn? && e.action.pick.Wake?
    ensures var v := Step(w, e);
            v.task.NoTask? && v.clock >= w.task.deadline
            && v.conn.trace == After(w.conn.trace, Returned(w.task.rpc, Err(Timeout)))
  {
  }

  /** A dropped future leaves the wire alone and reports nothing. */
  lemma DroppedFutureIsSilent(w: World, e: Event)
    requires (InTime(w, e) || (w.task.RpcTask? && e.action.Turn?)) && e.action.pick.Dropped?
    ensures var v := Step(w, e);
            v.task.NoTask? && v.conn.trace == Abandoned(w.conn.trace, w.task) && v.conn.open == w.conn.open
  {
  }

  /** A blank or unparseable line is as if it had not come. */
  lemma SkippedLine(w: World, e: Event)
    requires (InTime(w, e) || (w.task.RpcTask? && e.action.Turn?)) && e.action.pick.Skip?
    ensures Step(w, e).conn == w.conn && Step(w, e).task == w.task
  {
  }

  // ----- operations on an idle client -----

  /** The call that an operation opens with, if it opens with a request. */
  function Opening(a: Action): Option<Call>
  {
    match a
    case Rpc(initialize, _, _) => Some(if initialize then InitializeCall else OtherCall)
    case Prompt(_, _, _, _) => Some(PromptCall)
    case _ => None
  }

  /** A request goes out whole under the next id, and its loop waits for that id. */
  lemma OperationGoesOut(w: World, e: Event)
    requires w.task.NoTask? && Opening(e.action).Some? && w.conn.open && e.action.fate.Done?
    ensures var v := Step(w, e);
            && v.conn.trace == After(w.conn.trace, Wire(Request(w.conn.nextId, Opening(e.action).value)))
            && v.conn.nextId == w.conn.nextId + 1 && !v.task.NoTask? && Awaited(v.task) == w.conn.nextId
            && (e.action.Rpc? ==>
                  v.task == RpcTask(w.conn.nextId, e.action.initialize, v.clock + REQUEST_TIMEOUT))
  {
  }

  /** A request that fails to go out is reported, and leaves no prompt in flight. */
  lemma OperationFails(w: World, e: Event)
    requires w.task.NoTask? && Opening(e.action).Some?
    requires !w.conn.open || (e.action.fate.Broken? && !e.action.fate.how.Drop?)
    ensures var v := Step(w, e); var id, fate := w.conn.nextId, e.action.fate;
            var error := if w.conn.open && fate.how.Expiry? then WriteTimeout else Io;
            && v.task.NoTask? && !v.conn.open && v.conn.nextId == id + 1
            && v.conn.trace ==
               After(if w.conn.open && fate.full then After(w.conn.trace, Wire(Request(id, Opening(e.action).value)))
                     else w.conn.trace,
                     Returned(id, Err(error)))
            && (e.action.Prompt? ==> v.lastPromptId.None? && v.currentHard.None?)
  {
  }

  /** A prompt dropped inside its write counts as in flight, on a closed slot. */
  lemma PromptDroppedInWrite(w: World, e: Event)
    requires w.task.NoTask? && e.action.Prompt? && w.conn.open && e.action.fate.Broken? && e.action.fate.how.Drop?
    ensures var v := Step(w, e);
            && v.task.NoTask? && !v.conn.open && v.lastPromptId == Some(w.conn.nextId)
            && v.currentHard == Some(w.clock + e.dt + e.action.max)
  {
  }

  /** A cancellation drains exactly if a prompt is in flight and everything it has to write goes out. */
  lemma CancelDrainsExactly(w: World, e: Event)
    requires Inv(w) && w.task.NoTask? && e.action.Cancel?
    ensures Step(w, e).task.LoopTask? <==>
            && w.lastPromptId.Some? && w.conn.open && e.action.notice.Done?
            && (w.conn.pendingPermission.Some? ==> e.action.answer.Done?)
    ensures Step(w, e).task.LoopTask? || Step(w, e).task.NoTask?
  {
  }

  /** Without a prompt in flight, a cancellation writes nothing and only forgets the stored deadline. */
  lemma CancelWithoutPrompt(w: World, e: Event)
    requires w.task.NoTask? && e.action.Cancel? && w.lastPromptId.None?
    ensures var v := Step(w, e);
            v.conn == w.conn && v.task.NoTask? && v.currentHard.None? && v.lastPromptId.None? && v.steerRx == w.steerRx
  {
  }

  /** A bare cancel notice goes out, and a receiver is installed or cleared, with nothing else changed. */
  lemma SmallOperations(w: World, e: Event)
    requires w.task.NoTask?
    ensures e.action.Notify? && w.conn.open && e.action.fate.Done? ==>
              Step(w, e).conn.trace == After(w.conn.trace, Wire(CancelNotice))
    ensures e.action.Install? || e.action.Clear? ==>
              Step(w, e) == w.(clock := w.clock + e.dt, steerRx := e.action.Install?)
  {
  }
}
