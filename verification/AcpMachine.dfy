/**
The ACP client as a step machine (acp.rs, acp_frame_writer.rs). A `World` holds
the client's fields, the locals of the one future that may be running, a clock,
and the trace. The environment is the event sequence: what the agent emits, how
time passes, how each write fares, when steer requests arrive, and where the
running future is dropped.
*/
module AcpMachine {
  import opened Prelude
  import opened AcpTypes

  const CLEANUP: nat := 30 * SECOND
  const REQUEST_TIMEOUT: nat := 60 * SECOND

  /** A steer whose frame was written and whose response is awaited. */
  datatype Pending = Pending(id: nat, transport: Transport, req: nat)

  datatype LoopKind = PromptLoop | CleanupDrain | GraceDrain(grace: nat)

  /** Parameters and locals of `read_until_response_with_idle_timeout`. */
  datatype Loop = Loop(
    kind: LoopKind, id: nat, idle: nat, maxDuration: nat,
    hasRx: bool, pending: Option<Pending>,
    idleDeadline: nat, hard: nat, lastActivity: nat)

  datatype Task =
    | NoTask
    | RpcTask(rpc: nat, initialize: bool, deadline: nat)
    | LoopTask(loop: Loop)

  /** How one frame write ends; `full` says whether all its bytes arrived anyway. */
  datatype How = Failure | Expiry | Drop
  datatype Fate = Done | Broken(full: bool, how: How)

  /** A call of the frame writer. */
  datatype Attempt = Attempt(f: Frame, fate: Fate)

  /** All calls so far, the newest last. */
  datatype Log = NoCalls | Logged(earlier: Log, call: Attempt)

  /** The connection: the wire, what the agent reported, and what is owed to whom. */
  datatype Conn = Conn(
    open: bool,                       // the stdin slot holds its writer
    nextId: nat,
    pendingPermission: Option<Id>,
    permissionResponded: bool,
    activeRun: Option<string>,
    steeringSupported: bool,
    taken: nat,                       // steer requests taken so far
    calls: Log,                       // what was handed to the frame writer
    trace: Trace)

  /** The connection together with the turn it serves. */
  datatype World = World(
    conn: Conn,
    lastPromptId: Option<nat>,
    currentHard: Option<nat>,
    steerRx: bool,                    // a steer receiver is installed
    clock: nat,
    task: Task)

  /** `Gone`: the future was dropped inside the write. */
  datatype Written = Wrote | Failed(error: Error) | Gone

  /** What the `select!` of a read loop yields. */
  datatype Pick =
    | Eof | TooLong | ReadError
    | Skip                                      // blank or unparseable line
    | Line(m: Inbound, later: nat, fate: Fate)
    | Steer(fate: Fate)
    | Wake
    | Dropped

  datatype Action =
    | Install
    | Clear
    | Notify(fate: Fate)                                             // session_cancel
    | Rpc(initialize: bool, fate: Fate, wait: nat)
    | Prompt(idle: nat, max: nat, fate: Fate, wait: nat)
    | Cancel(grace: Option<nat>, answer: Fate, notice: Fate, wait: nat)
    | Turn(wait: nat, pick: Pick)                                    // one read-loop iteration

  datatype Event = Event(dt: nat, action: Action)

  function Initial(): World
  {
    World(Conn(true, 0, None, false, None, false, 0, NoCalls, Start), None, None, false, 0, NoTask)
  }

  function Emit(c: Conn, o: Obs): Conn
  {
    c.(trace := After(c.trace, o))
  }

  function Pass(w: World, d: nat): World
  {
    w.(clock := w.clock + d)
  }

  // ----- writing -----

  function Outcomes(how: How): Written
  {
    match how case Failure => Failed(Io) case Expiry => Failed(WriteTimeout) case Drop => Gone
  }

  /** `write_ndjson`: an incomplete write closes the slot for good. */
  function Write(c: Conn, f: Frame, fate: Fate): (Conn, Written)
  {
    var d := c.(calls := Logged(c.calls, Attempt(f, fate)));
    if !d.open then
      (d, Failed(Io))
    else
      match fate
      case Done => (Emit(d, Wire(f)), Wrote)
      case Broken(full, how) =>
        (if full then Emit(d.(open := false), Wire(f)) else d.(open := false), Outcomes(how))
  }

  /** Write a permission response and, only once it is written, clear the pending id. */
  function Answer(c: Conn, f: Frame, fate: Fate, responded: bool): (Conn, Written)
  {
    var (d, r) := Write(c, f, fate);
    (if r.Wrote? then d.(pendingPermission := None, permissionResponded := responded) else d, r)
  }

  function FindKind(options: seq<PermissionOption>, kind: OptionKind): Option<PermissionOption>
  {
    if options == [] then None
    else if options[0].kind == kind then Some(options[0])
    else FindKind(options[1..], kind)
  }

  /** The option id to answer with, if the request can be answered at all. */
  function Choose(options: Option<seq<PermissionOption>>): Option<string>
  {
    if options.None? then
      None
    else
      match FindKind(options.value, AllowOnce)
      case Some(o) => o.optionId
      case None =>
        match FindKind(options.value, RejectOnce)
        case Some(o) => Some(if o.optionId.Some? then o.optionId.value else "reject")
        case None => None
  }

  function HandlePermission(c: Conn, id: Option<Id>, choice: Option<string>, fate: Fate): (Conn, Written)
  {
    if id.None? then
      (c, Failed(Protocol))
    else
      var d := c.(pendingPermission := id, permissionResponded := false);
      if choice.None? then (d, Failed(Protocol)) else Answer(d, Selected(id.value, choice.value), fate, true)
  }

  function HandleUpdate(c: Conn, u: Update): Conn
  {
    match u
    case SessionInfo(SetRun(run)) => c.(activeRun := Some(run))
    case SessionInfo(ClearRun) => c.(activeRun := None)
    case _ => c
  }

  /** Notifications and agent-initiated requests; shared by both read loops. */
  function Dispatch(c: Conn, m: Inbound, fate: Fate): (Conn, Written)
  {
    match m.verb
    case SessionUpdate(u) => (HandleUpdate(c, u), Wrote)
    case RequestPermission(options) => HandlePermission(c, m.id, Choose(options), fate)
    case Unknown => if m.id.Some? then Write(c, MethodNotFound(m.id.value), fate) else (c, Wrote)
    case _ => (c, Wrote)
  }

  // ----- the idle-aware read loop -----

  /** Dropping the loop's locals drops an unanswered steer's oneshot. */
  function DropLocals(c: Conn, l: Loop): Conn
  {
    if l.pending.Some? then Emit(c, Closed(l.pending.value.req)) else c
  }

  /** The future disappears without returning. */
  function Abandon(w: World, c: Conn, l: Loop): World
  {
    w.(conn := DropLocals(c, l), task := NoTask)
  }

  function Surface(kind: LoopKind, r: Reply): Reply
  {
    if kind.GraceDrain? && r == Err(HardTimeout) then Err(CancelDrainTimeout) else r
  }

  predicate TurnTimeout(r: Reply)
  {
    r == Err(IdleTimeout) || r == Err(HardTimeout)
  }

  /** The loop returns `r`, and its caller finishes with it. */
  function Return(w: World, c: Conn, l: Loop, r: Reply): World
  {
    var v := w.(conn := Emit(DropLocals(c, l), Returned(l.id, Surface(l.kind, r))), task := NoTask);
    if l.kind.PromptLoop? && !TurnTimeout(r) then v.(lastPromptId := None, currentHard := None) else v
  }

  /** The drain that most return paths run first. */
  function Neutral(c: Conn, l: Loop): Conn
  {
    if l.pending.Some? then Emit(c, Acked(l.pending.value.req, PromptCompletedNeutral)) else c
  }

  function NeutralReturn(w: World, c: Conn, l: Loop, r: Reply): World
  {
    Return(w, Neutral(c, l), l.(pending := None), r)
  }

  function Continue(w: World, c: Conn, l: Loop): World
  {
    w.(conn := c, task := LoopTask(l))
  }

  function StartLoop(w: World, kind: LoopKind, id: nat, idle: nat, hard: nat, max: nat): World
  {
    w.(steerRx := false,
       task := LoopTask(Loop(kind, id, idle, max, w.steerRx, None, w.clock + idle, hard, w.clock)))
  }

  function NextDeadline(l: Loop): nat
  {
    if l.idleDeadline < l.hard then l.idleDeadline else l.hard
  }

  function TimeoutReply(l: Loop): Reply
  {
    if l.idleDeadline < l.hard then Err(IdleTimeout) else Err(HardTimeout)
  }

  function Active(l: Loop, now: nat): Loop
  {
    l.(idleDeadline := now + l.idle, lastActivity := now)
  }

  /** Goose wins when a run id is known; the extension needs the advertised capability. */
  function Transports(c: Conn): Option<Transport>
  {
    if c.activeRun.Some? then Some(Goose) else if c.steeringSupported then Some(AcpExtension) else None
  }

  /** Take a steer request off the channel and write its frame, if a transport can carry it. */
  function TakeSteer(c: Conn, fate: Fate): (Conn, Written)
  {
    var k, id := c.taken, c.nextId;
    var d := Emit(c.(taken := k + 1), Taken(k));
    match Transports(c)
    case None => (d, Failed(Protocol))
    case Some(transport) => Write(d.(nextId := id + 1), Request(id, SteerCall(k, transport, c.activeRun)), fate)
  }

  function SteerArm(w: World, l: Loop, fate: Fate): World
  {
    if !l.hasRx || l.pending.Some? then
      w
    else
      var k := w.conn.taken;
      var (d, r) := TakeSteer(w.conn, fate);
      match r
      case Wrote => Continue(w, d, l.(pending := Some(Pending(w.conn.nextId, Transports(w.conn).value, k))))
      case Failed(e) =>
        Continue(w, Emit(d, Acked(k, if Transports(w.conn).None? then RunIdMissing else TransportFailed(e))), l)
      case Gone => w.(conn := Emit(d, Closed(k)), task := NoTask)
  }

  /** What a successful steer response means on the transport that carried it. */
  function Decoded(transport: Transport, m: Inbound): Outcome
  {
    if transport.Goose? then Injected else m.result.outcome
  }

  function SteerVerdict(transport: Transport, m: Inbound): Ack
  {
    if m.error.Some? then AgentRejected(m.error.value)
    else if Decoded(transport, m).Unrecognized? then OutcomeRejected
    else Success
  }

  /** The response landed in the live turn, so its hard deadline is due for renewal. */
  predicate Renews(transport: Transport, m: Inbound)
  {
    m.error.None? && Decoded(transport, m).Injected?
  }

  function SteerAnswer(w: World, c: Conn, l: Loop, p: Pending, m: Inbound, later: nat): World
  {
    var d := Emit(c, Acked(p.req, SteerVerdict(p.transport, m)));
    var l := l.(pending := None);
    if Renews(p.transport, m) then
      var v := Pass(w, later);
      var renewed := v.clock + l.maxDuration;
      if renewed > l.hard then
        Continue(v.(currentHard := Some(renewed)), d, l.(hard := renewed))
      else
        Continue(v, d, l)
    else
      Continue(w, d, l)
  }

  /** A frame that answers nothing is dispatched; an error is propagated without the drain. */
  function DispatchArm(w: World, c: Conn, l: Loop, m: Inbound, fate: Fate): World
  {
    var (d, r) := Dispatch(c, m, fate);
    match r
    case Wrote => Continue(w, d, l)
    case Failed(e) => Return(w, d, l, Err(e))
    case Gone => Abandon(w, d, l)
  }

  function LineArm(w: World, l: Loop, m: Inbound, later: nat, fate: Fate): World
  {
    var c := Emit(w.conn, Read(m));
    var l := Active(l, w.clock);
    if l.pending.Some? && Answers(m, l.pending.value.id) then
      SteerAnswer(w, c, l, l.pending.value, m, later)
    else if Answers(m, l.id) then
      NeutralReturn(w, c, l, if m.error.Some? then Err(AgentError(m.error.value)) else Ok(m.result))
    else if m.verb == SessionUpdate(ToolCall) then
      Continue(Pass(w, later), c, Active(l, w.clock + later))
    else
      DispatchArm(w, c, l, m, fate)
  }

  /** The outcomes that end the loop. */
  function EndArm(w: World, l: Loop, pick: Pick): World
  {
    match pick
    case Eof => NeutralReturn(w, w.conn, l, Err(AgentExited))
    case TooLong => NeutralReturn(w, w.conn, l, Err(Protocol))
    case ReadError => NeutralReturn(w, w.conn, l, Err(Io))
    case Wake =>
      NeutralReturn(if w.clock < NextDeadline(l) then w.(clock := NextDeadline(l)) else w, w.conn, l, TimeoutReply(l))
    case _ => Abandon(w, w.conn, l)
  }

  function SelectArm(w: World, l: Loop, pick: Pick): World
  {
    match pick
    case Skip => w
    case Line(m, later, fate) => LineArm(w, l, m, later, fate)
    case Steer(fate) => SteerArm(w, l, fate)
    case _ => EndArm(w, l, pick)
  }

  /** One iteration: the deadline check at its top, then one select outcome. */
  function LoopTurn(w: World, l: Loop, wait: nat, pick: Pick): World
  {
    if w.clock >= NextDeadline(l) then
      NeutralReturn(w, w.conn, l, TimeoutReply(l))
    else
      SelectArm(Pass(w, wait), l, pick)
  }

  // ----- plain requests -----

  function RpcReturn(w: World, c: Conn, id: nat, r: Reply): World
  {
    w.(conn := Emit(c, Returned(id, r)), task := NoTask)
  }

  /** `initialize` records the advertised capability before it returns. */
  function RecordCapability(c: Conn, m: Inbound): Conn
  {
    Emit(c, Initialized(m.result.steering)).(steeringSupported := m.result.steering)
  }

  function RpcLine(w: World, t: Task, m: Inbound, fate: Fate): World
    requires t.RpcTask?
  {
    var c := Emit(w.conn, Read(m));
    if Answers(m, t.rpc) then
      if m.error.Some? then RpcReturn(w, c, t.rpc, Err(AgentError(m.error.value)))
      else RpcReturn(w, if t.initialize then RecordCapability(c, m) else c, t.rpc, Ok(m.result))
    else
      var (d, r) := Dispatch(c, m, fate);
      match r
      case Wrote => w.(conn := d)
      case Failed(e) => RpcReturn(w, d, t.rpc, Err(e))
      case Gone => w.(conn := d, task := NoTask)
  }

  /** One iteration of `read_until_response` under the request timeout. */
  function RpcTurn(w: World, t: Task, wait: nat, pick: Pick): World
    requires t.RpcTask?
  {
    var v := Pass(w, wait);
    match pick
    case Eof => RpcReturn(v, v.conn, t.rpc, Err(AgentExited))
    case TooLong => RpcReturn(v, v.conn, t.rpc, Err(Protocol))
    case ReadError => RpcReturn(v, v.conn, t.rpc, Err(Io))
    case Skip => v
    case Steer(_) => v
    case Wake => RpcReturn(if v.clock < t.deadline then v.(clock := t.deadline) else v, v.conn, t.rpc, Err(Timeout))
    case Dropped => v.(task := NoTask)
    case Line(m, _, fate) => RpcLine(v, t, m, fate)
  }

  /** Issue the next id and write its request. */
  function Issue(c: Conn, call: Call, fate: Fate): (Conn, Written)
  {
    Write(c.(nextId := c.nextId + 1), Request(c.nextId, call), fate)
  }

  function StartRpc(w: World, initialize: bool, fate: Fate, wait: nat): World
  {
    var id := w.conn.nextId;
    var (d, r) := Issue(w.conn, if initialize then InitializeCall else OtherCall, fate);
    match r
    case Wrote =>
      var v := Pass(w, wait);
      v.(conn := d, task := RpcTask(id, initialize, v.clock + REQUEST_TIMEOUT))
    case Failed(e) => w.(conn := Emit(d, Returned(id, Err(e))))
    case Gone => w.(conn := d)
  }

  // ----- prompts and cancellation -----

  function StartPrompt(w: World, idle: nat, max: nat, fate: Fate, wait: nat): World
  {
    var id := w.conn.nextId;
    var hard := w.clock + max;
    var (d, r) := Issue(w.conn, PromptCall, fate);
    var v := w.(conn := d, currentHard := Some(hard), lastPromptId := Some(id));
    match r
    case Wrote => StartLoop(Pass(v, wait), PromptLoop, id, idle, hard, max)
    case Failed(e) => v.(conn := Emit(d, Returned(id, Err(e))), lastPromptId := None, currentHard := None)
    case Gone => v
  }

  /** The deadline `cancel_with_cleanup` drains to. */
  function CleanupDeadline(stored: Option<nat>, now: nat): nat
  {
    if stored.Some? && stored.value > now + CLEANUP then stored.value else now + CLEANUP
  }

  function DrainKind(grace: Option<nat>): LoopKind
  {
    if grace.Some? then GraceDrain(grace.value) else CleanupDrain
  }

  function DrainDeadline(w: World, grace: Option<nat>): nat
  {
    if grace.Some? then w.clock + grace.value else CleanupDeadline(w.currentHard, w.clock)
  }

  function SendNotice(w: World, c: Conn, kind: LoopKind, id: nat, hard: nat, notice: Fate, wait: nat): World
  {
    var (d, r) := Write(c, CancelNotice, notice);
    match r
    case Failed(e) => w.(conn := Emit(d, Returned(id, Err(e))))
    case Gone => w.(conn := d)
    case Wrote =>
      var x := Pass(w.(conn := d), wait);
      StartLoop(x, kind, id, CLEANUP, hard, if hard > x.clock then hard - x.clock else 0)
  }

  function CancelUntil(w: World, kind: LoopKind, hard: nat, answer: Fate, notice: Fate, wait: nat): World
  {
    if w.lastPromptId.None? then
      w
    else
      var id := w.lastPromptId.value;
      var v := w.(lastPromptId := None);
      var c := w.conn;
      if c.pendingPermission.None? then
        SendNotice(v, c, kind, id, hard, notice, wait)
      else if c.permissionResponded then
        SendNotice(v, c.(pendingPermission := None, permissionResponded := false), kind, id, hard, notice, wait)
      else
        var (d, r) := Answer(c, Cancelled(c.pendingPermission.value), answer, false);
        match r
        case Wrote => SendNotice(v, d, kind, id, hard, notice, wait)
        case Failed(e) => v.(conn := Emit(d, Returned(id, Err(e))))
        case Gone => v.(conn := d)
  }

  function StartCancel(w: World, grace: Option<nat>, answer: Fate, notice: Fate, wait: nat): World
  {
    CancelUntil(w.(currentHard := None), DrainKind(grace), DrainDeadline(w, grace), answer, notice, wait)
  }

  // ----- runs -----

  /** One iteration of whichever read loop is running. */
  function Turned(w: World, wait: nat, pick: Pick): World
  {
    match w.task
    case NoTask => w
    case RpcTask(_, _, _) => RpcTurn(w, w.task, wait, pick)
    case LoopTask(l) => LoopTurn(w, l, wait, pick)
  }

  /** An operation on an idle client. */
  function Begin(w: World, a: Action): World
  {
    match a
    case Install => w.(steerRx := true)
    case Clear => w.(steerRx := false)
    case Notify(fate) => w.(conn := Write(w.conn, CancelNotice, fate).0)
    case Rpc(initialize, fate, wait) => StartRpc(w, initialize, fate, wait)
    case Prompt(idle, max, fate, wait) => StartPrompt(w, idle, max, fate, wait)
    case Cancel(grace, answer, notice, wait) => StartCancel(w, grace, answer, notice, wait)
    case Turn(_, _) => w
  }

  /**
  An operation starts only when no future is running (`&mut self`); an iteration
  happens only when one is. Anything else leaves the client as it is.
  */
  function Step(w: World, e: Event): World
  {
    var v := Pass(w, e.dt);
    if e.action.Turn? then Turned(v, e.action.wait, e.action.pick)
    else if v.task.NoTask? then Begin(v, e.action)
    else v
  }

  function Run(w: World, es: seq<Event>): World
    decreases |es|
  {
    if es == [] then w else Run(Step(w, es[0]), es[1..])
  }

  lemma {:induction false} RunSnoc(w: World, es: seq<Event>, e: Event)
    ensures Run(w, es + [e]) == Step(Run(w, es), e)
    decreases |es|
  {
    if es == [] {
      assert es + [e] == [e];
      assert Run(w, [e]) == Run(Step(w, e), [e][1..]);
    } else {
      assert (es + [e])[1..] == es[1..] + [e];
      RunSnoc(Step(w, es[0]), es[1..], e);
    }
  }
}
