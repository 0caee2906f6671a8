/**
The ACP client in its own form: an object whose methods update its fields, and
read loops over the frames of one turn. Every method is proved to do exactly what
the step machine does, so the theorems about runs hold of it.
*/
module AcpClient {
  import opened Prelude
  import opened AcpTypes
  import opened AcpMachine
  import opened AcpInvariant

  /** One more event of a script. */
  lemma RunPrefix(begin: World, env: seq<Event>, n: nat)
    requires n < |env|
    ensures Run(begin, env[..n + 1]) == Step(Run(begin, env[..n]), env[n])
  {
    assert env[..n] + [env[n]] == env[..n + 1];
    RunSnoc(begin, env[..n], env[n]);
  }

  lemma TurnOfLoop(w: World, e: Event, l: Loop)
    requires e.action.Turn? && w.task == LoopTask(l)
    ensures Step(w, e) == LoopTurn(Pass(w, e.dt), l, e.action.wait, e.action.pick)
  {
  }

  lemma TurnOfRpc(w: World, e: Event)
    requires e.action.Turn? && w.task.RpcTask?
    ensures Step(w, e) == RpcTurn(Pass(w, e.dt), w.task, e.action.wait, e.action.pick)
  {
  }

  lemma OperationBegins(w: World, dt: nat, a: Action)
    requires w.task.NoTask? && !a.Turn?
    ensures Step(w, Event(dt, a)) == Begin(Pass(w, dt), a)
  {
  }

  predicate Turns(env: seq<Event>)
  {
    forall e :: e in env ==> e.action.Turn?
  }

  /** Operation `a`, begun after `dt`, and then the script, as far as it goes. */
  function Script(dt: nat, a: Action, env: seq<Event>): seq<Event>
  {
    [Event(dt, a)] + env
  }

  lemma ScriptRuns(w: World, dt: nat, a: Action, env: seq<Event>)
    ensures Run(w, Script(dt, a, env)) == Run(Step(w, Event(dt, a)), env)
  {
    assert Script(dt, a, env)[1..] == env;
  }

  /** Operations in sequence make one longer run. */
  lemma {:induction false} RunsCompose(w: World, es: seq<Event>, fs: seq<Event>)
    ensures Run(w, es + fs) == Run(Run(w, es), fs)
    decreases |es|
  {
    if es == [] {
      assert es + fs == fs;
    } else {
      assert (es + fs)[1..] == es[1..] + fs;
      RunsCompose(Step(w, es[0]), es[1..], fs);
    }
  }

  class Client {
    var stdinOpen: bool
    var nextId: nat
    var lastPromptId: Option<nat>
    var currentHard: Option<nat>
    var pendingPermission: Option<Id>
    var permissionResponded: bool
    var activeRun: Option<string>
    var steeringSupported: bool
    var steerRx: bool
    var taken: nat                // names the next steer request
    var clock: nat                // the environment's clock, as the client reads it
    ghost var calls: Log
    ghost var trace: Trace

    ghost function Wired(): Conn
      reads this
    {
      Conn(stdinOpen, nextId, pendingPermission, permissionResponded, activeRun, steeringSupported, taken, calls,
           trace)
    }

    /** The client with `task` as the future that is running on it. */
    ghost function Snapshot(task: Task): World
      reads this
    {
      World(Wired(), lastPromptId, currentHard, steerRx, clock, task)
    }

    constructor ()
      ensures Snapshot(NoTask) == Initial()
    {
      stdinOpen, nextId, lastPromptId, currentHard := true, 0, None, None;
      pendingPermission, permissionResponded, activeRun, steeringSupported := None, false, None, false;
      steerRx, taken, clock, calls, trace := false, 0, 0, NoCalls, Start;
    }

    ghost method Record(o: Obs)
      modifies this`trace
      ensures trace == After(old(trace), o)
    {
      trace := After(trace, o);
    }

    method WriteNdjson(f: Frame, fate: Fate) returns (r: Written)
      modifies this`stdinOpen, this`calls, this`trace
      ensures (Wired(), r) == Write(old(Wired()), f, fate)
    {
      calls := Logged(calls, Attempt(f, fate));
      if !stdinOpen {
        return Failed(Io);
      }
      match fate {
        case Done =>
          Record(Wire(f));
          r := Wrote;
        case Broken(full, how) =>
          stdinOpen := false;
          if full {
            Record(Wire(f));
          }
          r := Outcomes(how);
      }
    }

    method HandlePermissionRequest(id: Option<Id>, options: Option<seq<PermissionOption>>, fate: Fate)
      returns (r: Written)
      modifies this`stdinOpen, this`calls, this`trace, this`pendingPermission, this`permissionResponded
      ensures (Wired(), r) == HandlePermission(old(Wired()), id, Choose(options), fate)
    {
      if id.None? {
        return Failed(Protocol);
      }
      pendingPermission := id;
      permissionResponded := false;
      var choice := Choose(options);
      if choice.None? {
        return Failed(Protocol);
      }
      r := WriteNdjson(Selected(id.value, choice.value), fate);
      if r.Wrote? {
        permissionResponded := true;
        pendingPermission := None;
      }
    }

    method HandleSessionUpdate(u: Update) returns (toolCall: bool)
      modifies this`activeRun
      ensures Wired() == HandleUpdate(old(Wired()), u)
      ensures toolCall == u.ToolCall?
    {
      match u {
        case SessionInfo(SetRun(run)) => activeRun := Some(run);
        case SessionInfo(ClearRun) => activeRun := None;
        case _ =>
      }
      toolCall := u.ToolCall?;
    }

    method HandleMessage(m: Inbound, fate: Fate) returns (r: Written)
      modifies this`stdinOpen, this`calls, this`trace, this`pendingPermission, this`permissionResponded, this`activeRun
      ensures (Wired(), r) == Dispatch(old(Wired()), m, fate)
    {
      r := Wrote;
      match m.verb {
        case SessionUpdate(u) => var _ := HandleSessionUpdate(u);
        case RequestPermission(options) => r := HandlePermissionRequest(m.id, options, fate);
        case Unknown =>
          if m.id.Some? {
            r := WriteNdjson(MethodNotFound(m.id.value), fate);
          }
        case _ =>
      }
    }

    // ----- the idle-aware read loop; its locals travel in `l` -----

    /** The loop's locals are dropped and its caller finishes with `r`. */
    method Conclude(l: Loop, r: Reply)
      modifies this`trace, this`lastPromptId, this`currentHard
      ensures Snapshot(NoTask) == Return(old(Snapshot(NoTask)), old(Wired()), l, r)
    {
      if l.pending.Some? {
        Record(Closed(l.pending.value.req));
      }
      Record(Returned(l.id, Surface(l.kind, r)));
      if l.kind.PromptLoop? && !TurnTimeout(r) {
        lastPromptId, currentHard := None, None;
      }
    }

    method DrainAndConclude(l: Loop, r: Reply)
      modifies this`trace, this`lastPromptId, this`currentHard
      ensures Snapshot(NoTask) == NeutralReturn(old(Snapshot(NoTask)), old(Wired()), l, r)
    {
      if l.pending.Some? {
        Record(Acked(l.pending.value.req, PromptCompletedNeutral));
      }
      Conclude(l.(pending := None), r);
    }

    method TakeSteerRequest(l: Loop, fate: Fate) returns (t: Task)
      modifies this
      ensures Snapshot(t) == SteerArm(old(Snapshot(LoopTask(l))), l, fate)
      ensures t.NoTask? || t.LoopTask?
    {
      if !l.hasRx || l.pending.Some? {
        return LoopTask(l);
      }
      var k, id := taken, nextId;
      taken := taken + 1;
      Record(Taken(k));
      assert Wired() == Emit(old(Wired()).(taken := k + 1), Taken(k));
      var transport := if activeRun.Some? then Some(Goose) else if steeringSupported then Some(AcpExtension) else None;
      if transport.None? {
        Record(Acked(k, RunIdMissing));
        return LoopTask(l);
      }
      nextId := nextId + 1;
      var r := WriteNdjson(Request(id, SteerCall(k, transport.value, activeRun)), fate);
      assert (Wired(), r) == TakeSteer(old(Wired()), fate);
      match r {
        case Wrote => t := LoopTask(l.(pending := Some(Pending(id, transport.value, k))));
        case Failed(e) =>
          Record(Acked(k, TransportFailed(e)));
          t := LoopTask(l);
        case Gone =>
          Record(Closed(k));
          t := NoTask;
      }
    }

    method RouteSteerResponse(l: Loop, p: Pending, m: Inbound, later: nat) returns (t: Task)
      modifies this`trace, this`clock, this`currentHard
      ensures Snapshot(t) == SteerAnswer(old(Snapshot(LoopTask(l))), old(Wired()), l, p, m, later)
      ensures t.LoopTask?
    {
      var l := l.(pending := None);
      if m.error.Some? {
        Record(Acked(p.req, AgentRejected(m.error.value)));
      } else {
        var outcome := if p.transport.Goose? then Injected else m.result.outcome;
        match outcome {
          case StartedNewTurn => Record(Acked(p.req, Success));
          case Unrecognized => Record(Acked(p.req, OutcomeRejected));
          case Injected =>
            clock := clock + later;
            var renewed := clock + l.maxDuration;
            if renewed > l.hard {
              l := l.(hard := renewed);
              currentHard := Some(renewed);
            }
            Record(Acked(p.req, Success));
        }
      }
      t := LoopTask(l);
    }

    /** A frame that answers neither the steer nor the call. */
    method HandleOther(l: Loop, m: Inbound, fate: Fate) returns (t: Task)
      modifies this
      ensures Snapshot(t) == DispatchArm(old(Snapshot(LoopTask(l))), old(Wired()), l, m, fate)
      ensures t.NoTask? || t.LoopTask?
    {
      var r := HandleMessage(m, fate);
      t := NoTask;
      match r {
        case Wrote => t := LoopTask(l);
        case Failed(e) => Conclude(l, Err(e));
        case Gone =>
          if l.pending.Some? {
            Record(Closed(l.pending.value.req));
          }
      }
    }

    method HandleLine(l: Loop, m: Inbound, later: nat, fate: Fate) returns (t: Task)
      modifies this
      ensures Snapshot(t) == LineArm(old(Snapshot(LoopTask(l))), l, m, later, fate)
      ensures t.NoTask? || t.LoopTask?
    {
      Record(Read(m));
      assert Wired() == Emit(old(Wired()), Read(m));
      var l := Active(l, clock);
      if m.verb.Absent? && l.pending.Some? && m.id == Some(Num(l.pending.value.id)) {
        t := RouteSteerResponse(l, l.pending.value, m, later);
        return;
      }
      if m.verb.Absent? && m.id == Some(Num(l.id)) {
        DrainAndConclude(l, if m.error.Some? then Err(AgentError(m.error.value)) else Ok(m.result));
        return NoTask;
      }
      if m.verb == SessionUpdate(ToolCall) {
        clock := clock + later;
        return LoopTask(Active(l, clock));
      }
      t := HandleOther(l, m, fate);
    }

    method End(l: Loop, pick: Pick)
      modifies this
      ensures Snapshot(NoTask) == EndArm(old(Snapshot(LoopTask(l))), l, pick)
    {
      match pick {
        case Eof => DrainAndConclude(l, Err(AgentExited));
        case TooLong => DrainAndConclude(l, Err(Protocol));
        case ReadError => DrainAndConclude(l, Err(Io));
        case Wake =>
          if clock < NextDeadline(l) {
            clock := NextDeadline(l);
          }
          DrainAndConclude(l, TimeoutReply(l));
        case _ =>
          if l.pending.Some? {
            Record(Closed(l.pending.value.req));
          }
      }
    }

    method Select(l: Loop, pick: Pick) returns (t: Task)
      modifies this
      ensures Snapshot(t) == SelectArm(old(Snapshot(LoopTask(l))), l, pick)
      ensures t.NoTask? || t.LoopTask?
    {
      match pick {
        case Skip => t := LoopTask(l);
        case Line(m, later, fate) => t := HandleLine(l, m, later, fate);
        case Steer(fate) => t := TakeSteerRequest(l, fate);
        case _ =>
          End(l, pick);
          t := NoTask;
      }
    }

    /** One pass through the body of the read loop. */
    method Iterate(l: Loop, dt: nat, wait: nat, pick: Pick) returns (t: Task)
      modifies this
      ensures Snapshot(t) == LoopTurn(Pass(old(Snapshot(LoopTask(l))), dt), l, wait, pick)
      ensures t.NoTask? || t.LoopTask?
    {
      clock := clock + dt;
      var idleFiresFirst := l.idleDeadline < l.hard;
      var next := if idleFiresFirst then l.idleDeadline else l.hard;
      var expired: Reply := Err(if idleFiresFirst then IdleTimeout else HardTimeout);
      if clock >= next {
        DrainAndConclude(l, expired);
        return NoTask;
      }
      clock := clock + wait;
      assert Snapshot(LoopTask(l)) == Pass(Pass(old(Snapshot(LoopTask(l))), dt), wait);
      t := Select(l, pick);
    }

    /**
    The loop of `read_until_response_with_idle_timeout` from where it stands,
    driven by what the environment does in each iteration. It stops when the loop
    is over; if the script ends first, the returned task is the loop suspended.
    */
    method ReadWithIdleTimeout(loop: Task, env: seq<Event>) returns (n: nat, t: Task)
      requires Turns(env) && !loop.RpcTask?
      modifies this
      ensures n <= |env| && (t.NoTask? || n == |env|)
      ensures Snapshot(t) == Run(old(Snapshot(loop)), env[..n])
    {
      ghost var begin := Snapshot(loop);
      t, n := loop, 0;
      while n < |env| && t.LoopTask?
        invariant n <= |env| && !t.RpcTask?
        invariant Snapshot(t) == Run(begin, env[..n])
      {
        assert env[n] in env;
        RunPrefix(begin, env, n);
        TurnOfLoop(Snapshot(t), env[n], t.loop);
        t := Iterate(t.loop, env[n].dt, env[n].action.wait, env[n].action.pick);
        n := n + 1;
      }
    }

    // ----- plain requests -----

    /** `send_request` up to the start of its read loop. */
    method StartRequest(initialize: bool, fate: Fate, wait: nat) returns (t: Task)
      modifies this`nextId, this`stdinOpen, this`calls, this`trace, this`clock
      ensures Snapshot(t) == StartRpc(old(Snapshot(NoTask)), initialize, fate, wait)
      ensures !t.LoopTask?
    {
      var id := nextId;
      nextId := nextId + 1;
      var r := WriteNdjson(Request(id, if initialize then InitializeCall else OtherCall), fate);
      t := NoTask;
      match r {
        case Wrote =>
          clock := clock + wait;
          t := RpcTask(id, initialize, clock + REQUEST_TIMEOUT);
        case Failed(e) => Record(Returned(id, Err(e)));
        case Gone =>
      }
    }

    /** One frame read by `read_until_response`. */
    method HandleRpcLine(rpc: Task, m: Inbound, fate: Fate) returns (t: Task)
      requires rpc.RpcTask?
      modifies this
      ensures Snapshot(t) == RpcLine(old(Snapshot(rpc)), rpc, m, fate)
      ensures !t.LoopTask?
    {
      Record(Read(m));
      t := NoTask;
      if m.verb.Absent? && m.id == Some(Num(rpc.rpc)) {
        if m.error.Some? {
          Record(Returned(rpc.rpc, Err(AgentError(m.error.value))));
          return;
        }
        if rpc.initialize {
          steeringSupported := m.result.steering;
          Record(Initialized(m.result.steering));
        }
        Record(Returned(rpc.rpc, Ok(m.result)));
        return;
      }
      var r := HandleMessage(m, fate);
      match r {
        case Wrote => t := rpc;
        case Failed(e) => Record(Returned(rpc.rpc, Err(e)));
        case Gone =>
      }
    }

    /** One pass through `read_until_response`, under the request timeout. */
    method IterateRpc(rpc: Task, dt: nat, wait: nat, pick: Pick) returns (t: Task)
      requires rpc.RpcTask?
      modifies this
      ensures Snapshot(t) == RpcTurn(Pass(old(Snapshot(rpc)), dt), rpc, wait, pick)
      ensures !t.LoopTask?
    {
      clock := clock + dt + wait;
      assert Snapshot(rpc) == Pass(Pass(old(Snapshot(rpc)), dt), wait);
      t := NoTask;
      match pick {
        case Line(m, _, fate) => t := HandleRpcLine(rpc, m, fate);
        case Skip => t := rpc;
        case Steer(_) => t := rpc;
        case Eof => Record(Returned(rpc.rpc, Err(AgentExited)));
        case TooLong => Record(Returned(rpc.rpc, Err(Protocol)));
        case ReadError => Record(Returned(rpc.rpc, Err(Io)));
        case Wake =>
          if clock < rpc.deadline {
            clock := rpc.deadline;
          }
          Record(Returned(rpc.rpc, Err(Timeout)));
        case Dropped =>
      }
    }

    /** The loop of `read_until_response`. */
    method ReadPlain(rpc: Task, env: seq<Event>) returns (n: nat, t: Task)
      requires Turns(env) && !rpc.LoopTask?
      modifies this
      ensures n <= |env| && (t.NoTask? || n == |env|)
      ensures Snapshot(t) == Run(old(Snapshot(rpc)), env[..n])
    {
      ghost var begin := Snapshot(rpc);
      t, n := rpc, 0;
      while n < |env| && t.RpcTask?
        invariant n <= |env| && !t.LoopTask?
        invariant Snapshot(t) == Run(begin, env[..n])
      {
        assert env[n] in env;
        RunPrefix(begin, env, n);
        TurnOfRpc(Snapshot(t), env[n]);
        t := IterateRpc(t, env[n].dt, env[n].action.wait, env[n].action.pick);
        n := n + 1;
      }
    }

    // ----- prompts and cancellation -----

    /** `session_prompt_blocks_with_idle_timeout` up to the start of its read loop. */
    method SendPrompt(idle: nat, max: nat, fate: Fate, wait: nat) returns (t: Task)
      modifies this
      ensures Snapshot(t) == StartPrompt(old(Snapshot(NoTask)), idle, max, fate, wait)
      ensures !t.RpcTask?
    {
      var hard := clock + max;
      currentHard := Some(hard);
      lastPromptId := Some(nextId);
      var id := nextId;
      nextId := nextId + 1;
      var r := WriteNdjson(Request(id, PromptCall), fate);
      assert (Wired(), r) == Issue(old(Wired()), PromptCall, fate);
      t := NoTask;
      match r {
        case Wrote =>
          clock := clock + wait;
          t := LoopTask(Loop(PromptLoop, id, idle, max, steerRx, None, clock + idle, hard, clock));
          steerRx := false;
        case Failed(e) =>
          Record(Returned(id, Err(e)));
          lastPromptId, currentHard := None, None;
        case Gone =>
      }
    }

    /** Step 1 of a cleanup: answer the pending permission request with `cancelled`, unless it was answered. */
    method AnswerPending(answer: Fate) returns (r: Written)
      modifies this`stdinOpen, this`calls, this`trace, this`pendingPermission, this`permissionResponded
      ensures old(pendingPermission).None? ==> r.Wrote? && Wired() == old(Wired())
      ensures old(pendingPermission).Some? && old(permissionResponded) ==>
                r.Wrote? && Wired() == old(Wired()).(pendingPermission := None, permissionResponded := false)
      ensures old(pendingPermission).Some? && !old(permissionResponded) ==>
                (Wired(), r) == Answer(old(Wired()), Cancelled(old(pendingPermission).value), answer, false)
    {
      r := Wrote;
      if pendingPermission.Some? {
        if !permissionResponded {
          r := WriteNdjson(Cancelled(pendingPermission.value), answer);
        }
        if r.Wrote? {
          pendingPermission := None;
          permissionResponded := false;
        }
      }
    }

    /** Steps 2 and 3: notify the agent and start draining. */
    method NotifyAndDrain(kind: LoopKind, id: nat, hard: nat, notice: Fate, wait: nat) returns (t: Task)
      modifies this
      ensures Snapshot(t) == SendNotice(old(Snapshot(NoTask)), old(Wired()), kind, id, hard, notice, wait)
      ensures !t.RpcTask?
    {
      t := NoTask;
      var r := WriteNdjson(CancelNotice, notice);
      match r {
        case Failed(e) => Record(Returned(id, Err(e)));
        case Gone =>
        case Wrote =>
          clock := clock + wait;
          var remaining := if hard > clock then hard - clock else 0;
          t := LoopTask(Loop(kind, id, CLEANUP, remaining, steerRx, None, clock + CLEANUP, hard, clock));
          steerRx := false;
      }
    }

    method CancelWithCleanupUntil(kind: LoopKind, hard: nat, answer: Fate, notice: Fate, wait: nat) returns (t: Task)
      modifies this
      ensures Snapshot(t) == CancelUntil(old(Snapshot(NoTask)), kind, hard, answer, notice, wait)
      ensures !t.RpcTask?
    {
      if lastPromptId.None? {
        return NoTask;
      }
      var id := lastPromptId.value;
      lastPromptId := None;
      var r := AnswerPending(answer);
      assert Snapshot(NoTask) == old(Snapshot(NoTask)).(lastPromptId := None, conn := Wired());
      if r.Wrote? {
        t := NotifyAndDrain(kind, id, hard, notice, wait);
      } else {
        if r.Failed? {
          Record(Returned(id, Err(r.error)));
        }
        t := NoTask;
      }
    }

    /** `cancel_with_cleanup` and, with a grace, `cancel_with_cleanup_grace`, up to the drain. */
    method StartDrain(grace: Option<nat>, answer: Fate, notice: Fate, wait: nat) returns (t: Task)
      modifies this
      ensures Snapshot(t) == StartCancel(old(Snapshot(NoTask)), grace, answer, notice, wait)
      ensures !t.RpcTask?
    {
      var stored := currentHard;
      currentHard := None;
      var kind, hard := CleanupDrain, clock + CLEANUP;
      if grace.Some? {
        kind, hard := GraceDrain(grace.value), clock + grace.value;
      } else if stored.Some? && stored.value > hard {
        hard := stored.value;
      }
      assert kind == DrainKind(grace) && hard == DrainDeadline(old(Snapshot(NoTask)), grace);
      assert Snapshot(NoTask) == old(Snapshot(NoTask)).(currentHard := None);
      t := CancelWithCleanupUntil(kind, hard, answer, notice, wait);
    }

    // ----- whole operations: each is a run of the machine, and keeps the invariant -----

    method InstallSteerRx(dt: nat)
      modifies this`steerRx, this`clock
      ensures Snapshot(NoTask) == Run(old(Snapshot(NoTask)), Script(dt, Install, []))
      ensures old(Inv(Snapshot(NoTask))) ==> Inv(Snapshot(NoTask))
    {
      ScriptRuns(Snapshot(NoTask), dt, Install, []);
      RunInv(Snapshot(NoTask), Script(dt, Install, []));
      clock, steerRx := clock + dt, true;
    }

    method ClearSteerRx(dt: nat)
      modifies this`steerRx, this`clock
      ensures Snapshot(NoTask) == Run(old(Snapshot(NoTask)), Script(dt, Clear, []))
      ensures old(Inv(Snapshot(NoTask))) ==> Inv(Snapshot(NoTask))
    {
      ScriptRuns(Snapshot(NoTask), dt, Clear, []);
      RunInv(Snapshot(NoTask), Script(dt, Clear, []));
      clock, steerRx := clock + dt, false;
    }

    method SessionCancel(dt: nat, fate: Fate) returns (r: Written)
      modifies this`stdinOpen, this`calls, this`trace, this`clock
      ensures Snapshot(NoTask) == Run(old(Snapshot(NoTask)), Script(dt, Notify(fate), []))
      ensures r == if !old(stdinOpen) then Failed(Io) else if fate.Done? then Wrote else Outcomes(fate.how)
      ensures old(Inv(Snapshot(NoTask))) ==> Inv(Snapshot(NoTask))
    {
      ScriptRuns(Snapshot(NoTask), dt, Notify(fate), []);
      RunInv(Snapshot(NoTask), Script(dt, Notify(fate), []));
      clock := clock + dt;
      r := WriteNdjson(CancelNotice, fate);
    }

    /** `send_request`, and `initialize` with it. */
    method SendRequest(dt: nat, initialize: bool, fate: Fate, wait: nat, env: seq<Event>) returns (n: nat, t: Task)
      requires Turns(env)
      modifies this
      ensures n <= |env| && (t.NoTask? || n == |env|)
      ensures Snapshot(t) == Run(old(Snapshot(NoTask)), Script(dt, Rpc(initialize, fate, wait), env[..n]))
      ensures old(Inv(Snapshot(NoTask))) ==> Inv(Snapshot(t))
    {
      ghost var before, a := Snapshot(NoTask), Rpc(initialize, fate, wait);
      OperationBegins(before, dt, a);
      clock := clock + dt;
      assert Snapshot(NoTask) == Pass(before, dt);
      t := StartRequest(initialize, fate, wait);
      assert Snapshot(t) == Begin(Pass(before, dt), a);
      n, t := ReadPlain(t, env);
      ScriptRuns(before, dt, a, env[..n]);
      RunInv(before, Script(dt, a, env[..n]));
    }

    /** `session_prompt_blocks_with_idle_timeout` */
    method SessionPrompt(dt: nat, idle: nat, max: nat, fate: Fate, wait: nat, env: seq<Event>)
      returns (n: nat, t: Task)
      requires Turns(env)
      modifies this
      ensures n <= |env| && (t.NoTask? || n == |env|)
      ensures Snapshot(t) == Run(old(Snapshot(NoTask)), Script(dt, Prompt(idle, max, fate, wait), env[..n]))
      ensures old(Inv(Snapshot(NoTask))) ==> Inv(Snapshot(t))
    {
      ghost var before, a := Snapshot(NoTask), Prompt(idle, max, fate, wait);
      OperationBegins(before, dt, a);
      clock := clock + dt;
      assert Snapshot(NoTask) == Pass(before, dt);
      t := SendPrompt(idle, max, fate, wait);
      assert Snapshot(t) == Begin(Pass(before, dt), a);
      n, t := ReadWithIdleTimeout(t, env);
      ScriptRuns(before, dt, a, env[..n]);
      RunInv(before, Script(dt, a, env[..n]));
    }

    /** `cancel_with_cleanup`, and with a grace `cancel_with_cleanup_grace`. */
    method CancelWithCleanup(dt: nat, grace: Option<nat>, answer: Fate, notice: Fate, wait: nat, env: seq<Event>)
      returns (n: nat, t: Task)
      requires Turns(env)
      modifies this
      ensures n <= |env| && (t.NoTask? || n == |env|)
      ensures Snapshot(t) == Run(old(Snapshot(NoTask)), Script(dt, Cancel(grace, answer, notice, wait), env[..n]))
      ensures old(Inv(Snapshot(NoTask))) ==> Inv(Snapshot(t))
    {
      ghost var before, a := Snapshot(NoTask), Cancel(grace, answer, notice, wait);
      OperationBegins(before, dt, a);
      clock := clock + dt;
      assert Snapshot(NoTask) == Pass(before, dt);
      t := StartDrain(grace, answer, notice, wait);
      assert Snapshot(t) == Begin(Pass(before, dt), a);
      n, t := ReadWithIdleTimeout(t, env);
      ScriptRuns(before, dt, a, env[..n]);
      RunInv(before, Script(dt, a, env[..n]));
    }
  }

  /** The invariant along a run that may start without it. */
  lemma RunInv(w: World, es: seq<Event>)
    ensures Inv(w) ==> Inv(Run(w, es))
  {
    if Inv(w) {
      RunKeeps(w, es);
    }
  }
}
