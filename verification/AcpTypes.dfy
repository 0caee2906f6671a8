/**
The vocabulary of the ACP client: frames in both directions, errors, steer
acknowledgements, and the trace of everything observable that a run did.
JSON text is abstracted to the members the client looks at.
*/
module AcpTypes {
  import opened Prelude

  // ----- agent -> client -----

  /** A JSON-RPC id: a number this client may have issued, or anything else. */
  datatype Id = Num(n: nat) | Foreign(text: string)

  datatype Outcome = Injected | StartedNewTurn | Unrecognized

  /** A `result` member: its text and the two members the client reads out of it. */
  datatype Payload = Payload(body: string, steering: bool, outcome: Outcome)

  datatype OptionKind = AllowOnce | RejectOnce | OtherKind
  datatype PermissionOption = PermissionOption(kind: OptionKind, optionId: Option<string>)

  datatype RunChange = SetRun(run: string) | ClearRun | KeepRun
  datatype Update = ToolCall | SessionInfo(run: RunChange) | OtherUpdate

  datatype Method =
    | Absent                                                    // a response
    | NotText                                                   // present, not a string
    | SessionUpdate(update: Update)
    | GooseUpdate
    | RequestPermission(options: Option<seq<PermissionOption>>)
    | Unknown

  datatype Inbound = Inbound(id: Option<Id>, verb: Method, error: Option<string>, result: Payload)

  // ----- client -> agent -----

  datatype Transport = Goose | AcpExtension

  /** `req` names the steer request whose prompt blocks the frame carries. */
  datatype Call =
    | InitializeCall
    | OtherCall
    | PromptCall
    | SteerCall(req: nat, transport: Transport, run: Option<string>)

  datatype Frame =
    | Request(id: nat, call: Call)
    | CancelNotice
    | Selected(to: Id, optionId: string)
    | Cancelled(to: Id)
    | MethodNotFound(to: Id)

  // ----- results -----

  datatype Error =
    | Io | WriteTimeout | Timeout | AgentExited | Protocol
    | IdleTimeout | HardTimeout | CancelDrainTimeout | AgentError(text: string)

  type Reply = Result<Payload, Error>

  datatype Ack =
    | Success
    | PromptCompletedNeutral
    | AgentRejected(text: string)
    | OutcomeRejected
    | RunIdMissing
    | TransportFailed(error: Error)

  // ----- the trace -----

  datatype Obs =
    | Read(m: Inbound)                  // a parsed frame was read
    | Wire(f: Frame)                    // a complete frame reached the agent
    | Initialized(supported: bool)      // `initialize` recorded the capability
    | Taken(req: nat)                   // a steer request left its channel
    | Acked(req: nat, ack: Ack)         // its oneshot was answered
    | Closed(req: nat)                  // its oneshot was dropped unanswered
    | Returned(id: nat, reply: Reply)   // the call on request `id` returned

  /** Observations in order, the newest last. */
  datatype Trace = Start | After(earlier: Trace, last: Obs)

  predicate Has(t: Trace, o: Obs)
  {
    t.After? && (t.last == o || Has(t.earlier, o))
  }

  /** `p` is a moment in the history `t`. */
  predicate Moment(p: Trace, t: Trace)
  {
    p == t || (t.After? && Moment(p, t.earlier))
  }

  function LastRead(t: Trace): Option<Inbound>
  {
    match t
    case Start => None
    case After(e, o) => if o.Read? then Some(o.m) else LastRead(e)
  }

  /** The history before the last frame read. */
  function BeforeRead(t: Trace): Trace
  {
    match t
    case Start => Start
    case After(e, o) => if o.Read? then e else BeforeRead(e)
  }

  /** What an observation says about the active run. */
  function RunNews(o: Obs): RunChange
  {
    if o.Read? && o.m.verb.SessionUpdate? && o.m.verb.update.SessionInfo? then o.m.verb.update.run else KeepRun
  }

  /** The run id the agent last reported in a `session_info_update`. */
  function LatestRun(t: Trace): Option<string>
  {
    if t.Start? then None
    else match RunNews(t.last)
      case SetRun(run) => Some(run)
      case ClearRun => None
      case KeepRun => LatestRun(t.earlier)
  }

  /** The steering capability the client recorded last. */
  predicate Capable(t: Trace)
  {
    t.After? && if t.last.Initialized? then t.last.supported else Capable(t.earlier)
  }

  predicate AsksPermission(o: Obs, v: Id)
  {
    o.Read? && o.m.verb.RequestPermission? && o.m.id == Some(v)
  }

  predicate AnswersPermission(o: Obs, v: Id)
  {
    o.Wire? && (o.f.Selected? || o.f.Cancelled?) && o.f.to == v
  }

  /** The last permission event with id `v` is a request: it is owed an answer. */
  predicate Outstanding(t: Trace, v: Id)
  {
    t.After? && (AsksPermission(t.last, v) || (!AnswersPermission(t.last, v) && Outstanding(t.earlier, v)))
  }

  /** How many permission requests with id `v` were read. */
  function Requests(t: Trace, v: Id): nat
  {
    if t.Start? then 0 else Requests(t.earlier, v) + if AsksPermission(t.last, v) then 1 else 0
  }

  /** How many complete permission responses with id `v` reached the agent. */
  function Responses(t: Trace, v: Id): nat
  {
    if t.Start? then 0 else Responses(t.earlier, v) + if AnswersPermission(t.last, v) then 1 else 0
  }

  /** Steer requests taken from the channel so far. */
  function TakenSet(t: Trace): set<nat>
  {
    if t.Start? then {} else if t.last.Taken? then TakenSet(t.earlier) + {t.last.req} else TakenSet(t.earlier)
  }

  predicate Resolution(o: Obs)
  {
    o.Acked? || o.Closed?
  }

  /** Steer requests answered or dropped so far. */
  function ResolvedSet(t: Trace): set<nat>
  {
    if t.Start? then {}
    else if Resolution(t.last) then ResolvedSet(t.earlier) + {t.last.req}
    else ResolvedSet(t.earlier)
  }

  /** How often request `k` was answered or dropped. */
  function Resolutions(t: Trace, k: nat): nat
  {
    if t.Start? then 0
    else Resolutions(t.earlier, k) + if Resolution(t.last) && t.last.req == k then 1 else 0
  }

  /** How many steer requests were dropped unanswered. */
  function Closings(t: Trace): nat
  {
    if t.Start? then 0 else Closings(t.earlier) + if t.last.Closed? then 1 else 0
  }

  predicate CarriesSteer(o: Obs, k: nat)
  {
    o.Wire? && o.f.Request? && o.f.call.SteerCall? && o.f.call.req == k
  }

  /** The id of the frame that carried steer request `k`, as long as no answer to it was read. */
  function AwaitedId(t: Trace, k: nat): Option<nat>
  {
    match t
    case Start => None
    case After(e, o) =>
      if CarriesSteer(o, k) then Some(o.f.id)
      else
        var id := AwaitedId(e, k);
        if id.Some? && o.Read? && Answers(o.m, id.value) then None else id
  }

  predicate TransportFailure(o: Obs)
  {
    o.Acked? && o.ack.TransportFailed?
  }

  /** A steer was acked as a transport failure. */
  predicate Severed(t: Trace)
  {
    t.After? && (TransportFailure(t.last) || Severed(t.earlier))
  }

  /** A steer has just been released because its prompt is over. */
  predicate Releasing(t: Trace)
  {
    t.After? && t.last.Acked? && t.last.ack.PromptCompletedNeutral?
  }

  /** Every request id on the wire is below `n`. */
  predicate IdsBelow(t: Trace, n: nat)
  {
    t.Start? || (IdsBelow(t.earlier, n) && (t.last.Wire? && t.last.f.Request? ==> t.last.f.id < n))
  }

  /** A request with this id that carries no steer reached the agent. */
  predicate Issued(t: Trace, id: nat)
  {
    t.After? && (Issued(t.earlier, id)
                 || (t.last.Wire? && t.last.f.Request? && t.last.f.id == id && !t.last.f.call.SteerCall?))
  }

  predicate FromAgent(r: Reply)
  {
    r.Ok? || r.error.AgentError?
  }

  /** The agent's answer to request `id` was returned. */
  predicate Settled(t: Trace, id: nat)
  {
    t.After? && (Settled(t.earlier, id) || (t.last.Returned? && t.last.id == id && FromAgent(t.last.reply)))
  }

  /** The response `m` answers request `id`: right id, no `method` member. */
  predicate Answers(m: Inbound, id: nat)
  {
    m.verb.Absent? && m.id == Some(Num(id))
  }
}
