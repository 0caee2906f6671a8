/** Lazy agent-pool lifecycle (pool_lifecycle.rs). */
module PoolLifecycle {
  import opened Prelude

  const U32_MAX: nat := 0xFFFF_FFFF
  const U64_MAX: nat := 0xFFFF_FFFF_FFFF_FFFF
  const INITIAL_RETRY_DELAY: nat := 5
  const MAX_RETRY_DELAY: nat := 300

  datatype State<P> =
    | Listening
    | Waking(attempt: nat)
    | Ready(pool: P)
    | Failed(attempt: nat, retryAt: nat, error: string)

  function Min(a: nat, b: nat): nat
  {
    if a <= b then a else b
  }

  function Pow2(n: nat): (p: nat)
    ensures p > 0
  {
    if n == 0 then 1 else 2 * Pow2(n - 1)
  }

  // ----- backoff -----

  /** `retry_delay` in seconds, with its saturating machine arithmetic. */
  function RetryDelay(attempt: nat): nat
  {
    var exponent := Min(if attempt == 0 then 0 else attempt - 1, 63);
    var multiplier := Pow2(exponent);
    Min(Min(INITIAL_RETRY_DELAY * multiplier, U64_MAX), MAX_RETRY_DELAY)
  }

  lemma {:induction false} Pow2Monotone(a: nat, b: nat)
    requires a <= b
    ensures Pow2(a) <= Pow2(b)
    decreases b
  {
    if a < b {
      Pow2Monotone(a, b - 1);
    }
  }

  lemma Pow2Six()
    ensures Pow2(1) == 2 && Pow2(2) == 4 && Pow2(3) == 8 && Pow2(4) == 16 && Pow2(5) == 32 && Pow2(6) == 64
  {
    assert Pow2(3) == 8;
    assert Pow2(5) == 32;
  }

  /** Neither capped exponent nor saturation shows: five seconds doubled per attempt, up to five minutes. */
  lemma RetryDelayExact(n: nat)
    requires n >= 1
    ensures RetryDelay(n) == Min(MAX_RETRY_DELAY, INITIAL_RETRY_DELAY * Pow2(n - 1))
  {
    if n > 6 {
      Pow2Six();
      Pow2Monotone(6, n - 1);
      Pow2Monotone(6, Min(n - 1, 63));
    }
  }

  /** The least time, in seconds, from the first start of a generation to the end of the n-th failure's wait. */
  function Backoff(n: nat): nat
  {
    if n == 0 then 0 else Backoff(n - 1) + Min(MAX_RETRY_DELAY, INITIAL_RETRY_DELAY * Pow2(n - 1))
  }

  lemma {:induction false} BackoffClosedForm(n: nat)
    requires n >= 6
    ensures Backoff(n) == 315 + 300 * (n - 6)
    decreases n
  {
    Pow2Six();
    if n == 6 {
      assert Backoff(2) == 15 && Backoff(4) == 75;
      assert Backoff(5) == 155;
    } else {
      Pow2Monotone(6, n - 1);
      BackoffClosedForm(n - 1);
    }
  }

  // ----- the object -----

  class Lifecycle<P> {
    var state: State<P>

    constructor ()
      ensures state.Listening?
    {
      state := Listening;
    }

    method StartWakeIfDue(hasPendingWork: bool, now: nat) returns (token: Option<nat>)
      modifies this
      ensures (state, token) == Start(old(state), hasPendingWork, now)
    {
      if !hasPendingWork {
        return None;
      }
      token := None;
      match state {
        case Listening => token := Some(1);
        case Failed(attempt, retryAt, _) =>
          if now >= retryAt {
            token := Some(Min(attempt + 1, U32_MAX));
          }
        case _ =>
      }
      if token.Some? {
        state := Waking(token.value);
      }
    }

    method TakeReady() returns (pool: Option<P>)
      modifies this
      ensures (state, pool) == Take(old(state))
    {
      if state.Ready? {
        pool := Some(state.pool);
        state := Listening;
      } else {
        pool := None;
      }
    }

    method CompleteWake(attempt: nat, result: Result<P, string>, now: nat) returns (accepted: bool)
      modifies this
      ensures (state, accepted) == Complete(old(state), attempt, result, now)
    {
      if !state.Waking? || state.attempt != attempt {
        return false;
      }
      match result {
        case Ok(pool) => state := Ready(pool);
        case Err(error) => state := Failed(attempt, now + RetryDelay(attempt) * SECOND, error);
      }
      return true;
    }

    method CancelWake(attempt: nat, error: string, now: nat) returns (accepted: bool)
      modifies this
      ensures (state, accepted) == Complete(old(state), attempt, Err(error), now)
    {
      accepted := CompleteWake(attempt, Err(error), now);
    }
  }

  // ----- transitions as functions -----

  function Start<P>(s: State<P>, hasPendingWork: bool, now: nat): (State<P>, Option<nat>)
  {
    if !hasPendingWork then (s, None)
    else match s
      case Listening => (Waking(1), Some(1))
      case Failed(a, retryAt, _) =>
        if now >= retryAt then (Waking(Min(a + 1, U32_MAX)), Some(Min(a + 1, U32_MAX))) else (s, None)
      case _ => (s, None)
  }

  function Take<P>(s: State<P>): (State<P>, Option<P>)
  {
    if s.Ready? then (Listening, Some(s.pool)) else (s, None)
  }

  function Complete<P>(s: State<P>, attempt: nat, result: Result<P, string>, now: nat): (State<P>, bool)
  {
    if s.Waking? && s.attempt == attempt then
      (match result
       case Ok(pool) => Ready(pool)
       case Err(error) => Failed(attempt, now + RetryDelay(attempt) * SECOND, error), true)
    else
      (s, false)
  }

  // ----- runs -----

  /** Cancelling a wake completes it with an error. */
  datatype Action<P> =
    | StartWake(hasPendingWork: bool)
    | CompleteWake(attempt: nat, result: Result<P, string>)
    | TakeReady

  datatype Event<P> = Event(dt: nat, action: Action<P>)

  /** A lifecycle and its history; `starts` and `first` concern the generation since the last visit to Listening. */
  datatype Life<P> = Life(
    state: State<P>, clock: nat, starts: nat, first: nat, accepted: seq<P>, handed: seq<P>)

  function Born<P>(): Life<P>
  {
    Life(Listening, 0, 0, 0, [], [])
  }

  function Step<P>(l: Life<P>, e: Event<P>): Life<P>
  {
    var now := l.clock + e.dt;
    match e.action
    case StartWake(work) =>
      var (s, token) := Start(l.state, work, now);
      l.(state := s, clock := now,
         starts := if token.Some? then l.starts + 1 else l.starts,
         first := if token.Some? && l.state.Listening? then now else l.first)
    case CompleteWake(attempt, result) =>
      var (s, ok) := Complete(l.state, attempt, result, now);
      l.(state := s, clock := now, accepted := if ok && result.Ok? then l.accepted + [result.value] else l.accepted)
    case TakeReady =>
      var (s, pool) := Take(l.state);
      l.(state := s, clock := now,
         starts := if pool.Some? then 0 else l.starts,
         handed := if pool.Some? then l.handed + [pool.value] else l.handed)
  }

  function Run<P>(l: Life<P>, es: seq<Event<P>>): Life<P>
    decreases |es|
  {
    if es == [] then l else Run(Step(l, es[0]), es[1..])
  }

  function Held<P>(s: State<P>): seq<P>
  {
    if s.Ready? then [s.pool] else []
  }

  predicate Inv<P(==)>(l: Life<P>)
  {
    && l.accepted == l.handed + Held(l.state)
    && (l.state.Listening? <==> l.starts == 0)
    && (l.state.Waking? || l.state.Failed? ==> l.state.attempt == Min(l.starts, U32_MAX))
    && (l.state.Waking? ==> l.clock >= l.first + Backoff(l.starts - 1) * SECOND)
    && (l.state.Failed? ==> l.state.retryAt >= l.first + Backoff(l.starts) * SECOND)
  }

  /** Saturating the token does not shorten the wait. */
  lemma SaturatedDelay(n: nat)
    requires n >= 1
    ensures RetryDelay(Min(n, U32_MAX)) == Min(MAX_RETRY_DELAY, INITIAL_RETRY_DELAY * Pow2(n - 1))
  {
    RetryDelayExact(Min(n, U32_MAX));
    if n > U32_MAX {
      Pow2Six();
      Pow2Monotone(6, U32_MAX - 1);
      Pow2Monotone(6, n - 1);
    }
  }

  lemma StepKeeps<P>(l: Life<P>, e: Event<P>)
    requires Inv(l)
    ensures Inv(Step(l, e))
  {
    if e.action.CompleteWake? && l.state.Waking? {
      SaturatedDelay(l.starts);
    }
  }

  lemma {:induction false} RunKeeps<P>(l: Life<P>, es: seq<Event<P>>)
    requires Inv(l)
    ensures Inv(Run(l, es))
    decreases |es|
  {
    if es == [] {
    } else {
      StepKeeps(l, es[0]);
      RunKeeps(Step(l, es[0]), es[1..]);
    }
  }

  /** Every pool accepted is handed out once, in order, or still held: none is lost, duplicated or overwritten. */
  lemma PoolsConserved<P>(es: seq<Event<P>>)
    ensures var l := Run(Born(), es); l.accepted == l.handed + Held(l.state)
  {
    RunKeeps<P>(Born(), es);
  }

  /** A result is accepted exactly while waking, and only with the token of the generation's latest start. */
  lemma AcceptedExactly<P>(es: seq<Event<P>>, attempt: nat, result: Result<P, string>, now: nat)
    ensures var l := Run(Born(), es);
            && (Complete(l.state, attempt, result, now).1 <==>
                  l.state.Waking? && attempt == Min(l.starts, U32_MAX))
            && (!Complete(l.state, attempt, result, now).1 ==> Complete(l.state, attempt, result, now).0 == l.state)
  {
    RunKeeps<P>(Born(), es);
  }

  /** The n-th start of a generation gets token n, while tokens last. */
  lemma TokensCount<P>(es: seq<Event<P>>, work: bool, now: nat)
    ensures var l := Run(Born(), es); var (s, token) := Start(l.state, work, now);
            token.Some? ==> token.value == Min(l.starts + 1, U32_MAX) && s == Waking(token.value)
  {
    RunKeeps<P>(Born(), es);
  }

  /** The n-th attempt of a generation, n at least 7, starts at least 315 + 300 * (n - 7) seconds after the first. */
  lemma RetriesAreSpaced<P>(es: seq<Event<P>>)
    ensures var l := Run(Born(), es);
            l.state.Waking? && l.starts >= 7 ==> l.clock >= l.first + (315 + 300 * (l.starts - 7)) * SECOND
  {
    RunKeeps<P>(Born(), es);
    var l := Run(Born<P>(), es);
    if l.state.Waking? && l.starts >= 7 {
      BackoffClosedForm(l.starts - 1);
    }
  }

  // ----- results that come late -----

  lemma {:induction false} RunsCompose<P>(l: Life<P>, es: seq<Event<P>>, fs: seq<Event<P>>)
    ensures Run(l, es + fs) == Run(Run(l, es), fs)
    decreases |es|
  {
    if es == [] {
      assert es + fs == fs;
    } else {
      assert (es + fs)[1..] == es[1..] + fs;
      RunsCompose(Step(l, es[0]), es[1..], fs);
    }
  }

  /**
  The result of the attempt under way after `es`, arriving after `later` as well, is
  accepted exactly if an attempt is under way then with the same count of starts in
  its generation, or if both counts have reached the largest token.
  */
  lemma LateResultAcceptedExactly<P>(
    es: seq<Event<P>>, later: seq<Event<P>>, result: Result<P, string>, now: nat)
    requires Run(Born(), es).state.Waking?
    ensures var l, l' := Run(Born(), es), Run(Born(), es + later);
            Complete(l'.state, l.state.attempt, result, now).1 <==>
            l'.state.Waking? && (l.starts == l'.starts || (l.starts >= U32_MAX && l'.starts >= U32_MAX))
  {
    RunKeeps<P>(Born(), es);
    RunKeeps<P>(Born(), es + later);
  }

  /** Attempt 1 is cancelled, attempt 2 succeeds and its pool is taken, and a new generation starts. */
  function NextGeneration<P>(pool: P): seq<Event<P>>
  {
    [Event(0, StartWake(true)), Event(0, CompleteWake(1, Err("cancelled"))), Event(5 * SECOND, StartWake(true)),
     Event(0, CompleteWake(2, Ok(pool))), Event(0, TakeReady), Event(0, StartWake(true))]
  }

  /** Tokens restart with each generation: the late result of the cancelled attempt then passes for the new one's. */
  lemma StaleAcrossGenerations<P>(pool: P, stale: P)
    ensures var l := Run(Born(), NextGeneration(pool));
            l.handed == [pool] && Complete(l.state, 1, Ok(stale), l.clock) == (Ready(stale), true)
  {
    var es := NextGeneration(pool);
    var l1 := Step(Born(), es[0]);
    var l2 := Step(l1, es[1]);
    RetryDelayExact(1);
    assert l2.state == Failed(1, 5 * SECOND, "cancelled");
    var l3 := Step(l2, es[2]);
    var l4 := Step(l3, es[3]);
    var l5 := Step(l4, es[4]);
    var l6 := Step(l5, es[5]);
    assert es[5..][1..] == [] && Run(l5, es[5..]) == l6;
    assert es[4..][1..] == es[5..] && Run(l4, es[4..]) == l6;
    assert es[3..][1..] == es[4..] && Run(l3, es[3..]) == l6;
    assert es[2..][1..] == es[3..] && Run(l2, es[2..]) == l6;
    assert es[1..][1..] == es[2..] && Run(l1, es[1..]) == l6;
  }

  /** When a wake starts: never without work, at once if none was tried, and after a failure when its wait is over. */
  lemma StartsExactly<P>(s: State<P>, work: bool, now: nat)
    ensures Start(s, work, now).1.Some? <==> work && (s.Listening? || (s.Failed? && now >= s.retryAt))
    ensures Start(s, work, now).1.None? ==> Start(s, work, now).0 == s
  {
  }

  /** The n-th failure in a row is followed by exactly five seconds doubled n - 1 times, or five minutes. */
  lemma RestartsExactly<P>(n: nat, error: string, at: nat, dt: nat, work: bool)
    requires 1 <= n < U32_MAX
    ensures var failed := Complete<P>(Waking(n), n, Err(error), at).0;
            && failed.Failed?
            && Start(failed, work, at + dt) ==
               if work && dt >= Min(300, 5 * Pow2(n - 1)) * SECOND then (Waking(n + 1), Some(n + 1)) else (failed, None)
  {
    RetryDelayExact(n);
  }

  /** An attempt fails and the next one starts as soon as it is due. */
  function Retry<P>(token: nat): seq<Event<P>>
  {
    [Event(0, CompleteWake(token, Err(""))), Event(RetryDelay(token) * SECOND, StartWake(true))]
  }

  lemma RetryStarts<P>(l: Life<P>)
    requires l.state.Waking?
    ensures var l' := Run(l, Retry(l.state.attempt));
            l'.state == Waking(Min(l.state.attempt + 1, U32_MAX)) && l'.starts == l.starts + 1
  {
    var es: seq<Event<P>> := Retry(l.state.attempt);
    var l1 := Step(l, es[0]);
    var l2 := Step(l1, es[1]);
    assert es[1..][1..] == [] && Run(l1, es[1..]) == l2;
  }

  /** A generation can go on failing for any number of starts. */
  lemma {:induction false} StartsReachable<P>(n: nat) returns (es: seq<Event<P>>)
    requires n >= 1
    ensures Run(Born<P>(), es).state.Waking? && Run(Born<P>(), es).starts == n
  {
    if n == 1 {
      es := [Event(0, StartWake(true))];
      assert es[1..] == [] && Run(Born<P>(), es) == Run(Step(Born(), es[0]), es[1..]);
    } else {
      var before := StartsReachable<P>(n - 1);
      var l := Run(Born<P>(), before);
      RetryStarts(l);
      RunsCompose(Born<P>(), before, Retry(l.state.attempt));
      es := before + Retry(l.state.attempt);
    }
  }

  /** Within a generation two attempts share the largest token, and the earlier one's late result is accepted. */
  lemma SaturatedTokensClash<P>(stale: P) returns (es: seq<Event<P>>, later: seq<Event<P>>)
    ensures var l, l' := Run(Born(), es), Run(Born(), es + later);
            && l.state.Waking? && l.starts == U32_MAX && l'.starts == U32_MAX + 1
            && Complete(l'.state, l.state.attempt, Ok(stale), l'.clock) == (Ready(stale), true)
  {
    es := StartsReachable<P>(U32_MAX);
    var l := Run(Born<P>(), es);
    later := Retry(l.state.attempt);
    RetryStarts(l);
    RunsCompose(Born<P>(), es, later);
    RunKeeps<P>(Born(), es);
  }
}
