/**
Subscription rules: the ordered, fail-closed event matcher (filter.rs) and the
per-channel wire filters resolved from the same rules (config.rs).
*/
module Subscription {
  import opened Prelude

  type Uuid = nat

  /** How channel ids are read and written; the canonical text of an id parses back to it. */
  datatype UuidText = UuidText(parse: string -> Option<Uuid>, show: Uuid -> string)
  {
    ghost predicate Faithful()
    {
      forall u: Uuid :: parse(show(u)) == Some(u)
    }
  }

  datatype Scope = All(word: string) | Listed(ids: seq<string>)

  datatype Rule = Rule(
    name: string, channels: Scope, kinds: seq<nat>, requireMention: bool, hasFilter: bool, promptTag: Option<string>)

  datatype Nostr = Nostr(kind: nat, tags: seq<seq<string>>)

  /** What evaluating a rule's filter expression yields. */
  datatype Verdict = Holds | Fails | TimedOut | Errored

  /** One event to match, with the verdict each rule's filter would give on it. */
  datatype Query = Query(event: Nostr, channel: Uuid, agent: string, verdicts: seq<Verdict>)

  datatype Matched = Matched(ruleIndex: nat, promptTag: string)

  const MAX_CONSECUTIVE_TIMEOUTS: nat := 5

  predicate Mentions(e: Nostr, agent: string)
  {
    exists tag :: tag in e.tags && |tag| >= 2 && tag[0] == "p" && tag[1] == agent
  }

  /** `ChannelScope::matches`: compares text. */
  predicate InScope(scope: Scope, u: Uuid, text: UuidText)
  {
    match scope
    case All(word) => word == "all"
    case Listed(ids) => text.show(u) in ids
  }

  /** Channel, kind and mention checks. */
  predicate Eligible(rule: Rule, q: Query, text: UuidText)
  {
    && InScope(rule.channels, q.channel, text)
    && (rule.kinds == [] || q.event.kind in rule.kinds)
    && (rule.requireMention ==> Mentions(q.event, q.agent))
  }

  // ----- the matcher, rule by rule -----

  datatype Fate = Skips | Wins | Blocks

  /** What becomes of the event at one rule whose timeout counter stands at `n`. */
  function At(rule: Rule, n: nat, v: Verdict, q: Query, text: UuidText): Fate
  {
    if !Eligible(rule, q, text) then Skips
    else if !rule.hasFilter then Wins
    else if n >= MAX_CONSECUTIVE_TIMEOUTS then Blocks
    else match v case Holds => Wins case Fails => Skips case _ => Blocks
  }

  predicate Evaluates(rule: Rule, n: nat, q: Query, text: UuidText)
  {
    Eligible(rule, q, text) && rule.hasFilter && n < MAX_CONSECUTIVE_TIMEOUTS
  }

  function Counted(n: nat, v: Verdict): nat
  {
    match v case TimedOut => n + 1 case Errored => n case _ => 0
  }

  predicate Fits(rules: seq<Rule>, timeouts: seq<nat>, q: Query)
  {
    |rules| == |timeouts| == |q.verdicts|
  }

  /** The first rule from `i` on that does not let the event fall through to the next. */
  function Stop(rules: seq<Rule>, timeouts: seq<nat>, q: Query, text: UuidText, i: nat := 0): (s: nat)
    requires Fits(rules, timeouts, q) && i <= |rules|
    ensures i <= s <= |rules|
    ensures forall j :: i <= j < s ==> At(rules[j], timeouts[j], q.verdicts[j], q, text).Skips?
    ensures s < |rules| ==> !At(rules[s], timeouts[s], q.verdicts[s], q, text).Skips?
    decreases |rules| - i
  {
    if i < |rules| && At(rules[i], timeouts[i], q.verdicts[i], q, text).Skips?
    then Stop(rules, timeouts, q, text, i + 1)
    else i
  }

  function Winner(rules: seq<Rule>, timeouts: seq<nat>, q: Query, text: UuidText): Option<nat>
    requires Fits(rules, timeouts, q)
  {
    var s := Stop(rules, timeouts, q, text);
    if s < |rules| && At(rules[s], timeouts[s], q.verdicts[s], q, text).Wins? then Some(s) else None
  }

  /** The counters after the call: evaluated rules up to the stop are updated, all others keep theirs. */
  function Recounted(rules: seq<Rule>, timeouts: seq<nat>, q: Query, text: UuidText): seq<nat>
    requires Fits(rules, timeouts, q)
  {
    var s := Stop(rules, timeouts, q, text);
    seq(|timeouts|, j requires 0 <= j < |timeouts| =>
      if j <= s && Evaluates(rules[j], timeouts[j], q, text) then Counted(timeouts[j], q.verdicts[j])
      else timeouts[j])
  }

  // ----- one call, said rule by rule -----

  /** The rule speaks of this event: its channel, its kind, and a mention of the agent if the rule asks for one. */
  predicate Heard(rule: Rule, q: Query, text: UuidText)
  {
    && (rule.channels.All? ==> rule.channels.word == "all")
    && (rule.channels.Listed? ==> exists c :: c in rule.channels.ids && c == text.show(q.channel))
    && (rule.kinds == [] || exists k :: k in rule.kinds && k == q.event.kind)
    && (!rule.requireMention || exists tag :: tag in q.event.tags && |tag| > 1 && tag[..2] == ["p", q.agent])
  }

  /** The rule lets the event through to the next one. */
  predicate PassedOver(rule: Rule, n: nat, v: Verdict, q: Query, text: UuidText)
  {
    Heard(rule, q, text) ==> rule.hasFilter && n < MAX_CONSECUTIVE_TIMEOUTS && v == Fails
  }

  predicate AllPassedOver(rules: seq<Rule>, ts: seq<nat>, q: Query, text: UuidText, i: nat)
    requires Fits(rules, ts, q) && i <= |rules|
  {
    forall j :: 0 <= j < i ==> PassedOver(rules[j], ts[j], q.verdicts[j], q, text)
  }

  /** The filter of rule `i` is evaluated in this call. */
  predicate Asked(rules: seq<Rule>, ts: seq<nat>, q: Query, text: UuidText, i: nat)
    requires Fits(rules, ts, q) && i < |rules|
  {
    && Heard(rules[i], q, text) && rules[i].hasFilter && ts[i] < MAX_CONSECUTIVE_TIMEOUTS
    && AllPassedOver(rules, ts, q, text, i)
  }

  /** Rule `i` takes the event. */
  predicate Chosen(rules: seq<Rule>, ts: seq<nat>, q: Query, text: UuidText, i: nat)
    requires Fits(rules, ts, q) && i < |rules|
  {
    && Heard(rules[i], q, text) && (rules[i].hasFilter ==> ts[i] < MAX_CONSECUTIVE_TIMEOUTS && q.verdicts[i] == Holds)
    && AllPassedOver(rules, ts, q, text, i)
  }

  lemma HeardExactly(rule: Rule, q: Query, text: UuidText)
    ensures Eligible(rule, q, text) <==> Heard(rule, q, text)
  {
    assert forall tag :: tag in q.event.tags && |tag| > 1 ==> tag[..2] == [tag[0], tag[1]];
    if rule.requireMention && Mentions(q.event, q.agent) {
      var tag :| tag in q.event.tags && |tag| >= 2 && tag[0] == "p" && tag[1] == q.agent;
      assert tag[..2] == ["p", q.agent];
    }
  }

  lemma PassedExactly(rules: seq<Rule>, ts: seq<nat>, q: Query, text: UuidText, i: nat)
    requires Fits(rules, ts, q) && i <= |rules|
    ensures AllPassedOver(rules, ts, q, text, i) <==> i <= Stop(rules, ts, q, text)
  {
    var s := Stop(rules, ts, q, text);
    forall j | 0 <= j < |rules|
      ensures PassedOver(rules[j], ts[j], q.verdicts[j], q, text) <==>
              At(rules[j], ts[j], q.verdicts[j], q, text).Skips?
    {
      HeardExactly(rules[j], q, text);
    }
    if s < i {
      assert !PassedOver(rules[s], ts[s], q.verdicts[s], q, text);
    }
  }

  lemma ChosenExactly(rules: seq<Rule>, ts: seq<nat>, q: Query, text: UuidText, i: nat)
    requires Fits(rules, ts, q) && i < |rules|
    ensures Winner(rules, ts, q, text) == Some(i) <==> Chosen(rules, ts, q, text, i)
  {
    HeardExactly(rules[i], q, text);
    PassedExactly(rules, ts, q, text, i);
  }

  /** Only an evaluation moves a counter: an answer clears it, a timeout adds one, an error leaves it. */
  lemma RecountedExactly(rules: seq<Rule>, ts: seq<nat>, q: Query, text: UuidText, i: nat)
    requires Fits(rules, ts, q) && i < |rules|
    ensures var v := q.verdicts[i];
            Recounted(rules, ts, q, text)[i] ==
            if !Asked(rules, ts, q, text, i) then ts[i]
            else if v == Holds || v == Fails then 0
            else if v == TimedOut then ts[i] + 1
            else ts[i]
  {
    HeardExactly(rules[i], q, text);
    PassedExactly(rules, ts, q, text, i);
  }

  class RuleSet {
    const rules: seq<Rule>
    var timeouts: seq<nat>

    predicate Valid()
      reads this
    {
      |timeouts| == |rules|
    }

    constructor (rules: seq<Rule>)
      ensures Valid() && this.rules == rules && forall n :: n in timeouts ==> n == 0
    {
      this.rules := rules;
      timeouts := seq(|rules|, i => 0);
    }

    /** `match_event` */
    method MatchEvent(q: Query, text: UuidText) returns (r: Option<Matched>)
      requires Valid() && |q.verdicts| == |rules|
      modifies this`timeouts
      ensures Valid() && timeouts == Recounted(rules, old(timeouts), q, text)
      ensures match Winner(rules, old(timeouts), q, text)
              case None => r.None?
              case Some(i) =>
                r == Some(Matched(i, if rules[i].promptTag.Some? then rules[i].promptTag.value else rules[i].name))
      ensures forall i :: 0 <= i < |rules| ==>
                (Chosen(rules, old(timeouts), q, text, i) <==> r.Some? && r.value.ruleIndex == i)
    {
      forall i | 0 <= i < |rules|
        ensures Winner(rules, timeouts, q, text) == Some(i) <==> Chosen(rules, timeouts, q, text, i)
      {
        ChosenExactly(rules, timeouts, q, text, i);
      }
      ghost var before := timeouts;
      for i := 0 to |rules|
        invariant |timeouts| == |rules| && i <= Stop(rules, before, q, text)
        invariant forall j :: i <= j < |rules| ==> timeouts[j] == before[j]
        invariant forall j :: 0 <= j < i ==>
          timeouts[j] ==
          if Evaluates(rules[j], before[j], q, text) then Counted(before[j], q.verdicts[j]) else before[j]
      {
        var rule := rules[i];
        if !InScope(rule.channels, q.channel, text) {
          continue;
        }
        if rule.kinds != [] && q.event.kind !in rule.kinds {
          continue;
        }
        if rule.requireMention && !Mentions(q.event, q.agent) {
          continue;
        }
        if rule.hasFilter {
          if timeouts[i] >= MAX_CONSECUTIVE_TIMEOUTS {
            return None;
          }
          match q.verdicts[i] {
            case Holds => timeouts := timeouts[i := 0];
            case Fails =>
              timeouts := timeouts[i := 0];
              continue;
            case TimedOut =>
              timeouts := timeouts[i := timeouts[i] + 1];
              return None;
            case Errored => return None;
          }
        }
        return Some(Matched(i, if rule.promptTag.Some? then rule.promptTag.value else rule.name));
      }
      return None;
    }
  }

  // ----- what the matcher guarantees -----

  /** First match wins, and nothing before it may have blocked. */
  lemma WinnerExactly(rules: seq<Rule>, timeouts: seq<nat>, q: Query, text: UuidText, i: nat)
    requires Fits(rules, timeouts, q) && i < |rules|
    ensures Winner(rules, timeouts, q, text) == Some(i) <==>
            && At(rules[i], timeouts[i], q.verdicts[i], q, text).Wins?
            && forall j :: 0 <= j < i ==> At(rules[j], timeouts[j], q.verdicts[j], q, text).Skips?
  {
    var s := Stop(rules, timeouts, q, text);
    if s < i {
      assert !At(rules[s], timeouts[s], q.verdicts[s], q, text).Skips?;
    }
  }

  /** Some verdicts are replaced by errors or timeouts. */
  predicate Degrades(q: Query, q': Query)
  {
    && q' == q.(verdicts := q'.verdicts) && |q'.verdicts| == |q.verdicts|
    && forall i :: 0 <= i < |q.verdicts| ==>
         q'.verdicts[i] == q.verdicts[i] || q'.verdicts[i].TimedOut? || q'.verdicts[i].Errored?
  }

  /** In one call, failing evaluations admit no new event and never hand an event to another rule. */
  lemma FailsClosed(rules: seq<Rule>, timeouts: seq<nat>, q: Query, q': Query, text: UuidText)
    requires Fits(rules, timeouts, q) && Degrades(q, q')
    ensures Winner(rules, timeouts, q', text).Some? ==>
              Winner(rules, timeouts, q, text) == Winner(rules, timeouts, q', text)
  {
    var won := Winner(rules, timeouts, q', text);
    if won.Some? {
      var i := won.value;
      WinnerExactly(rules, timeouts, q', text, i);
      forall j | 0 <= j <= i
        ensures At(rules[j], timeouts[j], q.verdicts[j], q, text) == At(rules[j], timeouts[j], q'.verdicts[j], q', text)
      {
        assert Eligible(rules[j], q, text) == Eligible(rules[j], q', text);
        assert At(rules[j], timeouts[j], q'.verdicts[j], q', text) != Blocks;
      }
      WinnerExactly(rules, timeouts, q, text, i);
    }
  }

  function Replay(rules: seq<Rule>, timeouts: seq<nat>, qs: seq<Query>, text: UuidText): seq<nat>
    requires |timeouts| == |rules| && forall q :: q in qs ==> |q.verdicts| == |rules|
    decreases |qs|
  {
    if qs == [] then timeouts else Replay(rules, Recounted(rules, timeouts, qs[0], text), qs[1..], text)
  }

  /** Over any sequence of calls no counter exceeds the limit, and one at the limit stays there. */
  lemma {:induction false} CountersOverCalls(
    rules: seq<Rule>, timeouts: seq<nat>, qs: seq<Query>, text: UuidText, i: nat)
    requires |timeouts| == |rules| && i < |rules| && forall q :: q in qs ==> |q.verdicts| == |rules|
    requires timeouts[i] <= MAX_CONSECUTIVE_TIMEOUTS
    ensures var after := Replay(rules, timeouts, qs, text);
            && |after| == |rules| && after[i] <= MAX_CONSECUTIVE_TIMEOUTS
            && (timeouts[i] == MAX_CONSECUTIVE_TIMEOUTS ==> after[i] == MAX_CONSECUTIVE_TIMEOUTS)
    decreases |qs|
  {
    if qs == [] {
    } else {
      CountersOverCalls(rules, Recounted(rules, timeouts, qs[0], text), qs[1..], text, i);
    }
  }

  // ----- failing evaluations over sequences of calls -----

  /** Each counter of `ahead` is at least that of `ts`. */
  predicate Ahead(ts: seq<nat>, ahead: seq<nat>)
  {
    |ts| == |ahead| && forall i :: 0 <= i < |ts| ==> ts[i] <= ahead[i]
  }

  /** Rule `j` is reached, evaluated, and times out. */
  predicate TimesOut(rules: seq<Rule>, ts: seq<nat>, q: Query, text: UuidText, j: nat)
    requires Fits(rules, ts, q) && j < |rules|
  {
    j <= Stop(rules, ts, q, text) && Evaluates(rules[j], ts[j], q, text) && q.verdicts[j].TimedOut?
  }

  /** No failure takes away a timeout: what timed out still does, unless that rule is disabled already. */
  predicate KeepsTimeouts(rules: seq<Rule>, ts: seq<nat>, ahead: seq<nat>, q: Query, q': Query, text: UuidText)
    requires Fits(rules, ts, q) && Fits(rules, ahead, q')
  {
    forall j :: 0 <= j < |rules| && TimesOut(rules, ts, q, text, j) ==>
      ahead[j] >= MAX_CONSECUTIVE_TIMEOUTS || TimesOut(rules, ahead, q', text, j)
  }

  lemma SkipsAhead(rules: seq<Rule>, ts: seq<nat>, ahead: seq<nat>, q: Query, q': Query, text: UuidText, j: nat)
    requires Fits(rules, ts, q) && Ahead(ts, ahead) && Degrades(q, q') && j < |rules|
    requires !At(rules[j], ahead[j], q'.verdicts[j], q', text).Blocks?
    ensures At(rules[j], ts[j], q.verdicts[j], q, text) == At(rules[j], ahead[j], q'.verdicts[j], q', text)
  {
    assert Eligible(rules[j], q, text) == Eligible(rules[j], q', text);
  }

  lemma StopsEarlier(rules: seq<Rule>, ts: seq<nat>, ahead: seq<nat>, q: Query, q': Query, text: UuidText)
    requires Fits(rules, ts, q) && Ahead(ts, ahead) && Degrades(q, q')
    ensures Stop(rules, ahead, q', text) <= Stop(rules, ts, q, text)
  {
    var s := Stop(rules, ts, q, text);
    if s < Stop(rules, ahead, q', text) {
      SkipsAhead(rules, ts, ahead, q, q', text, s);
    }
  }

  /** Failures that keep the timeouts keep the counters ahead. */
  lemma CountersStayAhead(rules: seq<Rule>, ts: seq<nat>, ahead: seq<nat>, q: Query, q': Query, text: UuidText)
    requires Fits(rules, ts, q) && Ahead(ts, ahead) && Degrades(q, q')
    requires KeepsTimeouts(rules, ts, ahead, q, q', text)
    ensures Ahead(Recounted(rules, ts, q, text), Recounted(rules, ahead, q', text))
  {
    StopsEarlier(rules, ts, ahead, q, q', text);
    forall j | 0 <= j < |rules|
      ensures Recounted(rules, ts, q, text)[j] <= Recounted(rules, ahead, q', text)[j]
    {
      assert Eligible(rules[j], q, text) == Eligible(rules[j], q', text);
      assert TimesOut(rules, ts, q, text, j) ==>
               ahead[j] >= MAX_CONSECUTIVE_TIMEOUTS || TimesOut(rules, ahead, q', text, j);
    }
  }

  predicate Sized(rules: seq<Rule>, qs: seq<Query>)
  {
    forall q :: q in qs ==> |q.verdicts| == |rules|
  }

  /** Every call of the one history degrades to that of the other, without taking away timeouts. */
  predicate HistoryDegrades(
    rules: seq<Rule>, ts: seq<nat>, ahead: seq<nat>, qs: seq<Query>, qs': seq<Query>, text: UuidText)
    requires |ts| == |ahead| == |rules| && Sized(rules, qs) && Sized(rules, qs')
    decreases |qs|
  {
    if qs == [] || qs' == [] then qs == qs'
    else
      && Degrades(qs[0], qs'[0]) && KeepsTimeouts(rules, ts, ahead, qs[0], qs'[0], text)
      && HistoryDegrades(rules, Recounted(rules, ts, qs[0], text), Recounted(rules, ahead, qs'[0], text),
                         qs[1..], qs'[1..], text)
  }

  lemma {:induction false} ReplayStaysAhead(
    rules: seq<Rule>, ts: seq<nat>, ahead: seq<nat>, qs: seq<Query>, qs': seq<Query>, text: UuidText)
    requires |ts| == |rules| && Ahead(ts, ahead) && Sized(rules, qs) && Sized(rules, qs')
    requires HistoryDegrades(rules, ts, ahead, qs, qs', text)
    ensures Ahead(Replay(rules, ts, qs, text), Replay(rules, ahead, qs', text))
    ensures |Replay(rules, ts, qs, text)| == |rules|
    decreases |qs|
  {
    if qs == [] || qs' == [] {
    } else {
      CountersStayAhead(rules, ts, ahead, qs[0], qs'[0], text);
      ReplayStaysAhead(rules, Recounted(rules, ts, qs[0], text), Recounted(rules, ahead, qs'[0], text),
                       qs[1..], qs'[1..], text);
    }
  }

  lemma WinsAhead(rules: seq<Rule>, ts: seq<nat>, ahead: seq<nat>, q: Query, q': Query, text: UuidText)
    requires Fits(rules, ts, q) && Ahead(ts, ahead) && Degrades(q, q')
    ensures Winner(rules, ahead, q', text).Some? ==> Winner(rules, ts, q, text) == Winner(rules, ahead, q', text)
  {
    var won := Winner(rules, ahead, q', text);
    if won.Some? {
      forall j | 0 <= j <= won.value
        ensures At(rules[j], ts[j], q.verdicts[j], q, text) == At(rules[j], ahead[j], q'.verdicts[j], q', text)
      {
        SkipsAhead(rules, ts, ahead, q, q', text, j);
      }
      WinnerExactly(rules, ts, q, text, won.value);
    }
  }

  /** Over any calls, failures that take away no timeout admit no new event and hand none to another rule. */
  lemma FailsClosedOverCalls(
    rules: seq<Rule>, ts: seq<nat>, qs: seq<Query>, qs': seq<Query>, q: Query, q': Query, text: UuidText)
    requires |ts| == |rules| == |q.verdicts| && Sized(rules, qs) && Sized(rules, qs') && Degrades(q, q')
    requires HistoryDegrades(rules, ts, ts, qs, qs', text)
    ensures var plain, degraded := Replay(rules, ts, qs, text), Replay(rules, ts, qs', text);
            && |plain| == |degraded| == |rules|
            && (Winner(rules, degraded, q', text).Some? ==>
                  Winner(rules, plain, q, text) == Winner(rules, degraded, q', text))
  {
    ReplayStaysAhead(rules, ts, ts, qs, qs', text);
    WinsAhead(rules, Replay(rules, ts, qs, text), Replay(rules, ts, qs', text), q, q', text);
  }

  /** The event passes the filter of a rule that the counters `ts` disable. */
  predicate PassesDisabled(rules: seq<Rule>, ts: seq<nat>, won: nat, q: Query, text: UuidText)
    requires |ts| == |rules| && won < |rules|
  {
    exists i :: 0 <= i <= won && Eligible(rules[i], q, text) && rules[i].hasFilter && ts[i] >= MAX_CONSECUTIVE_TIMEOUTS
  }

  /** Whatever the histories, an event one admits fares otherwise with the other exactly if it passes such a rule. */
  lemma HistoriesDifferExactly(rules: seq<Rule>, ts: seq<nat>, other: seq<nat>, q: Query, text: UuidText)
    requires Fits(rules, ts, q) && Fits(rules, other, q) && Winner(rules, other, q, text).Some?
    ensures var won := Winner(rules, other, q, text).value;
            Winner(rules, ts, q, text) != Some(won) <==> PassesDisabled(rules, ts, won, q, text)
  {
    var won := Winner(rules, other, q, text).value;
    WinnerExactly(rules, other, q, text, won);
    WinnerExactly(rules, ts, q, text, won);
    if !PassesDisabled(rules, ts, won, q, text) {
      forall j | 0 <= j <= won
        ensures At(rules[j], ts[j], q.verdicts[j], q, text) == At(rules[j], other[j], q.verdicts[j], q, text)
      {
      }
    }
  }

  const FILTERED := Rule("r", All("all"), [], false, true, None)

  /**
  A failure that takes away a timeout can admit an event later: an error at the
  first rule keeps the second from its fifth timeout in a row.
  */
  lemma TakenTimeoutAdmits(e: Nostr, u: Uuid, agent: string, text: UuidText)
    ensures var rules, ts := [FILTERED, FILTERED], [0, 4];
            var first, degraded := Query(e, u, agent, [Fails, TimedOut]), Query(e, u, agent, [Errored, TimedOut]);
            var later := Query(e, u, agent, [Fails, Holds]);
            && Degrades(first, degraded)
            && Winner(rules, Recounted(rules, ts, first, text), later, text).None?
            && Winner(rules, Recounted(rules, ts, degraded, text), later, text) == Some(1)
  {
    var rules, ts := [FILTERED, FILTERED], [0, 4];
    var first, degraded := Query(e, u, agent, [Fails, TimedOut]), Query(e, u, agent, [Errored, TimedOut]);
    var later := Query(e, u, agent, [Fails, Holds]);
    assert Stop(rules, ts, first, text) == 1 && Stop(rules, ts, degraded, text) == 0;
    assert Recounted(rules, ts, first, text) == [0, 5];
    assert Recounted(rules, ts, degraded, text) == [0, 4];
    WinnerExactly(rules, [0, 5], later, text, 0);
    WinnerExactly(rules, [0, 5], later, text, 1);
    WinnerExactly(rules, [0, 4], later, text, 1);
  }

  /** Once a rule's counter is at the limit, no later event that reaches its filter is ever matched. */
  lemma DisabledForever(rules: seq<Rule>, timeouts: seq<nat>, qs: seq<Query>, q: Query, text: UuidText, i: nat)
    requires |timeouts| == |rules| && i < |rules| && |q.verdicts| == |rules|
    requires forall p :: p in qs ==> |p.verdicts| == |rules|
    requires timeouts[i] == MAX_CONSECUTIVE_TIMEOUTS
    ensures var later := Replay(rules, timeouts, qs, text);
            && |later| == |rules|
            && (i <= Stop(rules, later, q, text) && Eligible(rules[i], q, text) && rules[i].hasFilter ==>
                  Winner(rules, later, q, text).None?)
  {
    CountersOverCalls(rules, timeouts, qs, text, i);
  }

  // ----- wire filters -----

  datatype Mode = MentionsMode | AllMode | ConfigMode

  datatype Settings = Settings(
    mode: Mode, channels: Option<seq<string>>, kinds: Option<seq<nat>>, noMentionFilter: bool)

  /** `kinds` None is the wildcard. */
  datatype ChannelFilter = ChannelFilter(kinds: Option<seq<nat>>, requireMention: bool)

  /** Stream message, its edit, workflow approval requested, stream reminder. */
  const DEFAULT_MENTION_KINDS: seq<nat> := [9, 40003, 46010, 40007]

  /** The relay delivers the event under this subscription. */
  predicate Passes(f: ChannelFilter, e: Nostr, agent: string)
  {
    (f.kinds.Some? ==> e.kind in f.kinds.value) && (f.requireMention ==> Mentions(e, agent))
  }

  /** `rule_applies_to_channel`: compares parsed ids. */
  predicate Applies(rule: Rule, u: Uuid, text: UuidText)
  {
    match rule.channels
    case All(word) => word == "all"
    case Listed(ids) => exists id :: id in ids && text.parse(id) == Some(u)
  }

  function AddNew(kinds: seq<nat>, more: seq<nat>): seq<nat>
    decreases |more|
  {
    if more == [] then kinds
    else AddNew(if more[0] in kinds then kinds else kinds + [more[0]], more[1..])
  }

  /** Fold the rules that apply to channel `u` into one filter; None if there is none. */
  function Merged(rules: seq<Rule>, u: Uuid, text: UuidText): Option<ChannelFilter>
  {
    if rules == [] then
      None
    else
      var last := rules[|rules| - 1];
      var before := Merged(rules[..|rules| - 1], u, text);
      if !Applies(last, u, text) then
        before
      else
        var f := if before.Some? then before.value else ChannelFilter(Some([]), true);
        Some(ChannelFilter(
          if last.kinds == [] || f.kinds.None? then None else Some(AddNew(f.kinds.value, last.kinds)),
          f.requireMention && last.requireMention))
  }

  lemma {:induction false} AddNewMembers(kinds: seq<nat>, more: seq<nat>, k: nat)
    ensures k in AddNew(kinds, more) <==> k in kinds || k in more
    decreases |more|
  {
    if more == [] {
    } else {
      AddNewMembers(if more[0] in kinds then kinds else kinds + [more[0]], more[1..], k);
      assert more == [more[0]] + more[1..];
    }
  }

  /** The meaning of the fold: wildcard as soon as one rule is, else the union; a mention only if all rules ask. */
  lemma {:induction false} MergedMeaning(rules: seq<Rule>, u: Uuid, text: UuidText, k: nat)
    ensures var f := Merged(rules, u, text);
            && (f.Some? <==> exists r :: r in rules && Applies(r, u, text))
            && (f.Some? ==>
                  && (f.value.kinds.None? <==> exists r :: r in rules && Applies(r, u, text) && r.kinds == [])
                  && (f.value.kinds.Some? ==>
                        (k in f.value.kinds.value <==> exists r :: r in rules && Applies(r, u, text) && k in r.kinds))
                  && (f.value.requireMention <==> forall r :: r in rules && Applies(r, u, text) ==> r.requireMention))
    decreases |rules|
  {
    if rules == [] {
    } else {
      var before, last := rules[..|rules| - 1], rules[|rules| - 1];
      MergedMeaning(before, u, text, k);
      assert forall r :: r in rules <==> r in before || r == last by {
        assert rules == before + [last];
      }
      if Applies(last, u, text) {
        var f := Merged(before, u, text);
        AddNewMembers(if f.Some? && f.value.kinds.Some? then f.value.kinds.value else [], last.kinds, k);
      }
    }
  }

  /** The filter a channel gets, whenever it is discovered. */
  function Resolved(s: Settings, u: Uuid, rules: seq<Rule>, text: UuidText): Option<ChannelFilter>
  {
    if s.mode.ConfigMode? then
      Merged(rules, u, text)
    else if s.channels.Some? && !(exists c :: c in s.channels.value && text.parse(c) == Some(u)) then
      None
    else if s.mode.MentionsMode? then
      Some(ChannelFilter(Some(if s.kinds.Some? then s.kinds.value else DEFAULT_MENTION_KINDS), !s.noMentionFilter))
    else
      Some(ChannelFilter(s.kinds, false))
  }

  /** The merge loop that both resolvers run for one channel. */
  method MergeRules(rules: seq<Rule>, u: Uuid, text: UuidText) returns (f: Option<ChannelFilter>)
    ensures f == Merged(rules, u, text)
  {
    var mergedKinds: Option<seq<nat>> := Some([]);
    var requireMention, hasRule := true, false;
    for i := 0 to |rules|
      invariant hasRule == Merged(rules[..i], u, text).Some?
      invariant hasRule ==> Merged(rules[..i], u, text) == Some(ChannelFilter(mergedKinds, requireMention))
      invariant !hasRule ==> mergedKinds == Some([]) && requireMention
    {
      var rule := rules[i];
      assert rules[..i + 1][..i] == rules[..i];
      if !Applies(rule, u, text) {
        continue;
      }
      hasRule := true;
      if rule.kinds == [] {
        mergedKinds := None;
      } else if mergedKinds.Some? {
        var kinds := mergedKinds.value;
        for j := 0 to |rule.kinds|
          invariant AddNew(kinds, rule.kinds[j..]) == AddNew(mergedKinds.value, rule.kinds)
        {
          assert rule.kinds[j..][1..] == rule.kinds[j + 1..];
          if rule.kinds[j] !in kinds {
            kinds := kinds + [rule.kinds[j]];
          }
        }
        mergedKinds := Some(kinds);
      }
      if !rule.requireMention {
        requireMention := false;
      }
    }
    assert rules[..|rules|] == rules;
    f := if hasRule then Some(ChannelFilter(mergedKinds, requireMention)) else None;
  }

  method ResolveDynamicChannelFilter(s: Settings, u: Uuid, rules: seq<Rule>, text: UuidText)
    returns (f: Option<ChannelFilter>)
    ensures f == Resolved(s, u, rules, text)
  {
    if !s.mode.ConfigMode? && s.channels.Some? {
      var allowed := exists c :: c in s.channels.value && text.parse(c) == Some(u);
      if !allowed {
        return None;
      }
    }
    match s.mode {
      case MentionsMode =>
        var kinds := if s.kinds.Some? then s.kinds.value else DEFAULT_MENTION_KINDS;
        f := Some(ChannelFilter(Some(kinds), !s.noMentionFilter));
      case AllMode => f := Some(ChannelFilter(s.kinds, false));
      case ConfigMode => f := MergeRules(rules, u, text);
    }
  }

  /** The channels an override keeps, in its order. */
  function Targets(overrides: seq<string>, discovered: seq<Uuid>, text: UuidText): (ts: seq<Uuid>)
    ensures forall u :: u in ts <==> u in discovered && exists c :: c in overrides && text.parse(c) == Some(u)
  {
    if overrides == [] then []
    else
      var p := text.parse(overrides[0]);
      assert overrides == [overrides[0]] + overrides[1..];
      (if p.Some? && p.value in discovered then [p.value] else []) + Targets(overrides[1..], discovered, text)
  }

  /** At every discovered channel the startup map holds exactly what the dynamic resolver answers. */
  method ResolveChannelFilters(s: Settings, discovered: seq<Uuid>, rules: seq<Rule>, text: UuidText)
    returns (m: map<Uuid, ChannelFilter>)
    ensures forall u :: u in m ==> u in discovered
    ensures forall u :: u in discovered ==>
              Resolved(s, u, rules, text) == if u in m then Some(m[u]) else None
  {
    var targets := if s.channels.Some? then Targets(s.channels.value, discovered, text) else discovered;
    m := map[];
    if s.mode.ConfigMode? {
      for i := 0 to |discovered|
        invariant m.Keys <= set u | u in discovered
        invariant forall u :: u in discovered[..i] ==> Merged(rules, u, text) == if u in m then Some(m[u]) else None
        invariant forall u :: u in m ==> u in discovered[..i]
      {
        var f := MergeRules(rules, discovered[i], text);
        if f.Some? {
          m := m[discovered[i] := f.value];
        }
        assert discovered[..i + 1] == discovered[..i] + [discovered[i]];
      }
      assert discovered[..|discovered|] == discovered;
    } else {
      var kinds := if s.mode.AllMode? || s.kinds.Some? then s.kinds else Some(DEFAULT_MENTION_KINDS);
      var f := ChannelFilter(kinds, s.mode.MentionsMode? && !s.noMentionFilter);
      for i := 0 to |targets|
        invariant forall u :: u in m <==> u in targets[..i]
        invariant forall u :: u in m ==> m[u] == f
      {
        m := m[targets[i] := f];
        assert targets[..i + 1] == targets[..i] + [targets[i]];
      }
      assert targets[..|targets|] == targets;
    }
  }

  // ----- what the relay delivers, mode by mode -----

  predicate Delivered(s: Settings, u: Uuid, rules: seq<Rule>, text: UuidText, e: Nostr, agent: string)
  {
    var f := Resolved(s, u, rules, text);
    f.Some? && Passes(f.value, e, agent)
  }

  /** The channels of the command line, if any are given, include this one. */
  predicate Wanted(s: Settings, u: Uuid, text: UuidText)
  {
    s.channels.Some? ==> exists c :: c in s.channels.value && text.parse(c) == Some(u)
  }

  lemma MentionsModeDelivers(s: Settings, u: Uuid, rules: seq<Rule>, text: UuidText, e: Nostr, agent: string)
    requires s.mode == MentionsMode
    ensures Delivered(s, u, rules, text, e, agent) <==>
            && Wanted(s, u, text)
            && (match s.kinds case Some(ks) => e.kind in ks case None => e.kind in {9, 40003, 46010, 40007})
            && (s.noMentionFilter || Mentions(e, agent))
  {
    assert e.kind in DEFAULT_MENTION_KINDS <==> e.kind in {9, 40003, 46010, 40007};
  }

  lemma AllModeDelivers(s: Settings, u: Uuid, rules: seq<Rule>, text: UuidText, e: Nostr, agent: string)
    requires s.mode == AllMode
    ensures Delivered(s, u, rules, text, e, agent) <==>
            Wanted(s, u, text) && (s.kinds.Some? ==> e.kind in s.kinds.value)
  {
  }

  lemma ConfigModeDelivers(s: Settings, u: Uuid, rules: seq<Rule>, text: UuidText, e: Nostr, agent: string)
    requires s.mode == ConfigMode
    ensures Delivered(s, u, rules, text, e, agent) <==>
            && (exists r :: r in rules && Applies(r, u, text) && (r.kinds == [] || e.kind in r.kinds))
            && ((forall r :: r in rules && Applies(r, u, text) ==> r.requireMention) ==> Mentions(e, agent))
  {
    MergedMeaning(rules, u, text, e.kind);
  }

  /** In Config mode the wire filter never hides an event that the matcher would admit. */
  lemma WireNeverHides(rules: seq<Rule>, timeouts: seq<nat>, q: Query, text: UuidText, s: Settings)
    requires Fits(rules, timeouts, q) && text.Faithful() && s.mode.ConfigMode?
    requires Winner(rules, timeouts, q, text).Some?
    ensures var f := Resolved(s, q.channel, rules, text);
            f.Some? && Passes(f.value, q.event, q.agent)
  {
    var rule := rules[Winner(rules, timeouts, q, text).value];
    assert rule in rules && Eligible(rule, q, text);
    assert Applies(rule, q.channel, text) by {
      if rule.channels.Listed? {
        assert text.parse(text.show(q.channel)) == Some(q.channel);
      }
    }
    MergedMeaning(rules, q.channel, text, q.event.kind);
  }
}
