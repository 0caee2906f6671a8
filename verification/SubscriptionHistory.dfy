/**
The timeout counters over whole histories of calls, said through the verdicts that a
rule's evaluations gave rather than through the counters themselves.
*/
module SubscriptionHistory {
  import opened Prelude
  import opened Subscription

  predicate Answers(v: Verdict)
  {
    v == Holds || v == Fails
  }

  predicate NoAnswer(vs: seq<Verdict>)
  {
    forall v :: v in vs ==> !Answers(v)
  }

  function Timeouts(vs: seq<Verdict>): nat
  {
    if vs == [] then 0 else Timeouts(vs[..|vs| - 1]) + if vs[|vs| - 1] == TimedOut then 1 else 0
  }

  /** Where the verdicts since the last answer begin. */
  function SinceAnswer(vs: seq<Verdict>): (k: nat)
    ensures k <= |vs| && NoAnswer(vs[k..]) && (k > 0 ==> Answers(vs[k - 1]))
  {
    if vs == [] then 0
    else if Answers(vs[|vs| - 1]) then |vs|
    else
      var k := SinceAnswer(vs[..|vs| - 1]);
      assert vs[k..] == vs[..|vs| - 1][k..] + [vs[|vs| - 1]];
      k
  }

  /** The timeouts since the last answer. */
  function Streak(vs: seq<Verdict>): nat
  {
    Timeouts(vs[SinceAnswer(vs)..])
  }

  /** After these calls rule `j` lets the event through to the next one. */
  ghost predicate LetThrough(rules: seq<Rule>, qs: seq<Query>, q: Query, text: UuidText, j: nat)
    requires Sized(rules, qs) && |q.verdicts| == |rules| && j < |rules|
    decreases |qs|, 1
  {
    Heard(rules[j], q, text) ==>
      rules[j].hasFilter && Streak(History(rules, qs, text, j)) < 5 && q.verdicts[j] == Fails
  }

  ghost predicate AllLetThrough(rules: seq<Rule>, qs: seq<Query>, q: Query, text: UuidText, i: nat)
    requires Sized(rules, qs) && |q.verdicts| == |rules| && i <= |rules|
    decreases |qs|, 2
  {
    forall j :: 0 <= j < i ==> LetThrough(rules, qs, q, text, j)
  }

  /** The verdicts that the evaluations of rule `i` gave over the calls, in order. */
  ghost function History(rules: seq<Rule>, qs: seq<Query>, text: UuidText, i: nat): seq<Verdict>
    requires Sized(rules, qs) && i < |rules|
    decreases |qs|, 0
  {
    if qs == [] then []
    else
      var past, q := qs[..|qs| - 1], qs[|qs| - 1];
      var before := History(rules, past, text, i);
      if && Heard(rules[i], q, text) && rules[i].hasFilter && Streak(before) < 5
         && AllLetThrough(rules, past, q, text, i)
      then before + [q.verdicts[i]]
      else before
  }

  // ----- the counters are the streaks -----

  function Zeros(rules: seq<Rule>): (ts: seq<nat>)
    ensures |ts| == |rules| && forall i :: 0 <= i < |ts| ==> ts[i] == 0
  {
    seq(|rules|, i => 0)
  }

  lemma {:induction false} ReplayLast(rules: seq<Rule>, ts: seq<nat>, qs: seq<Query>, text: UuidText)
    requires |ts| == |rules| && Sized(rules, qs) && qs != []
    ensures var before := Replay(rules, ts, qs[..|qs| - 1], text);
            |before| == |rules| && Replay(rules, ts, qs, text) == Recounted(rules, before, qs[|qs| - 1], text)
    decreases |qs|
  {
    if |qs| == 1 {
    } else {
      ReplayLast(rules, Recounted(rules, ts, qs[0], text), qs[1..], text);
      assert qs[1..][..|qs| - 2] == qs[..|qs| - 1][1..];
    }
  }

  lemma StreakNext(vs: seq<Verdict>, v: Verdict)
    ensures Streak(vs + [v]) == if Answers(v) then 0 else Streak(vs) + if v == TimedOut then 1 else 0
  {
    var more := vs + [v];
    assert more[..|vs|] == vs;
    if !Answers(v) {
      var k := SinceAnswer(vs);
      assert more[k..][..|vs| - k] == vs[k..];
    } else {
      assert more[|more|..] == [];
    }
  }

  /** Counters that agree with the streaks let the same rules pass. */
  lemma PassedAlike(rules: seq<Rule>, ts: seq<nat>, qs: seq<Query>, q: Query, text: UuidText, i: nat)
    requires Fits(rules, ts, q) && Sized(rules, qs) && i <= |rules|
    requires forall j :: 0 <= j < i ==> ts[j] == Streak(History(rules, qs, text, j))
    ensures AllPassedOver(rules, ts, q, text, i) <==> AllLetThrough(rules, qs, q, text, i)
  {
    forall j | 0 <= j < i
      ensures PassedOver(rules[j], ts[j], q.verdicts[j], q, text) <==> LetThrough(rules, qs, q, text, j)
    {
    }
  }

  /** One more call, from counters that agree with the streaks. */
  lemma StreaksNext(rules: seq<Rule>, ts: seq<nat>, qs: seq<Query>, text: UuidText, i: nat)
    requires Sized(rules, qs) && qs != [] && |ts| == |rules| && i < |rules|
    requires forall j :: 0 <= j < |rules| ==> ts[j] == Streak(History(rules, qs[..|qs| - 1], text, j))
    ensures Recounted(rules, ts, qs[|qs| - 1], text)[i] == Streak(History(rules, qs, text, i))
  {
    var past, q := qs[..|qs| - 1], qs[|qs| - 1];
    RecountedExactly(rules, ts, q, text, i);
    PassedAlike(rules, ts, past, q, text, i);
    StreakNext(History(rules, past, text, i), q.verdicts[i]);
    assert ts[i] == Streak(History(rules, past, text, i));
  }

  /** Every counter is the number of timeouts that its rule's evaluations gave since they last gave an answer. */
  lemma {:induction false} CounterIsStreak(rules: seq<Rule>, qs: seq<Query>, text: UuidText, i: nat)
    requires Sized(rules, qs) && i < |rules|
    ensures var ts := Replay(rules, Zeros(rules), qs, text);
            |ts| == |rules| && ts[i] == Streak(History(rules, qs, text, i))
    decreases |qs|
  {
    if qs == [] {
    } else {
      var past := qs[..|qs| - 1];
      ReplayLast(rules, Zeros(rules), qs, text);
      var ts := Replay(rules, Zeros(rules), past, text);
      forall j | 0 <= j < |rules| ensures ts[j] == Streak(History(rules, past, text, j)) {
        CounterIsStreak(rules, past, text, j);
      }
      StreaksNext(rules, ts, qs, text, i);
    }
  }

  /** The rule that takes an event after any calls, in terms of the verdicts alone. */
  lemma ChosenAfterCalls(rules: seq<Rule>, qs: seq<Query>, q: Query, text: UuidText, i: nat)
    requires Sized(rules, qs) && |q.verdicts| == |rules| && i < |rules|
    ensures var ts := Replay(rules, Zeros(rules), qs, text);
            && |ts| == |rules|
            && (Winner(rules, ts, q, text) == Some(i) <==>
                  && Heard(rules[i], q, text)
                  && (rules[i].hasFilter ==> Streak(History(rules, qs, text, i)) < 5 && q.verdicts[i] == Holds)
                  && AllLetThrough(rules, qs, q, text, i))
  {
    var ts := Replay(rules, Zeros(rules), qs, text);
    forall j | 0 <= j < |rules| ensures |ts| == |rules| && ts[j] == Streak(History(rules, qs, text, j)) {
      CounterIsStreak(rules, qs, text, j);
    }
    CounterIsStreak(rules, qs, text, i);
    PassedAlike(rules, ts, qs, q, text, i);
    ChosenExactly(rules, ts, q, text, i);
  }

  // ----- when a rule is disabled -----

  /** As long as there are further evaluations, the streak is below five. */
  lemma {:induction false} StreakWasShort(rules: seq<Rule>, qs: seq<Query>, text: UuidText, i: nat, n: nat)
    requires Sized(rules, qs) && i < |rules| && n < |History(rules, qs, text, i)|
    ensures Streak(History(rules, qs, text, i)[..n]) < 5
    decreases |qs|
  {
    if qs == [] {
    } else {
      var before := History(rules, qs[..|qs| - 1], text, i);
      if n < |before| {
        StreakWasShort(rules, qs[..|qs| - 1], text, i, n);
        assert History(rules, qs, text, i)[..n] == before[..n];
      } else {
        assert History(rules, qs, text, i)[..n] == before;
      }
    }
  }

  lemma {:induction false} TimeoutsSplit(a: seq<Verdict>, b: seq<Verdict>)
    ensures Timeouts(a + b) == Timeouts(a) + Timeouts(b)
    decreases |b|
  {
    if b == [] {
      assert a + b == a;
    } else {
      assert (a + b)[..|a + b| - 1] == a + b[..|b| - 1];
      TimeoutsSplit(a, b[..|b| - 1]);
    }
  }

  /** Verdicts `a` up to `b` hold at least five timeouts and no answer. */
  ghost predicate FiveInARow(vs: seq<Verdict>, a: nat, b: nat)
  {
    a <= b <= |vs| && NoAnswer(vs[a..b]) && Timeouts(vs[a..b]) >= 5
  }

  lemma AnswerLiesBefore(vs: seq<Verdict>, k: nat, a: nat)
    requires k <= |vs| && a <= |vs| && NoAnswer(vs[a..]) && (k > 0 ==> Answers(vs[k - 1]))
    ensures k <= a
  {
  }

  lemma RowIsInStreak(vs: seq<Verdict>, a: nat)
    requires a <= |vs| && NoAnswer(vs[a..])
    ensures SinceAnswer(vs) <= a && Streak(vs) >= Timeouts(vs[a..])
  {
    var k := SinceAnswer(vs);
    AnswerLiesBefore(vs, k, a);
    assert vs[k..] == vs[k..a] + vs[a..];
    TimeoutsSplit(vs[k..a], vs[a..]);
  }

  lemma LongStreakIsRow(vs: seq<Verdict>)
    requires Streak(vs) >= 5
    ensures FiveInARow(vs, SinceAnswer(vs), |vs|)
  {
    assert vs[SinceAnswer(vs)..|vs|] == vs[SinceAnswer(vs)..];
  }

  lemma RowIsLongStreak(vs: seq<Verdict>, a: nat, b: nat)
    requires FiveInARow(vs, a, b)
    ensures Streak(vs[..b]) >= 5
  {
    assert vs[..b][a..] == vs[a..b];
    RowIsInStreak(vs[..b], a);
  }

  /** A rule is disabled exactly if five of its evaluations timed out with none in between giving an answer. */
  lemma DisabledExactly(rules: seq<Rule>, qs: seq<Query>, text: UuidText, i: nat)
    requires Sized(rules, qs) && i < |rules|
    ensures var ts := Replay(rules, Zeros(rules), qs, text);
            && |ts| == |rules|
            && (ts[i] >= MAX_CONSECUTIVE_TIMEOUTS <==> exists a, b :: FiveInARow(History(rules, qs, text, i), a, b))
  {
    CounterIsStreak(rules, qs, text, i);
    var vs := History(rules, qs, text, i);
    if Streak(vs) >= 5 {
      LongStreakIsRow(vs);
    }
    forall a: nat, b: nat | FiveInARow(vs, a, b) ensures Streak(vs) >= 5 {
      RowIsLongStreak(vs, a, b);
      if b < |vs| {
        StreakWasShort(rules, qs, text, i, b);
      } else {
        assert vs[..b] == vs;
      }
    }
  }
}
