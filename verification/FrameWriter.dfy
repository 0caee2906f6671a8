/**
Cancellation-safe ownership of the single stdin writer (acp_frame_writer.rs), on
bytes. The slot lends its writer out for one frame and gets it back only if the
whole frame, its line feed and the flush went through.
*/
module FrameWriter {
  import opened Prelude

  const LF: Byte := 10

  /**
  One call and what the environment does to it: `cut` is the number of bytes
  delivered before an I/O error or the loss of the future, if either strikes.
  */
  datatype FrameCall = FrameCall(body: seq<Byte>, cut: Option<nat>)

  datatype Pipe = Pipe(open: bool, wire: seq<Byte>)

  function Framed(body: seq<Byte>): seq<Byte>
  {
    body + [LF]
  }

  /** The bytes a call gets onto the wire. */
  function Portion(c: FrameCall): seq<Byte>
  {
    if c.cut.Some? && c.cut.value <= |c.body| then c.body[..c.cut.value] else Framed(c.body)
  }

  function Deliver(p: Pipe, c: FrameCall): Pipe
  {
    if p.open then Pipe(c.cut.None?, p.wire + Portion(c)) else p
  }

  function DeliverAll(p: Pipe, cs: seq<FrameCall>): Pipe
    decreases |cs|
  {
    if cs == [] then p else DeliverAll(Deliver(p, cs[0]), cs[1..])
  }

  class StdinSlot {
    var occupied: bool
    var wire: seq<Byte>     // everything the agent's end of the pipe received

    constructor ()
      ensures Abs() == Pipe(true, [])
    {
      occupied, wire := true, [];
    }

    ghost function Abs(): Pipe
      reads this
    {
      Pipe(occupied, wire)
    }

    /** `write_frame`; returns whether the call came back with Ok. */
    method WriteFrame(body: seq<Byte>, cut: Option<nat>) returns (ok: bool)
      modifies this
      ensures Abs() == Deliver(old(Abs()), FrameCall(body, cut))
      ensures ok == (old(occupied) && cut.None?)
    {
      if !occupied {
        return false;
      }
      occupied := false;
      if cut.Some? && cut.value < |body| {
        wire := wire + body[..cut.value];
        return false;
      }
      wire := wire + body;
      if cut == Some(|body|) {
        return false;
      }
      wire := wire + [LF];
      if cut.Some? {
        return false;
      }
      occupied := true;
      ok := true;
    }
  }

  // ----- sequences of calls -----

  /** How many leading calls go through whole. */
  function WholeCalls(cs: seq<FrameCall>): (n: nat)
    ensures n <= |cs|
    ensures forall i :: 0 <= i < n ==> cs[i].cut.None?
    ensures n < |cs| ==> cs[n].cut.Some?
  {
    if cs == [] || cs[0].cut.Some? then 0 else 1 + WholeCalls(cs[1..])
  }

  /** Call `i` comes back with Ok: it finds the slot occupied and nothing cuts it. */
  predicate ReturnsOk(p: Pipe, cs: seq<FrameCall>, i: nat)
    requires i < |cs|
  {
    DeliverAll(p, cs[..i]).open && cs[i].cut.None?
  }

  /** The calls that return Ok are exactly the whole ones before the first cut. */
  lemma {:induction false} OkExactly(p: Pipe, cs: seq<FrameCall>, i: nat)
    requires p.open && i < |cs|
    ensures ReturnsOk(p, cs, i) <==> i < WholeCalls(cs)
    decreases |cs|
  {
    if i == 0 {
      assert cs[..0] == [];
    } else {
      var q := Deliver(p, cs[0]);
      assert cs[..i][1..] == cs[1..][..i - 1];
      assert DeliverAll(p, cs[..i]) == DeliverAll(q, cs[1..][..i - 1]);
      if q.open {
        OkExactly(q, cs[1..], i - 1);
      } else {
        ClosedForGood(q, cs[1..][..i - 1]);
      }
    }
  }

  function Frames(bodies: seq<seq<Byte>>): seq<Byte>
  {
    if bodies == [] then [] else Framed(bodies[0]) + Frames(bodies[1..])
  }

  function Bodies(cs: seq<FrameCall>): seq<seq<Byte>>
  {
    seq(|cs|, i requires 0 <= i < |cs| => cs[i].body)
  }

  lemma {:induction false} ClosedForGood(p: Pipe, cs: seq<FrameCall>)
    requires !p.open
    ensures DeliverAll(p, cs) == p
    decreases |cs|
  {
    if cs == [] {
    } else {
      ClosedForGood(p, cs[1..]);
    }
  }

  lemma Regroup(a: seq<Byte>, b: seq<Byte>, c: seq<Byte>, d: seq<Byte>)
    ensures (a + b) + c + d == a + (b + c) + d
  {
  }

  lemma FramesCons(cs: seq<FrameCall>, n: nat)
    requires 0 < n <= |cs|
    ensures Frames(Bodies(cs[..n])) == Framed(cs[0].body) + Frames(Bodies(cs[1..][..n - 1]))
  {
    assert Bodies(cs[..n])[0] == cs[0].body;
    assert Bodies(cs[..n])[1..] == Bodies(cs[1..][..n - 1]);
  }

  /**
  For every sequence of calls, the wire carries the Ok calls' frames in order, then
  a part of at most one further frame, and nothing after that.
  */
  lemma {:induction false} WireContents(p: Pipe, cs: seq<FrameCall>)
    requires p.open
    ensures var n := WholeCalls(cs); var q := DeliverAll(p, cs);
            && q.open == (n == |cs|)
            && q.wire == p.wire + Frames(Bodies(cs[..n])) + if n < |cs| then Portion(cs[n]) else []
    decreases |cs|
  {
    if cs == [] {
    } else {
      var q := Deliver(p, cs[0]);
      if cs[0].cut.Some? {
        ClosedForGood(q, cs[1..]);
        assert p.wire + [] == p.wire;
      } else {
        WireContents(q, cs[1..]);
        var n := WholeCalls(cs);
        FramesCons(cs, n);
        Regroup(p.wire, Framed(cs[0].body), Frames(Bodies(cs[1..][..n - 1])), if n < |cs| then Portion(cs[n]) else []);
      }
    }
  }

  // ----- what the agent can read -----

  predicate Clean(body: seq<Byte>)
  {
    LF !in body
  }

  /** The complete lines, split at line feeds. */
  function Lines(s: seq<Byte>, current: seq<Byte> := []): seq<seq<Byte>>
    decreases |s|
  {
    if s == [] then []
    else if s[0] == LF then [current] + Lines(s[1..], [])
    else Lines(s[1..], current + [s[0]])
  }

  lemma {:induction false} LinesOfPartial(body: seq<Byte>, current: seq<Byte>)
    requires Clean(body)
    ensures Lines(body, current) == []
    decreases |body|
  {
    if body == [] {
    } else {
      LinesOfPartial(body[1..], current + [body[0]]);
    }
  }

  lemma {:induction false} LinesOfFrame(body: seq<Byte>, rest: seq<Byte>, current: seq<Byte>)
    requires Clean(body)
    ensures Lines(Framed(body) + rest, current) == [current + body] + Lines(rest)
    decreases |body|
  {
    var s := Framed(body) + rest;
    if body == [] {
      assert s[1..] == rest && current + body == current;
    } else {
      assert s[1..] == Framed(body[1..]) + rest;
      LinesOfFrame(body[1..], rest, current + [body[0]]);
      assert current + [body[0]] + body[1..] == current + body;
    }
  }

  lemma {:induction false} LinesOfFrames(bodies: seq<seq<Byte>>, rest: seq<Byte>)
    requires forall b :: b in bodies ==> Clean(b)
    ensures Lines(Frames(bodies) + rest) == bodies + Lines(rest)
    decreases |bodies|
  {
    if bodies == [] {
      assert Frames(bodies) + rest == rest;
    } else {
      assert Frames(bodies) + rest == Framed(bodies[0]) + (Frames(bodies[1..]) + rest);
      LinesOfFrame(bodies[0], Frames(bodies[1..]) + rest, []);
      LinesOfFrames(bodies[1..], rest);
      assert [] + bodies[0] == bodies[0];
    }
  }

  lemma LinesOfPortion(c: FrameCall)
    requires Clean(c.body) && c.cut.Some?
    ensures Lines(Portion(c)) == if c.cut.value > |c.body| then [c.body] else []
  {
    if c.cut.value > |c.body| {
      LinesOfFrame(c.body, [], []);
      assert Framed(c.body) + [] == Portion(c) && [] + c.body == c.body;
    } else {
      LinesOfPartial(Portion(c), []);
    }
  }

  lemma FreshWire(cs: seq<FrameCall>)
    ensures var n := WholeCalls(cs);
            DeliverAll(Pipe(true, []), cs).wire == Frames(Bodies(cs[..n])) + if n < |cs| then Portion(cs[n]) else []
  {
    WireContents(Pipe(true, []), cs);
    var frames := Frames(Bodies(cs[..WholeCalls(cs)]));
    assert [] + frames == frames;
  }

  /** With bodies free of line feeds, the agent reads the Ok bodies, plus the cut one if all its bytes made it. */
  lemma AgentReadsOkBodies(cs: seq<FrameCall>)
    requires forall c :: c in cs ==> Clean(c.body)
    ensures var n := WholeCalls(cs);
            Lines(DeliverAll(Pipe(true, []), cs).wire) ==
            Bodies(cs[..n]) + if n < |cs| && cs[n].cut.value > |cs[n].body| then [cs[n].body] else []
  {
    var n := WholeCalls(cs);
    var tail := if n < |cs| then Portion(cs[n]) else [];
    FreshWire(cs);
    LinesOfFrames(Bodies(cs[..n]), tail);
    if n < |cs| {
      LinesOfPortion(cs[n]);
    }
  }
}
