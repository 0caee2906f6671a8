/**
The Redis wire protocol as the load generator speaks it (relay_bus_scaling.py):
commands are encoded as arrays of bulk strings, replies are read from a stream.
A byte is a character below 256.
*/
module Resp {
  import opened Prelude
  import opened Decimal

  type Bytes = string

  const CRLF: Bytes := "\r\n"

  datatype Value =
    | Text(line: Bytes)
    | Int(n: int)
    | Bulk(data: Bytes)
    | Nil
    | Array(items: seq<Value>)

  datatype Error =
    | Closed | MalformedLine | MalformedNumber | MalformedBulk | UnknownPrefix
    | ServerError(message: Bytes)

  // ----- encoding -----

  /** A length line, after its prefix. */
  function Header(n: nat): Bytes
  {
    Show(n) + CRLF
  }

  function EncodePart(part: Bytes): Bytes
  {
    "$" + (Header(|part|) + (part + CRLF))
  }

  function Joined(frames: seq<Bytes>): Bytes
  {
    if frames == [] then [] else frames[0] + Joined(frames[1..])
  }

  function PartFrames(parts: seq<Bytes>): seq<Bytes>
  {
    seq(|parts|, i requires 0 <= i < |parts| => EncodePart(parts[i]))
  }

  function Encoded(parts: seq<Bytes>): Bytes
  {
    "*" + (Header(|parts|) + Joined(PartFrames(parts)))
  }

  lemma {:induction false} JoinedConcat(a: seq<Bytes>, b: seq<Bytes>)
    ensures Joined(a + b) == Joined(a) + Joined(b)
    decreases |a|
  {
    if a == [] {
      assert a + b == b;
    } else {
      assert (a + b)[1..] == a[1..] + b;
      JoinedConcat(a[1..], b);
    }
  }

  lemma JoinedOne(frame: Bytes)
    ensures Joined([frame]) == frame
  {
    assert [frame][1..] == [];
  }

  method EncodeCommand(parts: seq<Bytes>) returns (frame: Bytes)
    ensures frame == Encoded(parts)
  {
    frame := "*" + Show(|parts|) + CRLF;
    ghost var header := "*" + Header(|parts|);
    assert frame == header + [];
    for i := 0 to |parts|
      invariant frame == header + Joined(PartFrames(parts[..i]))
    {
      var part := "$" + Show(|parts[i]|) + CRLF + parts[i] + CRLF;
      assert part == EncodePart(parts[i]);
      frame := frame + part;
      OneMoreFrame(parts, i);
    }
    assert parts[..|parts|] == parts;
    HeaderFirst(parts);
  }

  lemma HeaderFirst(parts: seq<Bytes>)
    ensures ("*" + Header(|parts|)) + Joined(PartFrames(parts)) == Encoded(parts)
  {
  }

  lemma OneMoreFrame(parts: seq<Bytes>, i: nat)
    requires i < |parts|
    ensures Joined(PartFrames(parts[..i + 1])) == Joined(PartFrames(parts[..i])) + EncodePart(parts[i])
  {
    assert PartFrames(parts[..i + 1]) == PartFrames(parts[..i]) + [EncodePart(parts[i])];
    JoinedConcat(PartFrames(parts[..i]), [EncodePart(parts[i])]);
    JoinedOne(EncodePart(parts[i]));
  }

  // ----- numbers as Python's int() reads them -----

  predicate Space(c: char)
  {
    c == ' ' || '\t' <= c <= '\r'
  }

  function Strip(s: Bytes): Bytes
    decreases |s|
  {
    if s != [] && Space(s[0]) then Strip(s[1..])
    else if s != [] && Space(s[|s| - 1]) then Strip(s[..|s| - 1])
    else s
  }

  /** Digits, with single underscores allowed between them. */
  function Digits(s: Bytes): (r: Option<string>)
    ensures r.Some? ==> forall c :: c in r.value ==> IsDigit(c)
    decreases |s|
  {
    if s == [] || !IsDigit(s[0]) then None
    else if |s| == 1 then Some(s)
    else
      var rest := Digits(if s[1] == '_' then s[2..] else s[1..]);
      if rest.None? then None else Some([s[0]] + rest.value)
  }

  function ParseInt(s: Bytes): Option<int>
  {
    var t := Strip(s);
    var negative := t != [] && t[0] == '-';
    match Digits(if t != [] && (t[0] == '-' || t[0] == '+') then t[1..] else t)
    case None => None
    case Some(ds) =>
      var magnitude: int := Decimal.Value(ds);
      Some(if negative then -magnitude else magnitude)
  }

  lemma {:induction false} DigitsOfDigits(s: Bytes)
    requires s != [] && forall c :: c in s ==> IsDigit(c)
    ensures Digits(s) == Some(s)
    decreases |s|
  {
    if |s| > 1 {
      DigitsOfDigits(s[1..]);
      assert s == [s[0]] + s[1..];
    }
  }

  lemma ParseShown(n: nat)
    ensures ParseInt(Show(n)) == Some(n)
  {
    var s := Show(n);
    assert s[0] in s && s[|s| - 1] in s;
    DigitsOfDigits(s);
    ShowThenRead(n);
  }

  // ----- reading -----

  /** Just past the first line feed at or after `pos`, or the end. */
  function AfterLf(s: Bytes, pos: nat): (e: nat)
    requires pos <= |s|
    ensures pos <= e <= |s|
    ensures pos < |s| ==> pos < e
    decreases |s| - pos
  {
    if pos == |s| then pos else if s[pos] == '\n' then pos + 1 else AfterLf(s, pos + 1)
  }

  predicate EndsLine(s: Bytes, e: nat)
    requires 2 <= e <= |s|
  {
    s[e - 2] == CRLF[0] && s[e - 1] == CRLF[1]
  }

  function ReadLine(s: Bytes, pos: nat): (r: Result<(Bytes, nat), Error>)
    requires pos <= |s|
    ensures r.Ok? ==> pos < r.value.1 <= |s|
  {
    var e := AfterLf(s, pos);
    if pos == e then Err(Closed)
    else if e - pos >= 2 && EndsLine(s, e) then Ok((s[pos..e - 2], e))
    else Err(MalformedLine)
  }

  function ReadNumber(s: Bytes, pos: nat): (r: Result<(int, nat), Error>)
    requires pos <= |s|
    ensures r.Ok? ==> pos < r.value.1 <= |s|
  {
    match ReadLine(s, pos)
    case Err(e) => Err(e)
    case Ok((line, next)) =>
      if ParseInt(line).None? then Err(MalformedNumber) else Ok((ParseInt(line).value, next))
  }

  /** The bulk data of announced length, and its terminator. */
  function ReadBulk(s: Bytes, pos: nat, length: int): (r: Result<(Value, nat), Error>)
    requires pos <= |s|
    ensures r.Ok? ==> pos <= r.value.1 <= |s|
  {
    if length == -1 then Ok((Nil, pos))
    else if length < 0 || pos + length + 2 > |s| || !EndsLine(s, pos + length + 2) then Err(MalformedBulk)
    else Ok((Bulk(s[pos..pos + length]), pos + length + 2))
  }

  /** `read_resp` at a stream position: a value and the position after it. */
  function ReadResp(s: Bytes, pos: nat): (r: Result<(Value, nat), Error>)
    requires pos <= |s|
    ensures r.Ok? ==> pos < r.value.1 <= |s|
    decreases |s| - pos, 0
  {
    if pos == |s| then Err(Closed)
    else if s[pos] == '+' then
      match ReadLine(s, pos + 1) case Err(e) => Err(e) case Ok((line, next)) => Ok((Text(line), next))
    else if s[pos] == '-' then
      match ReadLine(s, pos + 1) case Err(e) => Err(e) case Ok((line, _)) => Err(ServerError(line))
    else if s[pos] == ':' then
      match ReadNumber(s, pos + 1) case Err(e) => Err(e) case Ok((n, next)) => Ok((Int(n), next))
    else if s[pos] == '$' then
      match ReadNumber(s, pos + 1) case Err(e) => Err(e) case Ok((n, next)) => ReadBulk(s, next, n)
    else if s[pos] == '*' then
      match ReadNumber(s, pos + 1)
      case Err(e) => Err(e)
      case Ok((n, next)) =>
        if n == -1 then Ok((Nil, next))
        else match ReadItems(s, next, if n < 0 then 0 else n)
          case Err(e) => Err(e)
          case Ok((items, end)) => Ok((Array(items), end))
    else Err(UnknownPrefix)
  }

  function ReadItems(s: Bytes, pos: nat, n: nat): (r: Result<(seq<Value>, nat), Error>)
    requires pos <= |s|
    ensures r.Ok? ==> pos <= r.value.1 <= |s|
    decreases |s| - pos, 1
  {
    if n == 0 then Ok(([], pos))
    else match ReadResp(s, pos)
      case Err(e) => Err(e)
      case Ok((v, next)) =>
        match ReadItems(s, next, n - 1)
        case Err(e) => Err(e)
        case Ok((vs, end)) => Ok(([v] + vs, end))
  }

  /** The stateful stream the client reads from. */
  class Stream {
    const data: Bytes
    var pos: nat

    predicate Valid()
      reads this
    {
      pos <= |data|
    }

    constructor (data: Bytes)
      ensures Valid() && this.data == data && pos == 0
    {
      this.data, pos := data, 0;
    }

    method TakeLine() returns (r: Result<Bytes, Error>)
      requires Valid()
      modifies this
      ensures Valid() && pos >= old(pos)
      ensures match ReadLine(data, old(pos))
              case Err(e) => r == Err(e)
              case Ok((line, next)) => r == Ok(line) && pos == next
    {
      var start := pos;
      pos := AfterLf(data, pos);
      if pos == start {
        return Err(Closed);
      }
      if pos - start < 2 || !EndsLine(data, pos) {
        return Err(MalformedLine);
      }
      r := Ok(data[start..pos - 2]);
    }

    method TakeNumber() returns (r: Result<int, Error>)
      requires Valid()
      modifies this
      ensures Valid() && pos >= old(pos)
      ensures match ReadNumber(data, old(pos))
              case Err(e) => r == Err(e)
              case Ok((n, next)) => r == Ok(n) && pos == next
    {
      var line := TakeLine();
      match line {
        case Err(e) => r := Err(e);
        case Ok(text) =>
          var n := ParseInt(text);
          r := if n.None? then Err(MalformedNumber) else Ok(n.value);
      }
    }

    method TakeArray(n: nat) returns (r: Result<seq<Value>, Error>)
      requires Valid()
      modifies this
      ensures Valid() && pos >= old(pos)
      ensures match ReadItems(data, old(pos), n)
              case Err(e) => r == Err(e)
              case Ok((vs, end)) => r == Ok(vs) && pos == end
      decreases |data| - pos, 1, n
    {
      var items: seq<Value> := [];
      ghost var start := pos;
      var i := 0;
      assert forall vs: seq<Value> :: items + vs == vs;
      while i < n
        invariant i <= n && start <= pos <= |data| && (i > 0 ==> start < pos)
        invariant match ReadItems(data, pos, n - i)
                  case Err(e) => ReadItems(data, start, n) == Err(e)
                  case Ok((vs, end)) => ReadItems(data, start, n) == Ok((items + vs, end))
      {
        var v := TakeValue();
        if v.Err? {
          return Err(v.error);
        }
        assert forall vs: seq<Value> :: items + ([v.value] + vs) == items + [v.value] + vs;
        items := items + [v.value];
        i := i + 1;
      }
      assert items + [] == items;
      r := Ok(items);
    }

    method TakeValue() returns (r: Result<Value, Error>)
      requires Valid()
      modifies this
      ensures Valid() && pos >= old(pos)
      ensures match ReadResp(data, old(pos))
              case Err(e) => r == Err(e)
              case Ok((v, next)) => r == Ok(v) && pos == next
      decreases |data| - pos, 0
    {
      if pos == |data| {
        return Err(Closed);
      }
      var prefix := data[pos];
      pos := pos + 1;
      if prefix == '+' || prefix == '-' {
        var line := TakeLine();
        match line {
          case Err(e) => return Err(e);
          case Ok(text) => return if prefix == '+' then Ok(Text(text)) else Err(ServerError(text));
        }
      }
      if prefix != ':' && prefix != '$' && prefix != '*' {
        return Err(UnknownPrefix);
      }
      var number := TakeNumber();
      if number.Err? {
        return Err(number.error);
      }
      var n := number.value;
      if prefix == ':' {
        return Ok(Int(n));
      }
      if n == -1 {
        return Ok(Nil);
      }
      if prefix == '*' {
        var items := TakeArray(if n < 0 then 0 else n);
        match items {
          case Err(e) => return Err(e);
          case Ok(vs) => return Ok(Array(vs));
        }
      }
      if n < 0 || pos + n + 2 > |data| || !EndsLine(data, pos + n + 2) {
        return Err(MalformedBulk);
      }
      r := Ok(Bulk(data[pos..pos + n]));
      pos := pos + n + 2;
    }
  }

  // ----- round trips -----

  predicate At(s: Bytes, pos: nat, piece: Bytes)
  {
    pos + |piece| <= |s| && forall k :: 0 <= k < |piece| ==> s[pos + k] == piece[k]
  }

  lemma AtSlice(s: Bytes, pos: nat, piece: Bytes)
    requires At(s, pos, piece)
    ensures s[pos..pos + |piece|] == piece
  {
  }

  lemma AtLineEnd(s: Bytes, pos: nat)
    requires At(s, pos, CRLF)
    ensures pos + 2 <= |s| && s[pos] == '\r' && s[pos + 1] == '\n' && EndsLine(s, pos + 2)
  {
    assert CRLF[0] == s[pos + 0] && CRLF[1] == s[pos + 1];
  }

  lemma AtSplit(s: Bytes, pos: nat, a: Bytes, b: Bytes)
    requires At(s, pos, a + b)
    ensures At(s, pos, a) && At(s, pos + |a|, b)
  {
    forall k | 0 <= k < |b| ensures s[pos + |a| + k] == b[k] {
      assert (a + b)[|a| + k] == b[k];
    }
    forall k | 0 <= k < |a| ensures s[pos + k] == a[k] {
      assert (a + b)[k] == a[k];
    }
  }

  lemma {:induction false} LfAfterLine(s: Bytes, pos: nat, line: Bytes)
    requires At(s, pos, line + CRLF) && '\n' !in line
    ensures AfterLf(s, pos) == pos + |line| + 2
    decreases |line|
  {
    AtSplit(s, pos, line, CRLF);
    if line == [] {
      AtLineEnd(s, pos);
    } else {
      assert line + CRLF == [line[0]] + (line[1..] + CRLF);
      AtSplit(s, pos, [line[0]], line[1..] + CRLF);
      assert s[pos + 0] == [line[0]][0];
      LfAfterLine(s, pos + 1, line[1..]);
    }
  }

  lemma ReadShown(s: Bytes, pos: nat, n: nat)
    requires At(s, pos, Header(n))
    ensures ReadNumber(s, pos) == Ok((n, pos + |Header(n)|))
  {
    LfAfterLine(s, pos, Show(n));
    AtSplit(s, pos, Show(n), CRLF);
    AtSlice(s, pos, Show(n));
    AtLineEnd(s, pos + |Show(n)|);
    ParseShown(n);
  }

  lemma ReadPart(s: Bytes, pos: nat, part: Bytes)
    requires At(s, pos, EncodePart(part))
    ensures ReadResp(s, pos) == Ok((Bulk(part), pos + |EncodePart(part)|))
  {
    var header := Header(|part|);
    AtSplit(s, pos, "$", header + (part + CRLF));
    assert s[pos + 0] == "$"[0];
    AtSplit(s, pos + 1, header, part + CRLF);
    ReadShown(s, pos + 1, |part|);
    AtSplit(s, pos + 1 + |header|, part, CRLF);
    AtSlice(s, pos + 1 + |header|, part);
    AtLineEnd(s, pos + 1 + |header| + |part|);
  }

  function Bulks(parts: seq<Bytes>): seq<Value>
  {
    seq(|parts|, i requires 0 <= i < |parts| => Bulk(parts[i]))
  }

  /** Wherever the frame stands, it reads as the value and not a byte more. */
  ghost predicate Readable(frame: Bytes, v: Value)
  {
    forall s, pos: nat {:trigger At(s, pos, frame)} ::
      At(s, pos, frame) ==> ReadResp(s, pos) == Ok((v, pos + |frame|))
  }

  ghost predicate AllReadable(frames: seq<Bytes>, vs: seq<Value>)
    decreases |vs|
  {
    if vs == [] then frames == []
    else frames != [] && Readable(frames[0], vs[0]) && AllReadable(frames[1..], vs[1..])
  }

  lemma ReadOneMore(s: Bytes, pos: nat, n: nat, v: Value, next: nat, vs: seq<Value>, end: nat)
    requires pos < next <= |s| && ReadResp(s, pos) == Ok((v, next)) && ReadItems(s, next, n) == Ok((vs, end))
    ensures ReadItems(s, pos, n + 1) == Ok(([v] + vs, end))
  {
  }

  /** Wherever the text stands, it reads as these items and not a byte more. */
  ghost predicate ItemsReadable(body: Bytes, vs: seq<Value>)
  {
    forall s, pos: nat {:trigger At(s, pos, body)} ::
      At(s, pos, body) ==> ReadItems(s, pos, |vs|) == Ok((vs, pos + |body|))
  }

  lemma FirstJoined(s: Bytes, pos: nat, frames: seq<Bytes>, vs: seq<Value>)
    requires AllReadable(frames, vs) && vs != [] && At(s, pos, Joined(frames))
    ensures pos + |frames[0]| <= |s| && ReadResp(s, pos) == Ok((vs[0], pos + |frames[0]|))
    ensures At(s, pos + |frames[0]|, Joined(frames[1..]))
    ensures |Joined(frames)| == |frames[0]| + |Joined(frames[1..])|
  {
    AtSplit(s, pos, frames[0], Joined(frames[1..]));
    assert Readable(frames[0], vs[0]);
  }

  /** Readable frames joined together read back one by one. */
  lemma {:induction false} ReadJoined(s: Bytes, pos: nat, frames: seq<Bytes>, vs: seq<Value>, n: nat)
    requires AllReadable(frames, vs) && n == |vs|
    requires At(s, pos, Joined(frames))
    ensures ReadItems(s, pos, n) == Ok((vs, pos + |Joined(frames)|))
    decreases n
  {
    if n == 0 {
    } else {
      FirstJoined(s, pos, frames, vs);
      var next := pos + |frames[0]|;
      ReadJoined(s, next, frames[1..], vs[1..], n - 1);
      ReadOneMore(s, pos, n - 1, vs[0], next, vs[1..], pos + |Joined(frames)|);
      assert vs == [vs[0]] + vs[1..];
    }
  }

  lemma JoinedReadable(frames: seq<Bytes>, vs: seq<Value>)
    requires AllReadable(frames, vs)
    ensures ItemsReadable(Joined(frames), vs)
  {
    forall s, pos: nat | At(s, pos, Joined(frames))
      ensures ReadItems(s, pos, |vs|) == Ok((vs, pos + |Joined(frames)|))
    {
      ReadJoined(s, pos, frames, vs, |vs|);
    }
  }

  lemma ReadParts(s: Bytes, pos: nat, parts: seq<Bytes>)
    requires At(s, pos, Joined(PartFrames(parts)))
    ensures ReadItems(s, pos, |parts|) == Ok((Bulks(parts), pos + |Joined(PartFrames(parts))|))
  {
    PartsReadable(parts);
    ReadJoined(s, pos, PartFrames(parts), Bulks(parts), |parts|);
  }

  lemma {:induction false} PartsReadable(parts: seq<Bytes>)
    ensures AllReadable(PartFrames(parts), Bulks(parts))
    decreases |parts|
  {
    if parts == [] {
    } else {
      PartReadable(parts[0]);
      PartsReadable(parts[1..]);
      assert PartFrames(parts)[1..] == PartFrames(parts[1..]) && Bulks(parts)[1..] == Bulks(parts[1..]);
    }
  }

  lemma PartReadable(part: Bytes)
    ensures Readable(EncodePart(part), Bulk(part))
  {
    forall s, pos: nat | At(s, pos, EncodePart(part))
      ensures ReadResp(s, pos) == Ok((Bulk(part), pos + |EncodePart(part)|))
    {
      ReadPart(s, pos, part);
    }
  }

  lemma ReadArray(s: Bytes, pos: nat, n: nat, next: nat, items: seq<Value>, end: nat)
    requires pos < next <= |s| && s[pos] == '*' && ReadNumber(s, pos + 1) == Ok((n, next))
    requires ReadItems(s, next, n) == Ok((items, end))
    ensures ReadResp(s, pos) == Ok((Array(items), end))
  {
  }

  /** The pieces of a command's frame, where they stand. */
  lemma CommandLayout(s: Bytes, pos: nat, parts: seq<Bytes>)
    requires At(s, pos, Encoded(parts))
    ensures pos < |s| && s[pos] == '*' && At(s, pos + 1, Header(|parts|))
    ensures At(s, pos + 1 + |Header(|parts|)|, Joined(PartFrames(parts)))
  {
    AtSplit(s, pos, "*", Header(|parts|) + Joined(PartFrames(parts)));
    assert s[pos + 0] == "*"[0];
    AtSplit(s, pos + 1, Header(|parts|), Joined(PartFrames(parts)));
  }

  /** A command reads back as its parts, and reading consumes exactly its frame, whatever the parts contain. */
  lemma CommandRoundTrip(s: Bytes, pos: nat, parts: seq<Bytes>)
    requires At(s, pos, Encoded(parts))
    ensures ReadResp(s, pos) == Ok((Array(Bulks(parts)), pos + |Encoded(parts)|))
  {
    CommandLayout(s, pos, parts);
    var next := pos + 1 + |Header(|parts|)|;
    ReadShown(s, pos + 1, |parts|);
    ReadParts(s, next, parts);
    ReadArray(s, pos, |parts|, next, Bulks(parts), next + |Joined(PartFrames(parts))|);
  }

  // ----- pipelines -----

  /** A pipeline is these frames joined. */
  function CommandFrames(commands: seq<seq<Bytes>>): seq<Bytes>
  {
    seq(|commands|, i requires 0 <= i < |commands| => Encoded(commands[i]))
  }

  function Arrays(commands: seq<seq<Bytes>>): seq<Value>
  {
    seq(|commands|, i requires 0 <= i < |commands| => Array(Bulks(commands[i])))
  }

  lemma CommandReadable(parts: seq<Bytes>)
    ensures Readable(Encoded(parts), Array(Bulks(parts)))
  {
    forall s, pos: nat | At(s, pos, Encoded(parts))
      ensures ReadResp(s, pos) == Ok((Array(Bulks(parts)), pos + |Encoded(parts)|))
    {
      CommandRoundTrip(s, pos, parts);
    }
  }

  lemma {:induction false} CommandsReadable(commands: seq<seq<Bytes>>)
    ensures AllReadable(CommandFrames(commands), Arrays(commands))
    decreases |commands|
  {
    if commands == [] {
    } else {
      CommandReadable(commands[0]);
      CommandsReadable(commands[1..]);
      assert CommandFrames(commands)[1..] == CommandFrames(commands[1..]);
      assert Arrays(commands)[1..] == Arrays(commands[1..]);
    }
  }

  /** Any pipeline of commands reads back as its commands, to the byte. */
  lemma PipelineRoundTrip(s: Bytes, pos: nat, commands: seq<seq<Bytes>>)
    requires At(s, pos, Joined(CommandFrames(commands)))
    ensures ReadItems(s, pos, |commands|) == Ok((Arrays(commands), pos + |Joined(CommandFrames(commands))|))
  {
    CommandsReadable(commands);
    ReadJoined(s, pos, CommandFrames(commands), Arrays(commands), |commands|);
  }

  lemma FramesSplit(commands: seq<seq<Bytes>>, k: nat)
    requires k <= |commands|
    ensures CommandFrames(commands) == CommandFrames(commands[..k]) + CommandFrames(commands[k..])
  {
  }

  lemma PipelineSplits(commands: seq<seq<Bytes>>, k: nat)
    requires k <= |commands|
    ensures Joined(CommandFrames(commands)) ==
            Joined(CommandFrames(commands[..k])) + Joined(CommandFrames(commands[k..]))
  {
    FramesSplit(commands, k);
    JoinedConcat(CommandFrames(commands[..k]), CommandFrames(commands[k..]));
  }

  lemma ArraysInjective(a: seq<seq<Bytes>>, b: seq<seq<Bytes>>)
    requires Arrays(a) == Arrays(b)
    ensures a == b
  {
    assert |Arrays(a)| == |Arrays(b)|;
    forall i | 0 <= i < |a| ensures a[i] == b[i] {
      assert Arrays(a)[i] == Arrays(b)[i];
      assert |Bulks(a[i])| == |Bulks(b[i])|;
      forall j | 0 <= j < |a[i]| ensures a[i][j] == b[i][j] {
        assert Bulks(a[i])[j] == Bulks(b[i])[j];
      }
    }
  }

  /** Different pipelines never share an encoding. */
  lemma PipelineUnique(a: seq<seq<Bytes>>, b: seq<seq<Bytes>>)
    requires Joined(CommandFrames(a)) == Joined(CommandFrames(b))
    ensures a == b
  {
    if |a| <= |b| {
      PrefixPipelineUnique(a, b);
    } else {
      PrefixPipelineUnique(b, a);
    }
  }

  lemma PrefixPipelineUnique(a: seq<seq<Bytes>>, b: seq<seq<Bytes>>)
    requires Joined(CommandFrames(a)) == Joined(CommandFrames(b)) && |a| <= |b|
    ensures a == b
  {
    var s, k := Joined(CommandFrames(a)), |a|;
    PipelineSplits(b, k);
    assert At(s, 0, Joined(CommandFrames(a))) && At(s, 0, Joined(CommandFrames(b[..k])));
    PipelineRoundTrip(s, 0, a);
    PipelineRoundTrip(s, 0, b[..k]);
    ArraysInjective(a, b[..k]);
    assert Joined(CommandFrames(b[k..])) == [];
    assert b[k..] == [];
  }

  // ----- replies -----

  /** A reply without an error in it, as the server writes it. */
  function Printed(v: Value): Bytes
  {
    match v
    case Text(line) => Line('+', line)
    case Int(n) => Line(':', Signed(n))
    case Bulk(data) => EncodePart(data)
    case Nil => Line('$', "-1")
    case Array(items) => ArrayFrame(|items|, Joined(PrintedAll(items)))
  }

  function Line(prefix: char, line: Bytes): Bytes
  {
    [prefix] + (line + CRLF)
  }

  function ArrayFrame(n: nat, body: Bytes): Bytes
  {
    "*" + (Header(n) + body)
  }

  function PrintedAll(vs: seq<Value>): (frames: seq<Bytes>)
    ensures |frames| == |vs| && forall i :: 0 <= i < |vs| ==> frames[i] == Printed(vs[i])
  {
    if vs == [] then [] else [Printed(vs[0])] + PrintedAll(vs[1..])
  }

  function Signed(n: int): Bytes
  {
    if n < 0 then ['-'] + Show(-n) else Show(n)
  }

  /** No line of the reply holds a line feed. */
  predicate Printable(v: Value)
  {
    match v
    case Text(line) => '\n' !in line
    case Array(items) => forall i :: 0 <= i < |items| ==> Printable(items[i])
    case _ => true
  }

  /** A line is what stands before the first line feed, which must follow a carriage return. */
  lemma ReadLineExactly(s: Bytes, pos: nat, line: Bytes, next: nat)
    requires pos <= |s|
    ensures ReadLine(s, pos) == Ok((line, next)) <==>
            At(s, pos, line + CRLF) && next == pos + |line| + 2 && '\n' !in line
  {
    if At(s, pos, line + CRLF) && '\n' !in line {
      LfAfterLine(s, pos, line);
      AtSplit(s, pos, line, CRLF);
      AtSlice(s, pos, line);
      AtLineEnd(s, pos + |line|);
    }
    FirstLf(s, pos);
  }

  lemma {:induction false} FirstLf(s: Bytes, pos: nat)
    requires pos <= |s|
    ensures forall k :: pos <= k < AfterLf(s, pos) - 1 ==> s[k] != '\n'
    decreases |s| - pos
  {
    if pos == |s| || s[pos] == '\n' {
    } else {
      FirstLf(s, pos + 1);
    }
  }

  lemma StripNothing(s: Bytes)
    requires s != [] ==> !Space(s[0]) && !Space(s[|s| - 1])
    ensures Strip(s) == s
  {
  }

  lemma MinusDigits(text: Bytes, ds: Bytes, n: nat)
    requires text == ['-'] + ds && ds != [] && (forall c :: c in ds ==> IsDigit(c)) && Decimal.Value(ds) == n
    ensures ParseInt(text) == Some(0 - n)
  {
    assert text[1..] == ds && text[|text| - 1] in ds;
    StripNothing(text);
    DigitsOfDigits(ds);
  }

  lemma ParseNegative(n: nat)
    ensures ParseInt(['-'] + Show(n)) == Some(0 - n)
  {
    ShowThenRead(n);
    MinusDigits(['-'] + Show(n), Show(n), n);
  }

  lemma SignedLine(n: int)
    ensures '\n' !in Signed(n) && ParseInt(Signed(n)) == Some(n)
  {
    if n < 0 {
      ParseNegative(-n);
    } else {
      ParseShown(n);
    }
  }

  /** Behind the prefix stands a line. */
  lemma PrefixedLine(s: Bytes, pos: nat, prefix: char, line: Bytes)
    requires At(s, pos, Line(prefix, line)) && '\n' !in line
    ensures |Line(prefix, line)| == |line| + 3
    ensures pos < |s| && s[pos] == prefix && ReadLine(s, pos + 1) == Ok((line, pos + |line| + 3))
  {
    AtSplit(s, pos, [prefix], line + CRLF);
    assert s[pos + 0] == [prefix][0];
    ReadLineExactly(s, pos + 1, line, pos + |line| + 3);
  }

  lemma TextReply(s: Bytes, pos: nat, line: Bytes)
    requires At(s, pos, Line('+', line)) && '\n' !in line
    ensures ReadResp(s, pos) == Ok((Text(line), pos + |Line('+', line)|))
  {
    PrefixedLine(s, pos, '+', line);
  }

  /** An error of the server is reported with its message. */
  lemma ErrorReply(s: Bytes, pos: nat, line: Bytes)
    requires At(s, pos, Line('-', line)) && '\n' !in line
    ensures ReadResp(s, pos) == Err(ServerError(line))
  {
    PrefixedLine(s, pos, '-', line);
  }

  lemma IntReply(s: Bytes, pos: nat, n: int)
    requires At(s, pos, Line(':', Signed(n)))
    ensures ReadResp(s, pos) == Ok((Int(n), pos + |Line(':', Signed(n))|))
  {
    SignedLine(n);
    PrefixedLine(s, pos, ':', Signed(n));
  }

  lemma MinusOne()
    ensures ParseInt("-1") == Some(-1)
  {
    ParseNegative(1);
    assert Show(1) == "1";
    assert ['-'] + "1" == "-1";
  }

  /** Both forms of the missing value. */
  lemma NilReply(s: Bytes, pos: nat, prefix: char)
    requires prefix == '$' || prefix == '*'
    requires At(s, pos, Line(prefix, "-1"))
    ensures ReadResp(s, pos) == Ok((Nil, pos + |Line(prefix, "-1")|))
  {
    MinusOne();
    PrefixedLine(s, pos, prefix, "-1");
  }

  lemma {:induction false} AllAreReadable(frames: seq<Bytes>, vs: seq<Value>)
    requires |frames| == |vs| && forall i :: 0 <= i < |vs| ==> Readable(frames[i], vs[i])
    ensures AllReadable(frames, vs)
    decreases |vs|
  {
    if vs == [] {
    } else {
      AllAreReadable(frames[1..], vs[1..]);
    }
  }

  lemma ArrayLayout(s: Bytes, pos: nat, n: nat, body: Bytes)
    requires At(s, pos, ArrayFrame(n, body))
    ensures pos < |s| && s[pos] == '*' && At(s, pos + 1, Header(n)) && At(s, pos + 1 + |Header(n)|, body)
  {
    AtSplit(s, pos, "*", Header(n) + body);
    assert s[pos + 0] == "*"[0];
    AtSplit(s, pos + 1, Header(n), body);
  }

  lemma ArrayReply(s: Bytes, pos: nat, body: Bytes, items: seq<Value>)
    requires ItemsReadable(body, items) && At(s, pos, ArrayFrame(|items|, body))
    ensures ReadResp(s, pos) == Ok((Array(items), pos + |ArrayFrame(|items|, body)|))
  {
    ArrayLayout(s, pos, |items|, body);
    ReadShown(s, pos + 1, |items|);
    var next := pos + 1 + |Header(|items|)|;
    ReadArray(s, pos, |items|, next, items, next + |body|);
  }

  lemma TextReadable(line: Bytes)
    requires '\n' !in line
    ensures Readable(Line('+', line), Text(line))
  {
    forall s, pos: nat | At(s, pos, Line('+', line))
      ensures ReadResp(s, pos) == Ok((Text(line), pos + |Line('+', line)|))
    {
      TextReply(s, pos, line);
    }
  }

  lemma IntReadable(n: int)
    ensures Readable(Line(':', Signed(n)), Int(n))
  {
    forall s, pos: nat | At(s, pos, Line(':', Signed(n)))
      ensures ReadResp(s, pos) == Ok((Int(n), pos + |Line(':', Signed(n))|))
    {
      IntReply(s, pos, n);
    }
  }

  lemma NilReadable()
    ensures Readable(Line('$', "-1"), Nil)
  {
    forall s, pos: nat | At(s, pos, Line('$', "-1"))
      ensures ReadResp(s, pos) == Ok((Nil, pos + |Line('$', "-1")|))
    {
      NilReply(s, pos, '$');
    }
  }

  lemma LeafReadable(v: Value)
    requires !v.Array? && Printable(v)
    ensures Readable(Printed(v), v)
  {
    match v {
      case Text(line) => TextReadable(line);
      case Int(n) => IntReadable(n);
      case Bulk(data) => PartReadable(data);
      case Nil => NilReadable();
    }
  }

  lemma ArrayReadable(body: Bytes, items: seq<Value>)
    requires ItemsReadable(body, items)
    ensures Readable(ArrayFrame(|items|, body), Array(items))
  {
    var frame := ArrayFrame(|items|, body);
    forall s, pos: nat | At(s, pos, frame) ensures ReadResp(s, pos) == Ok((Array(items), pos + |frame|)) {
      ArrayReply(s, pos, body, items);
    }
  }

  /** Every reply reads back as itself, to the byte, wherever it stands in the stream. */
  lemma {:induction false} ReplyRoundTrip(v: Value)
    requires Printable(v)
    ensures Readable(Printed(v), v)
    decreases v
  {
    if !v.Array? {
      LeafReadable(v);
    } else {
      var frames := PrintedAll(v.items);
      forall i | 0 <= i < |v.items| ensures Readable(frames[i], v.items[i]) {
        ReplyRoundTrip(v.items[i]);
      }
      AllAreReadable(frames, v.items);
      JoinedReadable(frames, v.items);
      ArrayReadable(Joined(frames), v.items);
    }
  }
}
