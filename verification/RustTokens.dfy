/**
Comments and literals of Rust: how the scanner of check-postgres-test-discovery.py
finds where each ends, what they are when said without scanning, and that the two agree.
*/
module RustTokens {
  import opened Prelude

  // ----- tokens, as the scanner recognises them -----

  predicate StartsAt(s: string, pattern: string, i: nat)
  {
    i + |pattern| <= |s| && s[i..i + |pattern|] == pattern
  }

  /** `str.find`: the first occurrence at or after `i`. */
  function Find(s: string, pattern: string, i: nat): (r: Option<nat>)
    ensures r.Some? ==> i <= r.value && r.value + |pattern| <= |s|
    decreases |s| - i
  {
    if StartsAt(s, pattern, i) then Some(i)
    else if i < |s| then Find(s, pattern, i + 1)
    else None
  }

  function LineEnd(s: string, i: nat): (e: nat)
    requires i <= |s|
    ensures i <= e <= |s| && forall j :: i <= j < e ==> s[j] != '\n'
    ensures e < |s| ==> s[e] == '\n'
    decreases |s| - i
  {
    if i == |s| || s[i] == '\n' then i else LineEnd(s, i + 1)
  }

  /** Block comments nest; an unterminated one runs to the end. */
  function BlockEnd(s: string, i: nat, depth: nat): (e: nat)
    requires i <= |s|
    ensures i <= e <= |s|
    decreases |s| - i
  {
    if i == |s| || depth == 0 then i
    else if StartsAt(s, "/*", i) then BlockEnd(s, i + 2, depth + 1)
    else if StartsAt(s, "*/", i) then BlockEnd(s, i + 2, depth - 1)
    else BlockEnd(s, i + 1, depth)
  }

  /** The end of an ordinary string whose contents begin at `i`. */
  function StringEnd(s: string, i: nat): (e: nat)
    requires i <= |s|
    ensures i <= e <= |s|
    decreases |s| - i
  {
    if i == |s| then i
    else if s[i] == '\\' then (if i + 2 <= |s| then StringEnd(s, i + 2) else |s|)
    else if s[i] == '"' then i + 1
    else StringEnd(s, i + 1)
  }

  predicate Hex(c: char)
  {
    '0' <= c <= '9' || 'a' <= c <= 'f' || 'A' <= c <= 'F'
  }

  function HexRun(s: string, i: nat): (e: nat)
    requires i <= |s|
    ensures i <= e <= |s| && forall j :: i <= j < e ==> Hex(s[j]) || s[j] == '_'
    ensures e < |s| ==> !Hex(s[e]) && s[e] != '_'
    decreases |s| - i
  {
    if i < |s| && (Hex(s[i]) || s[i] == '_') then HexRun(s, i + 1) else i
  }

  /** After the backslash at `i - 1`: a Unicode, byte or one-character escape, then the quote. */
  function EscapeEnd(s: string, i: nat): (r: Option<nat>)
    ensures r.Some? ==> i + 2 <= r.value <= |s|
  {
    if i >= |s| then None
    else if s[i] == 'u' && i + 1 < |s| && s[i + 1] == '{' && UnicodeClosed(s, i + 2) then Some(HexRun(s, i + 2) + 2)
    else if s[i] == 'x' && i + 3 < |s| && Hex(s[i + 1]) && Hex(s[i + 2]) && s[i + 3] == '\'' then Some(i + 4)
    else if s[i] != '\n' && i + 1 < |s| && s[i + 1] == '\'' then Some(i + 2)
    else None
  }

  predicate UnicodeClosed(s: string, i: nat)
    requires i <= |s|
  {
    var e := HexRun(s, i);
    i < e && e + 1 < |s| && s[e] == '}' && s[e + 1] == '\''
  }

  /** The CHAR_LITERAL pattern at `i`. */
  function CharEnd(s: string, i: nat): (r: Option<nat>)
    requires i < |s|
    ensures r.Some? ==> i + 3 <= r.value <= |s|
  {
    var q := if s[i] == 'b' then i + 1 else i;
    if q + 1 >= |s| || s[q] != '\'' then None
    else if s[q + 1] == '\\' then EscapeEnd(s, q + 2)
    else if s[q + 1] != '\'' && s[q + 1] != '\n' && q + 2 < |s| && s[q + 2] == '\'' then Some(q + 3)
    else None
  }

  function HashRun(s: string, i: nat): (e: nat)
    requires i <= |s|
    ensures i <= e <= |s| && forall j :: i <= j < e ==> s[j] == '#'
    ensures e < |s| ==> s[e] != '#'
    decreases |s| - i
  {
    if i < |s| && s[i] == '#' then HashRun(s, i + 1) else i
  }

  /** The RAW_STRING pattern at `i`: where its hashes start and its opening quote stands. */
  function RawQuote(s: string, i: nat): (r: Option<(nat, nat)>)
    requires i < |s|
    ensures r.Some? ==> i < r.value.0 <= r.value.1 < |s| && s[r.value.1] == '"'
  {
    var j := if s[i] == 'b' then i + 1 else i;
    if j >= |s| || s[j] != 'r' then None
    else
      var e := HashRun(s, j + 1);
      if e - (j + 1) <= 255 && e < |s| && s[e] == '"' then Some((j + 1, e)) else None
  }

  function RawEnd(s: string, hashes: nat, quote: nat): (e: nat)
    requires hashes <= quote < |s|
    ensures quote < e <= |s|
  {
    var terminator := "\"" + s[hashes..quote];
    match Find(s, terminator, quote + 1)
    case None => |s|
    case Some(at) => at + |terminator|
  }

  /** The end of the comment or literal that starts at `i`, if one does. */
  function Token(s: string, i: nat): (r: Option<nat>)
    requires i < |s|
    ensures r.Some? ==> i < r.value <= |s| && (i + 2 <= r.value || r.value == |s|)
  {
    if StartsAt(s, "//", i) then Some(LineEnd(s, i + 2))
    else if StartsAt(s, "/*", i) then Some(BlockEnd(s, i + 2, 1))
    else if CharEnd(s, i).Some? then CharEnd(s, i)
    else if RawQuote(s, i).Some? then Some(RawEnd(s, RawQuote(s, i).value.0, RawQuote(s, i).value.1))
    else if StartsAt(s, "b\"", i) then Some(StringEnd(s, i + 2))
    else if s[i] == '"' then Some(StringEnd(s, i + 1))
    else None
  }

  // ----- strings -----

  /** How many backslashes stand right before `j`, counted back to `i` at most. */
  function Backslashes(s: string, i: nat, j: nat): nat
    requires i <= j <= |s|
    decreases j
  {
    if j == i || s[j - 1] != '\\' then 0 else 1 + Backslashes(s, i, j - 1)
  }

  /** An unescaped quote. */
  predicate Closing(s: string, i: nat, j: nat)
  {
    i <= j < |s| && s[j] == '"' && Backslashes(s, i, j) % 2 == 0
  }

  ghost predicate FirstClosing(s: string, i: nat, j: nat)
  {
    Closing(s, i, j) && forall k :: i <= k < j ==> !Closing(s, i, k)
  }

  /** A string with contents from `i` on ends behind its first unescaped quote, or with the text. */
  ghost predicate StringSpan(s: string, i: nat, e: nat)
  {
    (e > 0 && FirstClosing(s, i, e - 1)) || (e == |s| && forall j :: !Closing(s, i, j))
  }

  lemma {:induction false} BehindPlain(s: string, i: nat, j: nat)
    requires i < j <= |s| && s[i] != '\\'
    ensures Backslashes(s, i, j) == Backslashes(s, i + 1, j)
    decreases j
  {
    if j == i + 1 {
    } else {
      BehindPlain(s, i, j - 1);
    }
  }

  lemma {:induction false} BehindEscape(s: string, i: nat, j: nat)
    requires i + 2 <= j <= |s| && s[i] == '\\'
    ensures Backslashes(s, i, j) % 2 == Backslashes(s, i + 2, j) % 2
    decreases j
  {
    if j == i + 2 {
      assert Backslashes(s, i, i + 1) == 1;
    } else {
      BehindEscape(s, i, j - 1);
    }
  }

  /** Going on at `next` changes nothing, if no unescaped quote stands before it. */
  lemma SpanFrom(s: string, i: nat, next: nat, e: nat)
    requires i < next <= |s| && StringSpan(s, next, e) && next <= e
    requires forall j :: i <= j < next ==> !Closing(s, i, j)
    requires forall j :: next <= j < |s| ==> (Closing(s, i, j) <==> Closing(s, next, j))
    ensures StringSpan(s, i, e)
  {
    if e > 0 && FirstClosing(s, next, e - 1) {
      assert Closing(s, i, e - 1);
      forall k | i <= k < e - 1 ensures !Closing(s, i, k) {
        assert k >= next ==> !Closing(s, next, k);
      }
    } else {
      forall j ensures !Closing(s, i, j) {
        assert !Closing(s, next, j);
      }
    }
  }

  lemma {:induction false} StringEndIsSpan(s: string, i: nat)
    requires i <= |s|
    ensures StringSpan(s, i, StringEnd(s, i))
    decreases |s| - i
  {
    if i == |s| {
    } else if s[i] == '"' {
      assert FirstClosing(s, i, i);
    } else if s[i] == '\\' {
      if i + 1 == |s| {
        assert forall j :: Closing(s, i, j) ==> j == i;
      } else {
        StringEndIsSpan(s, i + 2);
        assert Backslashes(s, i, i + 1) == 1;
        forall j | i + 2 <= j < |s| ensures Closing(s, i, j) <==> Closing(s, i + 2, j) {
          BehindEscape(s, i, j);
        }
        SpanFrom(s, i, i + 2, StringEnd(s, i + 2));
      }
    } else {
      StringEndIsSpan(s, i + 1);
      forall j | i + 1 <= j < |s| ensures Closing(s, i, j) <==> Closing(s, i + 1, j) {
        BehindPlain(s, i, j);
      }
      SpanFrom(s, i, i + 1, StringEnd(s, i + 1));
    }
  }

  lemma SpansAgree(s: string, i: nat, e: nat, e': nat)
    requires StringSpan(s, i, e) && StringSpan(s, i, e')
    ensures e == e'
  {
    if e > 0 && FirstClosing(s, i, e - 1) {
      assert Closing(s, i, e - 1);
    }
    if e' > 0 && FirstClosing(s, i, e' - 1) {
      assert Closing(s, i, e' - 1);
    }
  }

  /** The scanner ends a string exactly there. */
  lemma StringEndExactly(s: string, i: nat, e: nat)
    requires i <= |s|
    ensures StringEnd(s, i) == e <==> StringSpan(s, i, e)
  {
    StringEndIsSpan(s, i);
    if StringSpan(s, i, e) {
      SpansAgree(s, i, e, StringEnd(s, i));
    }
  }

  // ----- block comments -----

  /** From `i` to `e`: the rest of a comment behind its opener, with whole comments inside, and its closer. */
  ghost predicate CommentBody(s: string, i: nat, e: nat)
    requires i <= e <= |s|
    decreases e - i
  {
    if e - i < 2 then false
    else if StartsAt(s, "/*", i) then
      exists m :: i + 2 <= m < e && CommentBody(s, i + 2, m) && CommentBody(s, m, e)
    else if StartsAt(s, "*/", i) then e == i + 2
    else CommentBody(s, i + 1, e)
  }

  /** A comment ends where its body does, or with the text. */
  ghost predicate CommentSpan(s: string, i: nat, e: nat)
    requires i <= |s|
  {
    i <= e <= |s| && (CommentBody(s, i, e) || (e == |s| && forall m :: i <= m <= |s| ==> !CommentBody(s, i, m)))
  }

  /** Counting openers and closers comes down by one over a body. */
  lemma {:induction false} BodyCloses(s: string, i: nat, e: nat, depth: nat)
    requires i <= e <= |s| && CommentBody(s, i, e) && depth >= 1
    ensures BlockEnd(s, i, depth) == BlockEnd(s, e, depth - 1)
    decreases e - i
  {
    if StartsAt(s, "/*", i) {
      var m :| i + 2 <= m < e && CommentBody(s, i + 2, m) && CommentBody(s, m, e);
      BodyCloses(s, i + 2, m, depth + 1);
      BodyCloses(s, m, e, depth);
    } else if StartsAt(s, "*/", i) {
    } else {
      BodyCloses(s, i + 1, e, depth);
    }
  }

  /** Either there is a body, or the count runs to the end. */
  lemma {:induction false} BodyOrEnd(s: string, i: nat, depth: nat) returns (e: Option<nat>)
    requires i <= |s| && depth >= 1
    ensures e.Some? ==> i <= e.value <= |s| && CommentBody(s, i, e.value)
    ensures e.None? ==> BlockEnd(s, i, depth) == |s|
    decreases |s| - i
  {
    if i == |s| {
      e := None;
    } else if StartsAt(s, "/*", i) {
      e := BodyOrEnd(s, i + 2, depth + 1);
      if e.Some? {
        var m := e.value;
        BodyCloses(s, i + 2, m, depth + 1);
        BodyAdvances(s, i + 2, m);
        e := BodyOrEnd(s, m, depth);
        if e.Some? {
          BodyAdvances(s, m, e.value);
          assert CommentBody(s, i, e.value);
        }
      }
    } else if StartsAt(s, "*/", i) {
      e := Some(i + 2);
    } else {
      e := BodyOrEnd(s, i + 1, depth);
      if e.Some? {
        BodyAdvances(s, i + 1, e.value);
      }
    }
  }

  lemma BodyAdvances(s: string, i: nat, e: nat)
    requires i <= e <= |s| && CommentBody(s, i, e)
    ensures i + 2 <= e
  {
  }

  /** The scanner ends a comment exactly there. */
  lemma BlockEndExactly(s: string, i: nat, e: nat)
    requires i <= |s|
    ensures BlockEnd(s, i, 1) == e <==> CommentSpan(s, i, e)
  {
    var m := BodyOrEnd(s, i, 1);
    if m.Some? {
      BodyCloses(s, i, m.value, 1);
    }
    forall k | i <= k <= |s| && CommentBody(s, i, k) ensures BlockEnd(s, i, 1) == k {
      BodyCloses(s, i, k, 1);
    }
  }

  // ----- raw strings -----

  lemma {:induction false} FindExactly(s: string, pattern: string, i: nat, r: nat)
    ensures Find(s, pattern, i) == Some(r) <==>
            i <= r && StartsAt(s, pattern, r) && forall k :: i <= k < r ==> !StartsAt(s, pattern, k)
    ensures Find(s, pattern, i).None? ==> i > r || !StartsAt(s, pattern, r)
    decreases |s| - i
  {
    if StartsAt(s, pattern, i) || i >= |s| {
    } else {
      FindExactly(s, pattern, i + 1, r);
    }
  }

  /** A raw string opens at `i`, with its hashes from `h` on and its quote at `q`. */
  predicate RawOpens(s: string, i: nat, h: nat, q: nat)
  {
    && i < h <= q < |s| && q - h <= 255 && s[q] == '"'
    && ((h == i + 1 && s[i] == 'r') || (h == i + 2 && s[i] == 'b' && s[i + 1] == 'r'))
    && forall j :: h <= j < q ==> s[j] == '#'
  }

  /** A quote with as many hashes as the opening has. */
  predicate RawCloses(s: string, h: nat, q: nat, r: nat)
    requires h <= q
  {
    r + 1 + (q - h) <= |s| && s[r] == '"' && forall j :: r < j <= r + (q - h) ==> s[j] == '#'
  }

  ghost predicate RawSpan(s: string, h: nat, q: nat, e: nat)
    requires h <= q
  {
    || (exists r :: q < r && RawCloses(s, h, q, r) && e == r + 1 + (q - h)
                    && forall k :: q < k < r ==> !RawCloses(s, h, q, k))
    || (e == |s| && forall r :: q < r ==> !RawCloses(s, h, q, r))
  }

  lemma TerminatorAt(s: string, i: nat, h: nat, q: nat, r: nat)
    requires RawOpens(s, i, h, q)
    ensures StartsAt(s, "\"" + s[h..q], r) <==> RawCloses(s, h, q, r)
  {
    var terminator := "\"" + s[h..q];
    if r + |terminator| <= |s| {
      var text := s[r..r + |terminator|];
      assert forall j :: 0 < j < |terminator| ==> terminator[j] == s[h + j - 1] == '#';
      assert forall j :: 0 <= j < |text| ==> text[j] == s[r + j];
      if text == terminator {
        assert forall j :: r < j <= r + (q - h) ==> s[j] == text[j - r];
      }
    }
  }

  lemma RawEndExactly(s: string, i: nat, h: nat, q: nat, e: nat)
    requires RawOpens(s, i, h, q)
    ensures RawEnd(s, h, q) == e <==> RawSpan(s, h, q, e)
  {
    var terminator := "\"" + s[h..q];
    var found := Find(s, terminator, q + 1);
    forall r | q < r
      ensures StartsAt(s, terminator, r) <==> RawCloses(s, h, q, r)
      ensures found == Some(r) <==>
              StartsAt(s, terminator, r) && forall k :: q < k < r ==> !StartsAt(s, terminator, k)
      ensures found.None? ==> !StartsAt(s, terminator, r)
    {
      TerminatorAt(s, i, h, q, r);
      FindExactly(s, terminator, q + 1, r);
    }
    if found.Some? {
      assert RawCloses(s, h, q, found.value);
    }
  }

  lemma {:induction false} HashesTo(s: string, i: nat, q: nat)
    requires i <= q <= |s| && (q < |s| ==> s[q] != '#') && forall j :: i <= j < q ==> s[j] == '#'
    ensures HashRun(s, i) == q
    decreases q - i
  {
    if i == q {
    } else {
      HashesTo(s, i + 1, q);
    }
  }

  lemma RawQuoteExactly(s: string, i: nat, h: nat, q: nat)
    requires i < |s|
    ensures RawQuote(s, i) == Some((h, q)) <==> RawOpens(s, i, h, q)
  {
    if RawOpens(s, i, h, q) {
      HashesTo(s, h, q);
    }
  }

  // ----- character literals -----

  /** What may stand between the quotes: one character, or one of the three kinds of escapes. */
  predicate CharBody(b: string)
  {
    || (|b| == 1 && b[0] != '\\' && b[0] != '\'' && b[0] != '\n')
    || (|b| == 2 && b[0] == '\\' && b[1] != '\n')
    || (|b| == 4 && b[0] == '\\' && b[1] == 'x' && Hex(b[2]) && Hex(b[3]))
    || (|b| >= 5 && b[0] == '\\' && b[1] == 'u' && b[2] == '{' && b[|b| - 1] == '}'
        && forall j :: 3 <= j < |b| - 1 ==> Hex(b[j]) || b[j] == '_')
  }

  /** The quotes stand at `q` and `e - 1`, and a `b` may stand before. */
  predicate CharSpan(s: string, i: nat, q: nat, e: nat)
  {
    && (q == i || (q == i + 1 && i < |s| && s[i] == 'b'))
    && q + 2 <= e - 1 < |s| && s[q] == '\'' && s[e - 1] == '\'' && CharBody(s[q + 1..e - 1])
  }

  predicate CharLiteral(s: string, i: nat, e: nat)
  {
    CharSpan(s, i, i, e) || CharSpan(s, i, i + 1, e)
  }

  lemma {:induction false} HexTo(s: string, i: nat, e: nat)
    requires i <= e < |s| && !Hex(s[e]) && s[e] != '_' && forall j :: i <= j < e ==> Hex(s[j]) || s[j] == '_'
    ensures HexRun(s, i) == e
    decreases e - i
  {
    if i == e {
    } else {
      HexTo(s, i + 1, e);
    }
  }

  /** What the scanner takes for a literal is one. */
  lemma ScannedIsChar(s: string, i: nat, e: nat)
    requires i < |s| && CharEnd(s, i) == Some(e)
    ensures CharLiteral(s, i, e)
  {
    var q := if s[i] == 'b' then i + 1 else i;
    var b := s[q + 1..e - 1];
    assert forall j :: 0 <= j < |b| ==> b[j] == s[q + 1 + j];
    assert CharSpan(s, i, q, e);
  }

  /** And every literal is taken for one. */
  lemma CharIsScanned(s: string, i: nat, q: nat, e: nat)
    requires i < |s| && CharSpan(s, i, q, e)
    ensures CharEnd(s, i) == Some(e)
  {
    var b := s[q + 1..e - 1];
    assert forall j :: 0 <= j < |b| ==> b[j] == s[q + 1 + j];
    if |b| >= 5 {
      assert s[e - 2] == '}' && s[q + 2] == 'u' && s[q + 3] == '{';
      forall j | q + 4 <= j < e - 2 ensures Hex(s[j]) || s[j] == '_' {
        assert s[j] == b[j - q - 1];
      }
      HexTo(s, q + 4, e - 2);
    }
  }

  lemma CharEndExactly(s: string, i: nat, e: nat)
    requires i < |s|
    ensures CharEnd(s, i) == Some(e) <==> CharLiteral(s, i, e)
  {
    if CharEnd(s, i) == Some(e) {
      ScannedIsChar(s, i, e);
    }
    if CharSpan(s, i, i, e) {
      CharIsScanned(s, i, i, e);
    }
    if CharSpan(s, i, i + 1, e) {
      CharIsScanned(s, i, i + 1, e);
    }
  }

  // ----- tokens -----

  predicate Two(s: string, i: nat, a: char, b: char)
  {
    i + 2 <= |s| && s[i] == a && s[i + 1] == b
  }

  predicate LineComment(s: string, i: nat, e: nat)
  {
    && Two(s, i, '/', '/') && i + 2 <= e <= |s|
    && (forall j :: i + 2 <= j < e ==> s[j] != '\n') && (e < |s| ==> s[e] == '\n')
  }

  ghost predicate BlockComment(s: string, i: nat, e: nat)
  {
    Two(s, i, '/', '*') && CommentSpan(s, i + 2, e)
  }

  ghost predicate RawString(s: string, i: nat, e: nat)
  {
    exists h, q :: RawOpens(s, i, h, q) && RawSpan(s, h, q, e)
  }

  ghost predicate QuotedString(s: string, i: nat, e: nat)
  {
    || (i < |s| && s[i] == '"' && StringSpan(s, i + 1, e))
    || (Two(s, i, 'b', '"') && StringSpan(s, i + 2, e))
  }

  ghost predicate IsToken(s: string, i: nat, e: nat)
  {
    || LineComment(s, i, e) || BlockComment(s, i, e)
    || CharLiteral(s, i, e) || RawString(s, i, e) || QuotedString(s, i, e)
  }

  lemma StartsWithTwo(s: string, i: nat, a: char, b: char)
    ensures StartsAt(s, [a, b], i) <==> Two(s, i, a, b)
  {
    if i + 2 <= |s| {
      assert s[i..i + 2] == [s[i], s[i + 1]];
    }
  }

  lemma LineEndExactly(s: string, i: nat, e: nat)
    requires i <= |s|
    ensures LineEnd(s, i) == e <==>
            i <= e <= |s| && (forall j :: i <= j < e ==> s[j] != '\n') && (e < |s| ==> s[e] == '\n')
  {
  }

  lemma RawTokenExactly(s: string, i: nat, e: nat)
    requires i < |s|
    ensures RawString(s, i, e) <==>
            RawQuote(s, i).Some? && RawEnd(s, RawQuote(s, i).value.0, RawQuote(s, i).value.1) == e
  {
    forall h: nat, q: nat | RawOpens(s, i, h, q)
      ensures RawQuote(s, i) == Some((h, q)) && (RawEnd(s, h, q) == e <==> RawSpan(s, h, q, e))
    {
      RawQuoteExactly(s, i, h, q);
      RawEndExactly(s, i, h, q, e);
    }
    if RawQuote(s, i).Some? {
      var (h, q) := RawQuote(s, i).value;
      RawQuoteExactly(s, i, h, q);
    }
  }

  /** What can start at a position is told by its first characters. */
  lemma KindsDiffer(s: string, i: nat, e: nat)
    requires i < |s|
    ensures CharLiteral(s, i, e) ==> s[i] == '\'' || Two(s, i, 'b', '\'')
    ensures RawString(s, i, e) ==> s[i] == 'r' || Two(s, i, 'b', 'r')
    ensures QuotedString(s, i, e) ==> s[i] == '"' || Two(s, i, 'b', '"')
  {
  }

  /** The scanner recognises exactly the tokens. */
  lemma TokenExactly(s: string, i: nat, e: nat)
    requires i < |s|
    ensures Token(s, i) == Some(e) <==> IsToken(s, i, e)
  {
    StartsWithTwo(s, i, '/', '/');
    StartsWithTwo(s, i, '/', '*');
    StartsWithTwo(s, i, 'b', '"');
    KindsDiffer(s, i, e);
    CharEndExactly(s, i, e);
    if CharEnd(s, i).Some? {
      CharEndExactly(s, i, CharEnd(s, i).value);
      KindsDiffer(s, i, CharEnd(s, i).value);
    }
    RawTokenExactly(s, i, e);
    if i + 2 <= |s| {
      LineEndExactly(s, i + 2, e);
      BlockEndExactly(s, i + 2, e);
      StringEndExactly(s, i + 2, e);
    }
    StringEndExactly(s, i + 1, e);
  }
}
