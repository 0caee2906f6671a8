/**
Blanking of Rust comments and literals, and brace matching on what is left
(check-postgres-test-discovery.py).
*/
module RustScan {
  import opened Prelude
  import opened RustTokens

  // ----- what is blanked -----

  /** Scanning from `i`, position `j` is passed over on its own rather than inside a token. */
  predicate Kept(s: string, i: nat, j: nat)
    requires i <= |s| && j < |s|
    decreases |s| - i
  {
    if i == |s| then false
    else match Token(s, i)
      case None => j == i || Kept(s, i + 1, j)
      case Some(e) => j >= e && Kept(s, e, j)
  }

  function Blank(c: char): char
  {
    if c == '\n' then '\n' else ' '
  }

  function Sanitized(s: string): string
  {
    seq(|s|, j requires 0 <= j < |s| => if Kept(s, 0, j) then s[j] else Blank(s[j]))
  }

  // ----- the scanner itself -----

  method SkipBlockComment(source: string, start: nat) returns (index: nat)
    requires start + 2 <= |source|
    ensures index == BlockEnd(source, start + 2, 1)
    ensures CommentSpan(source, start + 2, index)
  {
    index := start + 2;
    var depth := 1;
    while index < |source| && depth > 0
      invariant index <= |source| && BlockEnd(source, index, depth) == BlockEnd(source, start + 2, 1)
      decreases |source| - index
    {
      if StartsAt(source, "/*", index) {
        depth, index := depth + 1, index + 2;
      } else if StartsAt(source, "*/", index) {
        depth, index := depth - 1, index + 2;
      } else {
        index := index + 1;
      }
    }
    BlockEndExactly(source, start + 2, index);
  }

  method SkipString(source: string, start: nat) returns (index: nat)
    requires start <= |source|
    ensures (if index <= |source| then index else |source|) == StringEnd(source, start)
    ensures StringSpan(source, start, if index <= |source| then index else |source|)
  {
    index := start;
    while index < |source|
      invariant StringEnd(source, if index <= |source| then index else |source|) == StringEnd(source, start)
      invariant index <= |source| + 1
      decreases |source| + 1 - index
    {
      if source[index] == '\\' {
        index := index + 2;
      } else if source[index] == '"' {
        index := index + 1;
        break;
      } else {
        index := index + 1;
      }
    }
    StringEndIsSpan(source, start);
  }

  /** Overwrite a range with spaces, sparing newlines if `spare`. */
  method BlankRange(chars: array<char>, start: nat, end: nat, spare: bool)
    requires start <= end <= chars.Length
    requires spare || forall j :: start <= j < end ==> chars[j] != '\n'
    modifies chars
    ensures forall j :: start <= j < end ==> chars[j] == Blank(old(chars[j]))
    ensures forall j :: 0 <= j < chars.Length && !(start <= j < end) ==> chars[j] == old(chars[j])
  {
    for offset := start to end
      invariant forall j :: start <= j < offset ==> chars[j] == Blank(old(chars[j]))
      invariant forall j :: 0 <= j < chars.Length && !(start <= j < offset) ==> chars[j] == old(chars[j])
    {
      if !spare || chars[offset] != '\n' {
        chars[offset] := ' ';
      }
    }
  }

  /** One turn of the main loop: the end of the token at `index`, if there is one, and whether it may span lines. */
  method ScanToken(source: string, index: nat) returns (end: Option<nat>, multiline: bool)
    requires index < |source|
    ensures end == Token(source, index)
    ensures forall e: nat :: end == Some(e) <==> IsToken(source, index, e)
    ensures end.Some? && !multiline ==> forall j :: index <= j < end.value ==> source[j] != '\n'
  {
    forall e: nat ensures Token(source, index) == Some(e) <==> IsToken(source, index, e) {
      TokenExactly(source, index, e);
    }
    multiline := false;
    if StartsAt(source, "//", index) {
      end := Some(LineEnd(source, index + 2));
      assert source[index..index + 2] == [source[index], source[index + 1]];
      return;
    }
    if StartsAt(source, "/*", index) {
      var e := SkipBlockComment(source, index);
      return Some(e), true;
    }
    end := CharEnd(source, index);
    if end.Some? {
      forall j | index <= j < end.value ensures source[j] != '\n' {
        CharBlanksIsolated(source, index, j);
      }
      return;
    }
    multiline := true;
    var raw := RawQuote(source, index);
    if raw.Some? {
      end := Some(RawEnd(source, raw.value.0, raw.value.1));
      return;
    }
    var quote := if StartsAt(source, "b\"", index) then index + 1 else index;
    if source[quote] == '"' {
      var e := SkipString(source, quote + 1);
      end := Some(if e <= |source| then e else |source|);
    }
  }

  /** `sanitize_rust`: terminates on every text and blanks in place. */
  method SanitizeRust(source: string) returns (out: string)
    ensures out == Sanitized(source)
  {
    var chars := new char[|source|](i requires 0 <= i < |source| => source[i]);
    var index := 0;
    while index < |source|
      invariant index <= |source|
      invariant forall j :: 0 <= j < index ==> chars[j] == Sanitized(source)[j]
      invariant forall j :: index <= j < |source| ==> chars[j] == source[j]
      invariant forall j :: index <= j < |source| ==> Kept(source, 0, j) == Kept(source, index, j)
      decreases |source| - index
    {
      var end, multiline := ScanToken(source, index);
      if end.Some? {
        BlankRange(chars, index, end.value, multiline);
        index := end.value;
      } else {
        index := index + 1;
      }
    }
    out := chars[..];
  }

  // ----- what it guarantees -----

  /** Same length, same newlines, and nothing changes except into a space. */
  lemma SanitizedShape(s: string, j: nat)
    requires j < |s|
    ensures |Sanitized(s)| == |s|
    ensures Sanitized(s)[j] == '\n' <==> s[j] == '\n'
    ensures Sanitized(s)[j] == s[j] || Sanitized(s)[j] == ' '
  {
  }

  // ----- what is blanked, said without scanning -----

  /** From `i` the reader goes on behind the token there, or if there is none, to the next position. */
  ghost predicate Next(s: string, i: nat, j: nat)
  {
    i < |s| && (IsToken(s, i, j) || (j == i + 1 && forall e :: !IsToken(s, i, e)))
  }

  ghost predicate Reading(s: string, stops: seq<nat>)
  {
    stops != [] && forall k :: 0 < k < |stops| ==> Next(s, stops[k - 1], stops[k])
  }

  /** Reading on from `i` stops at `j`. */
  ghost predicate Reached(s: string, i: nat, j: nat)
  {
    exists stops :: Reading(s, stops) && stops[0] == i && stops[|stops| - 1] == j
  }

  lemma NextExactly(s: string, i: nat, j: nat)
    requires i < |s|
    ensures Next(s, i, j) <==> j == (match Token(s, i) case None => i + 1 case Some(e) => e)
  {
    TokenExactly(s, i, j);
    forall e: nat ensures Token(s, i) == Some(e) <==> IsToken(s, i, e) {
      TokenExactly(s, i, e);
    }
  }

  lemma ReachedHere(s: string, i: nat)
    ensures Reached(s, i, i)
  {
    assert Reading(s, [i]);
  }

  lemma ReachedOn(s: string, i: nat, m: nat, j: nat)
    requires Next(s, i, m) && Reached(s, m, j)
    ensures Reached(s, i, j)
  {
    var stops :| Reading(s, stops) && stops[0] == m && stops[|stops| - 1] == j;
    var longer := [i] + stops;
    forall k | 0 < k < |longer| ensures Next(s, longer[k - 1], longer[k]) {
      assert k > 1 ==> longer[k - 1] == stops[k - 2] && longer[k] == stops[k - 1];
    }
    assert Reading(s, longer);
  }

  lemma ReachedBack(s: string, i: nat, m: nat, j: nat)
    requires i != j && Next(s, i, m) && Reached(s, i, j)
    ensures Reached(s, m, j)
  {
    var stops :| Reading(s, stops) && stops[0] == i && stops[|stops| - 1] == j;
    NextExactly(s, i, m);
    NextExactly(s, i, stops[1]);
    var rest := stops[1..];
    forall k | 0 < k < |rest| ensures Next(s, rest[k - 1], rest[k]) {
      assert rest[k - 1] == stops[k] && rest[k] == stops[k + 1];
    }
    assert Reading(s, rest);
  }

  lemma {:induction false} ReachedAhead(s: string, i: nat, j: nat)
    requires i <= |s| && Reached(s, i, j)
    ensures i <= j <= |s|
    decreases |s| - i
  {
    if i == |s| {
      var stops :| Reading(s, stops) && stops[0] == i && stops[|stops| - 1] == j;
      assert |stops| > 1 ==> Next(s, stops[0], stops[1]);
    } else if i == j {
    } else {
      var m := match Token(s, i) case None => i + 1 case Some(e) => e;
      NextExactly(s, i, m);
      ReachedBack(s, i, m, j);
      ReachedAhead(s, m, j);
    }
  }

  /** What lies in a token that the reading stops at is blanked. */
  lemma {:induction false} TokensAreBlanked(s: string, i: nat, a: nat, e: nat, j: nat)
    requires i <= |s| && Reached(s, i, a) && IsToken(s, a, e) && a <= j < e && j < |s|
    ensures !Kept(s, i, j)
    decreases |s| - i
  {
    ReachedAhead(s, i, a);
    TokenExactly(s, a, e);
    if i == a {
    } else {
      var m := match Token(s, i) case None => i + 1 case Some(e) => e;
      NextExactly(s, i, m);
      ReachedBack(s, i, m, a);
      ReachedAhead(s, m, a);
      TokensAreBlanked(s, m, a, e, j);
    }
  }

  ghost predicate InToken(s: string, i: nat, j: nat)
  {
    exists a: nat, e: nat :: Reached(s, i, a) && IsToken(s, a, e) && a <= j < e
  }

  lemma {:induction false} BlankedIsInToken(s: string, i: nat, j: nat)
    requires i <= j < |s| && !Kept(s, i, j)
    ensures InToken(s, i, j)
    decreases |s| - i
  {
    var m := match Token(s, i) case None => i + 1 case Some(e) => e;
    NextExactly(s, i, m);
    if j < m {
      TokenExactly(s, i, m);
      ReachedHere(s, i);
      assert Reached(s, i, i) && IsToken(s, i, m);
    } else {
      BlankedIsInToken(s, m, j);
      var a: nat, e: nat :| Reached(s, m, a) && IsToken(s, a, e) && a <= j < e;
      ReachedOn(s, i, m, a);
    }
  }

  /** A character is blanked exactly if it lies in a token that reading the text from its start stops at. */
  lemma BlankedExactly(s: string, j: nat)
    requires j < |s|
    ensures Sanitized(s)[j] == if InToken(s, 0, j) && s[j] != '\n' then ' ' else s[j]
  {
    if InToken(s, 0, j) {
      var a: nat, e: nat :| Reached(s, 0, a) && IsToken(s, a, e) && a <= j < e;
      TokensAreBlanked(s, 0, a, e, j);
    } else if !Kept(s, 0, j) {
      BlankedIsInToken(s, 0, j);
    }
  }

  lemma {:induction false} KeptStartsNoToken(s: string, i: nat, j: nat)
    requires i <= |s| && j < |s| && Kept(s, i, j)
    ensures i <= j && Token(s, j).None?
    decreases |s| - i
  {
    match Token(s, i) {
      case None => if j != i { KeptStartsNoToken(s, i + 1, j); }
      case Some(e) => KeptStartsNoToken(s, e, j);
    }
  }

  /** No position is blanked alone, except the last of the text. */
  lemma {:induction false} BlankedInRuns(s: string, i: nat, j: nat)
    requires i <= j && j + 1 < |s| && !Kept(s, i, j)
    ensures !Kept(s, i, j + 1) || (i < j && !Kept(s, i, j - 1))
    decreases |s| - i
  {
    match Token(s, i) {
      case None =>
        BlankedInRuns(s, i + 1, j);
      case Some(e) =>
        if j >= e {
          BlankedInRuns(s, e, j);
        }
    }
  }

  /** No string quote and no comment opener is left. */
  lemma NothingLeft(s: string, i: nat)
    requires i < |s|
    ensures Sanitized(s)[i] != '"'
    ensures !StartsAt(Sanitized(s), "//", i) && !StartsAt(Sanitized(s), "/*", i)
  {
    var t := Sanitized(s);
    if i + 2 <= |s| {
      assert t[i..i + 2] == [t[i], t[i + 1]];
      assert Kept(s, 0, i) && Kept(s, 0, i + 1) ==> s[i..i + 2] == t[i..i + 2];
    }
    if Kept(s, 0, i) {
      KeptStartsNoToken(s, 0, i);
    }
  }

  predicate Visible(c: char)
  {
    c != ' ' && c != '\n'
  }

  /** Inside a character literal a blank stands between two visible characters. */
  lemma CharBlanksIsolated(t: string, i: nat, j: nat)
    requires i < |t| && CharEnd(t, i).Some? && i <= j < CharEnd(t, i).value
    ensures t[j] != '\n'
    ensures t[j] == ' ' ==> i < j && j + 1 < |t| && Visible(t[j - 1]) && Visible(t[j + 1])
  {
  }

  lemma {:induction false} HexRunAgrees(s: string, t: string, i: nat)
    requires |s| == |t| && i <= |s| && HexRun(t, i) < |t|
    requires forall j :: i <= j <= HexRun(t, i) ==> s[j] == t[j]
    ensures HexRun(s, i) == HexRun(t, i)
    decreases |s| - i
  {
    if i < HexRun(t, i) {
      HexRunAgrees(s, t, i + 1);
    }
  }

  /** A character literal is recognised from its own characters alone. */
  lemma CharEndLocal(s: string, t: string, i: nat)
    requires |s| == |t| && i < |s| && CharEnd(t, i).Some?
    requires forall j :: i <= j < CharEnd(t, i).value ==> s[j] == t[j]
    ensures CharEnd(s, i) == CharEnd(t, i)
  {
    var q := if t[i] == 'b' then i + 1 else i;
    if t[q + 1] == '\\' && t[q + 2] == 'u' && t[q + 3] == '{' && UnicodeClosed(t, q + 4) {
      HexRunAgrees(s, t, q + 4);
    }
  }

  /** Sanitizing creates no new character literal. */
  lemma NoCharLeft(s: string, i: nat)
    requires i < |s|
    ensures CharEnd(Sanitized(s), i).None?
  {
    var t := Sanitized(s);
    if CharEnd(t, i).Some? {
      forall j | i <= j < CharEnd(t, i).value ensures Kept(s, 0, j) {
        CharBlanksIsolated(t, i, j);
        if !Kept(s, 0, j) {
          BlankedInRuns(s, 0, j);
        }
      }
      CharEndLocal(s, t, i);
      KeptStartsNoToken(s, 0, i);
    }
  }

  lemma {:induction false} AllKept(t: string, i: nat, j: nat)
    requires i <= j < |t| && forall k :: 0 <= k < |t| ==> Token(t, k).None?
    ensures Kept(t, i, j)
    decreases |t| - i
  {
    if i < j {
      AllKept(t, i + 1, j);
    }
  }

  /** Sanitizing twice is sanitizing once. */
  lemma SanitizeIdempotent(s: string)
    ensures Sanitized(Sanitized(s)) == Sanitized(s)
  {
    var t := Sanitized(s);
    forall i | 0 <= i < |t| ensures Token(t, i).None? {
      NothingLeft(s, i);
      NoCharLeft(s, i);
      if RawQuote(t, i).Some? {
        NothingLeft(s, RawQuote(t, i).value.1);
      }
      if StartsAt(t, "b\"", i) {
        assert t[i + 1] == t[i..i + 2][1] == '"';
        NothingLeft(s, i + 1);
      }
    }
    forall j | 0 <= j < |t| ensures Kept(t, 0, j) {
      AllKept(t, 0, j);
    }
  }

  // ----- brace matching -----

  /** Opening minus closing braces in t[a..b]. */
  function Depth(t: string, a: nat, b: nat): int
    requires a <= b <= |t|
    decreases b
  {
    if a == b then 0
    else Depth(t, a, b - 1) + if t[b - 1] == '{' then 1 else if t[b - 1] == '}' then -1 else 0
  }

  /** From `a` on, no brace closes more than was opened, up to `b`. */
  ghost predicate NeverUnder(t: string, a: nat, b: nat)
    requires a <= b <= |t|
  {
    forall j :: a <= j <= b ==> Depth(t, a, j) >= 0
  }

  ghost predicate Balanced(t: string, a: nat, b: nat)
    requires a <= b <= |t|
  {
    Depth(t, a, b) == 0 && NeverUnder(t, a, b)
  }

  /** The braces at `o` and `c` enclose balanced text. */
  ghost predicate Paired(t: string, o: nat, c: nat)
  {
    o < c < |t| && t[o] == '{' && t[c] == '}' && Balanced(t, o + 1, c)
  }

  lemma {:induction false} DepthSplits(t: string, a: nat, b: nat, c: nat)
    requires a <= b <= c <= |t|
    ensures Depth(t, a, c) == Depth(t, a, b) + Depth(t, b, c)
    decreases c
  {
    if b < c {
      DepthSplits(t, a, b, c - 1);
    }
  }

  lemma ClosesAt(t: string, o: nat, c: nat)
    requires Paired(t, o, c)
    ensures Depth(t, o + 1, c + 1) == -1
  {
  }

  /** Nothing closes before the matching brace, so an opening brace has at most one partner. */
  lemma PartnerUnique(t: string, o: nat, c: nat, c': nat)
    requires Paired(t, o, c) && Paired(t, o, c')
    ensures c == c'
  {
    ClosesAt(t, o, c);
    ClosesAt(t, o, c');
  }

  lemma LaterPairInsideOrAfter(t: string, o: nat, c: nat, o': nat, c': nat)
    requires Paired(t, o, c) && Paired(t, o', c') && o <= o'
    ensures (o == o' && c == c') || (o < o' && c' < c) || c < o'
  {
    if o == o' {
      PartnerUnique(t, o, c, c');
    } else if o' <= c {
      DepthSplits(t, o + 1, o', o' + 1);
      DepthSplits(t, o + 1, o' + 1, c);
      assert Depth(t, o', o' + 1) == 1;
    }
  }

  /** Two matched pairs are equal, nested or disjoint. */
  lemma PairsAreLaminar(t: string, o: nat, c: nat, o': nat, c': nat)
    requires Paired(t, o, c) && Paired(t, o', c')
    ensures (o == o' && c == c') || o < o' <= c' < c || o' < o <= c < c' || c < o' || c' < o
  {
    if o <= o' {
      LaterPairInsideOrAfter(t, o, c, o', c');
    } else {
      LaterPairInsideOrAfter(t, o', c', o, c);
    }
  }

  /** What the open braces on the stack mean when the scan stands at `i`. */
  ghost predicate StackInv(t: string, stack: seq<nat>, i: nat)
    requires i <= |t|
  {
    forall l :: 0 <= l < |stack| ==>
      && stack[l] < i && t[stack[l]] == '{'
      && Depth(t, stack[l] + 1, i) == |stack| - 1 - l
      && NeverUnder(t, stack[l] + 1, i)
  }

  lemma PushKeeps(t: string, stack: seq<nat>, i: nat)
    requires i < |t| && StackInv(t, stack, i) && t[i] == '{'
    ensures StackInv(t, stack + [i], i + 1)
  {
  }

  lemma PopKeeps(t: string, stack: seq<nat>, i: nat)
    requires i < |t| && StackInv(t, stack, i) && t[i] == '}' && stack != []
    ensures Paired(t, stack[|stack| - 1], i) && StackInv(t, stack[..|stack| - 1], i + 1)
  {
  }

  lemma PassKeeps(t: string, stack: seq<nat>, i: nat)
    requires i < |t| && StackInv(t, stack, i) && t[i] != '{' && (t[i] == '}' ==> stack == [])
    ensures StackInv(t, stack, i + 1)
  {
  }

  /** An open brace still on the stack at the end has no partner. */
  lemma UnclosedIsUnpaired(t: string, stack: seq<nat>, o: nat, c: nat)
    requires StackInv(t, stack, |t|) && o in stack
    ensures !Paired(t, o, c)
  {
    if Paired(t, o, c) {
      ClosesAt(t, o, c);
    }
  }

  /** The brace scan of `module_ranges`: it finds exactly the matched pairs. */
  method BracePairs(t: string) returns (pairs: map<nat, nat>)
    ensures forall o, c :: o in pairs && pairs[o] == c <==> Paired(t, o, c)
  {
    pairs := map[];
    var stack: seq<nat> := [];
    for i := 0 to |t|
      invariant StackInv(t, stack, i)
      invariant forall o :: o in pairs ==> Paired(t, o, pairs[o])
      invariant forall o :: 0 <= o < i && t[o] == '{' ==> o in pairs || o in stack
    {
      if t[i] == '{' {
        PushKeeps(t, stack, i);
        stack := stack + [i];
      } else if t[i] == '}' && stack != [] {
        PopKeeps(t, stack, i);
        assert stack == stack[..|stack| - 1] + [stack[|stack| - 1]];
        pairs := pairs[stack[|stack| - 1] := i];
        stack := stack[..|stack| - 1];
      } else {
        PassKeeps(t, stack, i);
      }
    }
    forall o: nat, c: nat | Paired(t, o, c) ensures o in pairs && pairs[o] == c {
      if o in stack {
        UnclosedIsUnpaired(t, stack, o, c);
      } else {
        PartnerUnique(t, o, c, pairs[o]);
      }
    }
  }

  // ----- module heads -----

  /** Python's word and whitespace characters. */
  datatype Classes = Classes(word: char -> bool, space: char -> bool)

  predicate NameStart(c: char)
  {
    'A' <= c <= 'Z' || 'a' <= c <= 'z' || c == '_'
  }

  predicate NameChar(c: char)
  {
    NameStart(c) || '0' <= c <= '9'
  }

  /** Identifier characters are word characters, and neither they nor braces are whitespace. */
  ghost predicate Sane(k: Classes)
  {
    (forall c :: NameChar(c) ==> k.word(c) && !k.space(c)) && !k.space('{')
  }

  function SpaceRun(t: string, i: nat, k: Classes): (e: nat)
    requires i <= |t|
    ensures i <= e <= |t| && forall j :: i <= j < e ==> k.space(t[j])
    ensures e < |t| ==> !k.space(t[e])
    decreases |t| - i
  {
    if i < |t| && k.space(t[i]) then SpaceRun(t, i + 1, k) else i
  }

  function NameRun(t: string, i: nat): (e: nat)
    requires i <= |t|
    ensures i <= e <= |t| && forall j :: i <= j < e ==> NameChar(t[j])
    ensures e < |t| ==> !NameChar(t[e])
    decreases |t| - i
  {
    if i < |t| && NameChar(t[i]) then NameRun(t, i + 1) else i
  }

  predicate Boundary(t: string, i: nat, k: Classes)
    requires i < |t|
  {
    (i > 0 && k.word(t[i - 1])) != k.word(t[i])
  }

  /** The MODULE pattern at `i`: where its brace stands, and the module's name. */
  function HeadAt(t: string, i: nat, k: Classes): (r: Option<(nat, string)>)
    requires i < |t|
    ensures r.Some? ==> i < r.value.0 < |t| && t[r.value.0] == '{'
  {
    if !Boundary(t, i, k) || !StartsAt(t, "mod", i) then None
    else
      var a := SpaceRun(t, i + 3, k);
      if a == i + 3 || a == |t| || !NameStart(t[a]) then None
      else
        var b := NameRun(t, a);
        var c := SpaceRun(t, b, k);
        if c < |t| && t[c] == '{' then Some((c, t[a..b])) else None
  }

  /** The text of a head: `mod` as a word, blanks, the name from `a` to `b`, blanks or none, and the brace at `c`. */
  ghost predicate HeadText(t: string, i: nat, k: Classes, a: nat, b: nat, c: nat)
  {
    && i + 3 < a < b <= c < |t| && t[i] == 'm' && t[i + 1] == 'o' && t[i + 2] == 'd' && t[c] == '{'
    && (i == 0 || !k.word(t[i - 1])) && NameStart(t[a])
    && (forall j :: i + 3 <= j < a ==> k.space(t[j])) && (forall j :: b <= j < c ==> k.space(t[j]))
    && (forall j :: a <= j < b ==> NameChar(t[j]))
  }

  /** The pattern matches exactly such texts. */
  lemma HeadExactly(t: string, i: nat, k: Classes, c: nat, name: string)
    requires i < |t| && Sane(k)
    ensures HeadAt(t, i, k) == Some((c, name)) <==>
            exists a: nat, b: nat :: HeadText(t, i, k, a, b, c) && name == t[a..b]
  {
    if i + 3 <= |t| {
      assert t[i..i + 3] == [t[i], t[i + 1], t[i + 2]];
      assert t[i] == 'm' ==> k.word(t[i]);
    }
    if HeadAt(t, i, k) == Some((c, name)) {
      var a := SpaceRun(t, i + 3, k);
      var b := NameRun(t, a);
      assert HeadText(t, i, k, a, b, c);
    }
    forall a: nat, b: nat | HeadText(t, i, k, a, b, c) ensures HeadAt(t, i, k) == Some((c, t[a..b])) {
      assert SpaceRun(t, i + 3, k) == a;
      assert !NameChar(t[b]);
      assert NameRun(t, a) == b;
      assert SpaceRun(t, b, k) == c;
    }
  }

  type Matches = seq<Option<(nat, string)>>

  /** The pattern tried at every position. */
  function Tried(t: string, k: Classes): Matches
  {
    seq(|t|, i requires 0 <= i < |t| => HeadAt(t, i, k))
  }

  /** Every match ends ahead of where it starts. */
  predicate Ahead(m: Matches)
  {
    forall i :: 0 <= i < |m| && m[i].Some? ==> i < m[i].value.0 < |m|
  }

  /** `finditer`: the matches from `i` on, going on behind each one. */
  function Heads(m: Matches, i: nat): seq<(nat, string)>
    requires Ahead(m) && i <= |m|
    decreases |m| - i
  {
    if i == |m| then []
    else match m[i]
      case None => Heads(m, i + 1)
      case Some(h) => [h] + Heads(m, h.0 + 1)
  }

  function HeadsOf(t: string, k: Classes): seq<(nat, string)>
  {
    Heads(Tried(t, k), 0)
  }

  /** No match is lost by going on behind another: none starts inside one. */
  lemma NoHeadInsideHead(t: string, i: nat, j: nat, k: Classes)
    requires Sane(k) && i < |t| && HeadAt(t, i, k).Some? && i < j <= HeadAt(t, i, k).value.0
    ensures HeadAt(t, j, k).None?
  {
    var a := SpaceRun(t, i + 3, k);
    var b := NameRun(t, a);
    var c := SpaceRun(t, b, k);
    assert t[i..i + 3] == [t[i], t[i + 1], t[i + 2]];
    if StartsAt(t, "mod", j) && Boundary(t, j, k) {
      assert t[j..j + 3] == [t[j], t[j + 1], t[j + 2]];
      assert NameChar(t[j]) && NameChar(t[j + 2]);
      assert j == a;
      ShortName(t, a, k);
    }
  }

  /** A name that is just `mod`, followed by the brace, is no head of its own. */
  lemma ShortName(t: string, a: nat, k: Classes)
    requires Sane(k) && a < |t| && StartsAt(t, "mod", a)
    requires var b := NameRun(t, a); var c := SpaceRun(t, b, k); c < |t| && t[c] == '{'
    ensures HeadAt(t, a, k).None?
  {
    var b := NameRun(t, a);
    assert t[a..a + 3] == [t[a], t[a + 1], t[a + 2]];
    assert NameChar(t[a]) && NameChar(t[a + 1]) && NameChar(t[a + 2]);
    assert b >= a + 3;
    if b > a + 3 {
      assert SpaceRun(t, a + 3, k) == a + 3;
    }
  }

  /** No match starts inside another. */
  predicate Apart(m: Matches)
  {
    forall i, j :: 0 <= i < j < |m| && m[i].Some? && j <= m[i].value.0 ==> m[j].None?
  }

  lemma TriedApart(t: string, k: Classes)
    requires Sane(k)
    ensures Apart(Tried(t, k))
  {
    var m := Tried(t, k);
    forall i, j | 0 <= i < j < |m| && m[i].Some? && j <= m[i].value.0
      ensures m[j].None?
    {
      NoHeadInsideHead(t, i, j, k);
    }
  }

  ghost predicate Occurs(m: Matches, i: nat, h: (nat, string))
  {
    exists j :: i <= j < |m| && m[j] == Some(h)
  }

  lemma OccursNext(m: Matches, i: nat, next: nat, h: (nat, string))
    requires i < next <= |m| && forall j :: i < j < next ==> m[j].None?
    ensures Occurs(m, i, h) <==> m[i] == Some(h) || Occurs(m, next, h)
  {
  }

  /** Then going on behind a match loses none. */
  lemma {:induction false} HeadsExactly(m: Matches, i: nat, h: (nat, string))
    requires Ahead(m) && Apart(m) && i <= |m|
    ensures h in Heads(m, i) <==> Occurs(m, i, h)
    decreases |m| - i
  {
    if i == |m| {
    } else {
      var next := if m[i].None? then i + 1 else m[i].value.0 + 1;
      HeadsExactly(m, next, h);
      OccursNext(m, i, next, h);
    }
  }

  lemma {:induction false} HeadsIncrease(m: Matches, i: nat)
    requires Ahead(m) && i <= |m|
    ensures forall n :: 0 <= n < |Heads(m, i)| ==> i <= Heads(m, i)[n].0 < |m|
    ensures forall a, b :: 0 <= a < b < |Heads(m, i)| ==> Heads(m, i)[a].0 < Heads(m, i)[b].0
    decreases |m| - i
  {
    if i == |m| {
    } else if m[i].None? {
      HeadsIncrease(m, i + 1);
    } else {
      HeadsIncrease(m, m[i].value.0 + 1);
    }
  }

  // ----- module ranges -----

  type Range = (nat, nat, string)

  /** The closing brace that an opening one is paired with. */
  ghost function Partner(t: string, o: nat): (r: Option<nat>)
    ensures r.Some? ==> Paired(t, o, r.value)
    ensures r.None? ==> forall c :: !Paired(t, o, c)
  {
    if exists c :: Paired(t, o, c) then
      var c :| Paired(t, o, c);
      Some(c)
    else
      None
  }

  /** The heads whose brace is matched, in order, each with its partner. */
  ghost function Ranges(t: string, heads: seq<(nat, string)>): seq<Range>
  {
    if heads == [] then []
    else
      var n := |heads| - 1;
      Ranges(t, heads[..n]) + match Partner(t, heads[n].0)
        case None => []
        case Some(c) => [(heads[n].0, c, heads[n].1)]
  }

  lemma {:induction false} RangesOfHeads(t: string, heads: seq<(nat, string)>, r: Range)
    ensures r in Ranges(t, heads) <==> (r.0, r.2) in heads && Paired(t, r.0, r.1)
    decreases |heads|
  {
    if heads == [] {
    } else {
      var n := |heads| - 1;
      RangesOfHeads(t, heads[..n], r);
      assert heads == heads[..n] + [heads[n]];
      var c := Partner(t, heads[n].0);
      if c.Some? && Paired(t, heads[n].0, r.1) {
        PartnerUnique(t, heads[n].0, c.value, r.1);
      }
    }
  }

  /** A range is listed exactly if a module head opens it and its braces enclose balanced text. */
  lemma RangesExactly(t: string, k: Classes, r: Range)
    requires Sane(k)
    ensures r in Ranges(t, HeadsOf(t, k)) <==> Occurs(Tried(t, k), 0, (r.0, r.2)) && Paired(t, r.0, r.1)
  {
    RangesOfHeads(t, HeadsOf(t, k), r);
    TriedApart(t, k);
    HeadsExactly(Tried(t, k), 0, (r.0, r.2));
  }

  /** The scan of `MODULE.finditer` over what the pattern yields at each position. */
  method CollectHeads(m: Matches) returns (heads: seq<(nat, string)>)
    requires Ahead(m)
    ensures heads == Heads(m, 0)
  {
    heads := [];
    var i := 0;
    while i < |m|
      invariant i <= |m| && heads + Heads(m, i) == Heads(m, 0)
      decreases |m| - i
    {
      NextHead(m, i, heads);
      if m[i].None? {
        i := i + 1;
      } else {
        heads := heads + [m[i].value];
        i := m[i].value.0 + 1;
      }
    }
  }

  method FindHeads(t: string, k: Classes) returns (heads: seq<(nat, string)>)
    ensures heads == HeadsOf(t, k)
  {
    heads := CollectHeads(Tried(t, k));
  }

  lemma NextHead(m: Matches, i: nat, done: seq<(nat, string)>)
    requires Ahead(m) && i < |m|
    ensures m[i].None? ==> done + Heads(m, i) == done + Heads(m, i + 1)
    ensures m[i].Some? ==> done + Heads(m, i) == (done + [m[i].value]) + Heads(m, m[i].value.0 + 1)
  {
  }

  /** `module_ranges` */
  method ModuleRanges(source: string, k: Classes) returns (ranges: seq<Range>)
    ensures ranges == Ranges(Sanitized(source), HeadsOf(Sanitized(source), k))
  {
    var t := SanitizeRust(source);
    var pairs := BracePairs(t);
    var heads := FindHeads(t, k);
    ranges := [];
    for i := 0 to |heads|
      invariant ranges == Ranges(t, heads[..i])
    {
      var h := heads[i];
      NextRange(t, pairs, heads[..i], h);
      assert heads[..i + 1] == heads[..i] + [h];
      if h.0 in pairs {
        ranges := ranges + [(h.0, pairs[h.0], h.1)];
      }
    }
    assert heads[..|heads|] == heads;
  }

  lemma NextRange(t: string, pairs: map<nat, nat>, done: seq<(nat, string)>, h: (nat, string))
    requires forall o, c :: o in pairs && pairs[o] == c <==> Paired(t, o, c)
    ensures Ranges(t, done + [h]) ==
            Ranges(t, done) + if h.0 in pairs then [(h.0, pairs[h.0], h.1)] else []
  {
    assert (done + [h])[..|done|] == done;
    var c := Partner(t, h.0);
    if h.0 in pairs {
      assert Paired(t, h.0, pairs[h.0]);
      PartnerUnique(t, h.0, pairs[h.0], c.value);
    }
  }
}
