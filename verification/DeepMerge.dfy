/**
Recursive configuration merge over JSON trees (`deep_merge` and
`build_codex_config_env` in acp.rs).
*/
module DeepMerge {
  import opened Prelude

  datatype Json =
    | Null
    | Bool(b: bool)
    | Number(text: string)
    | Str(s: string)
    | Arr(items: seq<Json>)
    | Obj(fields: map<string, Json>)

  type Fields = map<string, Json>

  /** The tree that merging `overlay` into `base` leaves behind. */
  function Merge(base: Json, overlay: Json): Json
    decreases overlay
  {
    if base.Obj? && overlay.Obj? then
      Obj(map k | k in base.fields.Keys + overlay.fields.Keys ::
            if k !in overlay.fields then base.fields[k]
            else if k !in base.fields then overlay.fields[k]
            else Merge(base.fields[k], overlay.fields[k]))
    else
      overlay
  }

  /** `deep_merge`: the overlay's entries are visited in any order whatsoever. */
  method DeepMergeInto(base: Fields, overlay: Fields) returns (merged: Fields)
    ensures Obj(merged) == Merge(Obj(base), Obj(overlay))
    decreases Obj(overlay)
  {
    merged := base;
    var rest := overlay.Keys;
    while rest != {}
      invariant rest <= overlay.Keys
      invariant merged.Keys == base.Keys + (overlay.Keys - rest)
      invariant forall k :: k in merged ==>
        merged[k] == if k !in overlay || k in rest then base[k]
                     else if k in base then Merge(base[k], overlay[k]) else overlay[k]
    {
      var k :| k in rest;
      if k in merged && merged[k].Obj? && overlay[k].Obj? {
        assert overlay[k] == Obj(overlay).fields[k];
        var inner := DeepMergeInto(merged[k].fields, overlay[k].fields);
        merged := merged[k := Obj(inner)];
      } else {
        merged := merged[k := overlay[k]];
      }
      rest := rest - {k};
    }
  }

  // ----- paths -----

  /** Following a path: it ends at a value, at an object without the next key, or at a non-object. */
  datatype Walk = Reaches(v: Json) | Missing | Blocked

  function Follow(v: Json, path: seq<string>): Walk
  {
    if path == [] then Reaches(v)
    else if !v.Obj? then Blocked
    else if path[0] !in v.fields then Missing
    else Follow(v.fields[path[0]], path[1..])
  }

  function Lookup(v: Json, path: seq<string>): Option<Json>
  {
    match Follow(v, path) case Reaches(u) => Some(u) case _ => None
  }

  /** The exact content of a merge, path by path. */
  lemma {:induction false} MergeAtPath(base: Json, overlay: Json, path: seq<string>)
    ensures Lookup(Merge(base, overlay), path) ==
            match Follow(overlay, path)
            case Reaches(v) => Some(if Lookup(base, path).Some? then Merge(Lookup(base, path).value, v) else v)
            case Missing => Lookup(base, path)
            case Blocked => None
    decreases |path|
  {
    if path != [] && base.Obj? && overlay.Obj? {
      var k := path[0];
      if k in base.fields && k in overlay.fields {
        MergeAtPath(base.fields[k], overlay.fields[k], path[1..]);
      }
    }
  }

  /** An overlay leaf always wins; a base leaf survives iff the overlay lacks the next key on the way, or agrees. */
  lemma LeavesOfMerge(base: Json, overlay: Json, path: seq<string>, leaf: Json)
    requires !leaf.Obj?
    ensures Lookup(overlay, path) == Some(leaf) ==> Lookup(Merge(base, overlay), path) == Some(leaf)
    ensures Lookup(base, path) == Some(leaf) ==>
              (Lookup(Merge(base, overlay), path) == Some(leaf) <==>
               Follow(overlay, path).Missing? || Follow(overlay, path) == Reaches(leaf))
  {
    MergeAtPath(base, overlay, path);
  }

  // ----- algebra -----

  lemma {:induction false} MergeSelf(v: Json)
    ensures Merge(v, v) == v
    decreases v
  {
    if v.Obj? {
      forall k | k in v.fields ensures Merge(v.fields[k], v.fields[k]) == v.fields[k] {
        MergeSelf(v.fields[k]);
      }
      assert Merge(v, v).fields == v.fields;
    }
  }

  /** Merging the same overlay again changes nothing. */
  lemma {:induction false} MergeIdempotent(base: Json, overlay: Json)
    ensures Merge(Merge(base, overlay), overlay) == Merge(base, overlay)
    decreases overlay
  {
    if base.Obj? && overlay.Obj? {
      var once := Merge(base, overlay);
      forall k | k in overlay.fields ensures Merge(once.fields[k], overlay.fields[k]) == once.fields[k] {
        if k in base.fields {
          MergeIdempotent(base.fields[k], overlay.fields[k]);
        } else {
          MergeSelf(overlay.fields[k]);
        }
      }
      assert Merge(once, overlay).fields == once.fields;
    } else {
      MergeSelf(overlay);
    }
  }

  /** `c` already decides everything that `a` could contribute under it. */
  predicate Covers(c: Json, a: Json)
    decreases c
  {
    c.Obj? && a.Obj? ==>
      forall k :: k in a.fields ==> k in c.fields && Covers(c.fields[k], a.fields[k])
  }

  lemma {:induction false} CoversExactly(a: Json, c: Json)
    ensures Merge(a, c) == c <==> Covers(c, a)
    decreases c
  {
    if a.Obj? && c.Obj? {
      forall k | k in a.fields && k in c.fields
        ensures Merge(a.fields[k], c.fields[k]) == c.fields[k] <==> Covers(c.fields[k], a.fields[k])
      {
        CoversExactly(a.fields[k], c.fields[k]);
      }
      var m := Merge(a, c);
      if Covers(c, a) {
        assert m.fields == c.fields;
      } else if m == c {
        forall k | k in a.fields ensures k in c.fields && Covers(c.fields[k], a.fields[k]) {
          assert k in m.fields;
        }
      }
    }
  }

  /** Wherever the middle tree holds a non-object between two objects, the last covers the first. */
  predicate Associates(a: Json, b: Json, c: Json)
    decreases c
  {
    a.Obj? && c.Obj? ==>
      if b.Obj? then
        forall k :: k in a.fields && k in b.fields && k in c.fields ==>
          Associates(a.fields[k], b.fields[k], c.fields[k])
      else
        Covers(c, a)
  }

  /** Exactly when the merge is associative. */
  lemma {:induction false} MergeAssociativeExactly(a: Json, b: Json, c: Json)
    ensures Merge(Merge(a, b), c) == Merge(a, Merge(b, c)) <==> Associates(a, b, c)
    decreases c
  {
    if a.Obj? && c.Obj? {
      if !b.Obj? {
        CoversExactly(a, c);
      } else {
        var left, right := Merge(Merge(a, b), c), Merge(a, Merge(b, c));
        forall k | k in a.fields && k in b.fields && k in c.fields
          ensures left.fields[k] == right.fields[k] <==> Associates(a.fields[k], b.fields[k], c.fields[k])
        {
          MergeAssociativeExactly(a.fields[k], b.fields[k], c.fields[k]);
        }
        if Associates(a, b, c) {
          assert left.fields == right.fields;
        } else {
          assert left.fields != right.fields;
        }
      }
    }
  }

  /** The middle tree never holds a non-object where both outer trees hold objects. */
  predicate Unobstructed(a: Json, b: Json, c: Json)
    decreases c
  {
    a.Obj? && c.Obj? ==>
      b.Obj? && forall k :: k in a.fields && k in b.fields && k in c.fields ==>
                  Unobstructed(a.fields[k], b.fields[k], c.fields[k])
  }

  lemma {:induction false} UnobstructedAssociates(a: Json, b: Json, c: Json)
    requires Unobstructed(a, b, c)
    ensures Associates(a, b, c)
    decreases c
  {
    if a.Obj? && c.Obj? {
      forall k | k in a.fields && k in b.fields && k in c.fields
        ensures Associates(a.fields[k], b.fields[k], c.fields[k])
      {
        UnobstructedAssociates(a.fields[k], b.fields[k], c.fields[k]);
      }
    }
  }

  // ----- the Codex configuration -----

  const CODEX_CONFIG := "CODEX_CONFIG"
  const SANDBOX := "sandbox_workspace_write"
  const NETWORK := "network_access"
  const FORCED: Json := Obj(map[SANDBOX := Obj(map[NETWORK := Bool(true)])])

  datatype Problem = NotJson | NotObject
  datatype ConfigError = BadEntry(index: nat, problem: Problem) | BadParent(problem: Problem) | BadSandbox

  /** The values of all `CODEX_CONFIG` entries, in order. */
  function Entries(env: seq<(string, string)>): seq<string>
  {
    if env == [] then []
    else (if env[0].0 == CODEX_CONFIG then [env[0].1] else []) + Entries(env[1..])
  }

  lemma {:induction false} EntriesConcat(a: seq<(string, string)>, b: seq<(string, string)>)
    ensures Entries(a + b) == Entries(a) + Entries(b)
    decreases |a|
  {
    if a == [] {
      assert a + b == b;
    } else {
      assert (a + b)[1..] == a[1..] + b;
      EntriesConcat(a[1..], b);
    }
  }

  lemma EntriesOne(name: string, text: string)
    ensures Entries([(name, text)]) == if name == "CODEX_CONFIG" then [text] else []
  {
    assert [(name, text)][1..] == [];
  }

  /** Each variable is taken or not by itself, in its place. */
  lemma EntriesInPlace(a: seq<(string, string)>, name: string, text: string, b: seq<(string, string)>)
    ensures Entries(a + ([(name, text)] + b)) ==
            Entries(a) + ((if name == "CODEX_CONFIG" then [text] else []) + Entries(b))
  {
    EntriesConcat(a, [(name, text)] + b);
    EntriesConcat([(name, text)], b);
    EntriesOne(name, text);
  }

  predicate IsObject(parsed: Option<Json>)
  {
    parsed.Some? && parsed.value.Obj?
  }

  function ProblemOf(parsed: Option<Json>): Problem
  {
    if parsed.None? then NotJson else NotObject
  }

  /** Everything but the forced setting: entries merged left to right, then the parent. */
  function Folded(sources: seq<string>, parse: string -> Option<Json>): (r: Json)
    requires sources != [] && forall s :: s in sources ==> IsObject(parse(s))
    ensures r.Obj?
  {
    var final := sources[|sources| - 1];
    assert final in sources && IsObject(parse(final));
    var last := parse(final).value;
    if |sources| == 1 then last else Merge(Folded(sources[..|sources| - 1], parse), last)
  }

  function Sources(entries: seq<string>, parent: Option<string>): seq<string>
  {
    if parent.Some? then entries + [parent.value] else entries
  }

  function Says(parsed: Option<Json>, path: seq<string>): Walk
  {
    if parsed.Some? then Follow(parsed.value, path) else Missing
  }

  /** The last source that has a say about a path decides it: its leaf stands if all later ones lack the path. */
  lemma {:induction false} LastSourceWins(
    sources: seq<string>, parse: string -> Option<Json>, path: seq<string>, i: nat, leaf: Json)
    requires i < |sources| && !leaf.Obj? && forall j :: 0 <= j < |sources| ==> IsObject(parse(sources[j]))
    requires Says(parse(sources[i]), path) == Reaches(leaf)
    requires forall j :: i < j < |sources| ==> Says(parse(sources[j]), path) == Missing
    ensures Lookup(Folded(sources, parse), path) == Some(leaf)
    decreases |sources|
  {
    var n := |sources| - 1;
    if n == 0 {
    } else {
      var before := Folded(sources[..n], parse);
      if i < n {
        LastSourceWins(sources[..n], parse, path, i, leaf);
      }
      LeavesOfMerge(before, parse(sources[n]).value, path, leaf);
    }
  }

  /** The sandbox setting can be forced: it is absent or an object. */
  predicate Forceable(v: Json)
  {
    v.Obj? && (SANDBOX in v.fields ==> v.fields[SANDBOX].Obj?)
  }

  method ForceNetwork(base: Fields) returns (r: Option<Fields>)
    ensures r.Some? <==> Forceable(Obj(base))
    ensures r.Some? ==> Obj(r.value) == Merge(Obj(base), FORCED)
  {
    var sandbox := if SANDBOX in base then base[SANDBOX] else Obj(map[]);
    if !sandbox.Obj? {
      return None;
    }
    var forced := sandbox.fields[NETWORK := Bool(true)];
    r := Some(base[SANDBOX := Obj(forced)]);
    assert Obj(forced) == Merge(sandbox, FORCED.fields[SANDBOX]);
    assert SANDBOX !in base ==> Obj(forced) == FORCED.fields[SANDBOX];
  }

  method ParseEntries(entries: seq<string>, parse: string -> Option<Json>) returns (r: Result<seq<Fields>, ConfigError>)
    ensures r.Ok? ==>
      |r.value| == |entries| && forall j :: 0 <= j < |entries| ==> parse(entries[j]) == Some(Obj(r.value[j]))
    ensures r.Err? ==>
      && r.error.BadEntry? && r.error.index < |entries|
      && !IsObject(parse(entries[r.error.index])) && r.error.problem == ProblemOf(parse(entries[r.error.index]))
      && forall j :: 0 <= j < r.error.index ==> IsObject(parse(entries[j]))
  {
    var parsed: seq<Fields> := [];
    for i := 0 to |entries|
      invariant |parsed| == i
      invariant forall j :: 0 <= j < i ==> parse(entries[j]) == Some(Obj(parsed[j]))
    {
      var p := parse(entries[i]);
      if !IsObject(p) {
        return Err(BadEntry(i, ProblemOf(p)));
      }
      parsed := parsed + [p.value.fields];
    }
    r := Ok(parsed);
  }

  method MergeEntries(entries: seq<string>, parsed: seq<Fields>, ghost parse: string -> Option<Json>)
    returns (base: Fields)
    requires entries != [] && |parsed| == |entries|
    requires forall j :: 0 <= j < |entries| ==> parse(entries[j]) == Some(Obj(parsed[j]))
    ensures Obj(base) == Folded(entries, parse)
  {
    base := parsed[0];
    for i := 1 to |parsed|
      invariant Obj(base) == Folded(entries[..i], parse)
    {
      base := DeepMergeInto(base, parsed[i]);
      assert entries[..i + 1][..i] == entries[..i];
    }
    assert entries[..|entries|] == entries;
  }

  method BuildCodexConfigEnv(
    env: seq<(string, string)>, parent: Option<string>, generated: bool, parse: string -> Option<Json>)
    returns (r: Result<Option<Json>, ConfigError>)
    ensures !generated || Entries(env) == [] ==> r == Ok(None)
    ensures generated && Entries(env) != [] ==>
      var entries := Entries(env); var sources := Sources(entries, parent);
      match r
      case Err(BadEntry(i, p)) =>
        && i < |entries| && !IsObject(parse(entries[i])) && p == ProblemOf(parse(entries[i]))
        && forall j :: 0 <= j < i ==> IsObject(parse(entries[j]))
      case Err(BadParent(p)) =>
        && (forall s :: s in entries ==> IsObject(parse(s)))
        && parent.Some? && !IsObject(parse(parent.value)) && p == ProblemOf(parse(parent.value))
      case Err(BadSandbox) =>
        (forall s :: s in sources ==> IsObject(parse(s))) && !Forceable(Folded(sources, parse))
      case Ok(None) => false
      case Ok(Some(v)) =>
        && (forall s :: s in sources ==> IsObject(parse(s)))
        && Forceable(Folded(sources, parse)) && v == Merge(Folded(sources, parse), FORCED)
  {
    var entries := Entries(env);
    if !generated || entries == [] {
      return Ok(None);
    }
    var parsed := ParseEntries(entries, parse);
    if parsed.Err? {
      return Err(parsed.error);
    }
    var base := MergeEntries(entries, parsed.value, parse);
    if parent.Some? {
      var p := parse(parent.value);
      if !IsObject(p) {
        return Err(BadParent(ProblemOf(p)));
      }
      base := DeepMergeInto(base, p.value.fields);
      assert (entries + [parent.value])[..|entries|] == entries;
    }
    var forced := ForceNetwork(base);
    r := if forced.Some? then Ok(Some(Obj(forced.value))) else Err(BadSandbox);
  }

  /** In what is built, network access is on and every path apart from that setting reads as in the fold. */
  lemma ForcedPaths(v: Json, path: seq<string>)
    requires Forceable(v)
    ensures Lookup(Merge(v, FORCED), [SANDBOX, NETWORK]) == Some(Bool(true))
    ensures !(path <= [SANDBOX, NETWORK]) && !([SANDBOX, NETWORK] <= path) ==>
              Lookup(Merge(v, FORCED), path) == Lookup(v, path)
  {
    var setting := [SANDBOX, NETWORK];
    assert setting[1..] == [NETWORK] && [NETWORK][1..] == [];
    assert Follow(FORCED, setting) == Follow(FORCED.fields[SANDBOX], [NETWORK]) == Reaches(Bool(true));
    LeavesOfMerge(v, FORCED, setting, Bool(true));
    if !(path <= setting) && !(setting <= path) {
      MergeAtPath(v, FORCED, path);
      if path[0] == SANDBOX {
        assert |path| > 1 && path[1] != NETWORK;
      }
    }
  }
}
