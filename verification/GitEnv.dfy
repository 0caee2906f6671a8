/**
Git configuration passed through the environment (git.rs): how the block of
GIT_CONFIG_* variables is composed, read back, and kept free of the agent's
identity when commits belong to the operator.
*/
module GitEnv {
  import opened Prelude
  import opened Decimal

  type Entry = (string, string)

  // ----- keys -----

  function IndexOf(s: string, c: char): (r: Option<nat>)
    ensures r.Some? ==> r.value < |s| && s[r.value] == c && c !in s[..r.value]
    ensures r.None? ==> c !in s
  {
    if s == [] then None
    else if s[0] == c then Some(0)
    else match IndexOf(s[1..], c) case None => None case Some(i) => Some(i + 1)
  }

  function LastIndexOf(s: string, c: char): (r: Option<nat>)
    ensures r.Some? ==> r.value < |s| && s[r.value] == c && c !in s[r.value + 1..]
    ensures r.None? ==> c !in s
  {
    if s == [] then None
    else if s[|s| - 1] == c then Some(|s| - 1)
    else LastIndexOf(s[..|s| - 1], c)
  }

  datatype Key = Key(section: string, subsection: Option<string>, variable: string)

  /** `split_config_key`: the subsection is everything between the first and the last dot. */
  function SplitKey(key: string): Option<Key>
  {
    match IndexOf(key, '.')
    case None => None
    case Some(i) =>
      var rest := key[i + 1..];
      match LastIndexOf(rest, '.')
      case None => Some(Key(key[..i], None, rest))
      case Some(j) => Some(Key(key[..i], Some(rest[..j]), rest[j + 1..]))
  }

  function LowerChar(c: char): char
  {
    if 'A' <= c <= 'Z' then c - 'A' + 'a' else c
  }

  function Lower(s: string): (r: string)
    ensures |r| == |s| && forall i :: 0 <= i < |s| ==> r[i] == LowerChar(s[i])
  {
    seq(|s|, i requires 0 <= i < |s| => LowerChar(s[i]))
  }

  predicate SameIgnoringCase(a: string, b: string)
  {
    Lower(a) == Lower(b)
  }

  predicate SameParts(x: Key, y: Key)
  {
    && SameIgnoringCase(x.section, y.section) && x.subsection == y.subsection
    && SameIgnoringCase(x.variable, y.variable)
  }

  /** `same_config_key`: Git's key equality. */
  predicate SameKey(a: string, b: string)
  {
    match (SplitKey(a), SplitKey(b))
    case (Some(x), Some(y)) => SameParts(x, y)
    case _ => false
  }

  predicate IncludeParts(k: Key)
  {
    && SameIgnoringCase(k.section, if k.subsection.None? then "include" else "includeIf")
    && SameIgnoringCase(k.variable, "path")
  }

  predicate IsInclude(key: string)
  {
    match SplitKey(key) case None => false case Some(k) => IncludeParts(k)
  }

  /** Key equality is an equivalence on well-formed keys. */
  lemma SameKeyIsEquality(a: string, b: string, c: string)
    ensures SameKey(a, a) <==> '.' in a
    ensures SameKey(a, b) ==> SameKey(b, a)
    ensures SameKey(a, b) && SameKey(b, c) ==> SameKey(a, c)
  {
  }

  // ----- the managed entries -----

  const AUTHOR_COMMITTER_KEYS: seq<string> := ["author.name", "author.email", "committer.name", "committer.email"]

  datatype Identity = Identity(name: string, email: string, pubkey: string, keyfile: string)

  /** `identity_entries`, with its values given. */
  function IdentityEntries(id: Identity): seq<Entry>
  {
    [("user.name", id.name), ("user.email", id.email), ("gpg.format", "x509"), ("gpg.x509.program", "git-sign-nostr"),
     ("commit.gpgSign", "true"), ("tag.gpgSign", "true"), ("user.signingkey", id.pubkey), ("nostr.keyfile", id.keyfile)]
  }

  function CredentialEntries(relay: string): seq<Entry>
  {
    var scope := "credential." + relay + "/git";
    [(scope + ".helper", ""), (scope + ".helper", "nostr"), (scope + ".useHttpPath", "true")]
  }

  predicate Manages(managed: seq<Entry>, key: string)
  {
    exists i :: 0 <= i < |managed| && SameKey(managed[i].0, key)
  }

  predicate AuthorOrCommitter(key: string)
  {
    exists i :: 0 <= i < 4 && SameKey(AUTHOR_COMMITTER_KEYS[i], key)
  }

  predicate KeptForUser(key: string, managed: seq<Entry>)
  {
    !IsInclude(key) && !AuthorOrCommitter(key) && !Manages(managed, key)
  }

  /** The user-mode `retain`. */
  function Retained(inherited: seq<Entry>, managed: seq<Entry>): (r: seq<Entry>)
    ensures forall e :: e in r <==> e in inherited && KeptForUser(e.0, managed)
  {
    if inherited == [] then []
    else (if KeptForUser(inherited[0].0, managed) then [inherited[0]] else []) + Retained(inherited[1..], managed)
  }

  // ----- composing and reading back -----

  function KeyName(i: nat): string
  {
    "GIT_CONFIG_KEY_" + Show(i)
  }

  function ValueName(i: nat): string
  {
    "GIT_CONFIG_VALUE_" + Show(i)
  }

  const COUNT_NAME := "GIT_CONFIG_COUNT"

  function Pairs(entries: seq<Entry>): seq<Entry>
  {
    if entries == [] then []
    else
      var i := |entries| - 1;
      Pairs(entries[..i]) + [(KeyName(i), entries[i].0), (ValueName(i), entries[i].1)]
  }

  function EnvOf(entries: seq<Entry>): seq<Entry>
  {
    [(COUNT_NAME, Show(|entries|))] + Pairs(entries)
  }

  /** `build_git_env` */
  method BuildGitEnv(relay: string, managed: seq<Entry>, inherited: seq<Entry>) returns (env: seq<Entry>)
    ensures env == EnvOf(inherited + CredentialEntries(relay) + managed)
  {
    var scope := "credential." + relay + "/git";
    var entries :=
      inherited + [(scope + ".helper", ""), (scope + ".helper", "nostr"), (scope + ".useHttpPath", "true")];
    entries := entries + managed;
    env := [(COUNT_NAME, Show(|entries|))];
    for i := 0 to |entries|
      invariant env == EnvOf(entries[..i])[0 := (COUNT_NAME, Show(|entries|))]
    {
      env := env + [(KeyName(i), entries[i].0)];
      env := env + [(ValueName(i), entries[i].1)];
      assert entries[..i + 1][..i] == entries[..i];
    }
    assert entries[..|entries|] == entries;
  }

  const USIZE_MAX: nat := 0xFFFF_FFFF_FFFF_FFFF
  const MAX_INHERITED: nat := 1024

  datatype ReadError = BadCount | TooMany | MissingVariable

  /** The value of a variable in a child's environment; a later setting wins. */
  function EnvVar(env: seq<Entry>, name: string): Option<string>
  {
    if env == [] then None
    else if env[|env| - 1].0 == name then Some(env[|env| - 1].1)
    else EnvVar(env[..|env| - 1], name)
  }

  /** Rust's `parse::<usize>`: digits, after an optional plus sign. */
  function ParseUsize(s: string): Option<nat>
  {
    var t := if s != [] && s[0] == '+' then s[1..] else s;
    if t == [] || exists c :: c in t && !IsDigit(c) then None
    else if Value(t) > USIZE_MAX then None
    else Some(Value(t))
  }

  function Collect(env: seq<Entry>, n: nat): Result<seq<Entry>, ReadError>
  {
    if n == 0 then Ok([])
    else match Collect(env, n - 1)
      case Err(e) => Err(e)
      case Ok(es) =>
        var k, v := EnvVar(env, KeyName(n - 1)), EnvVar(env, ValueName(n - 1));
        if k.None? || v.None? then Err(MissingVariable) else Ok(es + [(k.value, v.value)])
  }

  /** `inherited_config` */
  function ReadConfig(env: seq<Entry>): Result<seq<Entry>, ReadError>
  {
    match EnvVar(env, COUNT_NAME)
    case None => Ok([])
    case Some(text) =>
      match ParseUsize(text)
      case None => Err(BadCount)
      case Some(n) => if n > MAX_INHERITED then Err(TooMany) else Collect(env, n)
  }

  predicate Reserved(name: string)
  {
    "GIT_CONFIG_" <= name
  }

  lemma NamesDiffer(i: nat, j: nat)
    ensures KeyName(i) != ValueName(j) && KeyName(i) != COUNT_NAME && ValueName(i) != COUNT_NAME
    ensures KeyName(i) == KeyName(j) ==> i == j
    ensures ValueName(i) == ValueName(j) ==> i == j
    ensures Reserved(KeyName(i)) && Reserved(ValueName(i)) && Reserved(COUNT_NAME)
  {
    assert KeyName(i)[11] == 'K' && ValueName(i)[11] == 'V' && ValueName(j)[11] == 'V' && COUNT_NAME[11] == 'C';
    assert KeyName(i)[15..] == Show(i) && KeyName(j)[15..] == Show(j);
    assert ValueName(i)[17..] == Show(i) && ValueName(j)[17..] == Show(j);
    if Show(i) == Show(j) {
      ShowInjective(i, j);
    }
  }

  lemma {:induction false} EnvVarAppend(a: seq<Entry>, b: seq<Entry>, name: string)
    ensures EnvVar(a + b, name) == if EnvVar(b, name).Some? then EnvVar(b, name) else EnvVar(a, name)
    decreases |b|
  {
    if b == [] {
      assert a + b == a;
    } else {
      assert (a + b)[..|a + b| - 1] == a + b[..|b| - 1];
      EnvVarAppend(a, b[..|b| - 1], name);
    }
  }

  lemma {:induction false} UnreservedMissing(env: seq<Entry>, name: string)
    requires Reserved(name) && forall e :: e in env ==> !Reserved(e.0)
    ensures EnvVar(env, name).None?
    decreases |env|
  {
    if env == [] {
    } else {
      assert env[|env| - 1] in env;
      UnreservedMissing(env[..|env| - 1], name);
    }
  }

  lemma {:induction false} PairsHold(entries: seq<Entry>, i: nat)
    requires i < |entries|
    ensures EnvVar(Pairs(entries), KeyName(i)) == Some(entries[i].0)
    ensures EnvVar(Pairs(entries), ValueName(i)) == Some(entries[i].1)
    decreases |entries|
  {
    var n := |entries| - 1;
    var last := [(KeyName(n), entries[n].0), (ValueName(n), entries[n].1)];
    NamesDiffer(n, i);
    NamesDiffer(i, n);
    LastPair(n, entries[n], KeyName(i));
    LastPair(n, entries[n], ValueName(i));
    EnvVarAppend(Pairs(entries[..n]), last, KeyName(i));
    EnvVarAppend(Pairs(entries[..n]), last, ValueName(i));
    if i < n {
      PairsHold(entries[..n], i);
    }
  }

  lemma LastPair(n: nat, e: Entry, name: string)
    ensures var env := [(KeyName(n), e.0), (ValueName(n), e.1)];
            EnvVar(env, name) ==
            if name == ValueName(n) then Some(e.1) else if name == KeyName(n) then Some(e.0) else None
  {
    var env := [(KeyName(n), e.0), (ValueName(n), e.1)];
    assert env[..1] == [(KeyName(n), e.0)] && env[..1][..0] == [];
    assert EnvVar(env[..1], name) == if name == KeyName(n) then Some(e.0) else None;
  }

  lemma {:induction false} CountNotInPairs(entries: seq<Entry>)
    ensures EnvVar(Pairs(entries), COUNT_NAME).None?
    decreases |entries|
  {
    if entries == [] {
    } else {
      var n := |entries| - 1;
      NamesDiffer(n, n);
      LastPair(n, entries[n], COUNT_NAME);
      EnvVarAppend(Pairs(entries[..n]), [(KeyName(n), entries[n].0), (ValueName(n), entries[n].1)], COUNT_NAME);
      CountNotInPairs(entries[..n]);
    }
  }

  lemma {:induction false} CollectHolds(env: seq<Entry>, entries: seq<Entry>, n: nat)
    requires n <= |entries|
    requires forall i :: 0 <= i < |entries| ==>
               EnvVar(env, KeyName(i)) == Some(entries[i].0) && EnvVar(env, ValueName(i)) == Some(entries[i].1)
    ensures Collect(env, n) == Ok(entries[..n])
    decreases n
  {
    if n == 0 {
    } else {
      CollectHolds(env, entries, n - 1);
      assert entries[..n] == entries[..n - 1] + [entries[n - 1]];
    }
  }

  lemma ParseShownCount(n: nat)
    ensures ParseUsize(Show(n)) == if n <= USIZE_MAX then Some(n) else None
  {
    assert Show(n)[0] in Show(n);
    ShowThenRead(n);
  }

  /** What a harness makes of a block of this many entries. */
  function Limited(entries: seq<Entry>, n: nat): Result<seq<Entry>, ReadError>
  {
    if n <= MAX_INHERITED then Ok(entries) else if n <= USIZE_MAX then Err(TooMany) else Err(BadCount)
  }

  /**
  A nested harness reads back exactly the block that was composed, in order, up to
  its limit, whatever the process's environment held before, even an older block.
  */
  lemma ConfigRoundTrip(prior: seq<Entry>, entries: seq<Entry>, extra: seq<Entry>)
    requires forall e :: e in extra ==> !Reserved(e.0)
    ensures ReadConfig(prior + (EnvOf(entries) + extra)) == Limited(entries, |entries|)
  {
    var env := prior + (EnvOf(entries) + extra);
    CountSurvives(prior, entries, extra);
    ParseShownCount(|entries|);
    forall i | 0 <= i < |entries|
      ensures EnvVar(env, KeyName(i)) == Some(entries[i].0) && EnvVar(env, ValueName(i)) == Some(entries[i].1)
    {
      NamesDiffer(i, i);
      PairsHold(entries, i);
      VariableSurvives(prior, entries, extra, KeyName(i));
      VariableSurvives(prior, entries, extra, ValueName(i));
    }
    CollectHolds(env, entries, |entries|);
    assert entries[..|entries|] == entries;
  }

  lemma CountSurvives(prior: seq<Entry>, entries: seq<Entry>, extra: seq<Entry>)
    requires forall e :: e in extra ==> !Reserved(e.0)
    ensures EnvVar(prior + (EnvOf(entries) + extra), COUNT_NAME) == Some(Show(|entries|))
  {
    var head := [(COUNT_NAME, Show(|entries|))];
    NamesDiffer(0, 0);
    UnreservedMissing(extra, COUNT_NAME);
    EnvVarAppend(prior, EnvOf(entries) + extra, COUNT_NAME);
    EnvVarAppend(EnvOf(entries), extra, COUNT_NAME);
    CountNotInPairs(entries);
    EnvVarAppend(head, Pairs(entries), COUNT_NAME);
    assert EnvVar(head, COUNT_NAME) == Some(Show(|entries|));
  }

  lemma VariableSurvives(prior: seq<Entry>, entries: seq<Entry>, extra: seq<Entry>, name: string)
    requires Reserved(name) && EnvVar(Pairs(entries), name).Some? && forall e :: e in extra ==> !Reserved(e.0)
    ensures EnvVar(prior + (EnvOf(entries) + extra), name) == EnvVar(Pairs(entries), name)
  {
    UnreservedMissing(extra, name);
    EnvVarAppend(prior, EnvOf(entries) + extra, name);
    EnvVarAppend(EnvOf(entries), extra, name);
    EnvVarAppend([(COUNT_NAME, Show(|entries|))], Pairs(entries), name);
  }

  lemma {:induction false} CollectSize(env: seq<Entry>, n: nat)
    ensures Collect(env, n).Ok? ==> |Collect(env, n).value| == n
  {
    if n == 0 {
    } else {
      CollectSize(env, n - 1);
    }
  }

  lemma ReadWithinLimit(env: seq<Entry>)
    ensures ReadConfig(env).Ok? ==> |ReadConfig(env).value| <= MAX_INHERITED
  {
    var text := EnvVar(env, COUNT_NAME);
    if text.Some? && ParseUsize(text.value).Some? {
      CollectSize(env, ParseUsize(text.value).value);
    }
  }

  // ----- what Git makes of the block -----

  /** The value Git uses: the last entry whose key is equal. */
  function Effective(config: seq<Entry>, key: string): Option<string>
  {
    if config == [] then None
    else if SameKey(config[|config| - 1].0, key) then Some(config[|config| - 1].1)
    else Effective(config[..|config| - 1], key)
  }

  lemma {:induction false} EffectiveAppend(a: seq<Entry>, b: seq<Entry>, key: string)
    ensures Effective(a + b, key) == if Effective(b, key).Some? then Effective(b, key) else Effective(a, key)
    decreases |b|
  {
    if b == [] {
      assert a + b == a;
    } else {
      assert (a + b)[..|a + b| - 1] == a + b[..|b| - 1];
      EffectiveAppend(a, b[..|b| - 1], key);
    }
  }

  lemma {:induction false} NoEqualKey(config: seq<Entry>, key: string)
    requires forall e :: e in config ==> !SameKey(e.0, key)
    ensures Effective(config, key).None?
    decreases |config|
  {
    if config == [] {
    } else {
      assert config[|config| - 1] in config;
      NoEqualKey(config[..|config| - 1], key);
    }
  }

  lemma {:induction false} LastEqualKeyWins(config: seq<Entry>, i: nat, key: string)
    requires i < |config| && SameKey(config[i].0, key)
    requires forall j :: i < j < |config| ==> !SameKey(config[j].0, key)
    ensures Effective(config, key) == Some(config[i].1)
    decreases |config|
  {
    if i < |config| - 1 {
      LastEqualKeyWins(config[..|config| - 1], i, key);
    }
  }

  // ----- agent mode -----

  /** What tells the managed keys apart: the lengths of section and variable, and whether there is a subsection. */
  function Shape(key: string): Option<(nat, nat, bool)>
  {
    match SplitKey(key) case None => None case Some(k) => Some((|k.section|, |k.variable|, k.subsection.Some?))
  }

  lemma SameKeySameShape(a: string, b: string)
    requires SameKey(a, b)
    ensures Shape(a) == Shape(b) && Shape(a).Some?
  {
    assert |Lower(SplitKey(a).value.section)| == |Lower(SplitKey(b).value.section)|;
  }

  /** The first dot ends a section of the given length, the last one starts a variable of the given length. */
  predicate Dots(key: string, shape: (nat, nat, bool))
  {
    && shape.0 + shape.1 < |key| && key[shape.0] == '.' && key[|key| - 1 - shape.1] == '.'
    && shape.2 == (shape.0 + shape.1 + 1 < |key|)
    && (forall k :: 0 <= k < shape.0 ==> key[k] != '.')
    && (forall k :: |key| - shape.1 <= k < |key| ==> key[k] != '.')
  }

  lemma {:induction false} IndexOfIs(s: string, c: char, i: nat)
    requires i < |s| && s[i] == c && forall k :: 0 <= k < i ==> s[k] != c
    ensures IndexOf(s, c) == Some(i)
  {
    if i == 0 {
    } else {
      IndexOfIs(s[1..], c, i - 1);
    }
  }

  lemma {:induction false} LastIndexOfIs(s: string, c: char, i: nat)
    requires i < |s| && s[i] == c && forall k :: i < k < |s| ==> s[k] != c
    ensures LastIndexOf(s, c) == Some(i)
    decreases |s|
  {
    if i < |s| - 1 {
      LastIndexOfIs(s[..|s| - 1], c, i);
    }
  }

  lemma DotsShape(key: string, shape: (nat, nat, bool))
    requires Dots(key, shape)
    ensures Shape(key) == Some(shape)
  {
    IndexOfIs(key, '.', shape.0);
    VariableAfterDots(key, shape, key[shape.0 + 1..]);
  }

  lemma VariableAfterDots(key: string, shape: (nat, nat, bool), rest: string)
    requires Dots(key, shape) && rest == key[shape.0 + 1..]
    ensures LastIndexOf(rest, '.') == if shape.2 then Some(|rest| - 1 - shape.1) else None
  {
    if shape.2 {
      LastIndexOfIs(rest, '.', |rest| - 1 - shape.1);
    }
  }

  function IdentityShape(i: nat): (shape: (nat, nat, bool))
    requires i < 8
    ensures shape.0 < 10
  {
    if i == 0 then (4, 4, false) else if i == 1 then (4, 5, false)
    else if i == 2 then (3, 6, false) else if i == 3 then (3, 7, true)
    else if i == 4 then (6, 7, false) else if i == 5 then (3, 7, false)
    else if i == 6 then (4, 10, false) else (5, 7, false)
  }

  lemma ShapesDiffer(i: nat, j: nat)
    requires i < j < 8
    ensures IdentityShape(i) != IdentityShape(j)
  {
  }

  function AuthorShape(i: nat): (nat, nat, bool)
    requires i < 4
  {
    (if i < 2 then 6 else 9, 4 + i % 2, false)
  }

  lemma AuthorDots(i: nat)
    requires i < 4
    ensures Dots(AUTHOR_COMMITTER_KEYS[i], AuthorShape(i))
  {
  }

  lemma CredentialShapes(relay: string, i: nat)
    requires i < 3
    ensures var shape := Shape(CredentialEntries(relay)[i].0); shape.Some? && shape.value.0 == 10
  {
    DotsShape(CredentialEntries(relay)[i].0, (10, if i < 2 then 6 else 11, true));
  }

  lemma DifferentShapes(a: string, b: string)
    requires Shape(a) != Shape(b)
    ensures !SameKey(a, b)
  {
    if SameKey(a, b) {
      SameKeySameShape(a, b);
    }
  }

  /** A block of managed entries with the keys of `IdentityEntries`. */
  predicate HasIdentityKeys(managed: seq<Entry>)
  {
    |managed| == 8 && forall i :: 0 <= i < 8 ==> Shape(managed[i].0) == Some(IdentityShape(i))
  }

  lemma AttributionDots(id: Identity, i: nat)
    requires i < 4
    ensures Dots(IdentityEntries(id)[i].0, IdentityShape(i))
  {
  }

  lemma SigningDots(id: Identity, i: nat)
    requires 4 <= i < 8
    ensures Dots(IdentityEntries(id)[i].0, IdentityShape(i))
  {
  }

  lemma IdentityKeys(id: Identity)
    ensures HasIdentityKeys(IdentityEntries(id))
  {
    forall i | 0 <= i < 8
      ensures Shape(IdentityEntries(id)[i].0) == Some(IdentityShape(i))
    {
      if i < 4 {
        AttributionDots(id, i);
      } else {
        SigningDots(id, i);
      }
      DotsShape(IdentityEntries(id)[i].0, IdentityShape(i));
    }
  }

  lemma WellFormedKey(key: string)
    requires Shape(key).Some?
    ensures SameKey(key, key)
  {
  }

  lemma ManagedWins(prior: seq<Entry>, managed: seq<Entry>, i: nat, key: string)
    requires HasIdentityKeys(managed) && i < 8 && SameKey(managed[i].0, key)
    ensures Effective(prior + managed, key) == Some(managed[i].1)
  {
    SameKeySameShape(managed[i].0, key);
    forall j | i < j < |managed|
      ensures !SameKey(managed[j].0, key)
    {
      ShapesDiffer(i, j);
      DifferentShapes(managed[j].0, key);
    }
    LastEqualKeyWins(managed, i, key);
    EffectiveAppend(prior, managed, key);
  }

  lemma Unmanaged(prior: seq<Entry>, managed: seq<Entry>, key: string)
    requires !Manages(managed, key)
    ensures Effective(prior + managed, key) == Effective(prior, key)
  {
    NoEqualKey(managed, key);
    EffectiveAppend(prior, managed, key);
  }

  function AgentConfig(inherited: seq<Entry>, relay: string, managed: seq<Entry>): seq<Entry>
  {
    inherited + CredentialEntries(relay) + managed
  }

  /** For every key, the value of a block that ends in the agent's managed entries. */
  lemma AgentMeaning(prior: seq<Entry>, managed: seq<Entry>, key: string)
    requires HasIdentityKeys(managed)
    ensures forall i :: 0 <= i < 8 && SameKey(managed[i].0, key) ==>
              Effective(prior + managed, key) == Some(managed[i].1)
    ensures !Manages(managed, key) ==> Effective(prior + managed, key) == Effective(prior, key)
  {
    forall i | 0 <= i < 8 && SameKey(managed[i].0, key)
      ensures Effective(prior + managed, key) == Some(managed[i].1)
    {
      ManagedWins(prior, managed, i, key);
    }
    if !Manages(managed, key) {
      Unmanaged(prior, managed, key);
    }
  }

  /**
  What Git sees in agent mode, for every key: one that equals an attribution or
  signing key takes the agent's value whatever was inherited, and all others are
  untouched.
  */
  lemma AgentModeMeaning(inherited: seq<Entry>, relay: string, id: Identity, key: string)
    ensures forall i :: 0 <= i < 8 && SameKey(IdentityEntries(id)[i].0, key) ==>
              Effective(AgentConfig(inherited, relay, IdentityEntries(id)), key) == Some(IdentityEntries(id)[i].1)
    ensures !Manages(IdentityEntries(id), key) ==>
              Effective(AgentConfig(inherited, relay, IdentityEntries(id)), key) ==
              Effective(inherited + CredentialEntries(relay), key)
  {
    IdentityKeys(id);
    AgentMeaning(inherited + CredentialEntries(relay), IdentityEntries(id), key);
  }

  // ----- user mode -----

  /** Equal keys are kept or dropped together. */
  lemma KeptRespectsEquality(a: string, b: string, managed: seq<Entry>)
    requires SameKey(a, b) && KeptForUser(a, managed)
    ensures KeptForUser(b, managed)
  {
    SameKeyIsEquality(a, b, a);
    if Manages(managed, b) {
      var i :| 0 <= i < |managed| && SameKey(managed[i].0, b);
      SameKeyIsEquality(managed[i].0, b, a);
    }
    if AuthorOrCommitter(b) {
      var i :| 0 <= i < 4 && SameKey(AUTHOR_COMMITTER_KEYS[i], b);
      SameKeyIsEquality(AUTHOR_COMMITTER_KEYS[i], b, a);
    }
  }

  lemma ShortSection(a: string, key: string, shape: (nat, nat, bool))
    requires SameKey(a, key) && Shape(a) == Some(shape) && shape.0 < 10
    ensures Shape(key).Some? && Shape(key).value.0 < 10
  {
    SameKeySameShape(a, key);
  }

  lemma ManagedShape(key: string, managed: seq<Entry>)
    requires HasIdentityKeys(managed) && Manages(managed, key)
    ensures Shape(key).Some? && Shape(key).value.0 < 10
  {
    var j := ManagedIndex(managed, key);
    ShortSection(managed[j].0, key, IdentityShape(j));
  }

  lemma ManagedIndex(managed: seq<Entry>, key: string) returns (j: nat)
    requires Manages(managed, key)
    ensures j < |managed| && SameKey(managed[j].0, key)
  {
    j :| j < |managed| && SameKey(managed[j].0, key);
  }

  lemma AuthorOrCommitterShape(key: string)
    requires AuthorOrCommitter(key)
    ensures Shape(key).Some? && Shape(key).value.0 < 10
  {
    var j :| 0 <= j < 4 && SameKey(AUTHOR_COMMITTER_KEYS[j], key);
    AuthorDots(j);
    DotsShape(AUTHOR_COMMITTER_KEYS[j], AuthorShape(j));
    ShortSection(AUTHOR_COMMITTER_KEYS[j], key, AuthorShape(j));
  }

  lemma IncludeShape(key: string)
    requires IsInclude(key)
    ensures Shape(key).Some? && Shape(key).value.0 < 10
  {
    var k := SplitKey(key).value;
    assert |k.section| == |Lower(k.section)| == |Lower(if k.subsection.None? then "include" else "includeIf")|;
  }

  lemma DroppedShape(key: string, managed: seq<Entry>)
    requires HasIdentityKeys(managed) && !KeptForUser(key, managed)
    ensures Shape(key).Some? && Shape(key).value.0 < 10
  {
    if Manages(managed, key) {
      ManagedShape(key, managed);
    } else if AuthorOrCommitter(key) {
      AuthorOrCommitterShape(key);
    } else {
      IncludeShape(key);
    }
  }

  lemma DroppedIsNotCredential(key: string, managed: seq<Entry>, relay: string)
    requires HasIdentityKeys(managed) && !KeptForUser(key, managed)
    ensures Effective(CredentialEntries(relay), key).None?
  {
    var credentials := CredentialEntries(relay);
    DroppedShape(key, managed);
    forall e | e in credentials
      ensures !SameKey(e.0, key)
    {
      var i :| 0 <= i < |credentials| && credentials[i] == e;
      CredentialShapes(relay, i);
      DifferentShapes(e.0, key);
    }
    NoEqualKey(credentials, key);
  }

  lemma {:induction false} RetainedEffective(inherited: seq<Entry>, managed: seq<Entry>, key: string)
    ensures Effective(Retained(inherited, managed), key) ==
            if KeptForUser(key, managed) then Effective(inherited, key) else None
    decreases |inherited|
  {
    if inherited == [] {
    } else {
      var head, tail := [inherited[0]], inherited[1..];
      assert inherited == head + tail;
      EffectiveAppend(head, tail, key);
      RetainedOne(inherited[0], managed, key);
      EffectiveAppend(Retained(head, managed), Retained(tail, managed), key);
      RetainedEffective(tail, managed, key);
    }
  }

  lemma RetainedOne(e: Entry, managed: seq<Entry>, key: string)
    ensures Retained([e], managed) == if KeptForUser(e.0, managed) then [e] else []
    ensures Effective(Retained([e], managed), key) == if KeptForUser(key, managed) then Effective([e], key) else None
  {
    assert [e][1..] == [] && [e][..0] == [];
    if SameKey(e.0, key) {
      SameKeyIsEquality(e.0, key, key);
      if KeptForUser(e.0, managed) {
        KeptRespectsEquality(e.0, key, managed);
      } else if KeptForUser(key, managed) {
        KeptRespectsEquality(key, e.0, managed);
      }
    }
  }

  lemma OneMore(config: seq<Entry>, e: Entry, key: string)
    ensures Effective(config + [e], key) == if SameKey(e.0, key) then Some(e.1) else Effective(config, key)
  {
    assert (config + [e])[..|config|] == config;
  }

  /** `keyfile` is the one managed entry of user mode; `managed` are the keys it drops. */
  function UserConfig(inherited: seq<Entry>, relay: string, managed: seq<Entry>, keyfile: Entry): seq<Entry>
  {
    Retained(inherited, managed) + CredentialEntries(relay) + [keyfile]
  }

  function Keyfile(id: Identity): Entry
  {
    ("nostr.keyfile", id.keyfile)
  }

  /** In user mode no entry but the last is an include, an author or committer key, or one of the agent's keys. */
  lemma UserEntriesClean(inherited: seq<Entry>, relay: string, id: Identity)
    ensures var config := UserConfig(inherited, relay, IdentityEntries(id), Keyfile(id));
            forall e :: e in config[..|config| - 1] ==> KeptForUser(e.0, IdentityEntries(id))
  {
    IdentityKeys(id);
    KeptAndCredentials(inherited, relay, IdentityEntries(id));
    var config := UserConfig(inherited, relay, IdentityEntries(id), Keyfile(id));
    assert config[..|config| - 1] == Retained(inherited, IdentityEntries(id)) + CredentialEntries(relay);
  }

  lemma KeptAndCredentials(inherited: seq<Entry>, relay: string, managed: seq<Entry>)
    requires HasIdentityKeys(managed)
    ensures forall e :: e in Retained(inherited, managed) + CredentialEntries(relay) ==> KeptForUser(e.0, managed)
  {
    forall e | e in CredentialEntries(relay)
      ensures KeptForUser(e.0, managed)
    {
      var i :| 0 <= i < |CredentialEntries(relay)| && CredentialEntries(relay)[i] == e;
      CredentialIsKept(relay, managed, i);
    }
  }

  lemma CredentialIsKept(relay: string, managed: seq<Entry>, i: nat)
    requires HasIdentityKeys(managed) && i < 3
    ensures KeptForUser(CredentialEntries(relay)[i].0, managed)
  {
    CredentialShapes(relay, i);
    if !KeptForUser(CredentialEntries(relay)[i].0, managed) {
      DroppedShape(CredentialEntries(relay)[i].0, managed);
    }
  }

  /**
  What Git sees in user mode, for every key: the agent's key file; nothing for
  the other attribution, signing and include keys; and for all remaining keys
  exactly what the operator's own configuration says.
  */
  lemma UserModeMeaning(inherited: seq<Entry>, relay: string, id: Identity, key: string)
    ensures Effective(UserConfig(inherited, relay, IdentityEntries(id), Keyfile(id)), key) ==
            if SameKey(Keyfile(id).0, key) then Some(id.keyfile)
            else if KeptForUser(key, IdentityEntries(id)) then Effective(inherited + CredentialEntries(relay), key)
            else None
  {
    IdentityKeys(id);
    UserMeaning(inherited, relay, IdentityEntries(id), Keyfile(id), key);
  }

  lemma UserMeaning(inherited: seq<Entry>, relay: string, managed: seq<Entry>, keyfile: Entry, key: string)
    requires HasIdentityKeys(managed)
    ensures Effective(UserConfig(inherited, relay, managed, keyfile), key) ==
            if SameKey(keyfile.0, key) then Some(keyfile.1)
            else if KeptForUser(key, managed) then Effective(inherited + CredentialEntries(relay), key)
            else None
  {
    OneMore(Retained(inherited, managed) + CredentialEntries(relay), keyfile, key);
    RetainedThenCredentials(inherited, relay, managed, key);
  }

  lemma RetainedThenCredentials(inherited: seq<Entry>, relay: string, managed: seq<Entry>, key: string)
    requires HasIdentityKeys(managed)
    ensures Effective(Retained(inherited, managed) + CredentialEntries(relay), key) ==
            if KeptForUser(key, managed) then Effective(inherited + CredentialEntries(relay), key) else None
  {
    EffectiveAppend(Retained(inherited, managed), CredentialEntries(relay), key);
    EffectiveAppend(inherited, CredentialEntries(relay), key);
    RetainedEffective(inherited, managed, key);
    if !KeptForUser(key, managed) {
      DroppedIsNotCredential(key, managed, relay);
    }
  }
}
