/**
A harness started by a harness (git.rs): each one reads the configuration of the
one around it and composes its own over it, with its own relay, identity and key
file; the mode is forwarded.
*/
module GitNesting {
  import opened Prelude
  import opened GitEnv

  datatype Level = Level(relay: string, id: Identity)

  /** What a level composes with: its managed entries in agent mode, its key file in user mode. */
  datatype Layer = Layer(relay: string, managed: seq<Entry>, keyfile: Entry)

  function LayerOf(level: Level): Layer
  {
    Layer(level.relay, IdentityEntries(level.id), Keyfile(level.id))
  }

  function LayersOf(levels: seq<Level>): seq<Layer>
  {
    seq(|levels|, i requires 0 <= i < |levels| => LayerOf(levels[i]))
  }

  function Composed(outer: seq<Entry>, layer: Layer, agent: bool): seq<Entry>
  {
    if agent then AgentConfig(outer, layer.relay, layer.managed)
    else UserConfig(outer, layer.relay, layer.managed, layer.keyfile)
  }

  /** The configuration inside the last of these layers, the outermost first. */
  function Nested(inherited: seq<Entry>, layers: seq<Layer>, agent: bool): seq<Entry>
  {
    if layers == [] then inherited
    else Composed(Nested(inherited, layers[..|layers| - 1], agent), layers[|layers| - 1], agent)
  }

  /** The credential entries of all layers, in order. */
  function Credentials(layers: seq<Layer>): (r: seq<Entry>)
    ensures |r| == 3 * |layers|
  {
    if layers == [] then []
    else Credentials(layers[..|layers| - 1]) + CredentialEntries(layers[|layers| - 1].relay)
  }

  // ----- layers share their keys -----

  predicate SameKeys(a: seq<Entry>, b: seq<Entry>)
  {
    |a| == |b| && forall i :: 0 <= i < |a| ==> a[i].0 == b[i].0
  }

  lemma ManagesByKeys(a: seq<Entry>, b: seq<Entry>, key: string)
    requires SameKeys(a, b)
    ensures Manages(a, key) == Manages(b, key)
  {
    if Manages(a, key) {
      var i := ManagedIndex(a, key);
      assert SameKey(b[i].0, key);
    }
    if Manages(b, key) {
      var i := ManagedIndex(b, key);
      assert SameKey(a[i].0, key);
    }
  }

  lemma KeptByKeys(a: seq<Entry>, b: seq<Entry>, key: string)
    requires SameKeys(a, b)
    ensures KeptForUser(key, a) == KeptForUser(key, b)
  {
    ManagesByKeys(a, b, key);
  }

  lemma {:induction false} RetainedByKeys(entries: seq<Entry>, a: seq<Entry>, b: seq<Entry>)
    requires SameKeys(a, b)
    ensures Retained(entries, a) == Retained(entries, b)
    decreases |entries|
  {
    if entries == [] {
    } else {
      KeptByKeys(a, b, entries[0].0);
      RetainedByKeys(entries[1..], a, b);
    }
  }

  /** Every layer manages the keys of `names`, and its key file is one of them. */
  ghost predicate Uniform(layers: seq<Layer>, names: seq<Entry>)
  {
    && HasIdentityKeys(names)
    && forall i :: 0 <= i < |layers| ==>
         SameKeys(layers[i].managed, names) && !KeptForUser(layers[i].keyfile.0, names)
  }

  lemma IdentitiesShareKeys(a: Identity, b: Identity)
    ensures SameKeys(IdentityEntries(a), IdentityEntries(b))
  {
  }

  lemma OwnKeyIsDropped(managed: seq<Entry>, i: nat)
    requires HasIdentityKeys(managed) && i < 8
    ensures !KeptForUser(managed[i].0, managed)
  {
    WellFormedKey(managed[i].0);
  }

  lemma KeyfileIsDropped(id: Identity, names: Identity)
    ensures !KeptForUser(Keyfile(id).0, IdentityEntries(names))
  {
    IdentityKeys(names);
    OwnKeyIsDropped(IdentityEntries(names), 7);
  }

  lemma LevelsAreUniform(levels: seq<Level>, names: Identity)
    ensures Uniform(LayersOf(levels), IdentityEntries(names))
  {
    IdentityKeys(names);
    forall i | 0 <= i < |levels|
      ensures SameKeys(LayersOf(levels)[i].managed, IdentityEntries(names))
      ensures !KeptForUser(LayersOf(levels)[i].keyfile.0, IdentityEntries(names))
    {
      IdentitiesShareKeys(levels[i].id, names);
      KeyfileIsDropped(levels[i].id, names);
    }
  }

  lemma LayerHasIdentityKeys(layer: Layer, names: seq<Entry>)
    requires HasIdentityKeys(names) && SameKeys(layer.managed, names)
    ensures HasIdentityKeys(layer.managed)
  {
    forall i | 0 <= i < 8
      ensures Shape(layer.managed[i].0) == Some(IdentityShape(i))
    {
      assert layer.managed[i].0 == names[i].0;
    }
  }

  /** One more layer: what it is made of, and what lies around it. */
  lemma Innermost(inherited: seq<Entry>, layers: seq<Layer>, agent: bool)
    requires layers != []
    ensures var outer, last := layers[..|layers| - 1], layers[|layers| - 1];
            && Nested(inherited, layers, agent) == Composed(Nested(inherited, outer, agent), last, agent)
            && Credentials(layers) == Credentials(outer) + CredentialEntries(last.relay)
  {
  }

  // ----- what Git sees -----

  /** Appending the same entries keeps equal values equal. */
  lemma AppendStep(outer: seq<Entry>, inherited: seq<Entry>, credentials: seq<Entry>, more: seq<Entry>, key: string)
    requires Effective(outer, key) == Effective(inherited + credentials, key)
    ensures Effective(outer + more, key) == Effective(inherited + (credentials + more), key)
  {
    EffectiveAppend(outer, more, key);
    EffectiveAppend(inherited + credentials, more, key);
    Grouped(inherited, credentials, more);
  }

  lemma {:induction false} AgentLayersMeaning(inherited: seq<Entry>, layers: seq<Layer>, names: seq<Entry>, key: string)
    requires Uniform(layers, names) && !Manages(names, key)
    ensures Effective(Nested(inherited, layers, true), key) == Effective(inherited + Credentials(layers), key)
    decreases |layers|
  {
    if layers == [] {
      assert inherited + Credentials(layers) == inherited;
    } else {
      var outer, last := layers[..|layers| - 1], layers[|layers| - 1];
      AgentLayersMeaning(inherited, outer, names, key);
      Innermost(inherited, layers, true);
      AppendStep(Nested(inherited, outer, true), inherited, Credentials(outer), CredentialEntries(last.relay), key);
      ManagesByKeys(last.managed, names, key);
      Unmanaged(Nested(inherited, outer, true) + CredentialEntries(last.relay), last.managed, key);
    }
  }

  lemma {:induction false} UserLayersMeaning(inherited: seq<Entry>, layers: seq<Layer>, names: seq<Entry>, key: string)
    requires Uniform(layers, names) && KeptForUser(key, names)
    ensures Effective(Nested(inherited, layers, false), key) == Effective(inherited + Credentials(layers), key)
    decreases |layers|
  {
    if layers == [] {
      assert inherited + Credentials(layers) == inherited;
    } else {
      var outer, last := layers[..|layers| - 1], layers[|layers| - 1];
      UserLayersMeaning(inherited, outer, names, key);
      Innermost(inherited, layers, false);
      AppendStep(Nested(inherited, outer, false), inherited, Credentials(outer), CredentialEntries(last.relay), key);
      LayerHasIdentityKeys(last, names);
      UserMeaning(Nested(inherited, outer, false), last.relay, last.managed, last.keyfile, key);
      KeptByKeys(last.managed, names, key);
      KeptIsNotKeyfile(last.keyfile, names, key);
    }
  }

  lemma KeptIsNotKeyfile(keyfile: Entry, names: seq<Entry>, key: string)
    requires !KeptForUser(keyfile.0, names) && KeptForUser(key, names)
    ensures !SameKey(keyfile.0, key)
  {
    if SameKey(keyfile.0, key) {
      SameKeyIsEquality(keyfile.0, key, key);
      KeptRespectsEquality(key, keyfile.0, names);
    }
  }

  /** In agent mode, at any depth: the innermost identity wins, and other keys come from the operator or a relay. */
  lemma NestedAgentMeaning(inherited: seq<Entry>, levels: seq<Level>, key: string)
    requires levels != []
    ensures var config := Nested(inherited, LayersOf(levels), true);
            var managed := IdentityEntries(levels[|levels| - 1].id);
            && (forall i :: 0 <= i < 8 && SameKey(managed[i].0, key) ==> Effective(config, key) == Some(managed[i].1))
            && (!Manages(managed, key) ==>
                  Effective(config, key) == Effective(inherited + Credentials(LayersOf(levels)), key))
  {
    var layers, id := LayersOf(levels), levels[|levels| - 1].id;
    LevelsAreUniform(levels, id);
    Innermost(inherited, layers, true);
    AgentMeaning(Nested(inherited, layers[..|layers| - 1], true) + CredentialEntries(layers[|layers| - 1].relay),
                 IdentityEntries(id), key);
    if !Manages(IdentityEntries(id), key) {
      AgentLayersMeaning(inherited, layers, IdentityEntries(id), key);
    }
  }

  /**
  In user mode, at any depth: the innermost key file, nothing for the other
  attribution, signing and include keys, and for the rest what the operator's own
  configuration and the relays' credentials say.
  */
  lemma NestedUserMeaning(inherited: seq<Entry>, levels: seq<Level>, key: string)
    requires levels != []
    ensures var id := levels[|levels| - 1].id;
            Effective(Nested(inherited, LayersOf(levels), false), key) ==
            if SameKey(Keyfile(id).0, key) then Some(id.keyfile)
            else if KeptForUser(key, IdentityEntries(id)) then Effective(inherited + Credentials(LayersOf(levels)), key)
            else None
  {
    var layers, id := LayersOf(levels), levels[|levels| - 1].id;
    LevelsAreUniform(levels, id);
    Innermost(inherited, layers, false);
    IdentityKeys(id);
    UserMeaning(Nested(inherited, layers[..|layers| - 1], false), layers[|layers| - 1].relay,
                IdentityEntries(id), Keyfile(id), key);
    if KeptForUser(key, IdentityEntries(id)) {
      KeptIsNotKeyfile(Keyfile(id), IdentityEntries(id), key);
      UserLayersMeaning(inherited, layers, IdentityEntries(id), key);
    }
  }

  // ----- how the configuration grows -----

  lemma {:induction false} RetainedConcat(a: seq<Entry>, b: seq<Entry>, managed: seq<Entry>)
    ensures Retained(a + b, managed) == Retained(a, managed) + Retained(b, managed)
    decreases |a|
  {
    if a == [] {
      assert a + b == b;
    } else {
      assert (a + b)[1..] == a[1..] + b;
      RetainedConcat(a[1..], b, managed);
    }
  }

  /** Each entry is kept or dropped by itself, in its place. */
  lemma RetainedInPlace(a: seq<Entry>, e: Entry, b: seq<Entry>, managed: seq<Entry>)
    ensures Retained(a + ([e] + b), managed) ==
            Retained(a, managed) + ((if KeptForUser(e.0, managed) then [e] else []) + Retained(b, managed))
  {
    RetainedConcat(a, [e] + b, managed);
    RetainedConcat([e], b, managed);
    RetainedOne(e, managed, e.0);
  }

  lemma {:induction false} RetainedAll(entries: seq<Entry>, managed: seq<Entry>)
    requires forall e :: e in entries ==> KeptForUser(e.0, managed)
    ensures Retained(entries, managed) == entries
    decreases |entries|
  {
    if entries == [] {
    } else {
      RetainedAll(entries[1..], managed);
    }
  }

  lemma RetainedCredentials(relay: string, managed: seq<Entry>)
    requires HasIdentityKeys(managed)
    ensures Retained(CredentialEntries(relay), managed) == CredentialEntries(relay)
  {
    forall e | e in CredentialEntries(relay)
      ensures KeptForUser(e.0, managed)
    {
      var i :| 0 <= i < |CredentialEntries(relay)| && CredentialEntries(relay)[i] == e;
      CredentialIsKept(relay, managed, i);
    }
    RetainedAll(CredentialEntries(relay), managed);
  }

  lemma RetainedTwice(entries: seq<Entry>, managed: seq<Entry>)
    ensures Retained(Retained(entries, managed), managed) == Retained(entries, managed)
  {
    RetainedAll(Retained(entries, managed), managed);
  }

  /** A user-mode level adds the relay's credential entries to what the next one retains. */
  lemma UserGrows(outer: seq<Entry>, layer: Layer, names: seq<Entry>)
    requires HasIdentityKeys(names) && SameKeys(layer.managed, names) && !KeptForUser(layer.keyfile.0, names)
    ensures Composed(outer, layer, false) == Retained(outer, names) + CredentialEntries(layer.relay) + [layer.keyfile]
    ensures Retained(Composed(outer, layer, false), names) == Retained(outer, names) + CredentialEntries(layer.relay)
  {
    RetainedByKeys(outer, layer.managed, names);
    var kept := Retained(outer, names);
    RetainedConcat(kept + CredentialEntries(layer.relay), [layer.keyfile], names);
    RetainedConcat(kept, CredentialEntries(layer.relay), names);
    RetainedTwice(outer, names);
    RetainedCredentials(layer.relay, names);
    RetainedOne(layer.keyfile, names, layer.keyfile.0);
  }

  /** Nested user modes stack the credential entries and replace the key file. */
  lemma {:induction false} UserLayers(inherited: seq<Entry>, layers: seq<Layer>, names: seq<Entry>)
    requires Uniform(layers, names)
    ensures Retained(Nested(inherited, layers, false), names) == Retained(inherited, names) + Credentials(layers)
    ensures layers != [] ==>
              Nested(inherited, layers, false) ==
              Retained(inherited, names) + Credentials(layers) + [layers[|layers| - 1].keyfile]
    decreases |layers|
  {
    if layers == [] {
    } else {
      var outer, last := layers[..|layers| - 1], layers[|layers| - 1];
      UserLayers(inherited, outer, names);
      Innermost(inherited, layers, false);
      UserGrows(Nested(inherited, outer, false), last, names);
      Grouped(Retained(inherited, names), Credentials(outer), CredentialEntries(last.relay));
    }
  }

  lemma Grouped(a: seq<Entry>, b: seq<Entry>, c: seq<Entry>)
    ensures a + b + c == a + (b + c)
  {
  }

  lemma {:induction false} AgentSize(inherited: seq<Entry>, layers: seq<Layer>, names: seq<Entry>)
    requires Uniform(layers, names)
    ensures |Nested(inherited, layers, true)| == |inherited| + 11 * |layers|
    decreases |layers|
  {
    if layers == [] {
    } else {
      AgentSize(inherited, layers[..|layers| - 1], names);
      Innermost(inherited, layers, true);
    }
  }

  /** How many entries there are: eleven more a level in agent mode, three in user mode beside the key file. */
  function NestedSize(inherited: seq<Entry>, names: Identity, agent: bool, depth: nat): nat
  {
    if agent then |inherited| + 11 * depth
    else |Retained(inherited, IdentityEntries(names))| + 3 * depth + 1
  }

  lemma NestedSizeExact(inherited: seq<Entry>, levels: seq<Level>, agent: bool)
    requires levels != []
    ensures |Nested(inherited, LayersOf(levels), agent)| == NestedSize(inherited, levels[0].id, agent, |levels|)
  {
    var layers, names := LayersOf(levels), IdentityEntries(levels[0].id);
    LevelsAreUniform(levels, levels[0].id);
    if agent {
      AgentSize(inherited, layers, names);
    } else {
      UserLayers(inherited, layers, names);
    }
  }

  /** The innermost configuration is read back exactly if its entries fit under the limit. */
  lemma NestingLimit(inherited: seq<Entry>, levels: seq<Level>, agent: bool, prior: seq<Entry>, extra: seq<Entry>)
    requires levels != [] && forall e :: e in extra ==> !Reserved(e.0)
    ensures var config := Nested(inherited, LayersOf(levels), agent);
            ReadConfig(prior + (EnvOf(config) + extra)) ==
            Limited(config, NestedSize(inherited, levels[0].id, agent, |levels|))
  {
    NestedSizeExact(inherited, levels, agent);
    ConfigRoundTrip(prior, Nested(inherited, LayersOf(levels), agent), extra);
  }

  // ----- one process after another -----

  /** A harness started in a process whose environment was `prior`, given the block and `extra` besides. */
  datatype Start = Start(level: Level, prior: seq<Entry>, extra: seq<Entry>)

  predicate Plain(starts: seq<Start>)
  {
    forall i :: 0 <= i < |starts| ==> forall e :: e in starts[i].extra ==> !Reserved(e.0)
  }

  function LevelsOf(starts: seq<Start>): seq<Level>
  {
    seq(|starts|, i requires 0 <= i < |starts| => starts[i].level)
  }

  /** The environment of the innermost process, if every harness on the way can read that of its own. */
  function Launched(env: seq<Entry>, starts: seq<Start>, agent: bool): Result<seq<Entry>, ReadError>
  {
    if starts == [] then Ok(env)
    else
      var last := starts[|starts| - 1];
      match Launched(env, starts[..|starts| - 1], agent)
      case Err(e) => Err(e)
      case Ok(outer) =>
        match ReadConfig(outer)
        case Err(e) => Err(e)
        case Ok(config) => Ok(last.prior + (EnvOf(Composed(config, LayerOf(last.level), agent)) + last.extra))
  }

  lemma {:induction false} RetainedIsShorter(entries: seq<Entry>, managed: seq<Entry>)
    ensures |Retained(entries, managed)| <= |entries|
  {
    if entries == [] {
    } else {
      RetainedIsShorter(entries[1..], managed);
    }
  }

  /** What the innermost process reads, and where the chain breaks off. */
  ghost predicate LaunchedAs(env: seq<Entry>, inherited: seq<Entry>, starts: seq<Start>, agent: bool)
  {
    var n, r := |starts|, Launched(env, starts, agent);
    if n == 0 then r.Ok? && ReadConfig(r.value) == Ok(inherited)
    else
      var names, levels := starts[0].level.id, LevelsOf(starts);
      if n == 1 || NestedSize(inherited, names, agent, n - 1) <= MAX_INHERITED then
        && r.Ok?
        && ReadConfig(r.value) ==
           Limited(Nested(inherited, LayersOf(levels), agent), NestedSize(inherited, names, agent, n))
      else
        r == Err(TooMany)
  }

  lemma LevelsPrefix(starts: seq<Start>)
    requires starts != []
    ensures var n := |starts| - 1;
            LayersOf(LevelsOf(starts))[..n] == LayersOf(LevelsOf(starts[..n]))
  {
  }

  /** Composing over what was read is the next level of nesting. */
  lemma NextLevel(inherited: seq<Entry>, starts: seq<Start>, agent: bool)
    requires starts != [] && Plain(starts)
    ensures var n := |starts| - 1; var last := starts[n]; var levels := LevelsOf(starts);
            var outer := Nested(inherited, LayersOf(LevelsOf(starts[..n])), agent);
            var config := Composed(outer, LayerOf(last.level), agent);
            ReadConfig(last.prior + (EnvOf(config) + last.extra)) ==
            Limited(Nested(inherited, LayersOf(levels), agent), NestedSize(inherited, starts[0].level.id, agent, n + 1))
  {
    var last := starts[|starts| - 1];
    LevelsPrefix(starts);
    Innermost(inherited, LayersOf(LevelsOf(starts)), agent);
    NestingLimit(inherited, LevelsOf(starts), agent, last.prior, last.extra);
  }

  /**
  A chain of harnesses breaks off exactly at the first one whose configuration is
  over the limit; until then each reads what nesting says.
  */
  lemma {:induction false} LaunchExactly(env: seq<Entry>, inherited: seq<Entry>, starts: seq<Start>, agent: bool)
    requires ReadConfig(env) == Ok(inherited) && Plain(starts)
    ensures LaunchedAs(env, inherited, starts, agent)
    decreases |starts|
  {
    if starts == [] {
    } else {
      var outer := starts[..|starts| - 1];
      LaunchExactly(env, inherited, outer, agent);
      NextLevel(inherited, starts, agent);
      LaunchStep(env, inherited, starts, agent);
    }
  }

  lemma LaunchStep(env: seq<Entry>, inherited: seq<Entry>, starts: seq<Start>, agent: bool)
    requires ReadConfig(env) == Ok(inherited) && starts != []
    requires LaunchedAs(env, inherited, starts[..|starts| - 1], agent)
    requires var n := |starts| - 1; var last := starts[n];
             var outer := Nested(inherited, LayersOf(LevelsOf(starts[..n])), agent);
             var config := Composed(outer, LayerOf(last.level), agent);
             ReadConfig(last.prior + (EnvOf(config) + last.extra)) ==
             Limited(Nested(inherited, LayersOf(LevelsOf(starts)), agent),
                     NestedSize(inherited, starts[0].level.id, agent, n + 1))
    ensures LaunchedAs(env, inherited, starts, agent)
  {
    var n := |starts| - 1;
    ReadWithinLimit(env);
    RetainedIsShorter(inherited, IdentityEntries(starts[0].level.id));
    if n == 0 {
      assert LayersOf(LevelsOf(starts[..n])) == [];
    } else {
      assert starts[..n][0] == starts[0];
    }
  }

  // ----- every level's credentials -----

  lemma {:induction false} AgentCredentialsPresent(inherited: seq<Entry>, layers: seq<Layer>, e: Entry)
    requires e in Credentials(layers)
    ensures e in Nested(inherited, layers, true)
    decreases |layers|
  {
    if layers == [] {
    } else {
      Innermost(inherited, layers, true);
      if e in Credentials(layers[..|layers| - 1]) {
        AgentCredentialsPresent(inherited, layers[..|layers| - 1], e);
      }
    }
  }

  /** The credential entries of every level are still there in the innermost configuration. */
  lemma CredentialsPresent(inherited: seq<Entry>, levels: seq<Level>, agent: bool, e: Entry)
    requires e in Credentials(LayersOf(levels))
    ensures e in Nested(inherited, LayersOf(levels), agent)
  {
    if agent {
      AgentCredentialsPresent(inherited, LayersOf(levels), e);
    } else {
      LevelsAreUniform(levels, levels[0].id);
      UserLayers(inherited, LayersOf(levels), IdentityEntries(levels[0].id));
    }
  }
}
