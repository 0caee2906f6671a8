/**
Configuration keys by their text alone (git.rs): which keys are equal, which are
includes, which are dropped in user mode and what the agent's ones say, without
splitting them; and which blocks of variables read back as what.
*/
module GitKeys {
  import opened Prelude
  import opened Decimal
  import opened GitEnv

  /** The first dot of the key stands at `p`, the last one at `r`. */
  predicate Dotted(key: string, p: nat, r: nat)
  {
    && p <= r < |key| && key[p] == '.' && key[r] == '.'
    && (forall k :: 0 <= k < p ==> key[k] != '.') && (forall k :: r < k < |key| ==> key[k] != '.')
  }

  lemma DotsOf(key: string) returns (p: nat, r: nat)
    requires '.' in key
    ensures Dotted(key, p, r)
  {
    p, r := IndexOf(key, '.').value, LastIndexOf(key, '.').value;
    assert forall k :: 0 <= k < p ==> key[k] == key[..p][k];
    assert forall k :: r < k < |key| ==> key[k] == key[r + 1..][k - r - 1];
  }

  function Parts(key: string, p: nat, r: nat): Key
    requires p <= r < |key|
  {
    Key(key[..p], if p == r then None else Some(key[p + 1..r]), key[r + 1..])
  }

  lemma LastDot(key: string, p: nat, r: nat, rest: string)
    requires Dotted(key, p, r) && rest == key[p + 1..]
    ensures LastIndexOf(rest, '.') == if p == r then None else Some(r - p - 1)
  {
    if p < r {
      LastIndexOfIs(rest, '.', r - p - 1);
    }
  }

  lemma RestOfKey(key: string, p: nat, r: nat, rest: string)
    requires p < r < |key| && rest == key[p + 1..]
    ensures rest[..r - p - 1] == key[p + 1..r] && rest[r - p..] == key[r + 1..]
  {
  }

  lemma SplitGiven(key: string, p: nat, rest: string, last: Option<nat>)
    requires IndexOf(key, '.') == Some(p) && rest == key[p + 1..] && LastIndexOf(rest, '.') == last
    ensures SplitKey(key) ==
            match last
            case None => Some(Key(key[..p], None, rest))
            case Some(j) => Some(Key(key[..p], Some(rest[..j]), rest[j + 1..]))
  {
  }

  lemma SplitAtDots(key: string, p: nat, r: nat)
    requires Dotted(key, p, r)
    ensures SplitKey(key) == Some(Parts(key, p, r))
  {
    var rest := key[p + 1..];
    IndexOfIs(key, '.', p);
    LastDot(key, p, r, rest);
    SplitGiven(key, p, rest, if p == r then None else Some(r - p - 1));
    if p < r {
      RestOfKey(key, p, r, rest);
    }
  }

  lemma LowerIs(s: string, t: string)
    requires |s| == |t| && forall i :: 0 <= i < |s| ==> t[i] == LowerChar(s[i])
    ensures Lower(s) == t
  {
  }

  lemma LowerPart(s: string, i: nat, j: nat)
    requires i <= j <= |s|
    ensures Lower(s[i..j]) == Lower(s)[i..j]
  {
  }

  /** Lower case keeps the dots where they are. */
  lemma SameDots(a: string, b: string, p: nat, r: nat)
    requires Lower(a) == Lower(b) && Dotted(a, p, r)
    ensures Dotted(b, p, r)
  {
    assert forall k :: 0 <= k < |a| ==> Lower(a)[k] == LowerChar(a[k]) == LowerChar(b[k]);
  }

  // ----- equal keys -----

  /** Equal up to ASCII case, and from the first dot to the last equal as they stand. */
  ghost predicate EqualText(a: string, b: string)
  {
    Lower(a) == Lower(b) && exists p: nat, r: nat :: Dotted(a, p, r) && a[p..r] == b[p..r]
  }

  lemma SamePartsLength(a: string, b: string, p: nat, r: nat, p': nat, r': nat)
    requires Dotted(a, p, r) && Dotted(b, p', r') && SameParts(Parts(a, p, r), Parts(b, p', r'))
    ensures p == p' && r == r' && |a| == |b|
  {
    assert |Lower(a[..p])| == |Lower(b[..p'])|;
    assert |Lower(a[r + 1..])| == |Lower(b[r' + 1..])|;
    if p < r {
      assert |a[p + 1..r]| == |b[p' + 1..r']|;
    }
  }

  lemma SamePartsText(a: string, b: string, p: nat, r: nat)
    requires |a| == |b| && Dotted(a, p, r) && Dotted(b, p, r) && SameParts(Parts(a, p, r), Parts(b, p, r))
    ensures Lower(a) == Lower(b) && a[p..r] == b[p..r]
  {
    forall k | 0 <= k < |a|
      ensures LowerChar(a[k]) == LowerChar(b[k]) && (p <= k < r ==> a[k] == b[k])
    {
      if k < p {
        assert Lower(a[..p])[k] == LowerChar(a[k]) && Lower(b[..p])[k] == LowerChar(b[k]);
      } else if p < k < r {
        assert a[p + 1..r][k - p - 1] == a[k] && b[p + 1..r][k - p - 1] == b[k];
      } else if k > r {
        var m := k - r - 1;
        assert Lower(a[r + 1..])[m] == LowerChar(a[k]) && Lower(b[r + 1..])[m] == LowerChar(b[k]);
      }
    }
  }

  lemma EqualPartsAreSame(a: string, b: string, p: nat, r: nat)
    requires Lower(a) == Lower(b) && Dotted(a, p, r) && a[p..r] == b[p..r]
    ensures |a| == |b| && SameParts(Parts(a, p, r), Parts(b, p, r))
  {
    assert |Lower(a)| == |Lower(b)|;
    LowerPart(a, 0, p);
    LowerPart(b, 0, p);
    LowerPart(a, r + 1, |a|);
    LowerPart(b, r + 1, |b|);
    if p < r {
      assert a[p + 1..r] == a[p..r][1..] && b[p + 1..r] == b[p..r][1..];
    }
  }

  lemma EqualTextIsSame(a: string, b: string, p: nat, r: nat)
    requires Lower(a) == Lower(b) && Dotted(a, p, r) && a[p..r] == b[p..r]
    ensures SameKey(a, b)
  {
    EqualPartsAreSame(a, b, p, r);
    SameDots(a, b, p, r);
    SplitAtDots(a, p, r);
    SplitAtDots(b, p, r);
  }

  lemma SameIsEqualText(a: string, b: string)
    requires SameKey(a, b)
    ensures EqualText(a, b)
  {
    var p, r := DotsOf(a);
    var p', r' := DotsOf(b);
    SplitAtDots(a, p, r);
    SplitAtDots(b, p', r');
    SamePartsLength(a, b, p, r, p', r');
    SamePartsText(a, b, p, r);
  }

  /** Key equality on the text. */
  lemma SameKeyExactly(a: string, b: string)
    ensures SameKey(a, b) <==> EqualText(a, b)
  {
    if SameKey(a, b) {
      SameIsEqualText(a, b);
    }
    if EqualText(a, b) {
      var p: nat, r: nat :| Dotted(a, p, r) && a[p..r] == b[p..r];
      EqualTextIsSame(a, b, p, r);
    }
  }

  /** The like for a key whose dots are known. */
  lemma SubsectionKeyExactly(a: string, b: string, p: nat, r: nat)
    requires Dotted(a, p, r)
    ensures SameKey(a, b) <==> Lower(a) == Lower(b) && a[p..r] == b[p..r]
  {
    SameKeyExactly(a, b);
    if EqualText(a, b) {
      var p': nat, r': nat :| Dotted(a, p', r') && a[p'..r'] == b[p'..r'];
      assert p == p' && r == r';
    }
  }

  // ----- includes -----

  predicate IncludeText(key: string)
  {
    || Lower(key) == "include.path"
    || (|key| >= 15 && Lower(key[..10]) == "includeif." && Lower(key[|key| - 5..]) == ".path")
  }

  lemma LowerWords()
    ensures Lower("include") == "include" && Lower("includeIf") == "includeif" && Lower("path") == "path"
  {
    LowerIs("include", "include");
    LowerIs("includeIf", "includeif");
    LowerIs("path", "path");
  }

  lemma PartsAreInclude(key: string, p: nat, r: nat)
    requires Dotted(key, p, r)
    ensures IncludeParts(Parts(key, p, r)) <==> IncludeText(key)
  {
    LowerWords();
    if IncludeParts(Parts(key, p, r)) {
      PartsSpell(key, p, r);
    }
    if Lower(key) == "include.path" {
      PlainSpells(key, p, r);
    } else if IncludeText(key) {
      ConditionalSpells(key, p, r);
    }
  }

  lemma PlainPartsSpell(key: string, p: nat)
    requires Dotted(key, p, p) && Lower(key[..p]) == "include" && Lower(key[p + 1..]) == "path"
    ensures Lower(key) == "include.path"
  {
    assert |Lower(key[..p])| == p == 7 && |Lower(key[p + 1..])| == |key| - 8 == 4;
    LowerPart(key, 0, p);
    LowerPart(key, p + 1, 12);
    assert Lower(key) == Lower(key)[0..7] + "." + Lower(key)[8..12];
  }

  lemma ConditionalPartsSpell(key: string, p: nat, r: nat)
    requires p < r && Dotted(key, p, r) && Lower(key[..p]) == "includeif" && Lower(key[r + 1..]) == "path"
    ensures |key| >= 15 && Lower(key[..10]) == "includeif." && Lower(key[|key| - 5..]) == ".path"
  {
    assert |Lower(key[..p])| == p == 9 && |Lower(key[r + 1..])| == |key| - r - 1 == 4;
    LowerPart(key, 0, p);
    LowerPart(key, 0, 10);
    LowerPart(key, r, |key|);
    LowerPart(key, r + 1, |key|);
    assert Lower(key)[0..10] == Lower(key)[0..9] + ".";
    assert Lower(key)[r..|key|] == "." + Lower(key)[r + 1..|key|];
  }

  lemma PartsSpell(key: string, p: nat, r: nat)
    requires Dotted(key, p, r) && IncludeParts(Parts(key, p, r))
    ensures IncludeText(key)
  {
    LowerWords();
    if p == r {
      PlainPartsSpell(key, p);
    } else {
      ConditionalPartsSpell(key, p, r);
    }
  }

  lemma PlainSpells(key: string, p: nat, r: nat)
    requires Dotted(key, p, r) && Lower(key) == "include.path"
    ensures IncludeParts(Parts(key, p, r))
  {
    LowerWords();
    assert |Lower(key)| == 12;
    assert forall k :: 0 <= k < 12 ==> Lower(key)[k] == LowerChar(key[k]);
    assert key[7] == '.' && p == 7 && r == 7;
    LowerIs(key[..7], "include");
    LowerIs(key[8..], "path");
  }

  lemma ConditionalSpells(key: string, p: nat, r: nat)
    requires Dotted(key, p, r)
    requires |key| >= 15 && Lower(key[..10]) == "includeif." && Lower(key[|key| - 5..]) == ".path"
    ensures IncludeParts(Parts(key, p, r))
  {
    LowerWords();
    var e := |key| - 5;
    forall k | 0 <= k < 10 ensures LowerChar(key[k]) == "includeif."[k] {
      assert Lower(key[..10])[k] == LowerChar(key[..10][k]);
    }
    forall k | e <= k < |key| ensures LowerChar(key[k]) == ".path"[k - e] {
      assert Lower(key[e..])[k - e] == LowerChar(key[e..][k - e]);
    }
    assert key[9] == '.' && key[e] == '.';
    LowerIs(key[..9], "includeif");
    LowerIs(key[e + 1..], "path");
  }

  /** A text of either form has a dot. */
  lemma IncludeHasDot(key: string) returns (p: nat, r: nat)
    requires IncludeText(key)
    ensures Dotted(key, p, r)
  {
    var k := if Lower(key) == "include.path" then 7 else 9;
    assert |Lower(key)| == |key|;
    assert Lower(key) == "include.path" ==> Lower(key)[7] == '.';
    assert Lower(key) != "include.path" ==> Lower(key[..10])[9] == '.' == LowerChar(key[9]);
    assert key[k] == '.';
    p, r := DotsOf(key);
  }

  /** Includes on the text. */
  lemma IncludeExactly(key: string)
    ensures IsInclude(key) <==>
            || Lower(key) == "include.path"
            || (|key| >= 15 && Lower(key[..10]) == "includeif." && Lower(key[|key| - 5..]) == ".path")
  {
    if IsInclude(key) {
      var p, r := DotsOf(key);
      SplitAtDots(key, p, r);
      PartsAreInclude(key, p, r);
    }
    if IncludeText(key) {
      var p, r := IncludeHasDot(key);
      SplitAtDots(key, p, r);
      PartsAreInclude(key, p, r);
    }
  }

  // ----- the agent's keys -----

  /** What the agent's entries set, by the text of the key. */
  function AgentSays(id: Identity, key: string): Option<string>
  {
    var k := Lower(key);
    if k == "user.name" then Some(id.name)
    else if k == "user.email" then Some(id.email)
    else if k == "gpg.format" then Some("x509")
    else if k == "gpg.x509.program" && key[4] == 'x' then Some("git-sign-nostr")
    else if k == "commit.gpgsign" || k == "tag.gpgsign" then Some("true")
    else if k == "user.signingkey" then Some(id.pubkey)
    else if k == "nostr.keyfile" then Some(id.keyfile)
    else None
  }

  lemma LowerAttribution(id: Identity)
    ensures var es := IdentityEntries(id);
            && Lower(es[0].0) == "user.name" && Lower(es[1].0) == "user.email"
            && Lower(es[2].0) == "gpg.format" && Lower(es[3].0) == "gpg.x509.program"
  {
    LowerIs("user.name", "user.name");
    LowerIs("user.email", "user.email");
    LowerIs("gpg.format", "gpg.format");
    LowerIs("gpg.x509.program", "gpg.x509.program");
  }

  lemma LowerSigning(id: Identity)
    ensures var es := IdentityEntries(id);
            && Lower(es[4].0) == "commit.gpgsign" && Lower(es[5].0) == "tag.gpgsign"
            && Lower(es[6].0) == "user.signingkey" && Lower(es[7].0) == "nostr.keyfile"
  {
    LowerIs("commit.gpgSign", "commit.gpgsign");
    LowerIs("tag.gpgSign", "tag.gpgsign");
    LowerIs("user.signingkey", "user.signingkey");
    LowerIs("nostr.keyfile", "nostr.keyfile");
  }

  lemma PlainShape(a: string, shape: (nat, nat, bool), key: string)
    requires Dots(a, shape) && !shape.2
    ensures SameKey(a, key) <==> Lower(a) == Lower(key)
  {
    SubsectionKeyExactly(a, key, shape.0, shape.0);
    if Lower(a) == Lower(key) {
      assert |Lower(a)| == |Lower(key)|;
    }
  }

  lemma ProgramSubsection(a: string, key: string)
    requires a == "gpg.x509.program" && Lower(a) == Lower(key)
    ensures |key| == 16 && (a[3..8] == key[3..8] <==> key[4] == 'x')
  {
    assert |Lower(key)| == |Lower(a)|;
    assert forall k :: 0 <= k < 16 ==> LowerChar(key[k]) == Lower(a)[k] == LowerChar(a[k]);
    assert a[3..8][1] == 'x' && key[3..8][1] == key[4];
    assert forall k :: 3 <= k < 8 && k != 4 ==> key[k] == a[k];
  }

  lemma ProgramKey(a: string, key: string)
    requires a == "gpg.x509.program"
    ensures SameKey(a, key) <==> Lower(a) == Lower(key) && key[4] == 'x'
  {
    assert Dotted(a, 3, 8);
    SubsectionKeyExactly(a, key, 3, 8);
    if Lower(a) == Lower(key) {
      ProgramSubsection(a, key);
    }
  }

  /** An entry's key equals the given one exactly if the text says so. */
  lemma IdentityKeyExactly(id: Identity, i: nat, key: string)
    requires i < 8
    ensures var a := IdentityEntries(id)[i].0;
            SameKey(a, key) <==> Lower(a) == Lower(key) && (i == 3 ==> key[4] == 'x')
  {
    var a := IdentityEntries(id)[i].0;
    if i == 3 {
      ProgramKey(a, key);
    } else {
      if i < 4 {
        AttributionDots(id, i);
      } else {
        SigningDots(id, i);
      }
      PlainShape(a, IdentityShape(i), key);
    }
  }

  /** The key spells that of entry `i`. */
  predicate Spells(id: Identity, i: nat, key: string)
    requires i < 8
  {
    Lower(IdentityEntries(id)[i].0) == Lower(key) && (i == 3 ==> key[4] == 'x')
  }

  lemma AttributionSays(id: Identity, i: nat, key: string)
    requires i < 4 && Spells(id, i, key)
    ensures AgentSays(id, key) == Some(IdentityEntries(id)[i].1)
  {
    LowerAttribution(id);
  }

  lemma SigningSays(id: Identity, i: nat, key: string)
    requires 4 <= i < 8 && Spells(id, i, key)
    ensures AgentSays(id, key) == Some(IdentityEntries(id)[i].1)
  {
    LowerSigning(id);
  }

  lemma SaysSpelled(id: Identity, key: string) returns (i: nat)
    requires AgentSays(id, key).Some?
    ensures i < 8 && Spells(id, i, key)
  {
    LowerAttribution(id);
    LowerSigning(id);
    var k := Lower(key);
    i := if k == "user.name" then 0 else if k == "user.email" then 1 else if k == "gpg.format" then 2
         else if k == "gpg.x509.program" then 3 else if k == "commit.gpgsign" then 4 else if k == "tag.gpgsign" then 5
         else if k == "user.signingkey" then 6 else 7;
  }

  /** The agent's entries set exactly these keys, to these values. */
  lemma AgentSaysAt(id: Identity, i: nat, key: string)
    requires i < 8 && SameKey(IdentityEntries(id)[i].0, key)
    ensures AgentSays(id, key) == Some(IdentityEntries(id)[i].1)
  {
    IdentityKeyExactly(id, i, key);
    if i < 4 {
      AttributionSays(id, i, key);
    } else {
      SigningSays(id, i, key);
    }
  }

  lemma AgentSaysManaged(id: Identity, key: string)
    ensures AgentSays(id, key).Some? <==> Manages(IdentityEntries(id), key)
  {
    if AgentSays(id, key).Some? {
      var i := SaysSpelled(id, key);
      IdentityKeyExactly(id, i, key);
    }
    if Manages(IdentityEntries(id), key) {
      var i := ManagedIndex(IdentityEntries(id), key);
      AgentSaysAt(id, i, key);
    }
  }

  /** Every key in agent mode: the agent's value by its text, and what lies before it for all others. */
  lemma AgentModeExactly(inherited: seq<Entry>, relay: string, id: Identity, key: string)
    ensures Effective(AgentConfig(inherited, relay, IdentityEntries(id)), key) ==
            if AgentSays(id, key).Some? then AgentSays(id, key)
            else Effective(inherited + CredentialEntries(relay), key)
  {
    AgentModeMeaning(inherited, relay, id, key);
    AgentSaysManaged(id, key);
    if AgentSays(id, key).Some? {
      var i := ManagedIndex(IdentityEntries(id), key);
      AgentSaysAt(id, i, key);
    }
  }

  function AuthorName(i: nat): string
    requires i < 4
  {
    if i == 0 then "author.name" else if i == 1 then "author.email"
    else if i == 2 then "committer.name" else "committer.email"
  }

  lemma AuthorKeyExactly(i: nat, key: string)
    requires i < 4
    ensures SameKey(AUTHOR_COMMITTER_KEYS[i], key) <==> Lower(key) == AuthorName(i)
  {
    LowerIs(AUTHOR_COMMITTER_KEYS[i], AuthorName(i));
    AuthorDots(i);
    PlainShape(AUTHOR_COMMITTER_KEYS[i], AuthorShape(i), key);
  }

  lemma AuthorTexts(key: string)
    ensures AuthorOrCommitter(key) <==>
            Lower(key) in {"author.name", "author.email", "committer.name", "committer.email"}
  {
    if AuthorOrCommitter(key) {
      var i :| 0 <= i < 4 && SameKey(AUTHOR_COMMITTER_KEYS[i], key);
      AuthorKeyExactly(i, key);
    } else {
      forall i | 0 <= i < 4 ensures Lower(key) != AuthorName(i) {
        AuthorKeyExactly(i, key);
      }
      assert Lower(key) != AuthorName(0) && Lower(key) != AuthorName(1);
      assert Lower(key) != AuthorName(2) && Lower(key) != AuthorName(3);
    }
  }

  /** What user mode drops, by the text of the key. */
  lemma DroppedExactly(id: Identity, key: string)
    ensures !KeptForUser(key, IdentityEntries(id)) <==>
            || IncludeText(key) || AgentSays(id, key).Some?
            || Lower(key) in {"author.name", "author.email", "committer.name", "committer.email"}
  {
    IncludeExactly(key);
    AgentSaysManaged(id, key);
    AuthorTexts(key);
  }

  lemma KeyfileKey(id: Identity, key: string)
    ensures SameKey(Keyfile(id).0, key) <==> Lower(key) == "nostr.keyfile"
  {
    IdentityKeyExactly(id, 7, key);
    LowerSigning(id);
  }

  /** Every key in user mode: the fresh key file, nothing for what is dropped, and what lies before it otherwise. */
  lemma UserModeExactly(inherited: seq<Entry>, relay: string, id: Identity, key: string)
    ensures Effective(UserConfig(inherited, relay, IdentityEntries(id), Keyfile(id)), key) ==
            if Lower(key) == "nostr.keyfile" then Some(id.keyfile)
            else if || IncludeText(key) || AgentSays(id, key).Some?
                    || Lower(key) in {"author.name", "author.email", "committer.name", "committer.email"} then None
            else Effective(inherited + CredentialEntries(relay), key)
  {
    UserModeMeaning(inherited, relay, id, key);
    KeyfileKey(id, key);
    DroppedExactly(id, key);
  }

  // ----- the block of variables -----

  /** Name and value of every entry in order, and nothing else. */
  lemma {:induction false} PairsAt(entries: seq<Entry>, i: nat)
    requires i < |entries|
    ensures |Pairs(entries)| == 2 * |entries|
    ensures Pairs(entries)[2 * i] == ("GIT_CONFIG_KEY_" + Show(i), entries[i].0)
    ensures Pairs(entries)[2 * i + 1] == ("GIT_CONFIG_VALUE_" + Show(i), entries[i].1)
    decreases |entries|
  {
    var n := |entries| - 1;
    if n == 0 {
    } else {
      PairsAt(entries[..n], if i < n then i else 0);
    }
  }

  lemma CredentialsExactly(relay: string)
    ensures CredentialEntries(relay) ==
            [("credential." + relay + "/git.helper", ""), ("credential." + relay + "/git.helper", "nostr"),
             ("credential." + relay + "/git.useHttpPath", "true")]
  {
    assert "credential." + relay + "/git" + ".helper" == "credential." + relay + "/git.helper";
    assert "credential." + relay + "/git" + ".useHttpPath" == "credential." + relay + "/git.useHttpPath";
  }

  // ----- reading any environment -----

  /** The variables of entry `i` are set to it. */
  predicate Holds(env: seq<Entry>, i: nat, e: Entry)
  {
    EnvVar(env, "GIT_CONFIG_KEY_" + Show(i)) == Some(e.0) && EnvVar(env, "GIT_CONFIG_VALUE_" + Show(i)) == Some(e.1)
  }

  lemma {:induction false} CollectExactly(env: seq<Entry>, n: nat, es: seq<Entry>)
    ensures Collect(env, n) == Ok(es) <==> |es| == n && forall i :: 0 <= i < n ==> Holds(env, i, es[i])
    decreases n
  {
    if n == 0 {
    } else if es == [] {
      CollectSize(env, n);
    } else {
      var m := |es| - 1;
      CollectExactly(env, n - 1, es[..m]);
      assert es == es[..m] + [es[m]];
      assert |es| == n ==> (forall i :: 0 <= i < n - 1 ==> es[..m][i] == es[i]);
      CollectNext(env, n, es);
    }
  }

  lemma CollectNext(env: seq<Entry>, n: nat, es: seq<Entry>)
    requires n > 0 && es != []
    ensures Collect(env, n) == Ok(es) <==>
            Collect(env, n - 1) == Ok(es[..|es| - 1]) && Holds(env, n - 1, es[|es| - 1])
  {
    assert es == es[..|es| - 1] + [es[|es| - 1]];
    if Collect(env, n).Ok? {
      var got := Collect(env, n).value;
      assert got[..|got| - 1] == Collect(env, n - 1).value;
    }
  }

  /** Exactly which environments are read, and as what. */
  lemma ReadExactly(env: seq<Entry>, es: seq<Entry>)
    ensures ReadConfig(env) == Ok(es) <==>
            match EnvVar(env, "GIT_CONFIG_COUNT")
            case None => es == []
            case Some(text) =>
              ParseUsize(text) == Some(|es|) && |es| <= 1024 && forall i :: 0 <= i < |es| ==> Holds(env, i, es[i])
  {
    var text := EnvVar(env, COUNT_NAME);
    if text.Some? && ParseUsize(text.value).Some? {
      CollectExactly(env, ParseUsize(text.value).value, es);
    }
  }

  /** A variable has the value it was last set to. */
  lemma {:induction false} EnvVarExactly(env: seq<Entry>, name: string, value: string)
    ensures EnvVar(env, name) == Some(value) <==>
            exists i :: 0 <= i < |env| && env[i] == (name, value) && forall j :: i < j < |env| ==> env[j].0 != name
    decreases |env|
  {
    if env == [] {
    } else {
      var n := |env| - 1;
      EnvVarExactly(env[..n], name, value);
    }
  }
}
