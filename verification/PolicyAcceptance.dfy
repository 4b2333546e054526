/** Which draft edits are accepted, said without the checks that decide it. */
module PolicyAcceptance {
  import opened Wrappers
  import opened Collections
  import opened PolicyEdit

  // ---------------------------------------------------------- names

  /** A word between blanks. */
  predicate Framed(s: string, lead: string, word: string, trail: string) {
    && s == lead + word + trail && Blank(lead) && Blank(trail)
    && (word != "" ==> !IsSpace(word[0]) && !IsSpace(word[|word| - 1]))
  }

  lemma {:induction false} TrimFrames(s: string) returns (lead: string, trail: string)
    ensures Framed(s, lead, Trim(s), trail)
  {
    if s != [] && IsSpace(s[0]) {
      lead, trail := TrimFrames(s[1..]);
      assert s == [s[0]] + s[1..];
      assert s == ([s[0]] + lead) + Trim(s) + trail;
      lead := [s[0]] + lead;
    } else if s != [] && IsSpace(s[|s| - 1]) {
      lead, trail := TrimFrames(s[..|s| - 1]);
      assert s == s[..|s| - 1] + [s[|s| - 1]];
      assert s == lead + Trim(s) + (trail + [s[|s| - 1]]);
      trail := trail + [s[|s| - 1]];
    } else {
      lead, trail := "", "";
    }
  }

  lemma {:induction false} FrameTrims(lead: string, word: string, trail: string)
    requires Framed(lead + word + trail, lead, word, trail)
    ensures Trim(lead + word + trail) == word
    decreases |lead| + |trail|
  {
    var s := lead + word + trail;
    if lead != "" {
      assert s[0] == lead[0] && s[1..] == lead[1..] + word + trail;
      FrameTrims(lead[1..], word, trail);
    } else if trail != "" {
      var n := |trail| - 1;
      assert s[|s| - 1] == trail[n] && s[..|s| - 1] == lead + word + trail[..n];
      FrameTrims(lead, word, trail[..n]);
      if word == "" {
        assert s == trail && s[0] == trail[0];
        assert s[1..] == lead + word + trail[1..];
        FrameTrims(lead, word, trail[1..]);
      } else {
        assert s[0] == word[0];
      }
    } else {
      assert s == word;
    }
  }

  /** What is left of a text without its blanks is its word. */
  lemma TrimExactly(s: string, word: string)
    ensures word == Trim(s) <==> exists lead, trail :: Framed(s, lead, word, trail)
  {
    var before, after := TrimFrames(s);
    if exists lead, trail :: Framed(s, lead, word, trail) {
      var lead, trail :| Framed(s, lead, word, trail);
      FrameTrims(lead, word, trail);
    }
  }

  /** The same text with its ASCII capitals, codes 65 to 90, made small. */
  predicate Lowered(s: string, t: string) {
    && |s| == |t|
    && forall i :: 0 <= i < |s| ==> t[i] as int == s[i] as int + if 65 <= s[i] as int <= 90 then 32 else 0
  }

  /** A text without white space, not empty. */
  predicate IsWord(s: string) {
    |s| > 0 && forall c :: c in s ==> !IsSpace(c)
  }

  /** The name an entered text stands for: its one word, in small letters. */
  ghost predicate Spells(entered: string, name: string) {
    exists lead, word, trail :: Framed(entered, lead, word, trail) && IsWord(word) && Lowered(word, name)
  }

  lemma LowerKeepsSpaces(s: string)
    ensures Lowered(s, Lower(s)) && (OneName(Lower(s)) <==> IsWord(s))
  {
    var t := Lower(s);
    forall i | 0 <= i < |s| ensures IsSpace(t[i]) <==> IsSpace(s[i]) {
    }
    if OneName(t) {
      forall c | c in s ensures !IsSpace(c) {
        var i :| 0 <= i < |s| && s[i] == c;
        assert !IsSpace(t[i]);
      }
    }
  }

  lemma LoweredOnce(s: string, t: string)
    requires Lowered(s, t)
    ensures t == Lower(s)
  {
    forall i | 0 <= i < |s| ensures t[i] == Lower(s)[i] {
      assert t[i] as int == Lower(s)[i] as int;
    }
  }

  /** A DNS entry is taken as its one word in small letters, and refused if it has not one. */
  lemma DnsNameExactly(entered: string, name: string)
    ensures OneName(DnsName(entered)) && name == DnsName(entered) <==> Spells(entered, name)
  {
    hide IsSpace, Blank, Trim, Lower;
    var word := Trim(entered);
    LowerKeepsSpaces(word);
    if OneName(DnsName(entered)) && name == DnsName(entered) {
      var lead, trail := TrimFrames(entered);
    }
    if Spells(entered, name) {
      var lead, w, trail :| Framed(entered, lead, w, trail) && IsWord(w) && Lowered(w, name);
      TrimExactly(entered, w);
      LoweredOnce(w, name);
    }
  }

  // ---------------------------------------------------------- the other checks

  /** One to 128 letters, digits, dots, underscores, colons or dashes. */
  predicate IsId(id: string) {
    && 1 <= |id| <= 128
    && forall c :: c in id ==>
         48 <= c as int <= 57 || 65 <= c as int <= 90 || 97 <= c as int <= 122 || c in {'.', '_', ':', '-'}
  }

  /** Something is entered besides white space. */
  predicate Entered(s: string) {
    exists c :: c in s && !IsSpace(c)
  }

  /** Something is entered besides blanks and middle dots. */
  predicate Aims(s: string) {
    exists c :: c in s && c != ' ' && c as int != 0xB7
  }

  /** What a rule acts on, as its action asks. */
  predicate HasObject(r: Rule) {
    || (r.action in {"mount.read", "mount.write"} && Aims(r.path))
    || (r.action == "mcp.connect" && Aims(r.server))
    || (r.action in {"mcp.tools.list", "mcp.tools.call"} && (Aims(r.server) || Aims(r.tool)))
    || (r.action == "credential.use" && Aims(r.host))
  }

  predicate HasRule(p: Profile, id: string) {
    exists i :: 0 <= i < |p.rules| && p.rules[i].id == id
  }

  predicate HasNetworkRule(p: Profile, id: string) {
    exists i :: 0 <= i < |p.networkRules| && p.networkRules[i].id == id
  }

  /** The ID is free in both lists, or is that of the rule it replaces. */
  predicate Free(p: Profile, id: string, replacing: Option<string>) {
    replacing == Some(id) || (!HasRule(p, id) && !HasNetworkRule(p, id))
  }

  /** What each edit asks of a profile. */
  ghost predicate Acceptable(p: Profile, edit: Edit) {
    match edit
    case SetNetwork(r, replacing) =>
      && IsId(r.id) && Free(p, r.id, replacing) && r.effect in {"allow", "deny"} && Entered(r.cidr)
      && (replacing.Some? ==> HasNetworkRule(p, replacing.value))
    case SetRule(r, replacing) =>
      && IsId(r.id) && Free(p, r.id, replacing) && r.effect in {"allow", "deny"} && HasObject(r)
      && (replacing.Some? ==> HasRule(p, replacing.value))
    case AddDns(entered) => exists name :: Spells(entered, name) && name !in p.dns
    case Remove(kind, id) =>
      match kind
      case Network => HasNetworkRule(p, id)
      case Dns => id in p.dns
      case _ => HasRule(p, id)
  }

  lemma IdExactly(id: string)
    ensures ValidId(id) <==> IsId(id)
  {
    if IsId(id) {
      forall i | 0 <= i < |id| ensures IsIdChar(id[i]) {
        assert id[i] in id;
      }
    }
  }

  lemma EnteredExactly(s: string)
    ensures Blank(s) <==> !Entered(s)
  {
    if !Blank(s) {
      var i :| 0 <= i < |s| && !IsSpace(s[i]);
      assert s[i] in s;
    }
  }

  lemma AimsExactly(s: string)
    ensures Aims(s) <==> exists i :: 0 <= i < |s| && s[i] != ' ' && s[i] != '\U{00B7}'
  {
    if exists i :: 0 <= i < |s| && s[i] != ' ' && s[i] != '\U{00B7}' {
      var i :| 0 <= i < |s| && s[i] != ' ' && s[i] != '\U{00B7}';
      assert s[i] in s;
    }
  }

  lemma AimsEither(s: string, t: string)
    ensures Aims(s + " \U{00B7} " + t) <==> Aims(s) || Aims(t)
  {
    var all := s + " \U{00B7} " + t;
    assert forall c :: c in all <==> c in s || c in " \U{00B7} " || c in t;
    if Aims(s) {
      var c :| c in s && c != ' ' && c as int != 0xB7;
      assert c in all;
    }
    if Aims(t) {
      var c :| c in t && c != ' ' && c as int != 0xB7;
      assert c in all;
    }
  }

  lemma ObjectExactly(r: Rule)
    ensures r.action in RULE_ACTIONS && HasTarget(r) <==> HasObject(r)
  {
    hide Aims;
    AimsExactly(Selector(r));
    AimsEither(r.server, r.tool);
  }

  lemma KeysExactly(p: Profile, id: string)
    ensures id in RuleIds(p.rules) <==> HasRule(p, id)
    ensures id in NetworkIds(p.networkRules) <==> HasNetworkRule(p, id)
  {
    if HasRule(p, id) {
      var i :| 0 <= i < |p.rules| && p.rules[i].id == id;
      assert RuleIds(p.rules)[i] == id;
    }
    if HasNetworkRule(p, id) {
      var i :| 0 <= i < |p.networkRules| && p.networkRules[i].id == id;
      assert NetworkIds(p.networkRules)[i] == id;
    }
  }

  lemma {:induction false} WithoutShrinks<T>(items: seq<T>, keys: seq<string>, key: string)
    requires |keys| == |items|
    ensures |Without(items, keys, key)| <= |items|
    ensures |Without(items, keys, key)| < |items| <==> key in keys
  {
    if items != [] {
      WithoutShrinks(items[1..], keys[1..], key);
      assert keys == [keys[0]] + keys[1..];
    }
  }

  lemma RemovalExactly(p: Profile, kind: ItemKind, id: string)
    ensures EditProfile(p, Remove(kind, id)).Ok? <==> Acceptable(p, Remove(kind, id))
  {
    hide Without, HasRule, HasNetworkRule;
    KeysExactly(p, id);
    WithoutShrinks(p.rules, RuleIds(p.rules), id);
    WithoutShrinks(p.networkRules, NetworkIds(p.networkRules), id);
    WithoutShrinks(p.dns, p.dns, id);
  }

  lemma SetExactly(p: Profile, edit: Edit)
    requires edit.SetNetwork? || edit.SetRule?
    ensures EditProfile(p, edit).Ok? <==> Acceptable(p, edit)
  {
    hide ValidId, IsId, Blank, Entered, HasTarget, HasObject, HasRule, HasNetworkRule;
    if edit.SetNetwork? {
      IdExactly(edit.networkRule.id);
      EnteredExactly(edit.networkRule.cidr);
      KeysExactly(p, edit.networkRule.id);
    } else {
      IdExactly(edit.rule.id);
      ObjectExactly(edit.rule);
      KeysExactly(p, edit.rule.id);
    }
    if edit.replacing.Some? {
      KeysExactly(p, edit.replacing.value);
    }
  }

  lemma DnsExactly(p: Profile, entered: string)
    ensures EditProfile(p, AddDns(entered)).Ok? <==> Acceptable(p, AddDns(entered))
  {
    hide DnsName, OneName, Spells;
    DnsNameExactly(entered, DnsName(entered));
    if Acceptable(p, AddDns(entered)) {
      var name :| Spells(entered, name) && name !in p.dns;
      DnsNameExactly(entered, name);
    }
  }

  /** An edit is accepted exactly when the draft has the profile and the profile meets what
      the edit asks. */
  lemma AcceptedExactly(d: Document, profile: string, edit: Edit)
    requires Distinct(Names(d.profiles))
    ensures Edited(d, profile, edit).Ok? <==>
      exists i :: 0 <= i < |d.profiles| && d.profiles[i].name == profile && Acceptable(d.profiles[i].profile, edit)
  {
    hide Acceptable, EditProfile;
    forall i | 0 <= i < |d.profiles| && d.profiles[i].name == profile
      ensures EditProfile(d.profiles[i].profile, edit).Ok? <==> Acceptable(d.profiles[i].profile, edit)
      ensures IndexOf(Names(d.profiles), profile) == i
    {
      DistinctIndex(Names(d.profiles), i);
      if edit.Remove? {
        RemovalExactly(d.profiles[i].profile, edit.kind, edit.id);
      } else if edit.AddDns? {
        DnsExactly(d.profiles[i].profile, edit.dnsName);
      } else {
        SetExactly(d.profiles[i].profile, edit);
      }
    }
  }

  /** What each refusal says of an edit. */
  ghost predicate Faulty(p: Profile, edit: Edit, refusal: Refusal) {
    match edit
    case SetNetwork(r, replacing) =>
      || (refusal == BadId && !IsId(r.id))
      || (refusal == IdTaken && !Free(p, r.id, replacing))
      || (refusal == BadEffect && r.effect !in {"allow", "deny"})
      || (refusal == NoCidr && !Entered(r.cidr))
      || (refusal == Vanished && replacing.Some? && !HasNetworkRule(p, replacing.value))
    case SetRule(r, replacing) =>
      || (refusal == BadId && !IsId(r.id))
      || (refusal == IdTaken && !Free(p, r.id, replacing))
      || (refusal == BadEffect && r.effect !in {"allow", "deny"})
      || (refusal == BadAction && r.action !in RULE_ACTIONS)
      || (refusal == NoTarget && r.action in RULE_ACTIONS && !HasObject(r))
      || (refusal == Vanished && replacing.Some? && !HasRule(p, replacing.value))
    case AddDns(entered) =>
      || (refusal == BadDnsName && !exists name :: Spells(entered, name))
      || (refusal == DnsTaken && exists name :: Spells(entered, name) && name in p.dns)
    case Remove(kind, id) => refusal == Vanished && !Acceptable(p, edit)
  }

  lemma SetRefused(p: Profile, edit: Edit)
    requires (edit.SetNetwork? || edit.SetRule?) && EditProfile(p, edit).Err?
    ensures Faulty(p, edit, EditProfile(p, edit).refusal)
  {
    hide ValidId, IsId, Blank, Entered, HasTarget, HasObject, HasRule, HasNetworkRule;
    if edit.SetNetwork? {
      IdExactly(edit.networkRule.id);
      EnteredExactly(edit.networkRule.cidr);
      KeysExactly(p, edit.networkRule.id);
    } else {
      IdExactly(edit.rule.id);
      ObjectExactly(edit.rule);
      KeysExactly(p, edit.rule.id);
    }
    if edit.replacing.Some? {
      KeysExactly(p, edit.replacing.value);
    }
  }

  lemma DnsRefused(p: Profile, entered: string)
    requires EditProfile(p, AddDns(entered)).Err?
    ensures Faulty(p, AddDns(entered), EditProfile(p, AddDns(entered)).refusal)
  {
    hide DnsName, OneName, Spells;
    forall name ensures OneName(DnsName(entered)) && name == DnsName(entered) <==> Spells(entered, name) {
      DnsNameExactly(entered, name);
    }
    assert OneName(DnsName(entered)) ==> Spells(entered, DnsName(entered));
  }

  /** An edit is refused for what is wrong with it: no such profile, or the fault named. */
  lemma RefusedForCause(d: Document, profile: string, edit: Edit)
    requires Distinct(Names(d.profiles)) && Edited(d, profile, edit).Err?
    ensures
      var refusal := Edited(d, profile, edit).refusal;
      || (refusal == NoProfile && forall i :: 0 <= i < |d.profiles| ==> d.profiles[i].name != profile)
      || exists i :: 0 <= i < |d.profiles| && d.profiles[i].name == profile
                     && Faulty(d.profiles[i].profile, edit, refusal)
  {
    var i := IndexOf(Names(d.profiles), profile);
    if i >= 0 {
      var p := d.profiles[i].profile;
      assert Faulty(p, edit, EditProfile(p, edit).refusal) by {
        if edit.Remove? {
          RemovalExactly(p, edit.kind, edit.id);
        } else if edit.AddDns? {
          DnsRefused(p, edit.dnsName);
        } else {
          SetRefused(p, edit);
        }
      }
      hide EditProfile, Faulty;
    } else {
      forall k | 0 <= k < |d.profiles| ensures d.profiles[k].name != profile {
        assert Names(d.profiles)[k] in Names(d.profiles);
      }
    }
  }
}
