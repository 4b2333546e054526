/** Draft edits to a policy document (`desktop/src/org.rs`). */
module PolicyEdit {
  import opened Wrappers
  import opened Collections

  datatype Rule = Rule(id: string, effect: string, action: string, path: string, server: string, tool: string,
                       host: string)

  datatype NetworkRule = NetworkRule(id: string, effect: string, cidr: string, protocol: string, ports: seq<nat>)

  datatype Profile = Profile(rules: seq<Rule>, networkRules: seq<NetworkRule>, dns: seq<string>)

  /** One entry of the profile map, in the map's order. */
  datatype Named = Named(name: string, profile: Profile)

  datatype Document = Document(version: nat, organization: string, revision: string, expiresAt: string,
                               profiles: seq<Named>)

  datatype ItemKind = Network | Dns | Mount | Mcp | Credential

  datatype Edit =
    | SetNetwork(networkRule: NetworkRule, replacing: Option<string>)
    | SetRule(rule: Rule, replacing: Option<string>)
    | AddDns(dnsName: string)
    | Remove(kind: ItemKind, id: string)

  datatype Refusal =
    | NoProfile | BadId | IdTaken | BadEffect | NoCidr | BadAction | NoTarget | Vanished | BadDnsName | DnsTaken

  datatype Result<T> = Ok(value: T) | Err(refusal: Refusal)

  // ---------------------------------------------------------- validation

  predicate IsIdChar(c: char) {
    'a' <= c <= 'z' || 'A' <= c <= 'Z' || '0' <= c <= '9' || c == '.' || c == '_' || c == ':' || c == '-'
  }

  predicate ValidId(id: string) {
    0 < |id| <= 128 && forall i :: 0 <= i < |id| ==> IsIdChar(id[i])
  }

  predicate ValidEffect(effect: string) {
    effect == "allow" || effect == "deny"
  }

  const RULE_ACTIONS :=
    ["mount.read", "mount.write", "mcp.connect", "mcp.tools.list", "mcp.tools.call", "credential.use"]

  function Selector(r: Rule): string {
    if r.action == "mount.read" || r.action == "mount.write" then r.path
    else if r.action == "mcp.connect" then r.server
    else if r.action == "mcp.tools.list" || r.action == "mcp.tools.call" then r.server + " \U{00B7} " + r.tool
    else if r.action == "credential.use" then r.host
    else ""
  }

  /** Unicode White_Space. */
  predicate IsSpace(c: char) {
    var n := c as int;
    9 <= n <= 13 || n == 0x20 || n == 0x85 || n == 0xA0 || n == 0x1680 || 0x2000 <= n <= 0x200A
    || n == 0x2028 || n == 0x2029 || n == 0x202F || n == 0x205F || n == 0x3000
  }

  predicate Blank(s: string) {
    forall i :: 0 <= i < |s| ==> IsSpace(s[i])
  }

  predicate HasTarget(r: Rule) {
    exists i :: 0 <= i < |Selector(r)| && Selector(r)[i] != ' ' && Selector(r)[i] != '\U{00B7}'
  }

  function Trim(s: string): string {
    if s != [] && IsSpace(s[0]) then Trim(s[1..])
    else if s != [] && IsSpace(s[|s| - 1]) then Trim(s[..|s| - 1])
    else s
  }

  function Lower(s: string): (t: string)
    ensures |t| == |s|
  {
    seq(|s|, i requires 0 <= i < |s| => if 'A' <= s[i] <= 'Z' then s[i] - 'A' + 'a' else s[i])
  }

  function DnsName(name: string): string {
    Lower(Trim(name))
  }

  predicate OneName(name: string) {
    name != [] && forall i :: 0 <= i < |name| ==> !IsSpace(name[i])
  }

  // ---------------------------------------------------------- edits

  function RuleIds(rules: seq<Rule>): (ids: seq<string>)
    ensures |ids| == |rules| && forall i :: 0 <= i < |rules| ==> ids[i] == rules[i].id
  {
    seq(|rules|, i requires 0 <= i < |rules| => rules[i].id)
  }

  function NetworkIds(rules: seq<NetworkRule>): (ids: seq<string>)
    ensures |ids| == |rules| && forall i :: 0 <= i < |rules| ==> ids[i] == rules[i].id
  {
    seq(|rules|, i requires 0 <= i < |rules| => rules[i].id)
  }

  function Names(profiles: seq<Named>): (names: seq<string>)
    ensures |names| == |profiles| && forall i :: 0 <= i < |profiles| ==> names[i] == profiles[i].name
  {
    seq(|profiles|, i requires 0 <= i < |profiles| => profiles[i].name)
  }

  predicate Taken(p: Profile, id: string, replacing: Option<string>) {
    replacing != Some(id) && (id in RuleIds(p.rules) || id in NetworkIds(p.networkRules))
  }

  /** `retain`: the items whose key is not `key`, in order. */
  function Without<T>(items: seq<T>, keys: seq<string>, key: string): seq<T>
    requires |keys| == |items|
  {
    if items == [] then []
    else (if keys[0] == key then [] else [items[0]]) + Without(items[1..], keys[1..], key)
  }

  function EditProfile(p: Profile, edit: Edit): Result<Profile> {
    match edit
    case SetNetwork(rule, replacing) =>
      if !ValidId(rule.id) then Err(BadId)
      else if Taken(p, rule.id, replacing) then Err(IdTaken)
      else if !ValidEffect(rule.effect) then Err(BadEffect)
      else if Blank(rule.cidr) then Err(NoCidr)
      else if replacing.None? then Ok(p.(networkRules := p.networkRules + [rule]))
      else
        var i := IndexOf(NetworkIds(p.networkRules), replacing.value);
        if i < 0 then Err(Vanished) else Ok(p.(networkRules := p.networkRules[i := rule]))
    case SetRule(rule, replacing) =>
      if !ValidId(rule.id) then Err(BadId)
      else if Taken(p, rule.id, replacing) then Err(IdTaken)
      else if !ValidEffect(rule.effect) then Err(BadEffect)
      else if rule.action !in RULE_ACTIONS then Err(BadAction)
      else if !HasTarget(rule) then Err(NoTarget)
      else if replacing.None? then Ok(p.(rules := p.rules + [rule]))
      else
        var i := IndexOf(RuleIds(p.rules), replacing.value);
        if i < 0 then Err(Vanished) else Ok(p.(rules := p.rules[i := rule]))
    case AddDns(dnsName) =>
      var name := DnsName(dnsName);
      if !OneName(name) then Err(BadDnsName)
      else if name in p.dns then Err(DnsTaken)
      else Ok(p.(dns := p.dns + [name]))
    case Remove(kind, id) =>
      var q := match kind
        case Network => p.(networkRules := Without(p.networkRules, NetworkIds(p.networkRules), id))
        case Dns => p.(dns := Without(p.dns, p.dns, id))
        case _ => p.(rules := Without(p.rules, RuleIds(p.rules), id));
      if Count(q) < Count(p) then Ok(q) else Err(Vanished)
  }

  function Count(p: Profile): nat {
    |p.rules| + |p.networkRules| + |p.dns|
  }

  function Edited(document: Document, profile: string, edit: Edit): Result<Document> {
    var i := IndexOf(Names(document.profiles), profile);
    if i < 0 then Err(NoProfile)
    else
      match EditProfile(document.profiles[i].profile, edit)
      case Err(refusal) => Err(refusal)
      case Ok(p) => Ok(document.(profiles := document.profiles[i := Named(profile, p)]))
  }

  /** The draft after a run of edits; a refused edit leaves it as it was. */
  function AfterEdits(document: Document, edits: seq<(string, Edit)>): Document {
    if edits == [] then document
    else
      var before := AfterEdits(document, edits[..|edits| - 1]);
      var (profile, edit) := edits[|edits| - 1];
      var r := Edited(before, profile, edit);
      if r.Ok? then r.value else before
  }

  // ---------------------------------------------------------- unique IDs

  /** Rule IDs are unique across a profile's rules and network rules, and DNS names distinct. */
  predicate Unique(p: Profile) {
    Distinct(RuleIds(p.rules) + NetworkIds(p.networkRules)) && Distinct(p.dns)
  }

  predicate UniqueDocument(d: Document) {
    Distinct(Names(d.profiles)) && forall i :: 0 <= i < |d.profiles| ==> Unique(d.profiles[i].profile)
  }

  lemma {:induction false} WithoutKeeps<T>(items: seq<T>, keys: seq<string>, key: string)
    requires |keys| == |items|
    ensures forall x :: x in Without(items, keys, key) ==> x in items
    ensures Distinct(items) ==> Distinct(Without(items, keys, key))
    ensures |Without(items, keys, key)| <= |items|
    ensures key !in keys ==> Without(items, keys, key) == items
  {
    if items != [] {
      WithoutKeeps(items[1..], keys[1..], key);
      assert items == [items[0]] + items[1..];
      assert Distinct(items) ==> items[0] !in items[1..];
    }
  }

  lemma {:induction false} WithoutLast<T>(items: seq<T>, keys: seq<string>, x: T, key: string)
    requires |keys| == |items| && key !in keys
    ensures Without(items + [x], keys + [key], key) == items
  {
    if items != [] {
      WithoutLast(items[1..], keys[1..], x, key);
      assert (items + [x])[1..] == items[1..] + [x] && (keys + [key])[1..] == keys[1..] + [key];
    }
  }

  lemma {:induction false} RuleIdsWithout(rules: seq<Rule>, id: string)
    ensures RuleIds(Without(rules, RuleIds(rules), id)) == Without(RuleIds(rules), RuleIds(rules), id)
  {
    if rules != [] {
      RuleIdsWithout(rules[1..], id);
      assert RuleIds(rules)[1..] == RuleIds(rules[1..]);
      assert Without(rules, RuleIds(rules), id) == (if rules[0].id == id then [] else [rules[0]]) + Without(rules[1..],
          RuleIds(rules[1..]), id);
    }
  }

  lemma {:induction false} NetworkIdsWithout(rules: seq<NetworkRule>, id: string)
    ensures NetworkIds(Without(rules, NetworkIds(rules), id)) == Without(NetworkIds(rules), NetworkIds(rules), id)
  {
    if rules != [] {
      NetworkIdsWithout(rules[1..], id);
      assert NetworkIds(rules)[1..] == NetworkIds(rules[1..]);
      assert Without(rules, NetworkIds(rules), id)
          == (if rules[0].id == id then [] else [rules[0]]) + Without(rules[1..], NetworkIds(rules[1..]), id);
    }
  }

  /** Adding a fresh key to one of two lists, or putting it in a slot, keeps all keys distinct. */
  lemma KeySet(kept: seq<string>, keys: seq<string>, slot: int, key: string)
    requires Distinct(kept + keys) && -1 <= slot < |keys|
    requires (slot >= 0 && keys[slot] == key) || (key !in kept && key !in keys)
    ensures Distinct(kept + if slot < 0 then keys + [key] else keys[slot := key])
    ensures Distinct((if slot < 0 then keys + [key] else keys[slot := key]) + kept)
  {
    DistinctParts(kept, keys);
    var updated := if slot < 0 then keys + [key] else keys[slot := key];
    if slot < 0 {
      DistinctParts(keys, [key]);
    } else {
      DistinctReplaced(keys, slot, key);
    }
    DistinctParts(kept, updated);
    DistinctParts(updated, kept);
  }

  /** An accepted edit keeps a profile's IDs and DNS names unique. */
  lemma EditKeepsUnique(p: Profile, edit: Edit)
    requires Unique(p) && EditProfile(p, edit).Ok?
    ensures Unique(EditProfile(p, edit).value)
  {
    hide Distinct, ValidId, HasTarget, DnsName, Blank;
    var q := EditProfile(p, edit).value;
    var r, n := RuleIds(p.rules), NetworkIds(p.networkRules);
    match edit
    case SetNetwork(rule, replacing) =>
      var slot := if replacing.None? then -1 else IndexOf(n, replacing.value);
      KeySet(r, n, slot, rule.id);
      assert NetworkIds(q.networkRules) == if slot < 0 then n + [rule.id] else n[slot := rule.id];
    case SetRule(rule, replacing) =>
      var slot := if replacing.None? then -1 else IndexOf(r, replacing.value);
      DistinctSwapped(r, n);
      KeySet(n, r, slot, rule.id);
      assert RuleIds(q.rules) == if slot < 0 then r + [rule.id] else r[slot := rule.id];
    case AddDns(dnsName) =>
      KeySet([], p.dns, -1, DnsName(dnsName)) by { assert [] + p.dns == p.dns; }
      assert [] + (p.dns + [DnsName(dnsName)]) == p.dns + [DnsName(dnsName)];
    case Remove(kind, id) =>
      RemoveKeepsUnique(p, kind, id);
  }

  lemma KeyRemoved(kept: seq<string>, keys: seq<string>, key: string)
    requires Distinct(kept + keys)
    ensures Distinct(kept + Without(keys, keys, key)) && Distinct(Without(keys, keys, key) + kept)
  {
    DistinctParts(kept, keys);
    WithoutKeeps(keys, keys, key);
    DistinctParts(kept, Without(keys, keys, key));
    DistinctParts(Without(keys, keys, key), kept);
  }

  lemma RemoveKeepsUnique(p: Profile, kind: ItemKind, id: string)
    requires Unique(p) && EditProfile(p, Remove(kind, id)).Ok?
    ensures Unique(EditProfile(p, Remove(kind, id)).value)
  {
    hide Distinct, Without;
    var r, n := RuleIds(p.rules), NetworkIds(p.networkRules);
    if kind == Network {
      NetworkIdsWithout(p.networkRules, id);
      KeyRemoved(r, n, id);
    } else if kind == Dns {
      WithoutKeeps(p.dns, p.dns, id);
    } else {
      RuleIdsWithout(p.rules, id);
      DistinctSwapped(r, n);
      KeyRemoved(n, r, id);
    }
  }

  /** Nothing differs but the named profile. */
  predicate ChangesOnly(d: Document, e: Document, profile: string) {
    && e.(profiles := d.profiles) == d
    && Names(e.profiles) == Names(d.profiles)
    && |e.profiles| == |d.profiles|
    && forall i :: 0 <= i < |d.profiles| && d.profiles[i] != e.profiles[i] ==> d.profiles[i].name == profile
  }

  /** An accepted edit changes one profile: the rest of the document, the names
      and their order stay as they were. */
  lemma EditedKeeps(d: Document, profile: string, edit: Edit)
    requires Edited(d, profile, edit).Ok?
    ensures ChangesOnly(d, Edited(d, profile, edit).value, profile)
    ensures UniqueDocument(d) ==> UniqueDocument(Edited(d, profile, edit).value)
  {
    var i := IndexOf(Names(d.profiles), profile);
    if UniqueDocument(d) {
      EditKeepsUnique(d.profiles[i].profile, edit);
    }
  }

  /** Every run of edits keeps the document's IDs, names and profiles. */
  lemma {:induction false} RunKeepsUnique(d: Document, edits: seq<(string, Edit)>)
    requires UniqueDocument(d)
    ensures var e := AfterEdits(d, edits);
      && UniqueDocument(e) && e.(profiles := d.profiles) == d && Names(e.profiles) == Names(d.profiles)
      && forall i :: 0 <= i < |d.profiles| && d.profiles[i] != e.profiles[i] ==>
           exists k :: 0 <= k < |edits| && edits[k].0 == d.profiles[i].name
  {
    if edits != [] {
      var init := edits[..|edits| - 1];
      RunKeepsUnique(d, init);
      var before := AfterEdits(d, init);
      var (profile, edit) := edits[|edits| - 1];
      if Edited(before, profile, edit).Ok? {
        EditedKeeps(before, profile, edit);
      }
      var e := AfterEdits(d, edits);
      forall i | 0 <= i < |d.profiles| && d.profiles[i] != e.profiles[i]
        ensures exists k :: 0 <= k < |edits| && edits[k].0 == d.profiles[i].name
      {
        assert Names(d.profiles)[i] == Names(before.profiles)[i];
        if before.profiles[i] == e.profiles[i] {
          var k :| 0 <= k < |init| && init[k].0 == d.profiles[i].name;
          assert edits[k] == init[k];
        } else {
          assert edits[|edits| - 1].0 == d.profiles[i].name;
        }
      }
    }
  }

  // ---------------------------------------------------------- undoing an edit

  /** The removal that undoes an addition. */
  function Undo(edit: Edit, kind: ItemKind): Edit {
    match edit
    case SetNetwork(rule, _) => Remove(Network, rule.id)
    case SetRule(rule, _) => Remove(if kind == Network || kind == Dns then Mcp else kind, rule.id)
    case AddDns(name) => Remove(Dns, DnsName(name))
    case Remove(_, _) => edit
  }

  predicate IsAddition(edit: Edit) {
    edit.AddDns? || (edit.SetNetwork? && edit.replacing.None?) || (edit.SetRule? && edit.replacing.None?)
  }

  lemma AddThenRemoveProfile(p: Profile, edit: Edit, kind: ItemKind)
    requires IsAddition(edit) && EditProfile(p, edit).Ok?
    ensures EditProfile(EditProfile(p, edit).value, Undo(edit, kind)) == Ok(p)
  {
    var q := EditProfile(p, edit).value;
    match edit
    case SetNetwork(rule, _) =>
      assert NetworkIds(q.networkRules) == NetworkIds(p.networkRules) + [rule.id];
      WithoutLast(p.networkRules, NetworkIds(p.networkRules), rule, rule.id);
    case SetRule(rule, _) =>
      assert RuleIds(q.rules) == RuleIds(p.rules) + [rule.id];
      WithoutLast(p.rules, RuleIds(p.rules), rule, rule.id);
    case AddDns(name) =>
      WithoutLast(p.dns, p.dns, DnsName(name), DnsName(name));
  }

  /** Adding an item and removing it restores the exact document. */
  lemma AddThenRemove(d: Document, profile: string, edit: Edit, kind: ItemKind)
    requires IsAddition(edit) && Edited(d, profile, edit).Ok?
    ensures Edited(Edited(d, profile, edit).value, profile, Undo(edit, kind)) == Ok(d)
  {
    var i := IndexOf(Names(d.profiles), profile);
    var e := Edited(d, profile, edit).value;
    EditedKeeps(d, profile, edit);
    AddThenRemoveProfile(d.profiles[i].profile, edit, kind);
    assert e.profiles[i := d.profiles[i]] == d.profiles;
  }

  /** Replacing a network rule and putting the old one back restores the exact profile,
      exactly when the old one would be accepted as new. */
  lemma ReplaceThenRestore(p: Profile, rule: NetworkRule, i: int)
    requires Unique(p) && 0 <= i < |p.networkRules|
    requires EditProfile(p, SetNetwork(rule, Some(p.networkRules[i].id))).Ok?
    ensures
      var before := p.networkRules[i];
      var q := EditProfile(p, SetNetwork(rule, Some(before.id))).value;
      EditProfile(q, SetNetwork(before, Some(rule.id))) == Ok(p) <==>
      ValidId(before.id) && ValidEffect(before.effect) && !Blank(before.cidr)
  {
    var before := p.networkRules[i];
    var r, n := RuleIds(p.rules), NetworkIds(p.networkRules);
    DistinctParts(r, n);
    DistinctIndex(n, i);
    EditKeepsUnique(p, SetNetwork(rule, Some(before.id)));
    var q := EditProfile(p, SetNetwork(rule, Some(before.id))).value;
    var m := NetworkIds(q.networkRules);
    assert m == n[i := rule.id];
    DistinctParts(r, m);
    DistinctIndex(m, i);
    assert q.networkRules[i := before] == p.networkRules;
    assert n[i] == before.id;
    assert before.id != rule.id ==> before.id !in m;
  }

  /** The same for any other rule. */
  lemma ReplaceThenRestoreRule(p: Profile, rule: Rule, i: int)
    requires Unique(p) && 0 <= i < |p.rules|
    requires EditProfile(p, SetRule(rule, Some(p.rules[i].id))).Ok?
    ensures
      var before := p.rules[i];
      var q := EditProfile(p, SetRule(rule, Some(before.id))).value;
      EditProfile(q, SetRule(before, Some(rule.id))) == Ok(p) <==>
      ValidId(before.id) && ValidEffect(before.effect) && before.action in RULE_ACTIONS && HasTarget(before)
  {
    var before := p.rules[i];
    var r, n := RuleIds(p.rules), NetworkIds(p.networkRules);
    DistinctParts(r, n);
    DistinctIndex(r, i);
    EditKeepsUnique(p, SetRule(rule, Some(before.id)));
    var q := EditProfile(p, SetRule(rule, Some(before.id))).value;
    var m := RuleIds(q.rules);
    assert m == r[i := rule.id];
    DistinctParts(m, n);
    DistinctIndex(m, i);
    assert q.rules[i := before] == p.rules;
    assert r[i] == before.id;
    assert before.id != rule.id ==> before.id !in m;
  }

  // ---------------------------------------------------------- what an edit does

  /** The new list holds the item, and of the old one all but what had the replaced key: a new
      item comes last, another takes the place of the one it replaces. */
  predicate Put<T(==)>(before: seq<T>, beforeKeys: seq<string>, after: seq<T>, item: T, replacing: Option<string>)
    requires |beforeKeys| == |before|
  {
    && item in after
    && (forall i :: 0 <= i < |before| && replacing != Some(beforeKeys[i]) ==> before[i] in after)
    && (forall x :: x in after ==> x == item || Kept(before, beforeKeys, x, replacing))
    && (replacing.None? ==> |after| == |before| + 1 && before <= after)
    && (replacing.Some? ==> |after| == |before| && KeepsPlaces(before, beforeKeys, after, replacing.value))
  }

  predicate KeepsPlaces<T(==)>(before: seq<T>, beforeKeys: seq<string>, after: seq<T>, key: string)
    requires |beforeKeys| == |before| == |after|
  {
    forall i :: 0 <= i < |before| && beforeKeys[i] != key ==> after[i] == before[i]
  }

  predicate Kept<T(==)>(items: seq<T>, keys: seq<string>, x: T, key: Option<string>)
    requires |keys| == |items|
  {
    exists i :: 0 <= i < |items| && items[i] == x && key != Some(keys[i])
  }

  /** The new list holds of the old one exactly what has another key. */
  predicate Dropped<T(==)>(before: seq<T>, beforeKeys: seq<string>, after: seq<T>, key: string)
    requires |beforeKeys| == |before|
  {
    && key in beforeKeys
    && (forall i :: 0 <= i < |before| && beforeKeys[i] != key ==> before[i] in after)
    && (forall x :: x in after ==> Kept(before, beforeKeys, x, Some(key)))
  }

  /** What an edit means for a profile's lists, and which it leaves alone. */
  predicate TookEffect(p: Profile, q: Profile, edit: Edit) {
    match edit
    case SetNetwork(rule, replacing) =>
      && q == p.(networkRules := q.networkRules)
      && Put(p.networkRules, NetworkIds(p.networkRules), q.networkRules, rule, replacing)
    case SetRule(rule, replacing) =>
      q == p.(rules := q.rules) && Put(p.rules, RuleIds(p.rules), q.rules, rule, replacing)
    case AddDns(dnsName) => q == p.(dns := q.dns) && Put(p.dns, p.dns, q.dns, DnsName(dnsName), None)
    case Remove(kind, id) =>
      match kind
      case Network =>
        && q == p.(networkRules := q.networkRules)
        && Dropped(p.networkRules, NetworkIds(p.networkRules), q.networkRules, id)
      case Dns => q == p.(dns := q.dns) && Dropped(p.dns, p.dns, q.dns, id)
      case _ => q == p.(rules := q.rules) && Dropped(p.rules, RuleIds(p.rules), q.rules, id)
  }

  lemma PutAtEnd<T>(before: seq<T>, keys: seq<string>, item: T)
    requires |keys| == |before|
    ensures Put(before, keys, before + [item], item, None)
  {
    forall x | x in before + [item] ensures x == item || Kept(before, keys, x, None) {
      if x in before {
        var i :| 0 <= i < |before| && before[i] == x;
      }
    }
  }

  lemma PutInPlace<T>(before: seq<T>, keys: seq<string>, item: T, i: int)
    requires |keys| == |before| && Distinct(keys) && 0 <= i < |before|
    ensures Put(before, keys, before[i := item], item, Some(keys[i]))
  {
    var after := before[i := item];
    assert after[i] == item;
    forall j | 0 <= j < |before| && Some(keys[i]) != Some(keys[j]) ensures before[j] in after {
      assert after[j] == before[j];
    }
    forall x | x in after ensures x == item || Kept(before, keys, x, Some(keys[i])) {
      var j :| 0 <= j < |after| && after[j] == x;
      assert j != i ==> before[j] == x && keys[j] != keys[i];
    }
  }

  lemma {:induction false} WithoutDrops<T>(items: seq<T>, keys: seq<string>, key: string)
    requires |keys| == |items|
    ensures forall i :: 0 <= i < |items| && keys[i] != key ==> items[i] in Without(items, keys, key)
    ensures forall x :: x in Without(items, keys, key) ==> Kept(items, keys, x, Some(key))
    ensures |Without(items, keys, key)| < |items| ==> key in keys
  {
    if items != [] {
      var rest, restKeys := items[1..], keys[1..];
      WithoutDrops(rest, restKeys, key);
      var after := Without(items, keys, key);
      forall i | 0 <= i < |items| && keys[i] != key ensures items[i] in after {
        if i > 0 {
          assert rest[i - 1] == items[i] && restKeys[i - 1] == keys[i];
        }
      }
      forall x | x in after ensures Kept(items, keys, x, Some(key)) {
        if x in Without(rest, restKeys, key) {
          var i :| 0 <= i < |rest| && rest[i] == x && Some(key) != Some(restKeys[i]);
          assert items[i + 1] == x && keys[i + 1] == restKeys[i];
        } else {
          assert items[0] == x;
        }
      }
      assert keys == [keys[0]] + restKeys;
    }
  }

  /** An accepted edit does to a profile what it says, and nothing else. */
  lemma EditTakesEffect(p: Profile, edit: Edit)
    requires Unique(p) && EditProfile(p, edit).Ok?
    ensures TookEffect(p, EditProfile(p, edit).value, edit)
  {
    DistinctParts(RuleIds(p.rules), NetworkIds(p.networkRules));
    hide Put, Dropped, Distinct, ValidId, HasTarget, DnsName, Blank;
    match edit
    case SetNetwork(rule, replacing) =>
      if replacing.None? {
        PutAtEnd(p.networkRules, NetworkIds(p.networkRules), rule);
      } else {
        PutInPlace(p.networkRules, NetworkIds(p.networkRules), rule,
                   IndexOf(NetworkIds(p.networkRules), replacing.value));
      }
    case SetRule(rule, replacing) =>
      if replacing.None? {
        PutAtEnd(p.rules, RuleIds(p.rules), rule);
      } else {
        PutInPlace(p.rules, RuleIds(p.rules), rule, IndexOf(RuleIds(p.rules), replacing.value));
      }
    case AddDns(dnsName) => PutAtEnd(p.dns, p.dns, DnsName(dnsName));
    case Remove(kind, id) => RemovalTakesEffect(p, kind, id);
  }

  lemma RemovalTakesEffect(p: Profile, kind: ItemKind, id: string)
    requires EditProfile(p, Remove(kind, id)).Ok?
    ensures TookEffect(p, EditProfile(p, Remove(kind, id)).value, Remove(kind, id))
  {
    hide Without, Kept;
    WithoutDrops(p.networkRules, NetworkIds(p.networkRules), id);
    WithoutDrops(p.dns, p.dns, id);
    WithoutDrops(p.rules, RuleIds(p.rules), id);
  }

  // ---------------------------------------------------------- the algorithm

  /** `apply_edit`: an accepted edit does what it says to the named profile, changes
      nothing else and keeps IDs unique; a refused one changes nothing. */
  method ApplyEdit(document: Document, profile: string, edit: Edit) returns (r: Result<Document>)
    ensures r == Edited(document, profile, edit)
    ensures r.Ok? ==> ChangesOnly(document, r.value, profile)
    ensures r.Ok? && UniqueDocument(document) ==>
      && UniqueDocument(r.value)
      && exists i :: 0 <= i < |document.profiles| && document.profiles[i].name == profile
           && TookEffect(document.profiles[i].profile, r.value.profiles[i].profile, edit)
  {
    r := EditClone(document, profile, edit);
    if r.Ok? {
      EditedKeeps(document, profile, edit);
      if UniqueDocument(document) {
        var i := IndexOf(Names(document.profiles), profile);
        EditTakesEffect(document.profiles[i].profile, edit);
      }
    }
  }

  /** The clone of the document, its entry changed step by step. */
  method EditClone(document: Document, profile: string, edit: Edit) returns (r: Result<Document>)
    ensures r == Edited(document, profile, edit)
  {
    var clone := document;
    var i := IndexOf(Names(clone.profiles), profile);
    if i < 0 {
      return Err(NoProfile);
    }
    var entry := clone.profiles[i].profile;
    match edit {
      case SetNetwork(rule, replacing) =>
        if !ValidId(rule.id) { return Err(BadId); }
        if Taken(entry, rule.id, replacing) { return Err(IdTaken); }
        if !ValidEffect(rule.effect) { return Err(BadEffect); }
        if Blank(rule.cidr) { return Err(NoCidr); }
        if replacing.Some? {
          var slot := IndexOf(NetworkIds(entry.networkRules), replacing.value);
          if slot < 0 { return Err(Vanished); }
          entry := entry.(networkRules := entry.networkRules[slot := rule]);
        } else {
          entry := entry.(networkRules := entry.networkRules + [rule]);
        }
      case SetRule(rule, replacing) =>
        if !ValidId(rule.id) { return Err(BadId); }
        if Taken(entry, rule.id, replacing) { return Err(IdTaken); }
        if !ValidEffect(rule.effect) { return Err(BadEffect); }
        if rule.action !in RULE_ACTIONS { return Err(BadAction); }
        if !HasTarget(rule) { return Err(NoTarget); }
        if replacing.Some? {
          var slot := IndexOf(RuleIds(entry.rules), replacing.value);
          if slot < 0 { return Err(Vanished); }
          entry := entry.(rules := entry.rules[slot := rule]);
        } else {
          entry := entry.(rules := entry.rules + [rule]);
        }
      case AddDns(dnsName) =>
        var name := DnsName(dnsName);
        if !OneName(name) { return Err(BadDnsName); }
        if name in entry.dns { return Err(DnsTaken); }
        entry := entry.(dns := entry.dns + [name]);
      case Remove(kind, id) =>
        var before := Count(entry);
        if kind == Network {
          entry := entry.(networkRules := Without(entry.networkRules, NetworkIds(entry.networkRules), id));
        } else if kind == Dns {
          entry := entry.(dns := Without(entry.dns, entry.dns, id));
        } else {
          entry := entry.(rules := Without(entry.rules, RuleIds(entry.rules), id));
        }
        if Count(entry) >= before { return Err(Vanished); }
    }
    clone := clone.(profiles := clone.profiles[i := Named(profile, entry)]);
    r := Ok(clone);
  }
}
