/** What the diff of two policy documents (`desktop/src/org.rs`) says of the documents
    themselves. */
module PolicyDiff {
  import opened Wrappers
  import opened Collections
  import opened Numerals
  import opened JsonDiff
  import opened DiffExactness
  import opened DiffReordering
  import opened PolicyEdit
  import opened PolicyJson

  // ---------------------------------------------------------- equal but for order

  predicate SameNetworkRule(r: NetworkRule, s: NetworkRule) {
    r.(ports := []) == s.(ports := []) && multiset(r.ports) == multiset(s.ports)
  }

  predicate SameNetwork(x: seq<NetworkRule>, y: seq<NetworkRule>) {
    && multiset(NetworkIds(x)) == multiset(NetworkIds(y))
    && forall i, j :: 0 <= i < |x| && 0 <= j < |y| && x[i].id == y[j].id ==> SameNetworkRule(x[i], y[j])
  }

  predicate SameProfile(p: Profile, q: Profile) {
    && multiset(p.rules) == multiset(q.rules)
    && SameNetwork(p.networkRules, q.networkRules)
    && multiset(p.dns) == multiset(q.dns)
  }

  predicate SameProfiles(x: seq<Named>, y: seq<Named>) {
    && multiset(Names(x)) == multiset(Names(y))
    && forall i, j :: 0 <= i < |x| && 0 <= j < |y| && x[i].name == y[j].name ==> SameProfile(x[i].profile, y[j].profile)
  }

  /** Equal but for the order of profiles, rules, ports and DNS names. */
  predicate SameDocument(d: Document, e: Document) {
    d.(profiles := []) == e.(profiles := []) && SameProfiles(d.profiles, e.profiles)
  }

  // ---------------------------------------------------------- objects and arrays

  /** Objects with the same keys in the same order are alike when their values are. */
  lemma SameKeysAlike(f: seq<Field>, g: seq<Field>)
    requires FieldKeys(f) == FieldKeys(g) && Distinct(FieldKeys(f))
    ensures Reordered(Object(f), Object(g)) <==> forall i :: 0 <= i < |f| ==> Reordered(f[i].value, g[i].value)
  {
    assert |f| == |FieldKeys(f)| && |g| == |FieldKeys(g)|;
    assert Reordered(Object(f), Object(g)) <==> FieldsAlike(f, g);
    hide Reordered;
    if FieldsAlike(f, g) {
      forall i | 0 <= i < |f| ensures Reordered(f[i].value, g[i].value) {
        assert FieldKeys(f)[i] == FieldKeys(g)[i];
      }
    }
    if forall i :: 0 <= i < |f| ==> Reordered(f[i].value, g[i].value) {
      forall i, j | 0 <= i < |f| && 0 <= j < |g| && f[i].key == g[j].key ensures Reordered(f[i].value, g[j].value) {
        assert FieldKeys(f)[i] == FieldKeys(f)[j];
      }
    }
  }

  /** Arrays of distinct scalars are alike when they hold the same ones. */
  lemma ScalarsAlike(x: seq<Json>, y: seq<Json>)
    requires UniqueKeys(Array(x)) && UniqueKeys(Array(y))
    requires forall i :: 0 <= i < |x| ==> !x[i].Object? && !x[i].Array?
    ensures Reordered(Array(x), Array(y)) <==> multiset(x) == multiset(y)
  {
    if x == [] {
      assert |y| == |multiset(y)|;
      NothingAlike(y);
    } else {
      assert Id(x[0]).None?;
      assert !Keyed(x, y);
      if ItemsAlike(x, y) {
        RigidItemsKept(x, y);
      }
      if multiset(x) == multiset(y) {
        ItemsVerbatim(x, y);
      }
    }
  }

  lemma NothingAlike(y: seq<Json>)
    ensures Reordered(Array([]), Array(y)) <==> y == []
  {
    if Keyed([], y) {
      assert |Ids(y)| == |multiset(Ids(y))|;
      assert |multiset(Ids([]))| == 0;
    } else {
      assert y != [];
    }
    if y == [] {
      assert Ids([]) == Ids(y);
    }
  }

  lemma NamesAlike(x: seq<string>, y: seq<string>)
    requires Distinct(x) && Distinct(y)
    ensures Reordered(Array(StringsJson(x)), Array(StringsJson(y))) <==> multiset(x) == multiset(y)
  {
    var u, v := StringsJson(x), StringsJson(y);
    StringsUnique(x);
    StringsUnique(y);
    ScalarsAlike(u, v);
    hide Reordered;
    SameMembers(x, y);
    SameMembers(u, v);
    forall i | 0 <= i < |x| ensures u[i] in v <==> x[i] in y { StringMember(y, x[i]); }
    forall j | 0 <= j < |y| ensures v[j] in u <==> y[j] in x { StringMember(x, y[j]); }
  }

  lemma StringMember(names: seq<string>, s: string)
    ensures Str(s) in StringsJson(names) <==> s in names
  {
    var items := StringsJson(names);
    if Str(s) in items {
      var i :| 0 <= i < |items| && items[i] == Str(s);
      assert names[i] == s;
    }
    if s in names {
      var i :| 0 <= i < |names| && names[i] == s;
      assert items[i] == Str(s);
    }
  }

  lemma PortsAlike(x: seq<nat>, y: seq<nat>)
    requires Distinct(x) && Distinct(y)
    ensures Reordered(Array(PortsJson(x)), Array(PortsJson(y))) <==> multiset(x) == multiset(y)
  {
    var u, v := PortsJson(x), PortsJson(y);
    PortsUnique(x);
    PortsUnique(y);
    ScalarsAlike(u, v);
    hide Reordered, Decimal;
    SameMembers(x, y);
    SameMembers(u, v);
    forall i | 0 <= i < |x| ensures u[i] in v <==> x[i] in y { PortMember(y, x[i]); }
    forall j | 0 <= j < |y| ensures v[j] in u <==> y[j] in x { PortMember(x, y[j]); }
  }

  lemma PortMember(ports: seq<nat>, n: nat)
    ensures Number(Decimal(n)) in PortsJson(ports) <==> n in ports
  {
    hide Decimal;
    var items := PortsJson(ports);
    if Number(Decimal(n)) in items {
      var i :| 0 <= i < |items| && items[i] == Number(Decimal(n));
      DecimalReadsBack(n);
      DecimalReadsBack(ports[i]);
      assert ports[i] == n;
    }
    if n in ports {
      var i :| 0 <= i < |ports| && ports[i] == n;
      assert items[i] == Number(Decimal(n));
    }
  }

  // ---------------------------------------------------------- rules

  /** The string under a key, empty when there is none. */
  function TextAt(f: seq<Field>, key: string): string {
    var i := IndexOf(FieldKeys(f), key);
    if i >= 0 && f[i].value.Str? then f[i].value.s else ""
  }

  predicate AllText(f: seq<Field>) {
    forall i :: 0 <= i < |f| ==> f[i].value.Str?
  }

  lemma TextOfConcat(f: seq<Field>, g: seq<Field>, key: string)
    ensures TextAt(f + g, key) == if key in FieldKeys(f) then TextAt(f, key) else TextAt(g, key)
  {
    assert FieldKeys(f + g) == FieldKeys(f) + FieldKeys(g);
    IndexOfConcat(FieldKeys(f), FieldKeys(g), key);
  }

  lemma TextOfOptional(key: string, s: string, k: string)
    ensures TextAt(Optional(key, s), k) == if k == key then s else ""
    ensures k in FieldKeys(Optional(key, s)) ==> k == key
    ensures AllText(Optional(key, s))
  {
    if s != "" {
      assert FieldKeys(Optional(key, s)) == [key];
    }
  }

  /** The rest of a rule's fields, looked up by key. */
  lemma OptionalTexts(r: Rule, k: string)
    ensures
      TextAt(Optional("path", r.path) + Optional("server", r.server) + Optional("tool", r.tool) + Optional("host",
          r.host), k) ==
      if k == "path" then r.path else if k == "server" then r.server
      else if k == "tool" then r.tool else if k == "host" then r.host else ""
  {
    hide TextAt, Optional;
    var path, server := Optional("path", r.path), Optional("server", r.server);
    var tool, host := Optional("tool", r.tool), Optional("host", r.host);
    TextOfOptional("path", r.path, k);
    TextOfOptional("server", r.server, k);
    TextOfOptional("tool", r.tool, k);
    TextOfOptional("host", r.host, k);
    NoTextWithoutKey(path, k);
    NoTextWithoutKey(server, k);
    NoTextWithoutKey(tool, k);
    TextOfConcat(path + server + tool, host, k);
    TextOfConcat(path + server, tool, k);
    TextOfConcat(path, server, k);
    KeysOfConcat(path, server);
    KeysOfConcat(path + server, tool);
  }

  lemma NoTextWithoutKey(f: seq<Field>, k: string)
    ensures k !in FieldKeys(f) ==> TextAt(f, k) == ""
  {
  }

  lemma KeysOfConcat(f: seq<Field>, g: seq<Field>)
    ensures FieldKeys(f + g) == FieldKeys(f) + FieldKeys(g)
  {
  }

  lemma RuleTexts(r: Rule, k: string)
    requires k == "id" || k == "effect" || k == "action" || k == "path" || k == "server" || k == "tool" || k == "host"
    ensures TextAt(RuleFields(r), k) ==
      if k == "id" then r.id else if k == "effect" then r.effect else if k == "action" then r.action
      else if k == "path" then r.path else if k == "server" then r.server
      else if k == "tool" then r.tool else r.host
  {
    var head := [Field("id", Str(r.id)), Field("effect", Str(r.effect)), Field("action", Str(r.action))];
    var rest := Optional("path", r.path) + Optional("server", r.server) + Optional("tool", r.tool) + Optional("host",
        r.host);
    assert FieldKeys(head) == ["id", "effect", "action"];
    TextOfConcat(head, rest, k);
    OptionalTexts(r, k);
    hide Optional;
    assert RuleFields(r) == head + rest;
  }

  lemma AlikeTexts(f: seq<Field>, g: seq<Field>, k: string)
    requires FieldsAlike(f, g) && AllText(f) && AllText(g)
    ensures TextAt(f, k) == TextAt(g, k)
  {
    var fk, gk := FieldKeys(f), FieldKeys(g);
    var i, j := IndexOf(fk, k), IndexOf(gk, k);
    if k in fk {
      assert k in multiset(fk);
      assert k in multiset(gk);
      assert f[i].key == g[j].key;
      assert Reordered(f[i].value, g[j].value);
    } else {
      assert k !in multiset(fk);
      assert k !in multiset(gk);
    }
  }

  /** Two rules' fields are alike exactly when the rules are equal. */
  lemma RuleAlike(r: Rule, s: Rule)
    ensures Reordered(Object(RuleFields(r)), Object(RuleFields(s))) <==> r == s
  {
    var f, g := RuleFields(r), RuleFields(s);
    if Reordered(Object(f), Object(g)) {
      AllTextRule(r);
      AllTextRule(s);
      hide RuleFields, TextAt, Reordered;
      EqualByKeys(r, s);
    }
    if r == s {
      RuleFieldsUnique(r);
      hide RuleFields, Reordered;
      SameValueReflexive(Object(f));
      SameValueIsReordered(Object(f), Object(f));
    }
  }

  lemma AllTextRule(r: Rule)
    ensures AllText(RuleFields(r))
  {
  }

  lemma EqualByKeys(r: Rule, s: Rule)
    requires AllText(RuleFields(r)) && AllText(RuleFields(s)) && FieldsAlike(RuleFields(r), RuleFields(s))
    ensures r == s
  {
    hide RuleFields, TextAt, FieldsAlike, AllText;
    var f, g := RuleFields(r), RuleFields(s);
    RuleTexts(r, "id"); RuleTexts(s, "id"); AlikeTexts(f, g, "id");
    RuleTexts(r, "effect"); RuleTexts(s, "effect"); AlikeTexts(f, g, "effect");
    RuleTexts(r, "action"); RuleTexts(s, "action"); AlikeTexts(f, g, "action");
    RuleTexts(r, "path"); RuleTexts(s, "path"); AlikeTexts(f, g, "path");
    RuleTexts(r, "server"); RuleTexts(s, "server"); AlikeTexts(f, g, "server");
    RuleTexts(r, "tool"); RuleTexts(s, "tool"); AlikeTexts(f, g, "tool");
    RuleTexts(r, "host"); RuleTexts(s, "host"); AlikeTexts(f, g, "host");
  }

  /** Arrays of items with distinct IDs are alike when the IDs are the same and so are the
      items of each. */
  lemma RulesById(x: seq<Json>, y: seq<Json>, xs: seq<string>, ys: seq<string>)
    requires |xs| == |x| && |ys| == |y|
    requires forall i :: 0 <= i < |x| ==> Id(x[i]) == Some(xs[i])
    requires forall j :: 0 <= j < |y| ==> Id(y[j]) == Some(ys[j])
    ensures Reordered(Array(x), Array(y)) <==>
      && multiset(xs) == multiset(ys)
      && forall i, j :: 0 <= i < |x| && 0 <= j < |y| && xs[i] == ys[j] ==> Reordered(x[i], y[j])
  {
    assert Reordered(Array(x), Array(y)) <==> if Keyed(x, y) then RulesAlike(x, y) else ItemsAlike(x, y);
    hide Id, Reordered;
    assert Keyed(x, y);
    assert Ids(x) == xs && Ids(y) == ys;
  }

  lemma RulesAlikeExactly(x: seq<Rule>, y: seq<Rule>)
    requires Distinct(RuleIds(x)) && Distinct(RuleIds(y))
    ensures Reordered(Array(RulesJson(x)), Array(RulesJson(y))) <==> multiset(x) == multiset(y)
  {
    var u, v, xs, ys := RulesJson(x), RulesJson(y), RuleIds(x), RuleIds(y);
    forall i | 0 <= i < |x| ensures Id(u[i]) == Some(xs[i]) { RuleFieldsUnique(x[i]); }
    forall j | 0 <= j < |y| ensures Id(v[j]) == Some(ys[j]) { RuleFieldsUnique(y[j]); }
    hide RuleFields, Id, Reordered;
    RulesById(u, v, xs, ys);
    forall i, j | 0 <= i < |x| && 0 <= j < |y| ensures Reordered(u[i], v[j]) <==> x[i] == y[j] {
      RuleAlike(x[i], y[j]);
    }
    RulesByIdAreEqual(x, y);
  }

  predicate SameById(x: seq<Rule>, y: seq<Rule>) {
    && multiset(RuleIds(x)) == multiset(RuleIds(y))
    && forall i, j :: 0 <= i < |x| && 0 <= j < |y| && RuleIds(x)[i] == RuleIds(y)[j] ==> x[i] == y[j]
  }

  /** With distinct IDs, lists hold the same rules when they hold the same IDs, and the
      same rule under each. */
  lemma RulesByIdAreEqual(x: seq<Rule>, y: seq<Rule>)
    requires Distinct(RuleIds(x)) && Distinct(RuleIds(y))
    ensures multiset(x) == multiset(y) <==> SameById(x, y)
  {
    RulesDistinct(x);
    RulesDistinct(y);
    if multiset(x) == multiset(y) {
      EqualRulesById(x, y);
    }
    if SameById(x, y) {
      RulesInside(x, y);
      RulesInside(y, x);
      SameMembers(x, y);
    }
  }

  lemma RulesDistinct(x: seq<Rule>)
    requires Distinct(RuleIds(x))
    ensures Distinct(x)
  {
    forall i, j | 0 <= i < j < |x| ensures x[i] != x[j] { assert RuleIds(x)[i] != RuleIds(x)[j]; }
  }

  lemma RulesInside(x: seq<Rule>, y: seq<Rule>)
    requires SameById(x, y)
    ensures forall i :: 0 <= i < |x| ==> x[i] in y
  {
    var xs, ys := RuleIds(x), RuleIds(y);
    forall i | 0 <= i < |x| ensures x[i] in y {
      assert xs[i] in multiset(xs);
      assert xs[i] in multiset(ys);
      var j :| 0 <= j < |y| && ys[j] == xs[i];
    }
  }

  lemma EqualRulesById(x: seq<Rule>, y: seq<Rule>)
    requires Distinct(RuleIds(x)) && Distinct(RuleIds(y)) && Distinct(x) && Distinct(y) && multiset(x) == multiset(y)
    ensures SameById(x, y)
  {
    var xs, ys := RuleIds(x), RuleIds(y);
    SameMembers(x, y);
    forall i | 0 <= i < |x| ensures xs[i] in ys { var j :| 0 <= j < |y| && y[j] == x[i]; assert ys[j] == xs[i]; }
    forall j | 0 <= j < |y| ensures ys[j] in xs { var i :| 0 <= i < |x| && x[i] == y[j]; assert xs[i] == ys[j]; }
    SameMembers(xs, ys);
    forall i, j | 0 <= i < |x| && 0 <= j < |y| && xs[i] == ys[j] ensures x[i] == y[j] {
      var k :| 0 <= k < |y| && y[k] == x[i];
      assert ys[k] == ys[j];
    }
  }

  // ---------------------------------------------------------- network rules and profiles

  lemma TextAlike(s: string, t: string)
    ensures Reordered(Str(s), Str(t)) <==> s == t
  {
  }

  lemma NetworkKeys(r: NetworkRule)
    ensures FieldKeys(NetworkFields(r)) == ["id", "effect", "cidr", "protocol", "ports"]
    ensures Distinct(FieldKeys(NetworkFields(r)))
  {
  }

  lemma NetworkAlike(r: NetworkRule, s: NetworkRule)
    requires Distinct(r.ports) && Distinct(s.ports)
    ensures Reordered(Object(NetworkFields(r)), Object(NetworkFields(s))) <==> SameNetworkRule(r, s)
  {
    var f, g := NetworkFields(r), NetworkFields(s);
    NetworkKeys(r);
    NetworkKeys(s);
    PortsAlike(r.ports, s.ports);
    TextAlike(r.id, s.id);
    TextAlike(r.effect, s.effect);
    TextAlike(r.cidr, s.cidr);
    TextAlike(r.protocol, s.protocol);
    hide Reordered, PortsJson, Distinct;
    SameKeysAlike(f, g);
    FiveFields(f, g);
  }

  lemma FiveFields(f: seq<Field>, g: seq<Field>)
    requires |f| == |g| == 5
    ensures (forall i :: 0 <= i < |f| ==> Reordered(f[i].value, g[i].value)) <==>
      && Reordered(f[0].value, g[0].value) && Reordered(f[1].value, g[1].value) && Reordered(f[2].value, g[2].value)
      && Reordered(f[3].value, g[3].value) && Reordered(f[4].value, g[4].value)
  {
    hide Reordered;
  }

  lemma NetworkAlikeExactly(x: seq<NetworkRule>, y: seq<NetworkRule>)
    requires PortsDistinct(x) && PortsDistinct(y)
    ensures Reordered(Array(NetworkJson(x)), Array(NetworkJson(y))) <==> SameNetwork(x, y)
  {
    var u, v, xs, ys := NetworkJson(x), NetworkJson(y), NetworkIds(x), NetworkIds(y);
    forall i | 0 <= i < |x| ensures Id(u[i]) == Some(xs[i]) { NetworkFieldsUnique(x[i]); }
    forall j | 0 <= j < |y| ensures Id(v[j]) == Some(ys[j]) { NetworkFieldsUnique(y[j]); }
    hide NetworkFields, Id, Reordered, SameNetworkRule;
    RulesById(u, v, xs, ys);
    forall i, j | 0 <= i < |x| && 0 <= j < |y| ensures Reordered(u[i], v[j]) <==> SameNetworkRule(x[i], y[j]) {
      NetworkAlike(x[i], y[j]);
    }
  }

  lemma TwoFieldsAlike(f: seq<Field>, g: seq<Field>)
    requires |f| == |g| == 2 && f[0].key == g[0].key && f[1].key == g[1].key && f[0].key != f[1].key
    ensures Reordered(Object(f), Object(g)) <==> Reordered(f[0].value, g[0].value) && Reordered(f[1].value, g[1].value)
  {
    hide Reordered;
    assert FieldKeys(f) == FieldKeys(g);
    SameKeysAlike(f, g);
  }

  lemma ProfileAlike(p: Profile, q: Profile)
    requires ReadyProfile(p) && ReadyProfile(q)
    ensures Reordered(ProfileJson(p), ProfileJson(q)) <==> SameProfile(p, q)
  {
    RulesAlikeExactly(p.rules, q.rules);
    NetworkAlikeExactly(p.networkRules, q.networkRules);
    NamesAlike(p.dns, q.dns);
    hide Reordered, RulesJson, NetworkJson, StringsJson, SameNetwork, ReadyProfile;
    TwoFieldsAlike(ProfileJson(p).fields[1].value.fields, ProfileJson(q).fields[1].value.fields);
    TwoFieldsAlike(ProfileJson(p).fields, ProfileJson(q).fields);
  }

  lemma ProfilesAlike(x: seq<Named>, y: seq<Named>)
    requires forall i :: 0 <= i < |x| ==> ReadyProfile(x[i].profile)
    requires forall j :: 0 <= j < |y| ==> ReadyProfile(y[j].profile)
    ensures Reordered(Object(ProfilesFields(x)), Object(ProfilesFields(y))) <==> SameProfiles(x, y)
  {
    var f, g := ProfilesFields(x), ProfilesFields(y);
    assert FieldKeys(f) == Names(x) && FieldKeys(g) == Names(y);
    assert Reordered(Object(f), Object(g)) <==> FieldsAlike(f, g);
    hide Reordered, ProfileJson, SameProfile, ReadyProfile;
    forall i, j | 0 <= i < |x| && 0 <= j < |y|
      ensures Reordered(f[i].value, g[j].value) <==> SameProfile(x[i].profile, y[j].profile)
    {
      ProfileAlike(x[i].profile, y[j].profile);
    }
  }

  lemma DocumentKeys(d: Document)
    ensures FieldKeys(DocumentJson(d).fields) == ["version", "organization", "revision", "expires_at", "profiles"]
    ensures Distinct(FieldKeys(DocumentJson(d).fields))
  {
    hide Decimal, ProfilesFields;
  }

  /** Ready documents' JSON is equal up to order exactly when the documents are. */
  lemma DocumentAlike(d: Document, e: Document)
    requires Ready(d) && Ready(e)
    ensures Reordered(DocumentJson(d), DocumentJson(e)) <==> SameDocument(d, e)
  {
    ProfilesAlike(d.profiles, e.profiles);
    hide ProfilesFields, ReadyProfile, Decimal, SameProfiles;
    var f, g := DocumentJson(d).fields, DocumentJson(e).fields;
    DocumentKeys(d);
    DocumentKeys(e);
    hide Distinct;
    VersionAlike(d.version, e.version);
    TextAlike(d.organization, e.organization);
    TextAlike(d.revision, e.revision);
    TextAlike(d.expiresAt, e.expiresAt);
    hide Reordered;
    SameKeysAlike(f, g);
    FiveFields(f, g);
  }

  lemma VersionAlike(m: nat, n: nat)
    ensures Reordered(Number(Decimal(m)), Number(Decimal(n))) <==> m == n
  {
    hide Decimal;
    DecimalReadsBack(m);
    DecimalReadsBack(n);
  }

  // ---------------------------------------------------------- the diff of documents

  lemma TextsArePlain(f: seq<Field>)
    requires AllText(f)
    ensures Plain(Object(f))
  {
  }

  lemma NetworkIsPlain(r: NetworkRule)
    ensures Plain(Object(NetworkFields(r)))
  {
    var f := NetworkFields(r);
    assert Plain(Array(PortsJson(r.ports)));
    hide PortsJson;
    assert forall i :: 0 <= i < |f| ==> Plain(f[i].value);
  }

  lemma ProfileIsPlain(p: Profile)
    ensures Plain(ProfileJson(p))
  {
    var rules, network := RulesJson(p.rules), NetworkJson(p.networkRules);
    forall i | 0 <= i < |rules| ensures Plain(rules[i]) && Id(rules[i]).Some? {
      AllTextRule(p.rules[i]);
      RuleFieldsUnique(p.rules[i]);
      TextsArePlain(RuleFields(p.rules[i]));
    }
    forall i | 0 <= i < |network| ensures Plain(network[i]) && Id(network[i]).Some? {
      NetworkFieldsUnique(p.networkRules[i]);
      NetworkIsPlain(p.networkRules[i]);
    }
    hide RuleFields, NetworkFields, Id;
    assert Plain(Array(rules)) && Plain(Array(network)) && Plain(Array(StringsJson(p.dns)));
    hide RulesJson, NetworkJson, StringsJson;
    var inner := ProfileJson(p).fields[1].value;
    assert Plain(inner);
  }

  /** Every policy document is plain. */
  lemma DocumentIsPlain(d: Document)
    ensures Plain(DocumentJson(d))
  {
    var fields := ProfilesFields(d.profiles);
    forall i | 0 <= i < |fields| ensures Plain(fields[i].value) {
      ProfileIsPlain(d.profiles[i].profile);
    }
    hide ProfileJson, Decimal;
    assert Plain(Object(fields));
    hide ProfilesFields;
    var f := DocumentJson(d).fields;
    assert Plain(f[4].value);
  }

  /** The diff of two policy documents shows no change exactly when they are equal but for
      the order of profiles, rules, ports and DNS names. */
  lemma DocumentDiffIsExact(p: Printer, d: Document, e: Document)
    requires Injective(p) && Ready(d) && Ready(e)
    ensures AllSame(DiffLines(p, Some(DocumentJson(d)), DocumentJson(e))) <==> SameDocument(d, e)
  {
    DocumentUnique(d);
    DocumentUnique(e);
    DocumentIsPlain(d);
    hide UniqueKeys, Plain, DocumentJson, Reordered, DiffLines, Ready;
    PlainDiffIsExact(p, DocumentJson(d), DocumentJson(e));
    DocumentAlike(d, e);
  }

  /** So is the diff of a draft made by any run of edits, none of which repeats a port,
      against the document with unique IDs it began from. */
  lemma DraftDiffIsExact(p: Printer, d: Document, edits: seq<(string, Edit)>)
    requires Injective(p) && UniqueDocument(d) && AllPortsDistinct(d)
    requires forall k :: 0 <= k < |edits| ==> AddsDistinctPorts(edits[k].1)
    ensures var draft := AfterEdits(d, edits);
      AllSame(DiffLines(p, Some(DocumentJson(d)), DocumentJson(draft))) <==> SameDocument(d, draft)
  {
    var draft := AfterEdits(d, edits);
    RunKeepsUnique(d, edits);
    RunKeepsPorts(d, edits);
    hide UniqueDocument, AllPortsDistinct, AfterEdits, DiffLines, SameDocument, DocumentJson;
    UniqueDocumentIsReady(d);
    UniqueDocumentIsReady(draft);
    DocumentDiffIsExact(p, d, draft);
  }
}
