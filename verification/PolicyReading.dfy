/** Reading a policy document back from its JSON, key by key (`desktop/src/org.rs`). */
module PolicyReading {
  import opened Collections
  import opened Numerals
  import opened JsonDiff
  import opened PolicyEdit
  import opened PolicyJson

  /** What stands under a key. */
  function At(v: Json, key: string): Json {
    if !v.Object? then Null
    else
      var i := IndexOf(FieldKeys(v.fields), key);
      if i < 0 then Null else v.fields[i].value
  }

  /** A string, or nothing where the key is left out. */
  function ReadText(v: Json): string {
    if v.Str? then v.s else ""
  }

  function ReadNumber(v: Json): nat {
    if v.Number? && AllDigits(v.digits) then ValueOf(v.digits) else 0
  }

  function Items(v: Json): seq<Json> {
    if v.Array? then v.items else []
  }

  function ReadRule(v: Json): Rule {
    Rule(ReadText(At(v, "id")), ReadText(At(v, "effect")), ReadText(At(v, "action")), ReadText(At(v, "path")),
         ReadText(At(v, "server")), ReadText(At(v, "tool")), ReadText(At(v, "host")))
  }

  function ReadPorts(items: seq<Json>): seq<nat> {
    seq(|items|, i requires 0 <= i < |items| => ReadNumber(items[i]))
  }

  function ReadNetworkRule(v: Json): NetworkRule {
    NetworkRule(ReadText(At(v, "id")), ReadText(At(v, "effect")), ReadText(At(v, "cidr")),
                ReadText(At(v, "protocol")), ReadPorts(Items(At(v, "ports"))))
  }

  function ReadRules(items: seq<Json>): seq<Rule> {
    seq(|items|, i requires 0 <= i < |items| => ReadRule(items[i]))
  }

  function ReadNetworkRules(items: seq<Json>): seq<NetworkRule> {
    seq(|items|, i requires 0 <= i < |items| => ReadNetworkRule(items[i]))
  }

  function ReadTexts(items: seq<Json>): seq<string> {
    seq(|items|, i requires 0 <= i < |items| => ReadText(items[i]))
  }

  function ReadProfile(v: Json): Profile {
    var network := At(v, "network");
    Profile(ReadRules(Items(At(v, "rules"))), ReadNetworkRules(Items(At(network, "rules"))),
            ReadTexts(Items(At(network, "dns"))))
  }

  function ReadProfiles(v: Json): seq<Named> {
    if !v.Object? then []
    else
      seq(|v.fields|, i requires 0 <= i < |v.fields| => Named(v.fields[i].key, ReadProfile(v.fields[i].value)))
  }

  function ReadDocument(v: Json): Document {
    Document(ReadNumber(At(v, "version")), ReadText(At(v, "organization")), ReadText(At(v, "revision")),
             ReadText(At(v, "expires_at")), ReadProfiles(At(v, "profiles")))
  }

  // ---------------------------------------------------------- keys

  lemma AtFirst(f: Field, rest: seq<Field>, key: string)
    ensures At(Object([f] + rest), key) == if f.key == key then f.value else At(Object(rest), key)
  {
    var fields := [f] + rest;
    assert FieldKeys(fields) == [f.key] + FieldKeys(rest);
    assert FieldKeys(fields)[1..] == FieldKeys(rest);
  }

  /** The first field of a key is what stands under it. */
  lemma AtIndex(fields: seq<Field>, i: nat)
    requires i < |fields| && forall j :: 0 <= j < i ==> fields[j].key != fields[i].key
    ensures At(Object(fields), fields[i].key) == fields[i].value
  {
    assert FieldKeys(fields)[i] == fields[i].key;
  }

  lemma AtOptional(key: string, s: string, rest: seq<Field>, other: string)
    ensures At(Object(Optional(key, s) + rest), other) ==
      if s != "" && key == other then Str(s) else At(Object(rest), other)
  {
    if s != "" {
      AtFirst(Field(key, Str(s)), rest, other);
    } else {
      assert Optional(key, s) + rest == rest;
    }
  }

  lemma AtNothing(key: string)
    ensures At(Object([]), key) == Null
  {
  }

  /** The optional fields of a rule, read by key. */
  lemma OptionalFields(r: Rule, key: string)
    ensures
      var fields := Optional("path", r.path)
        + (Optional("server", r.server) + (Optional("tool", r.tool) + Optional("host", r.host)));
      ReadText(At(Object(fields), key)) ==
      if key == "path" then r.path else if key == "server" then r.server
      else if key == "tool" then r.tool else if key == "host" then r.host else ""
  {
    hide At, Optional;
    var host := Optional("host", r.host);
    var tool := Optional("tool", r.tool) + host;
    var server := Optional("server", r.server) + tool;
    AtOptional("path", r.path, server, key);
    AtOptional("server", r.server, tool, key);
    AtOptional("tool", r.tool, host, key);
    AtOptional("host", r.host, [], key);
    assert host + [] == host;
    AtNothing(key);
  }

  lemma RuleAt(r: Rule, key: string)
    ensures ReadText(At(Object(RuleFields(r)), key)) ==
      if key == "id" then r.id else if key == "effect" then r.effect else if key == "action" then r.action
      else if key == "path" then r.path else if key == "server" then r.server
      else if key == "tool" then r.tool else if key == "host" then r.host else ""
  {
    hide At, Optional;
    var rest := Optional("path", r.path)
      + (Optional("server", r.server) + (Optional("tool", r.tool) + Optional("host", r.host)));
    var id, effect := Field("id", Str(r.id)), Field("effect", Str(r.effect));
    var action := Field("action", Str(r.action));
    assert RuleFields(r) == [id] + ([effect] + ([action] + rest));
    AtFirst(id, [effect] + ([action] + rest), key);
    AtFirst(effect, [action] + rest, key);
    AtFirst(action, rest, key);
    OptionalFields(r, key);
  }

  lemma RuleReadsBack(r: Rule)
    ensures ReadRule(Object(RuleFields(r))) == r
  {
    hide At, RuleFields;
    RuleAt(r, "id");
    RuleAt(r, "effect");
    RuleAt(r, "action");
    RuleAt(r, "path");
    RuleAt(r, "server");
    RuleAt(r, "tool");
    RuleAt(r, "host");
  }

  lemma PortsReadBack(ports: seq<nat>)
    ensures ReadPorts(PortsJson(ports)) == ports
  {
    forall i | 0 <= i < |ports| ensures ReadNumber(PortsJson(ports)[i]) == ports[i] {
      DecimalReadsBack(ports[i]);
    }
  }

  lemma NetworkRuleReadsBack(r: NetworkRule)
    ensures ReadNetworkRule(Object(NetworkFields(r))) == r
  {
    hide At;
    var fields := NetworkFields(r);
    AtIndex(fields, 0);
    AtIndex(fields, 1);
    AtIndex(fields, 2);
    AtIndex(fields, 3);
    AtIndex(fields, 4);
    PortsReadBack(r.ports);
  }

  lemma ProfileReadsBack(p: Profile)
    ensures ReadProfile(ProfileJson(p)) == p
  {
    hide At, RuleFields, NetworkFields, ReadRule, ReadNetworkRule;
    var rules, networkRules := RulesJson(p.rules), NetworkJson(p.networkRules);
    var outer := ProfileJson(p).fields;
    AtIndex(outer, 0);
    AtIndex(outer, 1);
    AtIndex(outer[1].value.fields, 0);
    AtIndex(outer[1].value.fields, 1);
    forall i | 0 <= i < |p.rules| ensures ReadRule(rules[i]) == p.rules[i] {
      RuleReadsBack(p.rules[i]);
    }
    forall i | 0 <= i < |p.networkRules| ensures ReadNetworkRule(networkRules[i]) == p.networkRules[i] {
      NetworkRuleReadsBack(p.networkRules[i]);
    }
    assert ReadRules(rules) == p.rules;
    assert ReadNetworkRules(networkRules) == p.networkRules;
    assert ReadTexts(StringsJson(p.dns)) == p.dns;
  }

  /** A document is read back from its JSON: every part stands under its own key. */
  lemma DocumentReadsBack(d: Document)
    ensures ReadDocument(DocumentJson(d)) == d
  {
    hide At, ProfileJson, ReadProfile;
    var fields := DocumentJson(d).fields;
    AtIndex(fields, 0);
    AtIndex(fields, 1);
    AtIndex(fields, 2);
    AtIndex(fields, 3);
    AtIndex(fields, 4);
    DecimalReadsBack(d.version);
    forall i | 0 <= i < |d.profiles| ensures ReadProfile(ProfileJson(d.profiles[i].profile)) == d.profiles[i].profile {
      ProfileReadsBack(d.profiles[i].profile);
    }
    assert ReadProfiles(Object(ProfilesFields(d.profiles))) == d.profiles;
  }
}
