/** Policy documents as the JSON their diff compares (`desktop/src/org.rs`), and
    the diff of a draft against the document its edits began from. */
module PolicyJson {
  import opened Wrappers
  import opened Collections
  import opened Numerals
  import opened JsonDiff
  import opened DiffExactness
  import opened PolicyEdit

  /** A field left out when it is empty. */
  function Optional(key: string, s: string): seq<Field> {
    if s == "" then [] else [Field(key, Str(s))]
  }

  function RuleFields(r: Rule): seq<Field> {
    [Field("id", Str(r.id)), Field("effect", Str(r.effect)), Field("action", Str(r.action))]
    + (Optional("path", r.path) + Optional("server", r.server) + Optional("tool", r.tool) + Optional("host", r.host))
  }

  function RulesJson(rules: seq<Rule>): (items: seq<Json>)
    ensures |items| == |rules| && forall i :: 0 <= i < |rules| ==> items[i] == Object(RuleFields(rules[i]))
  {
    seq(|rules|, i requires 0 <= i < |rules| => Object(RuleFields(rules[i])))
  }

  function PortsJson(ports: seq<nat>): (items: seq<Json>)
    ensures |items| == |ports| && forall i :: 0 <= i < |ports| ==> items[i] == Number(Decimal(ports[i]))
  {
    seq(|ports|, i requires 0 <= i < |ports| => Number(Decimal(ports[i])))
  }

  function NetworkFields(r: NetworkRule): seq<Field> {
    [Field("id", Str(r.id)), Field("effect", Str(r.effect)), Field("cidr", Str(r.cidr)),
     Field("protocol", Str(r.protocol)), Field("ports", Array(PortsJson(r.ports)))]
  }

  function NetworkJson(rules: seq<NetworkRule>): (items: seq<Json>)
    ensures |items| == |rules| && forall i :: 0 <= i < |rules| ==> items[i] == Object(NetworkFields(rules[i]))
  {
    seq(|rules|, i requires 0 <= i < |rules| => Object(NetworkFields(rules[i])))
  }

  function StringsJson(names: seq<string>): (items: seq<Json>)
    ensures |items| == |names| && forall i :: 0 <= i < |names| ==> items[i] == Str(names[i])
  {
    seq(|names|, i requires 0 <= i < |names| => Str(names[i]))
  }

  function ProfileJson(p: Profile): Json {
    Object([Field("rules", Array(RulesJson(p.rules))),
            Field("network", Object([Field("rules", Array(NetworkJson(p.networkRules))), Field("dns",
                Array(StringsJson(p.dns)))]))])
  }

  function ProfilesFields(profiles: seq<Named>): (fields: seq<Field>)
    ensures |fields| == |profiles|
    ensures forall i :: 0 <= i < |profiles| ==> fields[i] == Field(profiles[i].name, ProfileJson(profiles[i].profile))
  {
    seq(|profiles|, i requires 0 <= i < |profiles| => Field(profiles[i].name, ProfileJson(profiles[i].profile)))
  }

  function DocumentJson(d: Document): Json {
    Object([Field("version", Number(Decimal(d.version))), Field("organization", Str(d.organization)),
            Field("revision", Str(d.revision)), Field("expires_at", Str(d.expiresAt)),
            Field("profiles", Object(ProfilesFields(d.profiles)))])
  }

  // ---------------------------------------------------------- unique keys

  predicate PortsDistinct(rules: seq<NetworkRule>) {
    forall i :: 0 <= i < |rules| ==> Distinct(rules[i].ports)
  }

  predicate ReadyProfile(p: Profile) {
    && Distinct(RuleIds(p.rules)) && Distinct(NetworkIds(p.networkRules))
    && Distinct(p.dns) && PortsDistinct(p.networkRules)
  }

  predicate Ready(d: Document) {
    Distinct(Names(d.profiles)) && forall i :: 0 <= i < |d.profiles| ==> ReadyProfile(d.profiles[i].profile)
  }

  lemma RuleFieldsUnique(r: Rule)
    ensures UniqueKeys(Object(RuleFields(r))) && Id(Object(RuleFields(r))) == Some(r.id)
  {
    var f := RuleFields(r);
    assert FieldKeys(f)[0] == "id";
    assert forall i :: 0 <= i < |f| ==> f[i].value.Str?;
  }

  lemma RulesUnique(rules: seq<Rule>)
    ensures UniqueKeys(Array(RulesJson(rules))) <==> Distinct(RuleIds(rules))
  {
    var items := RulesJson(rules);
    forall i | 0 <= i < |rules| ensures UniqueKeys(items[i]) && Id(items[i]) == Some(rules[i].id) {
      RuleFieldsUnique(rules[i]);
    }
    hide RuleFields, Id;
    IdsAreKeys(items, RuleIds(rules));
  }

  /** Items that all have an ID are unique exactly when their IDs are. */
  lemma IdsAreKeys(items: seq<Json>, ids: seq<string>)
    requires |ids| == |items| && forall i :: 0 <= i < |items| ==> Id(items[i]) == Some(ids[i])
    ensures UniqueKeys(Array(items)) <==> Distinct(ids) && forall i :: 0 <= i < |items| ==> UniqueKeys(items[i])
  {
    hide Id;
    assert AllIds(items) && Ids(items) == ids;
    if Distinct(ids) {
      forall i, j | 0 <= i < j < |items| ensures items[i] != items[j] {
        assert ids[i] != ids[j];
      }
    }
  }

  lemma PortsUnique(ports: seq<nat>)
    ensures UniqueKeys(Array(PortsJson(ports))) <==> Distinct(ports)
  {
    var items := PortsJson(ports);
    forall i, j | 0 <= i < j < |ports| ensures items[i] == items[j] <==> ports[i] == ports[j] {
      DecimalReadsBack(ports[i]);
      DecimalReadsBack(ports[j]);
    }
    hide Decimal;
    assert items != [] ==> Id(items[0]).None?;
  }

  lemma NetworkFieldsUnique(r: NetworkRule)
    ensures Id(Object(NetworkFields(r))) == Some(r.id)
    ensures UniqueKeys(Object(NetworkFields(r))) <==> Distinct(r.ports)
  {
    var f := NetworkFields(r);
    assert FieldKeys(f) == ["id", "effect", "cidr", "protocol", "ports"];
    PortsUnique(r.ports);
    hide PortsJson;
    assert UniqueKeys(f[4].value) <==> Distinct(r.ports);
  }

  lemma NetworkUnique(rules: seq<NetworkRule>)
    ensures UniqueKeys(Array(NetworkJson(rules))) <==> Distinct(NetworkIds(rules)) && PortsDistinct(rules)
  {
    var items := NetworkJson(rules);
    forall i | 0 <= i < |rules|
      ensures Id(items[i]) == Some(rules[i].id) && (UniqueKeys(items[i]) <==> Distinct(rules[i].ports))
    {
      NetworkFieldsUnique(rules[i]);
    }
    hide NetworkFields, Id;
    IdsAreKeys(items, NetworkIds(rules));
  }

  lemma StringsUnique(names: seq<string>)
    ensures UniqueKeys(Array(StringsJson(names))) <==> Distinct(names)
  {
    var items := StringsJson(names);
    assert items != [] ==> Id(items[0]).None?;
  }

  lemma ProfileUnique(p: Profile)
    ensures UniqueKeys(ProfileJson(p)) <==> ReadyProfile(p)
  {
    RulesUnique(p.rules);
    NetworkUnique(p.networkRules);
    StringsUnique(p.dns);
    hide RulesJson, NetworkJson, StringsJson, ReadyProfile;
    var network := [Field("rules", Array(NetworkJson(p.networkRules))), Field("dns", Array(StringsJson(p.dns)))];
    var top := [Field("rules", Array(RulesJson(p.rules))), Field("network", Object(network))];
    assert FieldKeys(network) == ["rules", "dns"] && FieldKeys(top) == ["rules", "network"];
    TwoFields(network);
    TwoFields(top);
    assert ProfileJson(p) == Object(top);
    ReadyParts(p);
  }

  lemma ReadyParts(p: Profile)
    ensures ReadyProfile(p) <==>
      && Distinct(RuleIds(p.rules)) && Distinct(NetworkIds(p.networkRules))
      && Distinct(p.dns) && PortsDistinct(p.networkRules)
  {
  }

  lemma TwoFields(f: seq<Field>)
    requires |f| == 2 && f[0].key != f[1].key
    ensures UniqueKeys(Object(f)) <==> UniqueKeys(f[0].value) && UniqueKeys(f[1].value)
  {
    if UniqueKeys(f[0].value) && UniqueKeys(f[1].value) {
      forall i | 0 <= i < |f| ensures UniqueKeys(f[i].value) { assert i == 0 || i == 1; }
    }
  }

  lemma ProfilesUnique(profiles: seq<Named>)
    ensures UniqueKeys(Object(ProfilesFields(profiles))) <==>
      Distinct(Names(profiles)) && forall i :: 0 <= i < |profiles| ==> ReadyProfile(profiles[i].profile)
  {
    var fields := ProfilesFields(profiles);
    forall i | 0 <= i < |profiles| ensures UniqueKeys(fields[i].value) <==> ReadyProfile(profiles[i].profile) {
      ProfileUnique(profiles[i].profile);
    }
    hide ProfileJson, ReadyProfile;
    assert FieldKeys(fields) == Names(profiles);
  }

  /** A document's JSON has unique keys exactly when its profile names, the IDs of
      each rule list, its DNS names and the ports of each rule are distinct. */
  lemma DocumentUnique(d: Document)
    ensures UniqueKeys(DocumentJson(d)) <==> Ready(d)
  {
    ProfilesUnique(d.profiles);
    hide ProfilesFields, ReadyProfile, Decimal;
    var f := DocumentJson(d).fields;
    assert FieldKeys(f) == ["version", "organization", "revision", "expires_at", "profiles"];
    assert f[4].value == Object(ProfilesFields(d.profiles));
    assert forall i :: 0 <= i < 4 ==> UniqueKeys(f[i].value);
  }

  // ---------------------------------------------------------- drafts

  predicate AddsDistinctPorts(edit: Edit) {
    edit.SetNetwork? ==> Distinct(edit.networkRule.ports)
  }

  lemma UniqueIsReady(p: Profile)
    requires Unique(p) && PortsDistinct(p.networkRules)
    ensures ReadyProfile(p)
  {
    DistinctParts(RuleIds(p.rules), NetworkIds(p.networkRules));
  }

  lemma EditKeepsPorts(p: Profile, edit: Edit)
    requires PortsDistinct(p.networkRules) && AddsDistinctPorts(edit) && EditProfile(p, edit).Ok?
    ensures PortsDistinct(EditProfile(p, edit).value.networkRules)
  {
    hide Distinct, ValidId, HasTarget, DnsName, Blank;
    if edit.Remove? && edit.kind == Network {
      WithoutKeeps(p.networkRules, NetworkIds(p.networkRules), edit.id);
      var kept := Without(p.networkRules, NetworkIds(p.networkRules), edit.id);
      forall i | 0 <= i < |kept| ensures Distinct(kept[i].ports) {
        assert kept[i] in p.networkRules;
      }
    }
  }

  predicate AllPortsDistinct(d: Document) {
    forall i :: 0 <= i < |d.profiles| ==> PortsDistinct(d.profiles[i].profile.networkRules)
  }

  lemma {:induction false} RunKeepsPorts(d: Document, edits: seq<(string, Edit)>)
    requires AllPortsDistinct(d) && forall k :: 0 <= k < |edits| ==> AddsDistinctPorts(edits[k].1)
    ensures AllPortsDistinct(AfterEdits(d, edits))
  {
    if edits != [] {
      var init := edits[..|edits| - 1];
      RunKeepsPorts(d, init);
      var before := AfterEdits(d, init);
      var (profile, edit) := edits[|edits| - 1];
      assert edits[|edits| - 1].1 == edit;
      if Edited(before, profile, edit).Ok? {
        EditKeepsPorts(before.profiles[IndexOf(Names(before.profiles), profile)].profile, edit);
      }
    }
  }

  lemma UniqueDocumentIsReady(d: Document)
    requires UniqueDocument(d) && AllPortsDistinct(d)
    ensures Ready(d)
  {
    forall i | 0 <= i < |d.profiles| ensures ReadyProfile(d.profiles[i].profile) {
      UniqueIsReady(d.profiles[i].profile);
    }
  }
}
