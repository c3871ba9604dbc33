/** The report snapshot: which rule each class's restorer applies, and what that keeps and loses. */
module ReportSerializer {
  import opened Wrappers
  import opened Serialization

  // ---------------------------------------------------------------- the restorers

  /** Support-stage words of snapshots published before the vocabulary changed. */
  function LegacyOsEolStatus(): map<string, string> {
    map["eol" := "ended", "extended" := "security_only", "supported" := "full"]
  }

  function ZeroTotals(): Value {
    Object("ReportTotals", map["total_vcpus" := Num(0.0), "total_memory_gb" := Num(0.0), "total_disk_gb" := Num(0.0)])
  }

  /** Which keys each class's restorer replaces; a class without an entry is built as it is. */
  function SourceRules(cls: ClassName): map<string, FieldRule> {
    match cls
    case "ReportRowItem" => map[
      "workload_groups" := Many("ReportWorkloadGroup"), "listen_ports_detail" := Many("ReportListenItem"),
      "os_eol_status" := Translated(LegacyOsEolStatus())]
    case "ReportSummary" => map[
      "rows" := Many("ReportRowItem"), "totals" := OneOrDefault("ReportTotals", ZeroTotals()),
        "generated_at" := Date, "anchor_at" := Date]
    case "EnvironmentReportSummary" => map[
      "overview" := One("EnvironmentOverview"), "attention" := One("AttentionSignals"), "base" := One("ReportSummary"),
      "classification_dist" := Many("ClassificationCount"), "os_distribution" := Many("OsCount"),
        "os_family_dist" := Many("DistributionBar"),
      "topology" := OneOrNull("NetworkTopology"), "top_risks" := Many("ReportRowItem"),
        "action" := OneOrEmpty("ActionTargets"),
      "service_catalog" := Many("ServiceCatalogGroup"), "attention_hosts" := Many("AttentionHostItem"),
      "capacity_imminent" := Many("CapacityImminentItem"), "anchor_at" := Date, "generated_at" := Date,
      "server_inventory" := OneOrKeep("ServerInventorySnapshot"), "memory_breakdown" := OneOrKeep("MemoryBreakdown"),
      "cpu_breakdown" := OneOrKeep("CpuBreakdown"), "period_assessment" := OneOrNull("PeriodAssessment"),
      "storage_tree" := Many("StorageNode"), "network_interfaces" := Many("NetworkInterfaceInfo")]
    case "NetworkTopology" => map["subnets" := Many("SubnetGroup")]
    case "SubnetGroup" => map["net_key" := Required, "host_count" := Keyword(Num(0.0)), "hosts" := Many("SubnetHost")]
    case "ServiceCatalogGroup" => map[
      "category" := Required, "total_count" := Keyword(Num(0.0)), "services" := Many("ServiceNameCount")]
    case "ServiceNameCount" => map["name" := Required, "count" := Required, "hosts" := Many("ServiceHost")]
    case "ServerInventorySnapshot" => map[
      "ip_internal" := Many("IpAddr"), "ip_external" := Many("IpAddr"),
      "boot_time" := Date, "agent_started_at" := Date, "last_seen_at" := Date]
    case "PeriodAssessment" => map[
      "resources" := Many("PeriodResource"), "error_rows" := Many("PeriodErrorRow"), "window_days" := Keyword(Num(0.0)),
      "classification_label" := Keyword(Str("")), "classification_color" := Keyword(Str(""))]
    case "PeriodResource" => map[
      "name" := Required, "util_rows" := Many("PeriodSignalRow"), "util_over" := Keyword(Num(0.0)),
      "sat_rows" := Many("PeriodSignalRow"), "sat_over" := Keyword(Num(0.0)), "has_util" := Keyword(Bool(true)),
      "detail_slug" := Keyword(Str("")), "verdict_label" := Keyword(Str("")), "verdict_color" := Keyword(Str("")),
      "extra_groups" := Many("PeriodExtraGroup"), "error_rows" := Many("PeriodErrorRow"),
      "verdict_label2" := Keyword(Str("")), "verdict_color2" := Keyword(Str(""))]
    case "PeriodExtraGroup" => map["label" := Required, "rows" := Many("PeriodSignalRow")]
    case "StorageNode" => map["children" := Many("StorageNode")]
    case "NetworkInterfaceInfo" => map["addresses" := Many("NetIfaceAddress")]
    case "EnvironmentOverview" => map[
      "utilization" := Many("UtilizationBar"), "utilization_p95" := Many("UtilizationBar"),
        "risk_donut" := Many("RiskDonutSegment"),
      "saturation_donuts" := Many("SaturationDonut"), "error_fleet" := Many("FleetErrorItem"),
      "under_provisioned_hosts" := Many("CapacityWarningItem")]
    case "AttentionSignals" => map[
      "gap_warnings" := Many("AttentionRow"), "os_eol_warnings" := Many("AttentionRow"),
        "agent_unstable" := Many("AttentionRow")]
    case "AttentionRow" => map["meta_at" := Date]
    case "ActionTargets" => map["hosts" := Many("CapacityWarningItem")]
    case _ => map[]
  }

  /** The classes whose restorer calls the constructor with named arguments. */
  predicate NamesArguments(cls: ClassName) {
    cls in {"SubnetGroup", "ServiceCatalogGroup", "ServiceNameCount", "PeriodAssessment", "PeriodResource",
            "PeriodExtraGroup", "AttentionSignals"}
  }

  /** The code's rules over any version of the class definitions that has the fields they name. */
  ghost predicate SourceCodec(k: Codec) {
    && Coherent(k) && Exact(k.clock)
    && (forall cls :: k.rules(cls) == SourceRules(cls) && k.explicitArgs(cls) == NamesArguments(cls))
  }

  /** A snapshot is restored to the very view model that was stored exactly when it is faithful. */
  lemma SnapshotRoundTripIff(k: Codec, cls: ClassName, v: Value)
    requires SourceCodec(k) && Shaped(k, cls, v)
    ensures Restore(k, cls, ToJsonable(k.clock, v)) == Some(v) <==> Faithful(k, cls, v)
  {
    RoundTripIff(k, cls, v);
  }

  /** Every attribute but the children is a JSON value, all the way down the tree. */
  predicate PlainTree(v: Value)
    requires v.Object? && "children" in v.fields && v.fields["children"].List?
    decreases v
  {
    && (forall f | f in v.fields && f != "children" :: Plain(v.fields[f]))
    && (forall i | 0 <= i < |v.fields["children"].items| ::
          var c := v.fields["children"].items[i];
          assert c < v.fields["children"] < v;
          c.Object? && "children" in c.fields && c.fields["children"].List? && PlainTree(c))
  }

  lemma {:induction false} PlainTreeIsFaithful(k: Codec, v: Value)
    requires SourceCodec(k) && Shaped(k, "StorageNode", v) && "children" in v.fields
    ensures v.fields["children"].List? && (PlainTree(v) <==> Faithful(k, "StorageNode", v))
    decreases v
  {
    NodeIsFaithfulIff(k, v);
    var items := v.fields["children"].items;
    forall i | 0 <= i < |items|
      ensures "children" in items[i].fields && items[i].fields["children"].List?
              && (PlainTree(items[i]) <==> Faithful(k, "StorageNode", items[i]))
    {
      assert items[i] < v.fields["children"];
      assert items[i].fields.Keys == k.schemas("StorageNode").Keys == v.fields.Keys;
      PlainTreeIsFaithful(k, items[i]);
    }
  }

  /** A node is faithful when its attributes are plain and its children are faithful. */
  lemma NodeIsFaithfulIff(k: Codec, v: Value)
    requires SourceCodec(k) && Shaped(k, "StorageNode", v) && "children" in v.fields
    ensures v.fields["children"].List?
    ensures forall i | 0 <= i < |v.fields["children"].items| :: Shaped(k, "StorageNode", v.fields["children"].items[i])
    ensures Faithful(k, "StorageNode", v) <==>
      (forall f | f in v.fields && f != "children" :: Plain(v.fields[f]))
      && (forall i | 0 <= i < |v.fields["children"].items| :: Faithful(k, "StorageNode", v.fields["children"].items[i]))
  {
    assert ShapedField(k, RuleOf(k, "StorageNode", "children"), v.fields["children"]);
    forall f | f in v.fields && f != "children" ensures FaithfulField(k, "StorageNode", v, f) <==> Plain(v.fields[f]) {
      assert RuleOf(k, "StorageNode", f) == Raw;
    }
    assert FaithfulField(k, "StorageNode", v, "children") <==>
      forall i | 0 <= i < |v.fields["children"].items| :: Faithful(k, "StorageNode", v.fields["children"].items[i]);
  }

  /** The storage tree, of any depth, survives exactly when its attributes are JSON values. */
  lemma StorageTreeRoundTripIff(k: Codec, v: Value)
    requires SourceCodec(k) && Shaped(k, "StorageNode", v) && "children" in v.fields
    ensures v.fields["children"].List?
      && (Restore(k, "StorageNode", ToJsonable(k.clock, v)) == Some(v) <==> PlainTree(v))
  {
    SnapshotRoundTripIff(k, "StorageNode", v);
    PlainTreeIsFaithful(k, v);
  }

  // ---------------------------------------------------------------- what the code does not restore

  /** A field a naming restorer does not name, one added later included, comes back as its default. */
  lemma UnnamedFieldIsLost(k: Codec, cls: ClassName, v: Value, f: string)
    requires SourceCodec(k) && Shaped(k, cls, v) && f in v.fields
    requires NamesArguments(cls) && f !in SourceRules(cls)
    ensures var r := Restore(k, cls, ToJsonable(k.clock, v));
      r.Some? && r.value.Object? && f in r.value.fields && k.schemas(cls)[f] == Some(r.value.fields[f])
  {
    FieldAfterRoundTrip(k, cls, v, f);
    ReturnedAt(k, cls, v, f);
  }

  /** The seven restorers that name their arguments lose a field they do not name; every other one passes it
      on as it was stored. */
  lemma UnruledFieldBecomes(k: Codec, cls: ClassName, v: Value, f: string)
    requires SourceCodec(k) && Shaped(k, cls, v) && f in v.fields && f !in SourceRules(cls)
    ensures var r := Restore(k, cls, ToJsonable(k.clock, v));
      && r.Some? && r.value.Object? && f in r.value.fields
      && if cls == "SubnetGroup" || cls == "ServiceCatalogGroup" || cls == "ServiceNameCount"
            || cls == "PeriodAssessment" || cls == "PeriodResource" || cls == "PeriodExtraGroup"
            || cls == "AttentionSignals"
         then k.schemas(cls)[f] == Some(r.value.fields[f])
         else r.value.fields[f] == ToJsonable(k.clock, v.fields[f])
  {
    hide SourceRules;
    FieldAfterRoundTrip(k, cls, v, f);
    ReturnedAt(k, cls, v, f);
  }

  /** The gateway of a subnet is such a field: whatever it was, the default comes back. */
  lemma GatewayIsLost(k: Codec, v: Value)
    requires SourceCodec(k) && Shaped(k, "SubnetGroup", v) && "gateway" in v.fields
    ensures var r := Restore(k, "SubnetGroup", ToJsonable(k.clock, v));
      r.Some? && r.value.Object? && "gateway" in r.value.fields
      && k.schemas("SubnetGroup")["gateway"] == Some(r.value.fields["gateway"])
  {
    GatewayIsUnnamed();
    UnnamedFieldIsLost(k, "SubnetGroup", v, "gateway");
  }

  lemma GatewayIsUnnamed()
    ensures NamesArguments("SubnetGroup") && "gateway" !in SourceRules("SubnetGroup")
  {
    assert |"gateway"| == 7 && |"net_key"| == 7 && "gateway"[0] == 'g' && "net_key"[0] == 'n';
  }

  /** The workload donut of the overview stays a list of dicts: it comes back only when it is empty. */
  lemma WorkloadDonutComesBackIff(k: Codec, v: Value)
    requires SourceCodec(k) && Shaped(k, "EnvironmentOverview", v) && "workload_donut" in v.fields
    requires v.fields["workload_donut"].List? && (forall x | x in v.fields["workload_donut"].items :: x.Object?)
    ensures var r := Restore(k, "EnvironmentOverview", ToJsonable(k.clock, v));
      r.Some? && "workload_donut" in r.value.fields
      && (r.value.fields["workload_donut"] == v.fields["workload_donut"] <==> v.fields["workload_donut"].items == [])
  {
    FieldAfterRoundTrip(k, "EnvironmentOverview", v, "workload_donut");
    WorkloadDonutHasNoRule();
    ObjectsAreStoredAsDicts(k.clock, v.fields["workload_donut"]);
  }

  lemma WorkloadDonutHasNoRule()
    ensures "workload_donut" !in SourceRules("EnvironmentOverview")
  {
  }

  lemma ObjectsAreStoredAsDicts(clock: Clock, v: Value)
    requires v.List? && forall x | x in v.items :: x.Object?
    ensures ToJsonable(clock, v) == v <==> v.items == []
  {
    StoredUnchangedIff(clock, v);
    if v.items != [] {
      assert v.items[0] in v.items && !Plain(v.items[0]);
    }
  }

  function CurrentEolWord(word: string): string {
    if word == "eol" then "ended" else if word == "extended" then "security_only"
    else if word == "supported" then "full" else word
  }

  /** A row stored with one of the three old words comes back with the new one, any other word as it is. */
  lemma OldEolWordsAreTranslated(k: Codec, v: Value, word: string)
    requires SourceCodec(k) && Shaped(k, "ReportRowItem", v) && "os_eol_status" in v.fields
      && v.fields["os_eol_status"] == Str(word)
    ensures var r := Restore(k, "ReportRowItem", ToJsonable(k.clock, v));
      r.Some? && "os_eol_status" in r.value.fields
      && r.value.fields["os_eol_status"] == Str(CurrentEolWord(word))
  {
    hide SourceRules, LegacyOsEolStatus, Restore, NamesArguments;
    FieldAfterRoundTrip(k, "ReportRowItem", v, "os_eol_status");
    EolStatusIsTranslated();
    LegacyWord(word);
  }

  lemma LegacyWord(word: string)
    ensures Translate(LegacyOsEolStatus(), Str(word)) == Str(CurrentEolWord(word))
  {
  }

  lemma EolStatusIsTranslated()
    ensures "os_eol_status" in SourceRules("ReportRowItem")
    ensures SourceRules("ReportRowItem")["os_eol_status"] == Translated(LegacyOsEolStatus())
  {
  }

  // ---------------------------------------------------------------- the restorers as written

  /** The restorer of the class spreads the dict, by the code's rules. */
  ghost predicate Spreads(k: Codec, cls: ClassName) {
    k.rules(cls) == SourceRules(cls) && !k.explicitArgs(cls)
  }

  /** The restorer of the class names its arguments, by the code's rules. */
  ghost predicate Names(k: Codec, cls: ClassName) {
    k.rules(cls) == SourceRules(cls) && k.explicitArgs(cls)
  }

  predicate AllRestored(k: Codec, cls: ClassName, items: seq<Value>) {
    forall i | 0 <= i < |items| :: Restore(k, cls, items[i]).Some?
  }

  function RestoredItems(k: Codec, cls: ClassName, items: seq<Value>): seq<Value>
    requires AllRestored(k, cls, items)
  {
    seq(|items|, i requires 0 <= i < |items| => Restore(k, cls, items[i]).value)
  }

  /** What a Many rule passes on, in terms of the list. */
  lemma ManyValue(k: Codec, cls: ClassName, v: Value, f: string, c: ClassName)
    requires v.Dict? && RuleOf(k, cls, f) == Many(c)
    ensures FieldValue(k, cls, v, f) ==
      if AllRestored(k, c, JsonList(v.members, f))
        then Given(List(RestoredItems(k, c, JsonList(v.members, f)))) else Raises
  {
  }

  /** The comprehension over a nested list; it raises with its first bad element. */
  method RestoreList(k: Codec, cls: ClassName, items: seq<Value>) returns (r: Option<seq<Value>>)
    ensures r == if AllRestored(k, cls, items) then Some(RestoredItems(k, cls, items)) else None
  {
    var done: seq<Value> := [];
    for i := 0 to |items|
      invariant AllRestored(k, cls, items[..i]) && done == RestoredItems(k, cls, items[..i])
    {
      var one := Restore(k, cls, items[i]);
      if one.None? {
        return None;
      }
      done := done + [one.value];
      assert items[..i + 1] == items[..i] + [items[i]];
      assert AllRestored(k, cls, items[..i + 1]);
    }
    assert items[..|items|] == items;
    r := Some(done);
  }

  method StorageNodeFromDict(k: Codec, d: Value) returns (r: Option<Value>)
    requires d.Dict? && Spreads(k, "StorageNode")
    ensures r == Restore(k, "StorageNode", d)
  {
    ghost var rules := k.rules("StorageNode");
    assert rules == map["children" := Many("StorageNode")];
    ManyValue(k, "StorageNode", d, "children", "StorageNode");
    var data := d.members;
    var children := RestoreList(k, "StorageNode", JsonList(data, "children"));
    if children.None? {
      assert "children" in rules;
      return None;
    }
    data := data["children" := List(children.value)];
    assert Overridden(k, "StorageNode", d) == data;
    r := Build(k.schemas("StorageNode"), "StorageNode", data);
  }

  method ReportRowFromDict(k: Codec, d: Value) returns (r: Option<Value>)
    requires d.Dict? && Spreads(k, "ReportRowItem")
    ensures r == Restore(k, "ReportRowItem", d)
  {
    ghost var rules := k.rules("ReportRowItem");
    RowRules();
    ManyValue(k, "ReportRowItem", d, "workload_groups", "ReportWorkloadGroup");
    ManyValue(k, "ReportRowItem", d, "listen_ports_detail", "ReportListenItem");
    var data := d.members;
    var groups := RestoreList(k, "ReportWorkloadGroup", JsonList(data, "workload_groups"));
    if groups.None? {
      assert "workload_groups" in rules;
      return None;
    }
    data := data["workload_groups" := List(groups.value)];
    var ports := RestoreList(k, "ReportListenItem", JsonList(data, "listen_ports_detail"));
    if ports.None? {
      assert "listen_ports_detail" in rules;
      return None;
    }
    data := data["listen_ports_detail" := List(ports.value)];
    var status := Member(data, "os_eol_status");
    if status.Str? && status.s in LegacyOsEolStatus() {
      data := data["os_eol_status" := Str(LegacyOsEolStatus()[status.s])];
    }
    RowMembers(k, d, groups.value, ports.value);
    assert Overridden(k, "ReportRowItem", d) == data;
    r := Build(k.schemas("ReportRowItem"), "ReportRowItem", data);
  }

  lemma RowMembers(k: Codec, d: Value, groups: seq<Value>, ports: seq<Value>)
    requires d.Dict? && Spreads(k, "ReportRowItem")
    requires FieldValue(k, "ReportRowItem", d, "workload_groups") == Given(List(groups))
    requires FieldValue(k, "ReportRowItem", d, "listen_ports_detail") == Given(List(ports))
    ensures forall f | f in k.rules("ReportRowItem") :: !FieldValue(k, "ReportRowItem", d, f).Raises?
    ensures var lists := d.members["workload_groups" := List(groups)]["listen_ports_detail" := List(ports)];
      Overridden(k, "ReportRowItem", d) ==
        if "os_eol_status" in d.members
          then lists["os_eol_status" := Translate(LegacyOsEolStatus(), d.members["os_eol_status"])]
        else lists
  {
    hide FieldValue, Overridden, SourceRules;
    RowRules();
    var lists := d.members["workload_groups" := List(groups)]["listen_ports_detail" := List(ports)];
    var data := if "os_eol_status" in d.members
                then lists["os_eol_status" := Translate(LegacyOsEolStatus(), d.members["os_eol_status"])] else lists;
    forall f | f in d.members.Keys + k.rules("ReportRowItem").Keys
      ensures FieldValue(k, "ReportRowItem", d, f) == if f in data then Given(data[f]) else Absent
    {
      if f == "os_eol_status" {
        StatusValue(k, d);
      } else if f != "workload_groups" && f != "listen_ports_detail" {
        UnruledValue(k, "ReportRowItem", d, f);
      }
    }
    OverriddenIs(k, "ReportRowItem", d, data);
  }

  lemma StatusValue(k: Codec, d: Value)
    requires d.Dict? && Spreads(k, "ReportRowItem")
    ensures FieldValue(k, "ReportRowItem", d, "os_eol_status") ==
      if "os_eol_status" in d.members
        then Given(Translate(LegacyOsEolStatus(), d.members["os_eol_status"])) else Absent
  {
    RowRules();
  }

  lemma RowRules()
    ensures var rules := SourceRules("ReportRowItem");
      && rules.Keys == {"workload_groups", "listen_ports_detail", "os_eol_status"}
      && rules["workload_groups"] == Many("ReportWorkloadGroup")
        && rules["listen_ports_detail"] == Many("ReportListenItem")
      && rules["os_eol_status"] == Translated(LegacyOsEolStatus())
  {
  }

  method ReportSummaryFromDict(k: Codec, d: Value) returns (r: Option<Value>)
    requires d.Dict? && Spreads(k, "ReportSummary")
    ensures r == Restore(k, "ReportSummary", d)
  {
    ghost var rules := k.rules("ReportSummary");
    SummaryRules();
    ManyValue(k, "ReportSummary", d, "rows", "ReportRowItem");
    var data := d.members;
    var rows := RestoreList(k, "ReportRowItem", JsonList(data, "rows"));
    if rows.None? {
      assert "rows" in rules;
      return None;
    }
    data := data["rows" := List(rows.value)];
    var totals := Member(data, "totals");
    if Truthy(totals) {
      var built := Restore(k, "ReportTotals", totals);
      if built.None? {
        assert "totals" in rules;
        return None;
      }
      data := data["totals" := built.value];
    } else {
      data := data["totals" := ZeroTotals()];
    }
    SummaryMembers(k, d, rows.value, data["totals"]);
    data := data["generated_at" := ParseDt(k.clock, Member(data, "generated_at"))];
    data := data["anchor_at" := ParseDt(k.clock, Member(data, "anchor_at"))];
    r := Build(k.schemas("ReportSummary"), "ReportSummary", data);
  }

  lemma SummaryMembers(k: Codec, d: Value, rows: seq<Value>, totals: Value)
    requires d.Dict? && Spreads(k, "ReportSummary")
    requires FieldValue(k, "ReportSummary", d, "rows") == Given(List(rows))
    requires FieldValue(k, "ReportSummary", d, "totals") == Given(totals)
    ensures forall f | f in k.rules("ReportSummary") :: !FieldValue(k, "ReportSummary", d, f).Raises?
    ensures Overridden(k, "ReportSummary", d) == d.members["rows" := List(rows)]["totals" := totals]
      ["generated_at" := ParseDt(k.clock, Member(d.members, "generated_at"))]
      ["anchor_at" := ParseDt(k.clock, Member(d.members, "anchor_at"))]
  {
    SummaryRules();
    var data := d.members["rows" := List(rows)]["totals" := totals]
      ["generated_at" := ParseDt(k.clock, Member(d.members, "generated_at"))]
      ["anchor_at" := ParseDt(k.clock, Member(d.members, "anchor_at"))];
    forall f | f in data ensures FieldValue(k, "ReportSummary", d, f) == Given(data[f]) {
      if f == "generated_at" || f == "anchor_at" {
        assert RuleOf(k, "ReportSummary", f) == Date;
      } else if f != "rows" && f != "totals" {
        assert RuleOf(k, "ReportSummary", f) == Raw;
      }
    }
    OverriddenIs(k, "ReportSummary", d, data);
  }

  lemma SummaryRules()
    ensures var rules := SourceRules("ReportSummary");
      && rules.Keys == {"rows", "totals", "generated_at", "anchor_at"}
      && rules["rows"] == Many("ReportRowItem") && rules["totals"] == OneOrDefault("ReportTotals", ZeroTotals())
      && rules["generated_at"] == Date && rules["anchor_at"] == Date
  {
  }

  method AttentionRowFromDict(k: Codec, d: Value) returns (r: Option<Value>)
    requires d.Dict? && Spreads(k, "AttentionRow")
    ensures r == Restore(k, "AttentionRow", d)
  {
    assert k.rules("AttentionRow") == map["meta_at" := Date];
    var data := d.members;
    data := data["meta_at" := ParseDt(k.clock, Member(data, "meta_at"))];
    assert Overridden(k, "AttentionRow", d) == data;
    r := Build(k.schemas("AttentionRow"), "AttentionRow", data);
  }

  method ActionTargetsFromDict(k: Codec, d: Value) returns (r: Option<Value>)
    requires d.Dict? && Spreads(k, "ActionTargets")
    ensures r == Restore(k, "ActionTargets", d)
  {
    ghost var rules := k.rules("ActionTargets");
    assert rules == map["hosts" := Many("CapacityWarningItem")];
    ManyValue(k, "ActionTargets", d, "hosts", "CapacityWarningItem");
    var data := d.members;
    var hosts := RestoreList(k, "CapacityWarningItem", JsonList(data, "hosts"));
    if hosts.None? {
      assert "hosts" in rules;
      return None;
    }
    data := data["hosts" := List(hosts.value)];
    assert Overridden(k, "ActionTargets", d) == data;
    r := Build(k.schemas("ActionTargets"), "ActionTargets", data);
  }

  /** A restorer that names its arguments: nothing else is passed, and a name the class has lost raises. */
  method AttentionFromDict(k: Codec, d: Value) returns (r: Option<Value>)
    requires d.Dict? && Names(k, "AttentionSignals")
    ensures r == Restore(k, "AttentionSignals", d)
  {
    ghost var rules := k.rules("AttentionSignals");
    AttentionRules();
    ManyValue(k, "AttentionSignals", d, "gap_warnings", "AttentionRow");
    ManyValue(k, "AttentionSignals", d, "os_eol_warnings", "AttentionRow");
    ManyValue(k, "AttentionSignals", d, "agent_unstable", "AttentionRow");
    var gap := RestoreList(k, "AttentionRow", JsonList(d.members, "gap_warnings"));
    var eol := RestoreList(k, "AttentionRow", JsonList(d.members, "os_eol_warnings"));
    var unstable := RestoreList(k, "AttentionRow", JsonList(d.members, "agent_unstable"));
    if gap.None? || eol.None? || unstable.None? {
      assert "gap_warnings" in rules && "os_eol_warnings" in rules && "agent_unstable" in rules;
      return None;
    }
    var arguments := map[
      "gap_warnings" := List(gap.value), "os_eol_warnings" := List(eol.value),
        "agent_unstable" := List(unstable.value)];
    AttentionArguments(k, d, arguments);
    if !(arguments.Keys <= k.schemas("AttentionSignals").Keys) {
      return None;
    }
    r := Build(k.schemas("AttentionSignals"), "AttentionSignals", arguments);
  }

  lemma AttentionRules()
    ensures SourceRules("AttentionSignals") == map[
      "gap_warnings" := Many("AttentionRow"), "os_eol_warnings" := Many("AttentionRow"),
        "agent_unstable" := Many("AttentionRow")]
  {
  }

  lemma AttentionArguments(k: Codec, d: Value, arguments: map<string, Value>)
    requires d.Dict? && Names(k, "AttentionSignals")
    requires arguments.Keys == SourceRules("AttentionSignals").Keys
    requires forall f | f in arguments :: FieldValue(k, "AttentionSignals", d, f) == Given(arguments[f])
    ensures Overridden(k, "AttentionSignals", d) == arguments
    ensures forall f | f in k.rules("AttentionSignals") :: !FieldValue(k, "AttentionSignals", d, f).Raises?
  {
    forall f | f in d.members && f !in arguments ensures FieldValue(k, "AttentionSignals", d, f) == Absent {
    }
  }
}
