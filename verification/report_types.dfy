/**
 The restorers against the declarations: every nested view model, list of them and instant that a class
 declares is rebuilt as what it is declared to be.
 */
module ReportTypes {
  import opened Wrappers
  import opened Serialization
  import opened ReportSerializer

  /** The declared types that a JSON value does not have by itself, and the scalars of the classes whose
      restorer names its arguments. */
  datatype FieldType = InstanceOf(cls: ClassName) | ListOf(cls: ClassName) | Moment | Whole | Text | Flag

  /** The dataclass declarations of the view models. */
  function Declared(cls: ClassName): map<string, FieldType> {
    match cls
    case "ReportRowItem" => map[
      "workload_groups" := ListOf("ReportWorkloadGroup"), "listen_ports_detail" := ListOf("ReportListenItem")]
    case "ReportSummary" => map[
      "rows" := ListOf("ReportRowItem"), "totals" := InstanceOf("ReportTotals"),
      "generated_at" := Moment, "anchor_at" := Moment]
    case "EnvironmentReportSummary" => map[
      "overview" := InstanceOf("EnvironmentOverview"), "attention" := InstanceOf("AttentionSignals"),
      "base" := InstanceOf("ReportSummary"),
      "classification_dist" := ListOf("ClassificationCount"), "os_distribution" := ListOf("OsCount"),
      "os_family_dist" := ListOf("DistributionBar"),
      "topology" := InstanceOf("NetworkTopology"), "top_risks" := ListOf("ReportRowItem"),
      "action" := InstanceOf("ActionTargets"),
      "service_catalog" := ListOf("ServiceCatalogGroup"), "attention_hosts" := ListOf("AttentionHostItem"),
      "capacity_imminent" := ListOf("CapacityImminentItem"), "anchor_at" := Moment, "generated_at" := Moment,
      "server_inventory" := InstanceOf("ServerInventorySnapshot"), "memory_breakdown" := InstanceOf("MemoryBreakdown"),
      "cpu_breakdown" := InstanceOf("CpuBreakdown"), "period_assessment" := InstanceOf("PeriodAssessment"),
      "storage_tree" := ListOf("StorageNode"), "network_interfaces" := ListOf("NetworkInterfaceInfo")]
    case "NetworkTopology" => map["subnets" := ListOf("SubnetGroup")]
    case "SubnetGroup" => map["net_key" := Text, "host_count" := Whole, "hosts" := ListOf("SubnetHost")]
    case "ServiceCatalogGroup" => map[
      "category" := Text, "total_count" := Whole, "services" := ListOf("ServiceNameCount")]
    case "ServiceNameCount" => map["name" := Text, "count" := Whole, "hosts" := ListOf("ServiceHost")]
    case "ServerInventorySnapshot" => map[
      "ip_internal" := ListOf("IpAddr"), "ip_external" := ListOf("IpAddr"),
      "boot_time" := Moment, "agent_started_at" := Moment, "last_seen_at" := Moment]
    case "PeriodAssessment" => map[
      "resources" := ListOf("PeriodResource"), "error_rows" := ListOf("PeriodErrorRow"), "window_days" := Whole,
      "classification_label" := Text, "classification_color" := Text]
    case "PeriodResource" => map[
      "name" := Text, "util_rows" := ListOf("PeriodSignalRow"), "util_over" := Whole,
      "sat_rows" := ListOf("PeriodSignalRow"), "sat_over" := Whole, "has_util" := Flag,
      "detail_slug" := Text, "verdict_label" := Text, "verdict_color" := Text,
      "extra_groups" := ListOf("PeriodExtraGroup"), "error_rows" := ListOf("PeriodErrorRow"),
      "verdict_label2" := Text, "verdict_color2" := Text]
    case "PeriodExtraGroup" => map["label" := Text, "rows" := ListOf("PeriodSignalRow")]
    case "StorageNode" => map["children" := ListOf("StorageNode")]
    case "NetworkInterfaceInfo" => map["addresses" := ListOf("NetIfaceAddress")]
    case "EnvironmentOverview" => map[
      "utilization" := ListOf("UtilizationBar"), "utilization_p95" := ListOf("UtilizationBar"),
      "risk_donut" := ListOf("RiskDonutSegment"), "saturation_donuts" := ListOf("SaturationDonut"),
      "error_fleet" := ListOf("FleetErrorItem"), "under_provisioned_hosts" := ListOf("CapacityWarningItem"),
      "workload_donut" := ListOf("RiskDonutSegment")]
    case "AttentionSignals" => map[
      "gap_warnings" := ListOf("AttentionRow"), "os_eol_warnings" := ListOf("AttentionRow"),
      "agent_unstable" := ListOf("AttentionRow")]
    case "AttentionRow" => map["meta_at" := Moment]
    case "ActionTargets" => map["hosts" := ListOf("CapacityWarningItem")]
    case _ => map[]
  }

  /** The rule rebuilds the declared type; a scalar that is absent is an error or the zero of its type, and
      a flag is set. */
  predicate Rebuilds(rule: FieldRule, t: FieldType) {
    match t
    case InstanceOf(c) =>
      rule == One(c) || rule == OneOrEmpty(c) || rule == OneOrNull(c) || rule == OneOrKeep(c)
      || (rule.OneOrDefault? && rule.cls == c && rule.absent.Object? && rule.absent.cls == c)
    case ListOf(c) => rule == Many(c)
    case Moment => rule == Date
    case Whole => rule == Required || rule == Keyword(Num(0.0))
    case Text => rule == Required || rule == Keyword(Str(""))
    case Flag => rule == Keyword(Bool(true))
  }

  predicate IsWorkloadDonut(cls: ClassName, f: string) {
    cls == "EnvironmentOverview" && f == "workload_donut"
  }

  /** The rule of the field does what its declaration asks for, and only declared fields have rules. */
  predicate Matches(cls: ClassName, f: string) {
    && (f in Declared(cls) && !IsWorkloadDonut(cls, f) ==>
          f in SourceRules(cls) && Rebuilds(SourceRules(cls)[f], Declared(cls)[f]))
    && (f in SourceRules(cls) && !(cls == "ReportRowItem" && f == "os_eol_status") ==> f in Declared(cls))
  }

  lemma RowMatches(f: string)
    ensures Matches("ReportRowItem", f)
  {
  }

  lemma SummaryMatches(f: string)
    ensures Matches("ReportSummary", f)
  {
  }

  lemma EnvironmentMatches(f: string)
    ensures Matches("EnvironmentReportSummary", f)
  {
    hide Declared, SourceRules, Rebuilds;
    if f in Declared("EnvironmentReportSummary") { EnvironmentIsRestored(f); }
    if f in SourceRules("EnvironmentReportSummary") { EnvironmentIsDeclared(f); }
  }

  lemma EnvironmentIsRestored(f: string)
    requires f in Declared("EnvironmentReportSummary")
    ensures f in SourceRules("EnvironmentReportSummary")
    ensures Rebuilds(SourceRules("EnvironmentReportSummary")[f], Declared("EnvironmentReportSummary")[f])
  {
  }

  lemma EnvironmentIsDeclared(f: string)
    requires f in SourceRules("EnvironmentReportSummary")
    ensures f in Declared("EnvironmentReportSummary")
  {
  }

  lemma TopologyMatches(f: string)
    ensures Matches("NetworkTopology", f) && Matches("SubnetGroup", f)
  {
  }

  lemma ServiceGroupMatches(f: string)
    ensures Matches("ServiceCatalogGroup", f)
  {
  }

  lemma ServiceCountMatches(f: string)
    ensures Matches("ServiceNameCount", f)
  {
  }

  lemma InventoryMatches(f: string)
    ensures Matches("ServerInventorySnapshot", f)
  {
  }

  lemma PeriodMatches(f: string)
    ensures Matches("PeriodAssessment", f)
  {
  }

  lemma PeriodGroupMatches(f: string)
    ensures Matches("PeriodExtraGroup", f)
  {
  }

  lemma PeriodResourceMatches(f: string)
    ensures Matches("PeriodResource", f)
  {
  }

  lemma HardwareMatches(f: string)
    ensures Matches("StorageNode", f) && Matches("NetworkInterfaceInfo", f)
  {
  }

  lemma OverviewMatches(f: string)
    ensures Matches("EnvironmentOverview", f)
  {
  }

  lemma AttentionMatches(f: string)
    ensures Matches("AttentionSignals", f) && Matches("AttentionRow", f)
  {
  }

  lemma ActionMatches(f: string)
    ensures Matches("ActionTargets", f)
  {
  }

  const RULED: set<ClassName> := {
    "ReportRowItem", "ReportSummary", "EnvironmentReportSummary", "NetworkTopology", "SubnetGroup",
    "ServiceCatalogGroup", "ServiceNameCount", "ServerInventorySnapshot", "PeriodAssessment", "PeriodResource",
    "PeriodExtraGroup", "StorageNode", "NetworkInterfaceInfo", "EnvironmentOverview", "AttentionSignals",
    "AttentionRow", "ActionTargets"}

  lemma UnlistedMatches(cls: ClassName, f: string)
    requires cls !in RULED
    ensures Matches(cls, f)
  {
  }

  lemma EveryClassMatches(cls: ClassName, f: string)
    ensures Matches(cls, f)
  {
    hide Matches;
    if cls in RULED {
      RowMatches(f);
      SummaryMatches(f);
      EnvironmentMatches(f);
      TopologyMatches(f);
      ServiceGroupMatches(f);
      ServiceCountMatches(f);
      InventoryMatches(f);
      PeriodMatches(f);
      PeriodGroupMatches(f);
      PeriodResourceMatches(f);
      HardwareMatches(f);
      OverviewMatches(f);
      AttentionMatches(f);
      ActionMatches(f);
    } else {
      UnlistedMatches(cls, f);
    }
  }

  /** Every declared field but the workload donut has a rule that rebuilds its type, and no restorer
      touches any other field, but for the support stage of a row. */
  lemma RestoresDeclaredTypes(cls: ClassName, f: string)
    ensures f in Declared(cls) && !IsWorkloadDonut(cls, f) ==>
      f in SourceRules(cls) && Rebuilds(SourceRules(cls)[f], Declared(cls)[f])
    ensures f in SourceRules(cls) && !(cls == "ReportRowItem" && f == "os_eol_status") ==> f in Declared(cls)
  {
    hide Declared, SourceRules, Rebuilds, IsWorkloadDonut;
    EveryClassMatches(cls, f);
  }

  // ---------------------------------------------------------------- whole fields

  /** A value of the declared type; what may be missing is null. */
  predicate HasType(t: FieldType, x: Value) {
    match t
    case InstanceOf(c) => x.Null? || (x.Object? && x.cls == c)
    case ListOf(c) => x.List? && forall i | 0 <= i < |x.items| :: x.items[i].Object? && x.items[i].cls == c
    case Moment => x.Null? || x.DateTime?
    case Whole => x.Num?
    case Text => x.Str?
    case Flag => x.Bool?
  }

  /** After a round trip every declared field has its declared type again, and an instant is the very one
      that was stored; the workload donut only when it is empty. */
  lemma TypedFieldComesBack(k: Codec, cls: ClassName, v: Value, f: string)
    requires SourceCodec(k) && Shaped(k, cls, v) && f in v.fields && f in Declared(cls)
    requires HasType(Declared(cls)[f], v.fields[f])
    ensures var r := Restore(k, cls, ToJsonable(k.clock, v));
      && r.Some? && r.value.Object? && f in r.value.fields
      && (HasType(Declared(cls)[f], r.value.fields[f]) <==>
            !IsWorkloadDonut(cls, f) || v.fields[f].items == [])
      && (Declared(cls)[f].Moment? ==> r.value.fields[f] == v.fields[f])
  {
    hide Declared, SourceRules, Rebuilds, HasType;
    FieldAfterRoundTrip(k, cls, v, f);
    RestoresDeclaredTypes(cls, f);
    if IsWorkloadDonut(cls, f) {
      DonutIsDeclared();
      DonutBecomesDicts(k, v);
    } else {
      RebuiltHasType(k, cls, v, f, Declared(cls)[f]);
    }
  }

  lemma RebuiltHasType(k: Codec, cls: ClassName, v: Value, f: string, t: FieldType)
    requires SourceCodec(k) && Shaped(k, cls, v) && f in v.fields && HasType(t, v.fields[f])
    requires f in k.rules(cls) && Rebuilds(k.rules(cls)[f], t)
    ensures HasType(t, ReturnedField(k, cls, v, f))
    ensures t.Moment? ==> ReturnedField(k, cls, v, f) == v.fields[f]
  {
    hide Declared, SourceRules;
    assert ShapedField(k, RuleOf(k, cls, f), v.fields[f]);
  }

  lemma DonutIsDeclared()
    ensures "workload_donut" in Declared("EnvironmentOverview")
      && Declared("EnvironmentOverview")["workload_donut"] == ListOf("RiskDonutSegment")
  {
  }

  lemma DonutBecomesDicts(k: Codec, v: Value)
    requires SourceCodec(k) && Shaped(k, "EnvironmentOverview", v) && "workload_donut" in v.fields
    requires HasType(ListOf("RiskDonutSegment"), v.fields["workload_donut"])
    ensures v.fields["workload_donut"].List?
    ensures HasType(ListOf("RiskDonutSegment"), ReturnedField(k, "EnvironmentOverview", v, "workload_donut"))
      <==> v.fields["workload_donut"].items == []
  {
    WorkloadDonutHasNoRule();
    OverviewSpreads();
    hide SourceRules, NamesArguments;
    var x := v.fields["workload_donut"];
    assert ReturnedField(k, "EnvironmentOverview", v, "workload_donut") == ToJsonable(k.clock, x);
    if x.items != [] {
      assert ToJsonable(k.clock, x).items[0] == ToJsonable(k.clock, x.items[0]);
      assert ToJsonable(k.clock, x.items[0]).Dict?;
    }
  }

  lemma OverviewSpreads()
    ensures !NamesArguments("EnvironmentOverview")
  {
  }

  // ---------------------------------------------------------------- older snapshots

  /** What becomes of a field that an environment snapshot does not have: the three parts every report has
      are an error, lists are empty, the optional parts and the instants are null, and the parts added to
      the class later take the default of the class. */
  lemma AbsentFieldBecomes(k: Codec, d: Value, f: string)
    requires k.rules("EnvironmentReportSummary") == SourceRules("EnvironmentReportSummary") && d.Dict?
    requires f in Declared("EnvironmentReportSummary") && f !in d.members
    ensures var (outcome, t) :=
        (FieldValue(k, "EnvironmentReportSummary", d, f), Declared("EnvironmentReportSummary")[f]);
      && (f in {"overview", "attention", "base"} ==> outcome == Raises)
      && (f in {"topology", "period_assessment"} || t == Moment ==> outcome == Given(Null))
      && (f in {"server_inventory", "memory_breakdown", "cpu_breakdown"} ==> outcome == Absent)
      && (t.ListOf? ==> outcome == Given(List([])))
  {
    hide SourceRules, Declared;
    AbsentRules(f);
    AbsentValue(k, "EnvironmentReportSummary", d, f);
  }

  lemma AbsentValue(k: Codec, cls: ClassName, d: Value, f: string)
    requires d.Dict? && f !in d.members
    ensures match RuleOf(k, cls, f)
      case One(_) => FieldValue(k, cls, d, f) == Raises
      case OneOrNull(_) => FieldValue(k, cls, d, f) == Given(Null)
      case OneOrKeep(_) => FieldValue(k, cls, d, f) == Absent
      case Date => FieldValue(k, cls, d, f) == Given(Null)
      case Many(_) => FieldValue(k, cls, d, f) == Given(List([]))
      case _ => true
  {
    if RuleOf(k, cls, f).Many? {
      assert FieldValue(k, cls, d, f).value.items == [];
    }
  }

  lemma AbsentRules(f: string)
    requires f in Declared("EnvironmentReportSummary")
    ensures var (rules, t) := (SourceRules("EnvironmentReportSummary"), Declared("EnvironmentReportSummary")[f]);
      && f in rules
      && (f in {"overview", "attention", "base"} ==> rules[f].One?)
      && (f in {"topology", "period_assessment"} ==> rules[f].OneOrNull?)
      && (f in {"server_inventory", "memory_breakdown", "cpu_breakdown"} ==> rules[f].OneOrKeep?)
      && (t == Moment ==> rules[f] == Date)
      && (t.ListOf? ==> rules[f].Many?)
  {
    hide SourceRules, Declared;
    RestoresDeclaredTypes("EnvironmentReportSummary", f);
    RequiredParts();
    OptionalParts();
  }

  lemma RequiredParts()
    ensures var rules := SourceRules("EnvironmentReportSummary");
      && (forall f | f in {"overview", "attention", "base"} :: f in rules && rules[f].One?)
  {
  }

  lemma OptionalParts()
    ensures var rules := SourceRules("EnvironmentReportSummary");
      && (forall f | f in {"topology", "period_assessment"} :: f in rules && rules[f].OneOrNull?)
      && (forall f | f in {"server_inventory", "memory_breakdown", "cpu_breakdown"} ::
            f in rules && rules[f].OneOrKeep?)
  {
  }
}
