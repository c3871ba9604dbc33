/**
 What the restorers make of any stored dict, an older or damaged one included: when they raise, and what
 each field becomes.
 */
module StoredDicts {
  import opened Wrappers
  import opened Serialization
  import opened ReportSerializer

  /** Python's falsy JSON values. */
  lemma FalsyIff(v: Value)
    ensures !Truthy(v) <==>
      v == Null || v == Bool(false) || v == Num(0.0) || v == Str("") || v == List([]) || v == Dict(map[])
  {
  }

  /** The nested object of a stored value, which has to be a dict that restores. */
  predicate Rebuilt(k: Codec, cls: ClassName, stored: Value, outcome: Outcome) {
    if Restore(k, cls, stored).Some? then outcome == Given(Restore(k, cls, stored).value) else outcome == Raises
  }

  predicate IsFalsy(v: Value) {
    v == Null || v == Bool(false) || v == Num(0.0) || v == Str("") || v == List([]) || v == Dict(map[])
  }

  /** What a stored field becomes under each rule. */
  lemma StoredFieldBecomes(k: Codec, cls: ClassName, d: Value, f: string)
    requires d.Dict? && f in d.members
    ensures var (stored, outcome) := (d.members[f], FieldValue(k, cls, d, f));
      match RuleOf(k, cls, f)
      case Raw => outcome == Given(stored)
      case Required => outcome == Given(stored)
      case Keyword(_) => outcome == Given(stored)
      case Date => outcome == Given(if stored.Str? then DateTime(k.clock.fromisoformat(stored.s)) else stored)
      case Many(c) =>
        if !stored.List? then outcome == Given(List([]))
        else if exists x | x in stored.items :: Restore(k, c, x).None? then outcome == Raises
        else (outcome.Given? && outcome.value.List? && |outcome.value.items| == |stored.items|
              && forall i | 0 <= i < |stored.items| :: Restore(k, c, stored.items[i]) == Some(outcome.value.items[i]))
      case One(c) => Rebuilt(k, c, stored, outcome)
      case OneOrEmpty(c) => stored.Dict? ==> Rebuilt(k, c, stored, outcome)
      case OneOrDefault(c, absent) =>
        if IsFalsy(stored) then outcome == Given(absent) else Rebuilt(k, c, stored, outcome)
      case OneOrNull(c) => if IsFalsy(stored) then outcome == Given(Null) else Rebuilt(k, c, stored, outcome)
      case OneOrKeep(c) => if IsFalsy(stored) then outcome == Given(stored) else Rebuilt(k, c, stored, outcome)
      case Translated(words) =>
        outcome == Given(if stored.Str? && stored.s in words then Str(words[stored.s]) else stored)
      case Unpassed => outcome == Absent
  {
    var stored := d.members[f];
    FalsyIff(stored);
    if RuleOf(k, cls, f).Many? {
      if stored.List? {
        StoredListBecomes(k, cls, d, f, RuleOf(k, cls, f).cls);
      } else {
        assert FieldValue(k, cls, d, f).value.items == [];
      }
    }
  }

  lemma StoredListBecomes(k: Codec, cls: ClassName, d: Value, f: string, c: ClassName)
    requires d.Dict? && f in d.members && d.members[f].List? && RuleOf(k, cls, f) == Many(c)
    ensures var (items, outcome) := (d.members[f].items, FieldValue(k, cls, d, f));
      if exists x | x in items :: Restore(k, c, x).None? then outcome == Raises
      else (outcome.Given? && outcome.value.List? && |outcome.value.items| == |items|
            && forall i | 0 <= i < |items| :: Restore(k, c, items[i]) == Some(outcome.value.items[i]))
  {
    ManyValue(k, cls, d, f, c);
    hide Restore, FieldValue;
    var items := d.members[f].items;
    if x :| x in items && Restore(k, c, x).None? {
      var i :| 0 <= i < |items| && items[i] == x;
      assert !AllRestored(k, c, items);
    } else {
      forall i | 0 <= i < |items| ensures Restore(k, c, items[i]).Some? { assert items[i] in items; }
    }
  }

  /** A restorer raises exactly when it is given no dict, names an argument the class has lost, a field of its
      own cannot be restored, or a field without a default is missing; else the object has exactly the fields
      of the class, each as its rule gives it or as the class defaults it, and unknown keys are gone. */
  lemma RestoredIff(k: Codec, cls: ClassName, d: Value)
    ensures Restore(k, cls, d) == None <==>
      || !d.Dict?
      || (k.explicitArgs(cls) && exists f | f in k.rules(cls) :: f !in k.schemas(cls))
      || (exists f | f in k.rules(cls) :: FieldValue(k, cls, d, f) == Raises)
      || (exists f | f in k.schemas(cls) :: k.schemas(cls)[f] == None && FieldValue(k, cls, d, f) == Absent)
    ensures Restore(k, cls, d).Some? ==>
      var r := Restore(k, cls, d).value;
      && r.Object? && r.cls == cls && r.fields.Keys == k.schemas(cls).Keys
      && forall f | f in r.fields ::
           FieldValue(k, cls, d, f) == Given(r.fields[f])
           || (FieldValue(k, cls, d, f) == Absent && k.schemas(cls)[f] == Some(r.fields[f]))
  {
    hide FieldValue;
    if d.Dict? {
      var data := Overridden(k, cls, d);
      forall f ensures f in data <==> FieldValue(k, cls, d, f).Given? {
        UnknownKeyIsAbsent(k, cls, d, f);
      }
      forall f | f !in k.rules(cls) ensures !FieldValue(k, cls, d, f).Raises? {
        UnruledNeverRaises(k, cls, d, f);
      }
    }
  }

  lemma UnknownKeyIsAbsent(k: Codec, cls: ClassName, d: Value, f: string)
    requires d.Dict?
    ensures f !in d.members && f !in k.rules(cls) ==> FieldValue(k, cls, d, f) == Absent
  {
  }

  lemma UnruledNeverRaises(k: Codec, cls: ClassName, d: Value, f: string)
    requires d.Dict? && f !in k.rules(cls)
    ensures !FieldValue(k, cls, d, f).Raises?
  {
  }

  /** A summary without totals, or with empty ones, counts zero cores, memory and disk. */
  lemma MissingTotalsAreZero(k: Codec, d: Value)
    requires d.Dict? && k.rules("ReportSummary") == SourceRules("ReportSummary")
    requires "totals" in d.members ==> IsFalsy(d.members["totals"])
    ensures FieldValue(k, "ReportSummary", d, "totals") == Given(Object("ReportTotals", map[
      "total_vcpus" := Num(0.0), "total_memory_gb" := Num(0.0), "total_disk_gb" := Num(0.0)]))
  {
    SummaryRules();
    hide SourceRules;
    if "totals" in d.members {
      FalsyIff(d.members["totals"]);
    }
  }

  /** A missing or misshapen action block is restored as an empty dict would be. */
  lemma MissingActionIsEmpty(k: Codec, d: Value)
    requires d.Dict? && k.rules("EnvironmentReportSummary") == SourceRules("EnvironmentReportSummary")
    requires k.rules("ActionTargets") == SourceRules("ActionTargets") && !k.explicitArgs("ActionTargets")
    requires "action" !in d.members || !d.members["action"].Dict?
    ensures Rebuilt(k, "ActionTargets", Dict(map[]), FieldValue(k, "EnvironmentReportSummary", d, "action"))
  {
    ActionRule();
    EmptyActionTargets(k);
    hide SourceRules, Restore;
  }

  lemma ActionRule()
    ensures "action" in SourceRules("EnvironmentReportSummary")
    ensures SourceRules("EnvironmentReportSummary")["action"] == OneOrEmpty("ActionTargets")
    ensures SourceRules("ActionTargets") == map["hosts" := Many("CapacityWarningItem")]
  {
  }

  lemma EmptyActionTargets(k: Codec)
    requires k.rules("ActionTargets") == SourceRules("ActionTargets") && !k.explicitArgs("ActionTargets")
    ensures RestoreEmpty(k, "ActionTargets") == Restore(k, "ActionTargets", Dict(map[]))
  {
    var empty := Dict(map[]);
    ActionRule();
    hide SourceRules;
    ManyValue(k, "ActionTargets", empty, "hosts", "CapacityWarningItem");
    assert RestoredItems(k, "CapacityWarningItem", JsonList(empty.members, "hosts")) == [];
    assert Overridden(k, "ActionTargets", empty) == map["hosts" := List([])];
    assert (map f | f in k.rules("ActionTargets") && k.rules("ActionTargets")[f].Many? :: List([]))
      == map["hosts" := List([])];
  }
}
