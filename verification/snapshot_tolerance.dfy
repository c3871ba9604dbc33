/** Old snapshots under newer classes: keys a class does not know any more make no difference. */
module SnapshotTolerance {
  import opened Serialization

  /** Two stored dicts that differ only in keys their class does not know, at any level. */
  predicate Alike(k: Codec, cls: ClassName, a: Value, b: Value)
    decreases a, 1
  {
    a == b || (a.Dict? && b.Dict? && AlikeMembers(k, cls, a, b))
  }

  predicate AlikeMembers(k: Codec, cls: ClassName, a: Value, b: Value)
    requires a.Dict? && b.Dict?
    decreases a, 0
  {
    forall f | f in k.schemas(cls).Keys + k.rules(cls).Keys ::
      (f in a.members <==> f in b.members)
        && (f in a.members ==> AlikeField(k, RuleOf(k, cls, f), a.members[f], b.members[f]))
  }

  /** An empty dict and one with unknown keys only are not alike: the first one counts as absent. */
  predicate AlikeField(k: Codec, rule: FieldRule, x: Value, y: Value)
    decreases x, 2
  {
    x == y ||
    match rule
    case Many(c) => x.List? && y.List? && |x.items| == |y.items|
      && (forall i | 0 <= i < |x.items| :: Alike(k, c, x.items[i], y.items[i]))
    case One(c) => AlikeRecord(k, c, x, y)
    case OneOrEmpty(c) => AlikeRecord(k, c, x, y)
    case OneOrDefault(c, _) => AlikeRecord(k, c, x, y)
    case OneOrNull(c) => AlikeRecord(k, c, x, y)
    case OneOrKeep(c) => AlikeRecord(k, c, x, y)
    case _ => false
  }

  predicate AlikeRecord(k: Codec, cls: ClassName, x: Value, y: Value)
    decreases x, 1
  {
    x.Dict? && y.Dict? && Truthy(x) && Truthy(y) && AlikeMembers(k, cls, x, y)
  }

  lemma {:induction false} AlikeFieldValue(k: Codec, cls: ClassName, a: Value, b: Value, f: string)
    requires a.Dict? && b.Dict? && AlikeMembers(k, cls, a, b) && f in k.schemas(cls).Keys + k.rules(cls).Keys
    ensures FieldValue(k, cls, a, f) == FieldValue(k, cls, b, f)
    decreases a, 0
  {
    if f in a.members && a.members[f] != b.members[f] {
      var x, y := a.members[f], b.members[f];
      assert AlikeField(k, RuleOf(k, cls, f), x, y);
      match RuleOf(k, cls, f)
      case Many(c) =>
        forall i | 0 <= i < |x.items| ensures Restore(k, c, x.items[i]) == Restore(k, c, y.items[i]) {
          assert x.items[i] < x;
          AlikeRestored(k, c, x.items[i], y.items[i]);
        }
        ManyAlike(k, cls, a, b, f, c);
      case One(c) => AlikeRestored(k, c, x, y);
      case OneOrEmpty(c) => AlikeRestored(k, c, x, y);
      case OneOrDefault(c, _) => AlikeRestored(k, c, x, y);
      case OneOrNull(c) => AlikeRestored(k, c, x, y);
      case OneOrKeep(c) => AlikeRestored(k, c, x, y);
    }
  }

  lemma ManyAlike(k: Codec, cls: ClassName, a: Value, b: Value, f: string, c: ClassName)
    requires a.Dict? && b.Dict? && f in a.members && f in b.members && RuleOf(k, cls, f) == Many(c)
    requires a.members[f].List? && b.members[f].List? && |a.members[f].items| == |b.members[f].items|
    requires forall i | 0 <= i < |a.members[f].items| ::
      Restore(k, c, a.members[f].items[i]) == Restore(k, c, b.members[f].items[i])
    ensures FieldValue(k, cls, a, f) == FieldValue(k, cls, b, f)
  {
    var x, y := a.members[f].items, b.members[f].items;
    assert JsonList(a.members, f) == x && JsonList(b.members, f) == y;
    if i :| 0 <= i < |x| && Restore(k, c, x[i]).None? {
      assert Restore(k, c, y[i]).None?;
    } else {
      assert forall i | 0 <= i < |x| :: Restore(k, c, y[i]).Some?;
      assert FieldValue(k, cls, a, f).value.items == FieldValue(k, cls, b, f).value.items;
    }
  }

  predicate SameAt(d: map<string, Value>, e: map<string, Value>, f: string) {
    (f in d <==> f in e) && (f in d && f in e ==> d[f] == e[f])
  }

  lemma BuildSeesSchemaOnly(schema: Schema, cls: ClassName, d: map<string, Value>, e: map<string, Value>)
    requires forall f | f in schema :: SameAt(d, e, f)
    ensures Build(schema, cls, d) == Build(schema, cls, e)
  {
    forall f | f in schema ensures (f in d <==> f in e) && (f in d ==> d[f] == e[f]) { assert SameAt(d, e, f); }
    if f :| f in schema && schema[f].None? && f !in d {
      assert f !in e;
    } else {
      assert forall f | f in schema :: schema[f].None? ==> f in e;
      assert Build(schema, cls, d).value.fields == Build(schema, cls, e).value.fields;
    }
  }

  lemma OverriddenAgree(k: Codec, cls: ClassName, a: Value, b: Value, f: string)
    requires a.Dict? && b.Dict? && f in k.schemas(cls).Keys + k.rules(cls).Keys
    requires f in a.members <==> f in b.members
    requires FieldValue(k, cls, a, f) == FieldValue(k, cls, b, f)
    ensures SameAt(Overridden(k, cls, a), Overridden(k, cls, b), f)
  {
  }

  /** Removal tolerance: keys a class does not know any more, at any level, do not change the result. */
  lemma {:induction false} AlikeRestored(k: Codec, cls: ClassName, a: Value, b: Value)
    requires Alike(k, cls, a, b)
    ensures Restore(k, cls, a) == Restore(k, cls, b)
    decreases a, 1
  {
    if a != b {
      forall f | f in k.schemas(cls).Keys + k.rules(cls).Keys
        ensures FieldValue(k, cls, a, f) == FieldValue(k, cls, b, f)
          && SameAt(Overridden(k, cls, a), Overridden(k, cls, b), f)
      {
        AlikeFieldValue(k, cls, a, b, f);
        OverriddenAgree(k, cls, a, b, f);
      }
      SameFieldsSameResult(k, cls, a, b);
    }
  }

  lemma SameFieldsSameResult(k: Codec, cls: ClassName, a: Value, b: Value)
    requires a.Dict? && b.Dict?
    requires forall f | f in k.schemas(cls).Keys + k.rules(cls).Keys ::
      FieldValue(k, cls, a, f) == FieldValue(k, cls, b, f) && SameAt(Overridden(k, cls, a), Overridden(k, cls, b), f)
    ensures Restore(k, cls, a) == Restore(k, cls, b)
  {
    assert forall f | f in k.rules(cls) :: f in k.schemas(cls).Keys + k.rules(cls).Keys;
    assert forall f | f in k.schemas(cls) :: f in k.schemas(cls).Keys + k.rules(cls).Keys;
    BuildSeesSchemaOnly(k.schemas(cls), cls, Overridden(k, cls, a), Overridden(k, cls, b));
  }
}
