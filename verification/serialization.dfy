/**
 Snapshots: view models to JSON and back.  A view model is an `Object`; `ToJsonable` lowers it to the
 JSON that is stored, and `Restore` rebuilds it class by class from a table of field rules, dropping
 whatever the class no longer knows.
 */
module Serialization {
  import opened Wrappers

  /** The dataclass an object is an instance of. */
  type ClassName = string
  type Instant = int

  datatype Value =
    | Null
    | Bool(b: bool)
    | Num(r: real)
    | Str(s: string)
    | DateTime(at: Instant)
    | List(items: seq<Value>)
    | Dict(members: map<string, Value>)
    | Object(cls: ClassName, fields: map<string, Value>)

  /** `datetime.isoformat` and `datetime.fromisoformat`. */
  datatype Clock = Clock(isoformat: Instant -> string, fromisoformat: string -> Instant)

  ghost predicate Exact(clock: Clock) {
    forall t :: clock.fromisoformat(clock.isoformat(t)) == t
  }

  // ---------------------------------------------------------------- to JSON

  /** dataclasses.asdict: objects become dicts, all the way down. */
  function AsDict(v: Value): Value {
    match v
    case List(items) => List(seq(|items|, i requires 0 <= i < |items| => AsDict(items[i])))
    case Dict(m) => Dict(map f | f in m :: AsDict(m[f]))
    case Object(_, m) => Dict(map f | f in m :: AsDict(m[f]))
    case _ => v
  }

  function Jsonable(clock: Clock, v: Value): Value {
    match v
    case DateTime(t) => Str(clock.isoformat(t))
    case List(items) => List(seq(|items|, i requires 0 <= i < |items| => Jsonable(clock, items[i])))
    case Dict(m) => Dict(map f | f in m :: Jsonable(clock, m[f]))
    case _ => v
  }

  function ToJsonable(clock: Clock, v: Value): Value {
    Jsonable(clock, AsDict(v))
  }

  /** Nothing to lower: no object and no datetime anywhere. */
  predicate Plain(v: Value) {
    match v
    case DateTime(_) => false
    case Object(_, _) => false
    case List(items) => forall i | 0 <= i < |items| :: Plain(items[i])
    case Dict(m) => forall f | f in m :: Plain(m[f])
    case _ => true
  }

  lemma {:induction false} ToJsonableIsPlain(clock: Clock, v: Value)
    ensures Plain(ToJsonable(clock, v))
  {
    match v
    case List(items) =>
      forall i | 0 <= i < |items| ensures Plain(ToJsonable(clock, items[i])) { ToJsonableIsPlain(clock, items[i]); }
    case Dict(m) =>
      forall f | f in m ensures Plain(ToJsonable(clock, m[f])) { ToJsonableIsPlain(clock, m[f]); }
    case Object(_, m) =>
      forall f | f in m ensures Plain(ToJsonable(clock, m[f])) { ToJsonableIsPlain(clock, m[f]); }
    case _ =>
  }

  lemma {:induction false} PlainIsKept(clock: Clock, v: Value)
    requires Plain(v)
    ensures ToJsonable(clock, v) == v
  {
    match v
    case List(items) =>
      forall i | 0 <= i < |items| ensures ToJsonable(clock, items[i]) == items[i] { PlainIsKept(clock, items[i]); }
      assert ToJsonable(clock, v).items == items;
    case Dict(m) =>
      forall f | f in m ensures ToJsonable(clock, m[f]) == m[f] { PlainIsKept(clock, m[f]); }
      assert ToJsonable(clock, v).members == m;
    case _ =>
  }

  /** A value is stored as it is exactly when it is plain. */
  lemma StoredUnchangedIff(clock: Clock, v: Value)
    ensures ToJsonable(clock, v) == v <==> Plain(v)
  {
    ToJsonableIsPlain(clock, v);
    if Plain(v) { PlainIsKept(clock, v); }
  }

  // ---------------------------------------------------------------- from JSON

  /** What a restorer passes to the constructor for one field: the stored value, a required key, a key
      with the restorer's own default, a rebuilt value, or nothing. */
  datatype FieldRule =
    | Raw
    | Required
    | Keyword(absent: Value)
    | Date
    | Many(cls: ClassName)
    | One(cls: ClassName)
    | OneOrEmpty(cls: ClassName)
    | OneOrDefault(cls: ClassName, absent: Value)
    | OneOrNull(cls: ClassName)
    | OneOrKeep(cls: ClassName)
    | Translated(words: map<string, string>)
    | Unpassed

  /** The fields of a class with their defaults; None marks a required field. */
  type Schema = map<string, Option<Value>>

  /** `explicitArgs` are the classes whose restorer names every argument instead of spreading the dict. */
  datatype Codec = Codec(
    schemas: ClassName -> Schema, rules: ClassName -> map<string, FieldRule>, explicitArgs: ClassName -> bool,
      clock: Clock)

  datatype Outcome = Raises | Absent | Given(value: Value)

  function RuleOf(k: Codec, cls: ClassName, f: string): FieldRule {
    if f in k.rules(cls) then k.rules(cls)[f] else if k.explicitArgs(cls) then Unpassed else Raw
  }

  /** dict.get */
  function Member(d: map<string, Value>, f: string): Value {
    if f in d then d[f] else Null
  }

  function JsonList(d: map<string, Value>, f: string): seq<Value> {
    if f in d && d[f].List? then d[f].items else []
  }

  predicate Truthy(v: Value) {
    match v
    case Null => false
    case Bool(b) => b
    case Num(r) => r != 0.0
    case Str(s) => s != ""
    case List(items) => items != []
    case Dict(m) => m != map[]
    case _ => true
  }

  function ParseDt(clock: Clock, v: Value): Value {
    if v.Str? then DateTime(clock.fromisoformat(v.s)) else v
  }

  function Translate(words: map<string, string>, v: Value): Value {
    if v.Str? && v.s in words then Str(words[v.s]) else v
  }

  function OutcomeOf(restored: Option<Value>): Outcome {
    if restored.None? then Raises else Given(restored.value)
  }

  /** cls(**data) after the unknown keys were dropped; None is a TypeError for a missing argument. */
  function Build(schema: Schema, cls: ClassName, data: map<string, Value>): Option<Value> {
    if exists f | f in schema :: schema[f].None? && f !in data then None
    else Some(Object(cls, map f | f in schema :: if f in data then data[f] else schema[f].value))
  }

  /** What the restorer of `cls` passes on for the key, given the stored dict `v`. */
  function FieldValue(k: Codec, cls: ClassName, v: Value, f: string): Outcome
    requires v.Dict?
    decreases v, 0
  {
    var d := v.members;
    match RuleOf(k, cls, f)
    case Raw => if f in d then Given(d[f]) else Absent
    case Required => if f in d then Given(d[f]) else Raises
    case Keyword(absent) => Given(if f in d then d[f] else absent)
    case Date => Given(ParseDt(k.clock, Member(d, f)))
    case Many(c) =>
      var items := JsonList(d, f);
      assert forall i | 0 <= i < |items| :: items[i] < d[f] < v;
      if exists i | 0 <= i < |items| :: Restore(k, c, items[i]).None? then Raises
      else Given(List(seq(|items|, i requires 0 <= i < |items| => Restore(k, c, items[i]).value)))
    case One(c) => if f in d then OutcomeOf(Restore(k, c, d[f])) else Raises
    case OneOrEmpty(c) => if f in d && d[f].Dict? then OutcomeOf(Restore(k, c, d[f])) else OutcomeOf(RestoreEmpty(k, c))
    case OneOrDefault(c, absent) => if f in d && Truthy(d[f]) then OutcomeOf(Restore(k, c, d[f])) else Given(absent)
    case OneOrNull(c) => if f in d && Truthy(d[f]) then OutcomeOf(Restore(k, c, d[f])) else Given(Null)
    case OneOrKeep(c) =>
      if f !in d then Absent else if Truthy(d[f]) then OutcomeOf(Restore(k, c, d[f])) else Given(d[f])
    case Translated(words) => if f in d then Given(Translate(words, d[f])) else Absent
    case Unpassed => Absent
  }

  /** The restorer run on an empty dict: every list is empty, every other field takes its default. */
  function RestoreEmpty(k: Codec, cls: ClassName): Option<Value> {
    Build(k.schemas(cls), cls, map f | f in k.rules(cls) && k.rules(cls)[f].Many? :: List([]))
  }

  /** The dict with the ruled keys replaced. */
  function Overridden(k: Codec, cls: ClassName, v: Value): map<string, Value>
    requires v.Dict?
    decreases v, 1
  {
    map f | f in v.members.Keys + k.rules(cls).Keys && FieldValue(k, cls, v, f).Given? :: FieldValue(k, cls, v, f).value
  }

  /** None is an exception: a missing key, a missing argument, or an argument the class does not have. */
  function Restore(k: Codec, cls: ClassName, v: Value): Option<Value>
    decreases v, 2
  {
    if !v.Dict? then None
    else if k.explicitArgs(cls) && !(k.rules(cls).Keys <= k.schemas(cls).Keys) then None
    else if exists f | f in k.rules(cls) :: FieldValue(k, cls, v, f).Raises? then None
    else Build(k.schemas(cls), cls, Overridden(k, cls, v))
  }

  // ---------------------------------------------------------------- what comes back

  /** An instance of the class as the mapper builds it: nested fields hold instances, date fields dates. */
  predicate Shaped(k: Codec, cls: ClassName, v: Value)
    decreases v, 0
  {
    && v.Object? && v.cls == cls && v.fields.Keys == k.schemas(cls).Keys
    && (forall f | f in v.fields :: ShapedField(k, RuleOf(k, cls, f), v.fields[f]))
  }

  predicate ShapedField(k: Codec, rule: FieldRule, x: Value)
    decreases x, 1
  {
    match rule
    case Date => x.DateTime? || x.Null?
    case Many(c) => x.List? && (forall i | 0 <= i < |x.items| :: Shaped(k, c, x.items[i]))
    case One(c) => Shaped(k, c, x)
    case OneOrEmpty(c) => Shaped(k, c, x)
    case OneOrDefault(c, _) => Shaped(k, c, x)
    case OneOrNull(c) => x.Null? || Shaped(k, c, x)
    case OneOrKeep(c) => x.Null? || Shaped(k, c, x)
    case _ => true
  }

  /** Rules speak of fields of the class, a field that is never passed has a default, and no class is
      empty. */
  ghost predicate Coherent(k: Codec) {
    forall cls ::
      && k.schemas(cls) != map[]
      && k.rules(cls).Keys <= k.schemas(cls).Keys
      && (forall f | f in k.schemas(cls) && RuleOf(k, cls, f).Unpassed? :: k.schemas(cls)[f].Some?)
  }

  /** The object a stored instance is restored to. */
  function Returned(k: Codec, cls: ClassName, v: Value): Value
    requires Shaped(k, cls, v)
    decreases v, 1
  {
    Object(cls, map f | f in v.fields :: ReturnedField(k, cls, v, f))
  }

  function ReturnedField(k: Codec, cls: ClassName, v: Value, f: string): Value
    requires Shaped(k, cls, v) && f in v.fields
    decreases v, 0
  {
    var x := v.fields[f];
    assert ShapedField(k, RuleOf(k, cls, f), x);
    match RuleOf(k, cls, f)
    case Raw => ToJsonable(k.clock, x)
    case Required => ToJsonable(k.clock, x)
    case Keyword(_) => ToJsonable(k.clock, x)
    case Date => x
    case Many(c) =>
      assert forall i | 0 <= i < |x.items| :: x.items[i] < x;
      List(seq(|x.items|, i requires 0 <= i < |x.items| => Returned(k, c, x.items[i])))
    case One(c) => Returned(k, c, x)
    case OneOrEmpty(c) => Returned(k, c, x)
    case OneOrDefault(c, _) => Returned(k, c, x)
    case OneOrNull(c) => if x.Null? then Null else Returned(k, c, x)
    case OneOrKeep(c) => if x.Null? then Null else Returned(k, c, x)
    case Translated(words) => Translate(words, ToJsonable(k.clock, x))
    case Unpassed => if k.schemas(cls)[f].Some? then k.schemas(cls)[f].value else Null
  }

  // ---------------------------------------------------------------- storing and restoring

  /** The members a stored instance has. */
  lemma StoredMembers(k: Codec, cls: ClassName, v: Value)
    requires Shaped(k, cls, v)
    ensures ToJsonable(k.clock, v).Dict? && ToJsonable(k.clock, v).members.Keys == v.fields.Keys
    ensures forall f | f in v.fields :: ToJsonable(k.clock, v).members[f] == ToJsonable(k.clock, v.fields[f])
  {
  }

  predicate FieldComesBack(k: Codec, cls: ClassName, v: Value, f: string)
    requires Shaped(k, cls, v) && f in v.fields
  {
    ToJsonable(k.clock, v).Dict?
    && FieldValue(k, cls, ToJsonable(k.clock, v), f)
       == if RuleOf(k, cls, f).Unpassed? then Absent else Given(ReturnedField(k, cls, v, f))
  }

  lemma {:induction false} StoredField(k: Codec, cls: ClassName, v: Value, f: string)
    requires Coherent(k) && Exact(k.clock) && Shaped(k, cls, v) && f in v.fields
    ensures FieldComesBack(k, cls, v, f)
    decreases v, 0
  {
    hide FieldComesBack, ToJsonable;
    var x, rule := v.fields[f], RuleOf(k, cls, f);
    assert ShapedField(k, rule, x);
    match rule
    case Many(c) =>
      forall i | 0 <= i < |x.items|
        ensures Restore(k, c, ToJsonable(k.clock, x.items[i])) == Some(Returned(k, c, x.items[i]))
      {
        WhatComesBack(k, c, x.items[i]);
      }
      ManyComesBack(k, cls, v, f, c);
    case One(c) => WhatComesBack(k, c, x); NestedComesBack(k, cls, v, f, c);
    case OneOrEmpty(c) => WhatComesBack(k, c, x); NestedComesBack(k, cls, v, f, c);
    case OneOrDefault(c, _) => WhatComesBack(k, c, x); NestedComesBack(k, cls, v, f, c);
    case OneOrNull(c) => if !x.Null? { WhatComesBack(k, c, x); } NestedComesBack(k, cls, v, f, c);
    case OneOrKeep(c) => if !x.Null? { WhatComesBack(k, c, x); } NestedComesBack(k, cls, v, f, c);
    case _ => FlatComesBack(k, cls, v, f);
  }

  /** The rule restores one nested instance of the class. */
  predicate Nests(rule: FieldRule, c: ClassName) {
    match rule
    case One(d) => c == d
    case OneOrEmpty(d) => c == d
    case OneOrDefault(d, _) => c == d
    case OneOrNull(d) => c == d
    case OneOrKeep(d) => c == d
    case _ => false
  }

  lemma NestedComesBack(k: Codec, cls: ClassName, v: Value, f: string, c: ClassName)
    requires Coherent(k) && Shaped(k, cls, v) && f in v.fields && Nests(RuleOf(k, cls, f), c)
    requires v.fields[f].Null? || Shaped(k, c, v.fields[f])
    requires !v.fields[f].Null? ==>
      Restore(k, c, ToJsonable(k.clock, v.fields[f])) == Some(Returned(k, c, v.fields[f]))
    ensures FieldComesBack(k, cls, v, f)
  {
    StoredMembers(k, cls, v);
    assert ShapedField(k, RuleOf(k, cls, f), v.fields[f]);
    if !v.fields[f].Null? {
      StoredIsTruthy(k, c, v.fields[f]);
      StoredMembers(k, c, v.fields[f]);
    }
  }

  /** The rule restores no instance. */
  predicate Flat(rule: FieldRule) {
    rule.Raw? || rule.Required? || rule.Keyword? || rule.Date? || rule.Translated? || rule.Unpassed?
  }

  lemma FlatComesBack(k: Codec, cls: ClassName, v: Value, f: string)
    requires Exact(k.clock) && Shaped(k, cls, v) && f in v.fields && Flat(RuleOf(k, cls, f))
    ensures FieldComesBack(k, cls, v, f)
  {
    StoredMembers(k, cls, v);
    assert ShapedField(k, RuleOf(k, cls, f), v.fields[f]);
  }

  lemma StoredIsTruthy(k: Codec, cls: ClassName, v: Value)
    requires Coherent(k) && Shaped(k, cls, v)
    ensures Truthy(ToJsonable(k.clock, v))
  {
    StoredMembers(k, cls, v);
    assert v.fields.Keys != {} by { var f :| f in k.schemas(cls); assert f in v.fields.Keys; }
  }

  /** Restoring a stored instance always succeeds, and gives the instance with each field as its rule
      returns it. */
  lemma {:induction false} WhatComesBack(k: Codec, cls: ClassName, v: Value)
    requires Coherent(k) && Exact(k.clock) && Shaped(k, cls, v)
    ensures Restore(k, cls, ToJsonable(k.clock, v)) == Some(Returned(k, cls, v))
    decreases v, 1
  {
    StoredMembers(k, cls, v);
    forall f | f in v.fields ensures FieldComesBack(k, cls, v, f) {
      StoredField(k, cls, v, f);
    }
    BuiltFromFields(k, cls, v);
  }

  lemma ManyComesBack(k: Codec, cls: ClassName, v: Value, f: string, c: ClassName)
    requires Shaped(k, cls, v) && f in v.fields && RuleOf(k, cls, f) == Many(c) && ShapedField(k, Many(c), v.fields[f])
    requires forall i | 0 <= i < |v.fields[f].items| ::
      Restore(k, c, ToJsonable(k.clock, v.fields[f].items[i])) == Some(Returned(k, c, v.fields[f].items[i]))
    ensures FieldComesBack(k, cls, v, f)
  {
    StoredItems(k, cls, v, f, c);
    ReturnedItems(k, cls, v, f, c);
    ManyValueIs(k, cls, ToJsonable(k.clock, v), f, c, ReturnedField(k, cls, v, f).items);
  }

  lemma StoredItems(k: Codec, cls: ClassName, v: Value, f: string, c: ClassName)
    requires Shaped(k, cls, v) && f in v.fields && ShapedField(k, Many(c), v.fields[f])
    ensures ToJsonable(k.clock, v).Dict?
    ensures var items := JsonList(ToJsonable(k.clock, v).members, f);
      |items| == |v.fields[f].items| && forall i | 0 <= i < |items| ::
        items[i] == ToJsonable(k.clock, v.fields[f].items[i])
  {
    StoredMembers(k, cls, v);
  }

  lemma ReturnedItems(k: Codec, cls: ClassName, v: Value, f: string, c: ClassName)
    requires Shaped(k, cls, v) && f in v.fields && RuleOf(k, cls, f) == Many(c) && ShapedField(k, Many(c), v.fields[f])
    ensures ReturnedField(k, cls, v, f).List?
    ensures var items := ReturnedField(k, cls, v, f).items;
      |items| == |v.fields[f].items| && forall i | 0 <= i < |items| :: items[i] == Returned(k, c, v.fields[f].items[i])
  {
  }

  lemma ManyValueIs(k: Codec, cls: ClassName, d: Value, f: string, c: ClassName, want: seq<Value>)
    requires d.Dict? && RuleOf(k, cls, f) == Many(c) && |JsonList(d.members, f)| == |want|
    requires forall i | 0 <= i < |want| :: Restore(k, c, JsonList(d.members, f)[i]) == Some(want[i])
    ensures FieldValue(k, cls, d, f) == Given(List(want))
  {
    hide Restore;
    assert FieldValue(k, cls, d, f).value.items == want;
  }

  predicate Fills(schema: Schema, data: map<string, Value>, want: map<string, Value>, f: string)
    requires f in schema && f in want
  {
    if f in data then data[f] == want[f] else schema[f] == Some(want[f])
  }

  lemma BuildFills(schema: Schema, cls: ClassName, data: map<string, Value>, want: map<string, Value>)
    requires want.Keys == schema.Keys
    requires forall f | f in schema :: Fills(schema, data, want, f)
    ensures Build(schema, cls, data) == Some(Object(cls, want))
  {
    forall f | f in schema ensures !(schema[f].None? && f !in data) {
      assert Fills(schema, data, want, f);
    }
    assert Build(schema, cls, data).value.fields == want;
  }

  lemma FieldIsFilled(k: Codec, cls: ClassName, v: Value, f: string)
    requires Coherent(k) && Shaped(k, cls, v) && f in v.fields && FieldComesBack(k, cls, v, f)
    ensures f in k.rules(cls) ==> !FieldValue(k, cls, ToJsonable(k.clock, v), f).Raises?
    ensures Fills(k.schemas(cls), Overridden(k, cls, ToJsonable(k.clock, v)), Returned(k, cls, v).fields, f)
  {
    StoredMembers(k, cls, v);
    OverriddenAt(k, cls, ToJsonable(k.clock, v), f);
    ReturnedAt(k, cls, v, f);
  }

  /** The overridden dict is the one that gives every key the value its rule passes on. */
  lemma OverriddenIs(k: Codec, cls: ClassName, v: Value, data: map<string, Value>)
    requires v.Dict? && data.Keys <= v.members.Keys + k.rules(cls).Keys
    requires forall f | f in v.members.Keys + k.rules(cls).Keys ::
      FieldValue(k, cls, v, f) == if f in data then Given(data[f]) else Absent
    ensures Overridden(k, cls, v) == data
    ensures forall f | f in k.rules(cls) :: !FieldValue(k, cls, v, f).Raises?
  {
    hide FieldValue;
    forall f | f in k.rules(cls) ensures !FieldValue(k, cls, v, f).Raises? {
      assert f in v.members.Keys + k.rules(cls).Keys;
    }
  }

  /** A key without a rule is passed on as it is. */
  lemma UnruledValue(k: Codec, cls: ClassName, v: Value, f: string)
    requires v.Dict? && RuleOf(k, cls, f) == Raw
    ensures FieldValue(k, cls, v, f) == if f in v.members then Given(v.members[f]) else Absent
  {
  }

  lemma ReturnedAt(k: Codec, cls: ClassName, v: Value, f: string)
    requires Coherent(k) && Shaped(k, cls, v) && f in v.fields
    ensures f in Returned(k, cls, v).fields && Returned(k, cls, v).fields[f] == ReturnedField(k, cls, v, f)
    ensures RuleOf(k, cls, f).Unpassed? ==> k.schemas(cls)[f] == Some(ReturnedField(k, cls, v, f))
  {
  }

  lemma OverriddenAt(k: Codec, cls: ClassName, v: Value, f: string)
    requires v.Dict? && f in v.members
    ensures f in Overridden(k, cls, v) <==> FieldValue(k, cls, v, f).Given?
    ensures f in Overridden(k, cls, v) ==> Overridden(k, cls, v)[f] == FieldValue(k, cls, v, f).value
  {
  }

  lemma BuiltFromFields(k: Codec, cls: ClassName, v: Value)
    requires Coherent(k) && Shaped(k, cls, v)
    requires forall f | f in v.fields :: FieldComesBack(k, cls, v, f)
    ensures Restore(k, cls, ToJsonable(k.clock, v)) == Some(Returned(k, cls, v))
  {
    StoredMembers(k, cls, v);
    var stored := ToJsonable(k.clock, v);
    var schema, data, want := k.schemas(cls), Overridden(k, cls, stored), Returned(k, cls, v).fields;
    forall f | f in schema
      ensures Fills(schema, data, want, f) && (f in k.rules(cls) ==> !FieldValue(k, cls, stored, f).Raises?)
    {
      FieldIsFilled(k, cls, v, f);
    }
    BuildFills(schema, cls, data, want);
  }

  lemma FieldAfterRoundTrip(k: Codec, cls: ClassName, v: Value, f: string)
    requires Coherent(k) && Exact(k.clock) && Shaped(k, cls, v) && f in v.fields
    ensures var r := Restore(k, cls, ToJsonable(k.clock, v));
      r.Some? && r.value.Object? && f in r.value.fields && r.value.fields[f] == ReturnedField(k, cls, v, f)
  {
    WhatComesBack(k, cls, v);
    ReturnedAt(k, cls, v, f);
  }

  // ---------------------------------------------------------------- when it is the identity

  /** The instance loses nothing: fields without a rule are plain, translated words are not present and
      unpassed fields hold their default, at every level. */
  predicate Faithful(k: Codec, cls: ClassName, v: Value)
    requires Shaped(k, cls, v)
    decreases v, 1
  {
    forall f | f in v.fields :: FaithfulField(k, cls, v, f)
  }

  predicate FaithfulField(k: Codec, cls: ClassName, v: Value, f: string)
    requires Shaped(k, cls, v) && f in v.fields
    decreases v, 0
  {
    var x := v.fields[f];
    assert ShapedField(k, RuleOf(k, cls, f), x);
    match RuleOf(k, cls, f)
    case Raw => Plain(x)
    case Required => Plain(x)
    case Keyword(_) => Plain(x)
    case Date => true
    case Many(c) => forall i | 0 <= i < |x.items| :: assert x.items[i] < x; Faithful(k, c, x.items[i])
    case One(c) => Faithful(k, c, x)
    case OneOrEmpty(c) => Faithful(k, c, x)
    case OneOrDefault(c, _) => Faithful(k, c, x)
    case OneOrNull(c) => x.Null? || Faithful(k, c, x)
    case OneOrKeep(c) => x.Null? || Faithful(k, c, x)
    case Translated(words) => Plain(x) && Translate(words, x) == x
    case Unpassed => k.schemas(cls)[f] == Some(x)
  }

  lemma {:induction false} FieldReturnsIff(k: Codec, cls: ClassName, v: Value, f: string)
    requires Coherent(k) && Shaped(k, cls, v) && f in v.fields
    ensures ReturnedField(k, cls, v, f) == v.fields[f] <==> FaithfulField(k, cls, v, f)
    decreases v, 0
  {
    var x, rule := v.fields[f], RuleOf(k, cls, f);
    assert ShapedField(k, rule, x);
    match rule
    case Raw => StoredUnchangedIff(k.clock, x);
    case Required => StoredUnchangedIff(k.clock, x);
    case Keyword(_) => StoredUnchangedIff(k.clock, x);
    case Many(c) =>
      forall i | 0 <= i < |x.items| ensures Returned(k, c, x.items[i]) == x.items[i] <==> Faithful(k, c, x.items[i]) {
        assert x.items[i] < x;
        ReturnsIff(k, c, x.items[i]);
      }
      assert ReturnedField(k, cls, v, f).items == x.items <==>
        forall i | 0 <= i < |x.items| :: Returned(k, c, x.items[i]) == x.items[i];
    case One(c) => ReturnsIff(k, c, x);
    case OneOrEmpty(c) => ReturnsIff(k, c, x);
    case OneOrDefault(c, _) => ReturnsIff(k, c, x);
    case OneOrNull(c) => if !x.Null? { ReturnsIff(k, c, x); }
    case OneOrKeep(c) => if !x.Null? { ReturnsIff(k, c, x); }
    case Translated(words) => StoredUnchangedIff(k.clock, x); ToJsonableIsPlain(k.clock, x);
    case _ =>
  }

  lemma {:induction false} ReturnsIff(k: Codec, cls: ClassName, v: Value)
    requires Coherent(k) && Shaped(k, cls, v)
    ensures Returned(k, cls, v) == v <==> Faithful(k, cls, v)
    decreases v, 1
  {
    forall f | f in v.fields ensures ReturnedField(k, cls, v, f) == v.fields[f] <==> FaithfulField(k, cls, v, f) {
      FieldReturnsIff(k, cls, v, f);
    }
    if Faithful(k, cls, v) {
      assert Returned(k, cls, v).fields == v.fields;
    } else {
      var f :| f in v.fields && !FaithfulField(k, cls, v, f);
      assert Returned(k, cls, v).fields[f] != v.fields[f];
    }
  }

  /** Serialising then restoring is the identity exactly on the instances that lose nothing. */
  lemma RoundTripIff(k: Codec, cls: ClassName, v: Value)
    requires Coherent(k) && Exact(k.clock) && Shaped(k, cls, v)
    ensures Restore(k, cls, ToJsonable(k.clock, v)) == Some(v) <==> Faithful(k, cls, v)
  {
    WhatComesBack(k, cls, v);
    ReturnsIff(k, cls, v);
  }
}
