/**
 Which services a host runs, from unit names and listening sockets.  The catalog and `str.lower` are
 parameters; the loops deduplicate sockets in (port, proto) order.
 */
module ServiceClassifier {
  import opened Wrappers
  import opened Sorting

  const UNKNOWN := "unknown"

  datatype CategoryDef = CategoryDef(key: string, nameKeywords: seq<string>, portNames: seq<(string, seq<int>)>)

  /** The indexes derived from the catalog at import. */
  datatype Catalog = Catalog(
    nameIndex: seq<(string, string)>, namePorts: map<string, seq<int>>, portIndex: map<int, string>,
    baselineKeywords: seq<string>, baselinePorts: set<int>, lower: string -> string)

  /** "unknown" is not a category. */
  predicate Proper(c: Catalog) {
    && (forall i | 0 <= i < |c.nameIndex| :: c.nameIndex[i].1 != UNKNOWN)
    && (forall p | p in c.portIndex :: c.portIndex[p] != UNKNOWN)
  }

  /** A listening socket as the agent reports it; keys may be absent. */
  datatype ListenPort = ListenPort(port: Option<int>, proto: Option<string>, comm: Option<string>, pid: Option<int>)

  datatype MatchedPort = MatchedPort(proto: string, port: int)

  datatype ServiceUnit = ServiceUnit(unit: Option<string>, pid: Option<int>)

  function PortOf(p: ListenPort): int {
    if p.port.Some? then p.port.value else 0
  }

  function ProtoOf(p: ListenPort): string {
    if p.proto.Some? then p.proto.value else ""
  }

  function CommOf(c: Catalog, p: ListenPort): string {
    if p.comm.Some? && p.comm.value != "" then c.lower(p.comm.value) else c.lower("")
  }

  function KeyOf(p: ListenPort): MatchedPort {
    MatchedPort(ProtoOf(p), PortOf(p))
  }

  // ---------------------------------------------------------------- the port index

  predicate Lists(d: CategoryDef, port: int) {
    exists n | 0 <= n < |d.portNames| :: port in d.portNames[n].1
  }

  /** The first definition in catalog order that lists the port. */
  function FirstCategory(defs: seq<CategoryDef>, port: int): Option<string> {
    if defs == [] then None
    else if FirstCategory(defs[..|defs| - 1], port).Some? then FirstCategory(defs[..|defs| - 1], port)
    else if Lists(defs[|defs| - 1], port) then Some(defs[|defs| - 1].key)
    else None
  }

  predicate Indexes(index: map<int, string>, port: int, category: Option<string>) {
    if category.Some? then port in index && index[port] == category.value else port !in index
  }

  /** setdefault over the definitions: a port two categories claim goes to the earlier one. */
  method BuildPortIndex(defs: seq<CategoryDef>) returns (index: map<int, string>)
    ensures forall port :: Indexes(index, port, FirstCategory(defs, port))
  {
    index := map[];
    for i := 0 to |defs|
      invariant forall port :: Indexes(index, port, FirstCategory(defs[..i], port))
    {
      assert defs[..i + 1][..i] == defs[..i];
      index := AddCategory(index, defs[i]);
    }
    assert defs[..|defs|] == defs;
  }

  method AddCategory(before: map<int, string>, d: CategoryDef) returns (index: map<int, string>)
    ensures forall port :: Indexes(index, port,
      if port in before then Some(before[port]) else if Lists(d, port) then Some(d.key) else None)
  {
    index := before;
    for n := 0 to |d.portNames|
      invariant forall port :: port in index <==> port in before || exists m | 0 <= m < n :: port in d.portNames[m].1
      invariant forall port | port in index :: index[port] == if port in before then before[port] else d.key
    {
      var ports := d.portNames[n].1;
      ghost var sofar := index;
      for j := 0 to |ports|
        invariant forall port :: port in index <==> port in sofar || port in ports[..j]
        invariant forall port | port in index :: index[port] == if port in before then before[port] else d.key
      {
        if ports[j] !in index {
          index := index[ports[j] := d.key];
        }
      }
      assert ports[..|ports|] == ports;
    }
  }

  // ---------------------------------------------------------------- matching names

  predicate Contains(text: string, keyword: string) {
    keyword <= text || (text != "" && Contains(text[1..], keyword))
  }

  function FirstKeyword(index: seq<(string, string)>, text: string): Option<string> {
    if index == [] then None
    else if Contains(text, index[0].0) then Some(index[0].1)
    else FirstKeyword(index[1..], text)
  }

  function MatchKeyword(c: Catalog, text: string): Option<string> {
    if text == "" then None else FirstKeyword(c.nameIndex, text)
  }

  function RemoveSuffix(s: string, suffix: string): string {
    if |suffix| <= |s| && s[|s| - |suffix|..] == suffix then s[..|s| - |suffix|] else s
  }

  // ---------------------------------------------------------------- sorting and deduplicating

  predicate PortLe(a: ListenPort, b: ListenPort) {
    PortOf(a) < PortOf(b) || (PortOf(a) == PortOf(b) && StrLe(ProtoOf(a), ProtoOf(b)))
  }

  lemma PortLeIsAnOrder()
    ensures Total(PortLe) && Transitive(PortLe)
    ensures forall a, b :: PortLe(a, b) && PortLe(b, a) ==> KeyOf(a) == KeyOf(b)
  {
    StrLeIsAnOrder();
  }

  function Sorted(ports: seq<ListenPort>): seq<ListenPort> {
    SortBy(PortLe, ports)
  }

  function Filter(es: seq<ListenPort>, ok: ListenPort -> bool): seq<ListenPort> {
    if es == [] then [] else Filter(es[..|es| - 1], ok) + if ok(es[|es| - 1]) then [es[|es| - 1]] else []
  }

  function Keys(es: seq<ListenPort>): set<MatchedPort> {
    if es == [] then {} else Keys(es[..|es| - 1]) + {KeyOf(es[|es| - 1])}
  }

  /** The first entry of each (proto, port), in order. */
  function Dedup(es: seq<ListenPort>): seq<ListenPort> {
    if es == [] then [] else
      var prior := Dedup(es[..|es| - 1]);
      if KeyOf(es[|es| - 1]) in Keys(prior) then prior else prior + [es[|es| - 1]]
  }

  /** The deduplicating loops: the first entry of each key that qualifies, in sorted order. */
  function Picked(ports: seq<ListenPort>, ok: ListenPort -> bool): seq<ListenPort> {
    Dedup(Filter(Sorted(ports), ok))
  }

  lemma {:induction false} KeysMember(es: seq<ListenPort>, key: MatchedPort)
    ensures key in Keys(es) <==> exists e :: e in es && KeyOf(e) == key
  {
    if es != [] {
      KeysMember(es[..|es| - 1], key);
      assert es == es[..|es| - 1] + [es[|es| - 1]];
    }
  }

  lemma KeysSnoc(es: seq<ListenPort>, e: ListenPort)
    ensures Keys(es + [e]) == Keys(es) + {KeyOf(e)}
  {
    assert (es + [e])[..|es|] == es;
  }

  lemma {:induction false} DedupKeys(es: seq<ListenPort>)
    ensures Keys(Dedup(es)) == Keys(es)
  {
    if es != [] {
      DedupKeys(es[..|es| - 1]);
      KeysSnoc(Dedup(es[..|es| - 1]), es[|es| - 1]);
    }
  }

  /** No two entries share a key. */
  predicate KeysDistinct(es: seq<ListenPort>) {
    es == [] || (KeysDistinct(es[..|es| - 1]) && KeyOf(es[|es| - 1]) !in Keys(es[..|es| - 1]))
  }

  lemma {:induction false} DedupDistinct(es: seq<ListenPort>)
    ensures KeysDistinct(Dedup(es))
    ensures forall e | e in Dedup(es) :: e in es
  {
    if es != [] {
      DedupDistinct(es[..|es| - 1]);
      var prior, last := Dedup(es[..|es| - 1]), es[|es| - 1];
      assert (prior + [last])[..|prior|] == prior;
      assert es == es[..|es| - 1] + [last];
    }
  }

  lemma {:induction false} FilterMembers(es: seq<ListenPort>, ok: ListenPort -> bool, e: ListenPort)
    ensures e in Filter(es, ok) <==> e in es && ok(e)
  {
    if es != [] {
      FilterMembers(es[..|es| - 1], ok, e);
      assert es == es[..|es| - 1] + [es[|es| - 1]];
    }
  }

  /** A key is picked exactly when some entry with it qualifies. */
  lemma PickedIff(ports: seq<ListenPort>, ok: ListenPort -> bool, key: MatchedPort)
    ensures key in Keys(Picked(ports, ok)) <==> exists p | p in ports :: KeyOf(p) == key && ok(p)
  {
    DedupKeys(Filter(Sorted(ports), ok));
    KeysMember(Filter(Sorted(ports), ok), key);
    SameElements(ports, Sorted(ports));
    if p :| p in ports && KeyOf(p) == key && ok(p) {
      FilterMembers(Sorted(ports), ok, p);
    }
    if key in Keys(Picked(ports, ok)) {
      var p :| p in Filter(Sorted(ports), ok) && KeyOf(p) == key;
      FilterMembers(Sorted(ports), ok, p);
    }
  }

  // ---------------------------------------------------------------- a unit's ports

  predicate CommMatches(c: Catalog, name: string, p: ListenPort) {
    var comm := CommOf(c, p);
    comm != "" && comm != "systemd" && (Contains(comm, name) || Contains(name, comm))
  }

  predicate Attributable(c: Catalog, unit: string, pid: Option<int>, p: ListenPort) {
    if pid.Some? then p.pid == pid
    else
      var name := c.lower(RemoveSuffix(unit, ".service"));
      CommMatches(c, name, p) || (name in c.namePorts && PortOf(p) in c.namePorts[name])
  }

  function AttributableTo(c: Catalog, unit: string, pid: Option<int>): ListenPort -> bool {
    p => Attributable(c, unit, pid, p)
  }

  function AttributedPorts(c: Catalog, unit: string, ports: seq<ListenPort>, pid: Option<int>): seq<ListenPort> {
    Picked(ports, AttributableTo(c, unit, pid))
  }

  function FirstComm(c: Catalog, es: seq<ListenPort>): Option<string> {
    if es == [] then None
    else if MatchKeyword(c, CommOf(c, es[0])).Some? then MatchKeyword(c, CommOf(c, es[0]))
    else FirstComm(c, es[1..])
  }

  function CategoryOfPort(c: Catalog, port: int): Option<string> {
    if port in c.portIndex then Some(c.portIndex[port]) else None
  }

  function FirstPort(c: Catalog, es: seq<ListenPort>): Option<string> {
    if es == [] then None
    else if CategoryOfPort(c, PortOf(es[0])).Some? then CategoryOfPort(c, PortOf(es[0]))
    else FirstPort(c, es[1..])
  }

  /** Unit name, then the process names of its ports, then the port numbers. */
  function Classify(c: Catalog, unit: string, ports: seq<ListenPort>, pid: Option<int>): string {
    var byName := MatchKeyword(c, RemoveSuffix(c.lower(unit), ".service"));
    var es := AttributedPorts(c, unit, ports, pid);
    if byName.Some? then byName.value
    else if FirstComm(c, es).Some? then FirstComm(c, es).value
    else if FirstPort(c, es).Some? then FirstPort(c, es).value
    else UNKNOWN
  }

  /** A port with an owner belongs to the unit with that pid only; one without falls to the units of its
      category. */
  predicate Eligible(c: Catalog, unitCategory: string, pid: Option<int>, p: ListenPort) {
    if p.pid.Some? then pid == p.pid
    else unitCategory != UNKNOWN && CategoryOfPort(c, PortOf(p)) == Some(unitCategory)
  }

  function EligibleTo(c: Catalog, unitCategory: string, pid: Option<int>): ListenPort -> bool {
    p => Eligible(c, unitCategory, pid, p)
  }

  function MatchedEntries(c: Catalog, unit: string, ports: seq<ListenPort>, pid: Option<int>): seq<ListenPort> {
    Picked(ports, EligibleTo(c, Classify(c, unit, ports, None), pid))
  }

  function AsMatched(es: seq<ListenPort>): seq<MatchedPort> {
    seq(|es|, i requires 0 <= i < |es| => KeyOf(es[i]))
  }

  function MatchedPorts(c: Catalog, unit: string, ports: seq<ListenPort>, pid: Option<int>): seq<MatchedPort> {
    AsMatched(MatchedEntries(c, unit, ports, pid))
  }

  lemma FilterSnoc(es: seq<ListenPort>, k: nat, ok: ListenPort -> bool)
    requires k < |es|
    ensures Filter(es[..k + 1], ok) == Filter(es[..k], ok) + if ok(es[k]) then [es[k]] else []
  {
    assert es[..k + 1][..k] == es[..k];
  }

  lemma DedupSnoc(es: seq<ListenPort>, e: ListenPort)
    ensures Dedup(es + [e]) == if KeyOf(e) in Keys(Dedup(es)) then Dedup(es) else Dedup(es) + [e]
  {
    assert (es + [e])[..|es|] == es;
  }

  lemma PickStep(es: seq<ListenPort>, k: nat, ok: ListenPort -> bool)
    requires k < |es|
    ensures var before := Dedup(Filter(es[..k], ok));
      if ok(es[k]) && KeyOf(es[k]) !in Keys(before)
      then Dedup(Filter(es[..k + 1], ok)) == before + [es[k]]
           && Keys(Dedup(Filter(es[..k + 1], ok))) == Keys(before) + {KeyOf(es[k])}
      else Dedup(Filter(es[..k + 1], ok)) == before
  {
    FilterSnoc(es, k, ok);
    if ok(es[k]) {
      KeysSnoc(Dedup(Filter(es[..k], ok)), es[k]);
      DedupSnoc(Filter(es[..k], ok), es[k]);
    } else {
      assert Filter(es[..k], ok) + [] == Filter(es[..k], ok);
    }
  }

  method GetAttributedPorts(c: Catalog, unit: string, ports: seq<ListenPort>, pid: Option<int>)
    returns (result: seq<ListenPort>)
    ensures result == AttributedPorts(c, unit, ports, pid)
  {
    ghost var ok := AttributableTo(c, unit, pid);
    var sorted := Sorted(ports);
    result := [];
    var seen: set<MatchedPort> := {};
    if pid.Some? {
      for k := 0 to |sorted|
        invariant result == Dedup(Filter(sorted[..k], ok)) && seen == Keys(result)
      {
        PickStep(sorted, k, ok);
        var p := sorted[k];
        if p.pid != pid || KeyOf(p) in seen {
          continue;
        }
        result := result + [p];
        seen := seen + {KeyOf(p)};
      }
    } else {
      var name := c.lower(RemoveSuffix(unit, ".service"));
      var wellKnown := if name in c.namePorts then c.namePorts[name] else [];
      for k := 0 to |sorted|
        invariant result == Dedup(Filter(sorted[..k], ok)) && seen == Keys(result)
      {
        PickStep(sorted, k, ok);
        var p := sorted[k];
        if KeyOf(p) in seen {
          continue;
        }
        if CommMatches(c, name, p) || PortOf(p) in wellKnown {
          result := result + [p];
          seen := seen + {KeyOf(p)};
        }
      }
    }
    assert sorted[..|sorted|] == sorted;
  }

  lemma AsMatchedSnoc(es: seq<ListenPort>, e: ListenPort)
    ensures AsMatched(es + [e]) == AsMatched(es) + [KeyOf(e)]
  {
  }

  method GetMatchedPorts(c: Catalog, unit: string, ports: seq<ListenPort>, pid: Option<int>)
    returns (result: seq<MatchedPort>)
    ensures result == MatchedPorts(c, unit, ports, pid)
  {
    ghost var category := Classify(c, unit, ports, None);
    ghost var ok := EligibleTo(c, category, pid);
    var sorted := Sorted(ports);
    result := [];
    var seen: set<MatchedPort> := {};
    var cat: Option<string> := None;
    ghost var picked: seq<ListenPort> := [];
    for k := 0 to |sorted|
      invariant picked == Dedup(Filter(sorted[..k], ok)) && seen == Keys(picked)
      invariant result == AsMatched(picked)
      invariant cat.Some? ==> cat.value == category
    {
      PickStep(sorted, k, ok);
      var p := sorted[k];
      var key := KeyOf(p);
      AsMatchedSnoc(picked, p);
      if key in seen {
        continue;
      }
      var taken;
      if p.pid.Some? {
        taken := pid.Some? && p.pid == pid;
      } else {
        if cat.None? {
          cat := Some(Classify(c, unit, ports, None));
        }
        taken := cat.value != UNKNOWN && CategoryOfPort(c, PortOf(p)) == cat;
      }
      assert taken == ok(p) && key !in Keys(picked);
      if taken {
        assert Dedup(Filter(sorted[..k + 1], ok)) == picked + [p];
        result := result + [key];
        seen := seen + {key};
        picked := picked + [p];
      }
    }
    assert sorted[..|sorted|] == sorted;
  }

  // ---------------------------------------------------------------- sockets of any process

  /** The socket's own category: process name first, then port number. */
  function SocketCategory(c: Catalog, p: ListenPort): Option<string> {
    var byComm := MatchKeyword(c, CommOf(c, p));
    if byComm.Some? then byComm else CategoryOfPort(c, PortOf(p))
  }

  function HasCategory(c: Catalog): ListenPort -> bool {
    p => SocketCategory(c, p).Some?
  }

  function ClassifiedSockets(c: Catalog, ports: seq<ListenPort>): seq<ListenPort> {
    Picked(ports, HasCategory(c))
  }

  /** The sockets of one category, in order. */
  function SocketsOf(c: Catalog, es: seq<ListenPort>, category: string): seq<MatchedPort> {
    if es == [] then [] else
      SocketsOf(c, es[..|es| - 1], category)
      + if SocketCategory(c, es[|es| - 1]) == Some(category) then [KeyOf(es[|es| - 1])] else []
  }

  predicate Groups(c: Catalog, out: map<string, seq<MatchedPort>>, es: seq<ListenPort>) {
    && (forall category | category in out :: out[category] == SocketsOf(c, es, category) && out[category] != [])
    && (forall k | 0 <= k < |es| :: SocketCategory(c, es[k]).Some? ==> SocketCategory(c, es[k]).value in out)
  }

  lemma NothingPickedYet(c: Catalog, ok: ListenPort -> bool)
    ensures Dedup(Filter([], ok)) == [] && Keys([]) == {}
    ensures forall category :: SocketsOf(c, [], category) == []
  {
  }

  lemma SocketsSnoc(c: Catalog, es: seq<ListenPort>, e: ListenPort)
    ensures forall category ::
      SocketsOf(c, es + [e], category)
        == SocketsOf(c, es, category) + if SocketCategory(c, e) == Some(category) then [KeyOf(e)] else []
  {
    hide SocketCategory;
    assert (es + [e])[..|es|] == es;
  }

  method DetectListenCategories(c: Catalog, ports: seq<ListenPort>) returns (out: map<string, seq<MatchedPort>>)
    ensures Groups(c, out, ClassifiedSockets(c, ports))
    ensures forall category :: category in out <==> SocketsOf(c, ClassifiedSockets(c, ports), category) != []
  {
    hide SocketsOf, Filter, Dedup, Keys, SortBy;
    ghost var ok := HasCategory(c);
    var sorted := Sorted(ports);
    out := map[];
    var seen: set<MatchedPort> := {};
    ghost var picked: seq<ListenPort> := [];
    NothingPickedYet(c, ok);
    for k := 0 to |sorted|
      invariant picked == Dedup(Filter(sorted[..k], ok)) && seen == Keys(picked)
      invariant forall category :: (if category in out then out[category] else []) == SocketsOf(c, picked, category)
      invariant forall category | category in out :: out[category] != []
    {
      PickStep(sorted, k, ok);
      var p := sorted[k];
      if KeyOf(p) in seen {
        continue;
      }
      var category := SocketCategory(c, p);
      if category.Some? {
        SocketsSnoc(c, picked, p);
        out := out[category.value := (if category.value in out then out[category.value] else []) + [KeyOf(p)]];
        seen := seen + {KeyOf(p)};
        picked := picked + [p];
      }
    }
    assert sorted[..|sorted|] == sorted;
    forall k | 0 <= k < |picked| && SocketCategory(c, picked[k]).Some?
      ensures SocketsOf(c, picked, SocketCategory(c, picked[k]).value) != []
    {
      SocketListed(c, picked, k);
    }
  }

  lemma {:induction false} SocketListed(c: Catalog, es: seq<ListenPort>, k: nat)
    requires k < |es| && SocketCategory(c, es[k]).Some?
    ensures KeyOf(es[k]) in SocketsOf(c, es, SocketCategory(c, es[k]).value)
  {
    if k < |es| - 1 {
      SocketListed(c, es[..|es| - 1], k);
    }
  }
}
