/**
 The classifier's rules in terms of the catalog and of the sockets as reported: which keyword and which
 category come first, and which of several entries of one (proto, port) counts.
 */
module ClassifierRules {
  import opened Wrappers
  import opened Sorting
  import opened ServiceClassifier
  import opened ServiceWorkloads
  import opened ServiceOrder

  // ---------------------------------------------------------------- text

  predicate Occurs(keyword: string, text: string) {
    exists i :: 0 <= i <= |text| && keyword <= text[i..]
  }

  /** `keyword in text` is a substring test. */
  lemma {:induction false} ContainsIff(text: string, keyword: string)
    ensures Contains(text, keyword) <==> Occurs(keyword, text)
  {
    assert text[0..] == text;
    if text != "" {
      ContainsIff(text[1..], keyword);
      if i :| 0 <= i <= |text[1..]| && keyword <= text[1..][i..] {
        assert text[i + 1..] == text[1..][i..];
      }
      if i :| 1 <= i <= |text| && keyword <= text[i..] {
        assert text[1..][i - 1..] == text[i..];
      }
    }
  }

  /** A suffix is cut off once; a text without it stays as it is. */
  lemma SuffixIsCutOnce(head: string, s: string, suffix: string)
    ensures RemoveSuffix(head + suffix, suffix) == head
    ensures RemoveSuffix(s, suffix) == s || s == RemoveSuffix(s, suffix) + suffix
  {
    assert (head + suffix)[|head|..] == suffix && (head + suffix)[..|head|] == head;
    if RemoveSuffix(s, suffix) != s {
      assert s == s[..|s| - |suffix|] + s[|s| - |suffix|..];
    }
  }

  // ---------------------------------------------------------------- keywords and ports of the catalog

  /** The first entry of the index whose keyword occurs in the text. */
  predicate FirstHit(index: seq<(string, string)>, text: string, k: nat) {
    && k < |index| && Occurs(index[k].0, text)
    && forall j | 0 <= j < k :: !Occurs(index[j].0, text)
  }

  lemma {:induction false} FirstKeywordIs(index: seq<(string, string)>, text: string, category: string)
    ensures FirstKeyword(index, text) == Some(category) <==>
      exists k: nat :: FirstHit(index, text, k) && index[k].1 == category
    ensures FirstKeyword(index, text) == None <==> forall k | 0 <= k < |index| :: !Occurs(index[k].0, text)
  {
    if index != [] {
      var rest := index[1..];
      ContainsIff(text, index[0].0);
      FirstKeywordIs(rest, text, category);
      if !Contains(text, index[0].0) {
        forall k: nat ensures FirstHit(rest, text, k) <==> k + 1 < |index| && FirstHit(index, text, k + 1) {
          assert k < |rest| ==> rest[k] == index[k + 1];
          if k + 1 < |index| && FirstHit(index, text, k + 1) {
            forall j | 0 <= j < k ensures !Occurs(rest[j].0, text) { assert rest[j] == index[j + 1]; }
          }
        }
        if k: nat :| FirstHit(index, text, k) && index[k].1 == category {
          assert FirstHit(rest, text, k - 1) && rest[k - 1] == index[k];
        }
        assert forall k | 0 < k < |index| :: index[k] == rest[k - 1];
      } else {
        assert FirstHit(index, text, 0);
      }
    }
  }

  /** A text belongs to the category of the first keyword that occurs in it; an empty text to none. */
  lemma KeywordDecides(c: Catalog, text: string, category: string)
    ensures MatchKeyword(c, text) == Some(category) <==>
      text != "" && exists k: nat :: FirstHit(c.nameIndex, text, k) && c.nameIndex[k].1 == category
    ensures MatchKeyword(c, text) == None <==>
      text == "" || forall k | 0 <= k < |c.nameIndex| :: !Occurs(c.nameIndex[k].0, text)
  {
    FirstKeywordIs(c.nameIndex, text, category);
  }

  predicate Claims(d: CategoryDef, port: int) {
    exists named | named in d.portNames :: port in named.1
  }

  /** A port goes to the first definition that lists it, and to none if no definition does. */
  lemma {:induction false} PortGoesToFirst(defs: seq<CategoryDef>, port: int, k: nat)
    requires k < |defs| ==> Claims(defs[k], port)
    requires k <= |defs| && forall j | 0 <= j < k :: !Claims(defs[j], port)
    ensures FirstCategory(defs, port) == if k < |defs| then Some(defs[k].key) else None
  {
    if defs != [] {
      var n := |defs| - 1;
      assert Lists(defs[n], port) <==> Claims(defs[n], port) by {
        if named :| named in defs[n].portNames && port in named.1 {
          var m :| 0 <= m < |defs[n].portNames| && defs[n].portNames[m] == named;
        }
        if m :| 0 <= m < |defs[n].portNames| && port in defs[n].portNames[m].1 {
          assert defs[n].portNames[m] in defs[n].portNames;
        }
      }
      PortGoesToFirst(defs[..n], port, if k < n then k else n);
    }
  }

  // ---------------------------------------------------------------- a socket as reported

  /** A missing port counts as 0 and a missing protocol as ''. */
  lemma KeyIsReported(p: ListenPort, key: MatchedPort)
    ensures KeyOf(p) == key <==>
      && (p.port == Some(key.port) || (p.port == None && key.port == 0))
      && (p.proto == Some(key.proto) || (p.proto == None && key.proto == ""))
  {
  }

  /** The process name in lower case; a missing name counts as the empty one. */
  predicate RunsAs(c: Catalog, p: ListenPort, comm: string) {
    if p.comm == None then comm == c.lower("") else comm == c.lower(p.comm.value)
  }

  lemma CommIsReported(c: Catalog, p: ListenPort)
    ensures RunsAs(c, p, CommOf(c, p))
  {
  }

  /** The socket's category is that of its process name, and that of its port if the name has none. */
  lemma SocketCategoryIs(c: Catalog, p: ListenPort, key: MatchedPort, comm: string)
    requires KeyOf(p) == key && RunsAs(c, p, comm)
    ensures MatchKeyword(c, comm).Some? ==> SocketCategory(c, p) == MatchKeyword(c, comm)
    ensures MatchKeyword(c, comm).None? && key.port in c.portIndex ==>
      SocketCategory(c, p) == Some(c.portIndex[key.port])
    ensures MatchKeyword(c, comm).None? && key.port !in c.portIndex ==> SocketCategory(c, p) == None
  {
  }

  // ---------------------------------------------------------------- which entry of a key counts

  /** The entry qualifies and no earlier one of its key does. */
  predicate IsFirst(es: seq<ListenPort>, k: nat, ok: ListenPort -> bool) {
    k < |es| && ok(es[k]) && forall j | 0 <= j < k :: ok(es[j]) ==> KeyOf(es[j]) != KeyOf(es[k])
  }

  function FirstOk(es: seq<ListenPort>, key: MatchedPort, ok: ListenPort -> bool): Option<ListenPort> {
    if es == [] then None
    else if KeyOf(es[0]) == key && ok(es[0]) then Some(es[0])
    else FirstOk(es[1..], key, ok)
  }

  lemma {:induction false} FirstOkIff(es: seq<ListenPort>, key: MatchedPort, ok: ListenPort -> bool, p: ListenPort)
    ensures FirstOk(es, key, ok) == Some(p) <==> exists k: nat :: IsFirst(es, k, ok) && es[k] == p && KeyOf(p) == key
  {
    if es != [] {
      var rest := es[1..];
      FirstOkIff(rest, key, ok, p);
      if KeyOf(es[0]) == key && ok(es[0]) {
        assert IsFirst(es, 0, ok);
      } else {
        if k: nat :| IsFirst(rest, k, ok) && rest[k] == p && KeyOf(p) == key {
          forall j | 0 <= j < k + 1 && ok(es[j]) ensures KeyOf(es[j]) != KeyOf(es[k + 1]) {
            assert j > 0 ==> es[j] == rest[j - 1];
          }
          assert IsFirst(es, k + 1, ok);
        }
        if k: nat :| IsFirst(es, k, ok) && es[k] == p && KeyOf(p) == key {
          forall j | 0 <= j < k - 1 && ok(rest[j]) ensures KeyOf(rest[j]) != KeyOf(rest[k - 1]) {
            assert rest[j] == es[j + 1];
          }
          assert IsFirst(rest, k - 1, ok);
        }
      }
    }
  }

  lemma {:induction false} FirstOkSnoc(es: seq<ListenPort>, last: ListenPort, key: MatchedPort, ok: ListenPort -> bool)
    ensures FirstOk(es + [last], key, ok) ==
      if FirstOk(es, key, ok).Some? then FirstOk(es, key, ok)
      else if KeyOf(last) == key && ok(last) then Some(last) else None
  {
    if es != [] {
      assert (es + [last])[1..] == es[1..] + [last];
      FirstOkSnoc(es[1..], last, key, ok);
    }
  }

  lemma {:induction false} InsertKeepsFirst(x: ListenPort, s: seq<ListenPort>, key: MatchedPort, ok: ListenPort -> bool)
    ensures FirstOk(InsertBy(PortLe, x, s), key, ok) ==
      if KeyOf(x) == key && ok(x) then Some(x) else FirstOk(s, key, ok)
  {
    if s == [] {
    } else if PortLe(x, s[0]) {
      assert ([x] + s)[1..] == s;
    } else {
      assert KeyOf(x) != KeyOf(s[0]) by { StrLeTotal(ProtoOf(x), ProtoOf(x)); }
      InsertKeepsFirst(x, s[1..], key, ok);
      assert InsertBy(PortLe, x, s)[1..] == InsertBy(PortLe, x, s[1..]);
    }
  }

  /** Sorting is stable: it does not change which entry of a key comes first. */
  lemma {:induction false} SortKeepsFirst(ports: seq<ListenPort>, key: MatchedPort, ok: ListenPort -> bool)
    ensures FirstOk(Sorted(ports), key, ok) == FirstOk(ports, key, ok)
  {
    if ports != [] {
      SortKeepsFirst(ports[1..], key, ok);
      InsertKeepsFirst(ports[0], SortBy(PortLe, ports[1..]), key, ok);
    }
  }

  lemma {:induction false} DedupKeepsFirst(es: seq<ListenPort>, ok: ListenPort -> bool, p: ListenPort)
    ensures p in Dedup(Filter(es, ok)) <==> FirstOk(es, KeyOf(p), ok) == Some(p)
  {
    if es != [] {
      var n := |es| - 1;
      var prior, last, key := es[..n], es[n], KeyOf(es[n]);
      assert es == prior + [last];
      assert es[..n + 1] == es;
      DedupKeepsFirst(prior, ok, p);
      FirstOkSnoc(prior, last, KeyOf(p), ok);
      PickStep(es, n, ok);
      KeysMember(Dedup(Filter(prior, ok)), key);
      if FirstOk(prior, key, ok).Some? {
        FirstOkQualifies(prior, key, ok);
        DedupKeepsFirst(prior, ok, FirstOk(prior, key, ok).value);
      }
      if key in Keys(Dedup(Filter(prior, ok))) {
        var q :| q in Dedup(Filter(prior, ok)) && KeyOf(q) == key;
        DedupKeepsFirst(prior, ok, q);
      }
    }
  }

  lemma {:induction false} FirstOkQualifies(es: seq<ListenPort>, key: MatchedPort, ok: ListenPort -> bool)
    ensures FirstOk(es, key, ok).Some? ==>
      KeyOf(FirstOk(es, key, ok).value) == key && ok(FirstOk(es, key, ok).value)
  {
    if es != [] {
      FirstOkQualifies(es[1..], key, ok);
    }
  }

  /** Of the entries of one (proto, port), exactly the first reported one that qualifies is picked. */
  lemma PickedIffFirst(ports: seq<ListenPort>, ok: ListenPort -> bool, p: ListenPort)
    ensures p in Picked(ports, ok) <==> exists k: nat :: IsFirst(ports, k, ok) && ports[k] == p
  {
    DedupKeepsFirst(Sorted(ports), ok, p);
    SortKeepsFirst(ports, KeyOf(p), ok);
    FirstOkIff(ports, KeyOf(p), ok, p);
  }

  /** Strictly before: by port, then by protocol. */
  predicate Before(a: MatchedPort, b: MatchedPort) {
    a.port < b.port || (a.port == b.port && a.proto != b.proto && StrLe(a.proto, b.proto))
  }

  lemma PickedBySort(ports: seq<ListenPort>, ok: ListenPort -> bool)
    ensures SortedBy(PortLe, Picked(ports, ok)) && KeysDistinct(Picked(ports, ok))
  {
    PortLeIsAnOrder();
    SortBySorted(PortLe, ports);
    FilterSorted(Sorted(ports), ok);
    DedupSorted(Filter(Sorted(ports), ok));
    DedupDistinct(Filter(Sorted(ports), ok));
  }

  /** The picked entries come in strictly increasing order of port, then protocol. */
  lemma PickedInOrder(ports: seq<ListenPort>, ok: ListenPort -> bool, i: nat, j: nat)
    requires i < j < |Picked(ports, ok)|
    ensures Before(KeyOf(Picked(ports, ok)[i]), KeyOf(Picked(ports, ok)[j]))
  {
    PickedBySort(ports, ok);
    DistinctApart(Picked(ports, ok), i, j);
  }

  lemma {:induction false} DistinctApart(es: seq<ListenPort>, i: nat, j: nat)
    requires KeysDistinct(es) && i < j < |es|
    ensures KeyOf(es[i]) != KeyOf(es[j])
  {
    var prior := es[..|es| - 1];
    if j == |es| - 1 {
      assert prior[i] in prior;
      KeysMember(prior, KeyOf(es[j]));
    } else {
      DistinctApart(prior, i, j);
    }
  }

  // ---------------------------------------------------------------- units

  /** A unit's own sockets: with a known pid those of the process; else those whose process name and the
      unit's name occur in one another, except sockets held by systemd, and those on a well-known port of
      the name. */
  predicate Belongs(c: Catalog, unit: string, pid: Option<int>, p: ListenPort) {
    if pid.Some? then p.pid == pid else
      var name, comm := c.lower(RemoveSuffix(unit, ".service")), CommOf(c, p);
      || (comm != "" && comm != "systemd" && (Occurs(name, comm) || Occurs(comm, name)))
      || (name in c.namePorts && KeyOf(p).port in c.namePorts[name])
  }

  lemma AttributedIff(c: Catalog, unit: string, ports: seq<ListenPort>, pid: Option<int>, p: ListenPort)
    ensures p in AttributedPorts(c, unit, ports, pid) <==>
      exists k :: 0 <= k < |ports| && ports[k] == p && Belongs(c, unit, pid, p)
        && forall j | 0 <= j < k :: KeyOf(ports[j]) == KeyOf(p) ==> !Belongs(c, unit, pid, ports[j])
  {
    var ok := AttributableTo(c, unit, pid);
    forall q: ListenPort ensures ok(q) <==> Belongs(c, unit, pid, q) {
      var name := c.lower(RemoveSuffix(unit, ".service"));
      ContainsIff(CommOf(c, q), name);
      ContainsIff(name, CommOf(c, q));
    }
    PickedIffFirst(ports, ok, p);
    if k :| 0 <= k < |ports| && ports[k] == p && Belongs(c, unit, pid, p)
            && forall j | 0 <= j < k :: KeyOf(ports[j]) == KeyOf(p) ==> !Belongs(c, unit, pid, ports[j]) {
      assert IsFirst(ports, k, ok);
    }
  }

  /** The unit's name decides first, then the first of its sockets with a telling process name, then the
      first one on a port of the catalog; a unit none of them tells anything about is unknown. */
  lemma ClassifyIs(c: Catalog, unit: string, ports: seq<ListenPort>, pid: Option<int>)
    ensures var (name, es) := (RemoveSuffix(c.lower(unit), ".service"), AttributedPorts(c, unit, ports, pid));
      var category := Classify(c, unit, ports, pid);
      && (MatchKeyword(c, name).Some? ==> category == MatchKeyword(c, name).value)
      && (MatchKeyword(c, name).None? ==>
            if exists e | e in es :: MatchKeyword(c, CommOf(c, e)).Some? then
              exists k :: 0 <= k < |es| && MatchKeyword(c, CommOf(c, es[k])) == Some(category)
                && forall j | 0 <= j < k :: MatchKeyword(c, CommOf(c, es[j])).None?
            else if exists e | e in es :: KeyOf(e).port in c.portIndex then
              exists k :: 0 <= k < |es| && KeyOf(es[k]).port in c.portIndex
                && category == c.portIndex[KeyOf(es[k]).port]
                && forall j | 0 <= j < k :: KeyOf(es[j]).port !in c.portIndex
            else category == "unknown")
  {
    var es := AttributedPorts(c, unit, ports, pid);
    FirstCommIs(c, es);
    FirstPortIs(c, es);
  }

  lemma {:induction false} FirstCommIs(c: Catalog, es: seq<ListenPort>)
    ensures FirstComm(c, es).Some? <==> exists e | e in es :: MatchKeyword(c, CommOf(c, e)).Some?
    ensures FirstComm(c, es).Some? ==>
      exists k :: 0 <= k < |es| && MatchKeyword(c, CommOf(c, es[k])) == FirstComm(c, es)
        && forall j | 0 <= j < k :: MatchKeyword(c, CommOf(c, es[j])).None?
  {
    hide MatchKeyword, CommOf;
    if es != [] {
      var rest := es[1..];
      FirstCommIs(c, rest);
      if MatchKeyword(c, CommOf(c, es[0])).Some? {
        assert es[0] in es;
      } else if FirstComm(c, rest).Some? {
        var k :| 0 <= k < |rest| && MatchKeyword(c, CommOf(c, rest[k])) == FirstComm(c, rest)
                 && forall j | 0 <= j < k :: MatchKeyword(c, CommOf(c, rest[j])).None?;
        assert es[k + 1] == rest[k] && forall j | 0 < j < k + 1 :: es[j] == rest[j - 1];
        assert es[k + 1] in es;
      }
    }
  }

  lemma {:induction false} FirstPortIs(c: Catalog, es: seq<ListenPort>)
    ensures FirstPort(c, es).Some? <==> exists e | e in es :: KeyOf(e).port in c.portIndex
    ensures FirstPort(c, es).Some? ==>
      exists k :: 0 <= k < |es| && KeyOf(es[k]).port in c.portIndex
        && c.portIndex[KeyOf(es[k]).port] == FirstPort(c, es).value
        && forall j | 0 <= j < k :: KeyOf(es[j]).port !in c.portIndex
  {
    if es != [] {
      var rest := es[1..];
      FirstPortIs(c, rest);
      if KeyOf(es[0]).port in c.portIndex {
        assert es[0] in es;
      } else if FirstPort(c, rest).Some? {
        var k :| 0 <= k < |rest| && KeyOf(rest[k]).port in c.portIndex
                 && c.portIndex[KeyOf(rest[k]).port] == FirstPort(c, rest).value
                 && forall j | 0 <= j < k :: KeyOf(rest[j]).port !in c.portIndex;
        assert es[k + 1] == rest[k] && forall j | 0 < j < k + 1 :: es[j] == rest[j - 1];
        assert es[k + 1] in es;
      }
    }
  }

  /** A unit is shown a port exactly when an entry of it is owned by the unit's process, or has no owner and
      is a catalog port of the unit's category. */
  lemma UnitGetsPortIff(c: Catalog, unit: string, ports: seq<ListenPort>, pid: Option<int>, key: MatchedPort)
    ensures key in MatchedPorts(c, unit, ports, pid) <==>
      exists p | p in ports :: KeyOf(p) == key &&
        if p.pid.Some? then p.pid == pid
        else key.port in c.portIndex && c.portIndex[key.port] == Classify(c, unit, ports, None)
             && c.portIndex[key.port] != "unknown"
  {
    hide Classify;
    MatchedIff(c, unit, ports, pid, key);
  }

  lemma MatchedInOrder(c: Catalog, unit: string, ports: seq<ListenPort>, pid: Option<int>, i: nat, j: nat)
    requires i < j < |MatchedPorts(c, unit, ports, pid)|
    ensures Before(MatchedPorts(c, unit, ports, pid)[i], MatchedPorts(c, unit, ports, pid)[j])
  {
    PickedInOrder(ports, EligibleTo(c, Classify(c, unit, ports, None), pid), i, j);
  }

  // ---------------------------------------------------------------- sockets of the host

  /** A (proto, port) is listed under the category of its first entry that has one. */
  lemma DetectedIff(c: Catalog, ports: seq<ListenPort>, category: string, key: MatchedPort)
    ensures key in SocketsOf(c, ClassifiedSockets(c, ports), category) <==>
      exists k :: 0 <= k < |ports| && KeyOf(ports[k]) == key && SocketCategory(c, ports[k]) == Some(category)
        && forall j | 0 <= j < k :: KeyOf(ports[j]) == key ==> SocketCategory(c, ports[j]).None?
  {
    hide SocketCategory, SocketsOf, ClassifiedSockets, FirstOk;
    var ok := HasCategory(c);
    DetectedFirst(c, ports, category, key);
    if p :| FirstOk(ports, key, ok) == Some(p) && SocketCategory(c, p) == Some(category) {
      FirstOkIff(ports, key, ok, p);
    }
    if k :| 0 <= k < |ports| && KeyOf(ports[k]) == key && SocketCategory(c, ports[k]) == Some(category)
            && forall j | 0 <= j < k :: KeyOf(ports[j]) == key ==> SocketCategory(c, ports[j]).None? {
      assert IsFirst(ports, k, ok);
      FirstOkIff(ports, key, ok, ports[k]);
    }
  }

  lemma {:induction false} SocketsOfInOrder(c: Catalog, es: seq<ListenPort>, category: string)
    requires SortedBy(PortLe, es) && KeysDistinct(es)
    ensures var listed := SocketsOf(c, es, category);
      forall i, j | 0 <= i < j < |listed| :: Before(listed[i], listed[j])
  {
    if es != [] {
      var prior, last := es[..|es| - 1], es[|es| - 1];
      SocketsOfInOrder(c, prior, category);
      forall i | 0 <= i < |SocketsOf(c, prior, category)|
        ensures Before(SocketsOf(c, prior, category)[i], KeyOf(last))
      {
        var key := SocketsOf(c, prior, category)[i];
        SocketsOfMember(c, prior, category, key);
        var e :| e in prior && KeyOf(e) == key && SocketCategory(c, e) == Some(category);
        LastIsGreatest(es, e);
        KeysMember(prior, KeyOf(last));
      }
    }
  }

  /** The sockets of each category are listed in order. */
  lemma DetectedInOrder(c: Catalog, ports: seq<ListenPort>, category: string, i: nat, j: nat)
    requires i < j < |SocketsOf(c, ClassifiedSockets(c, ports), category)|
    ensures var listed := SocketsOf(c, ClassifiedSockets(c, ports), category); Before(listed[i], listed[j])
  {
    PickedBySort(ports, HasCategory(c));
    SocketsOfInOrder(c, ClassifiedSockets(c, ports), category);
  }

  /** A socket is baseline by its port or by a keyword in its process name. */
  lemma BaselineIff(c: Catalog, p: ListenPort)
    ensures IsBaselineSocket(c, p) <==>
      || KeyOf(p).port in c.baselinePorts
      || exists word | word in c.baselineKeywords :: Occurs(word, c.lower(if p.comm.Some? then p.comm.value else ""))
  {
    var text := c.lower(if p.comm.Some? then p.comm.value else "");
    BaselineWords(c.baselineKeywords, text);
  }

  lemma BaselineWords(words: seq<string>, text: string)
    ensures AnyKeyword(words, text) <==> exists word | word in words :: Occurs(word, text)
  {
    if i :| 0 <= i < |words| && Contains(text, words[i]) {
      ContainsIff(text, words[i]);
      assert words[i] in words;
    }
    if word :| word in words && Occurs(word, text) {
      ContainsIff(text, word);
      var i :| 0 <= i < |words| && words[i] == word;
    }
  }

  /** A unit adds its category when it is named, its name holds no baseline keyword, and it is not unknown. */
  lemma FromUnitIff(c: Catalog, s: ServiceUnit, ports: seq<ListenPort>, category: string)
    ensures FromUnit(c, s, ports, category) <==>
      && s.unit.Some? && s.unit.value != ""
      && (forall word | word in c.baselineKeywords :: !Occurs(word, c.lower(s.unit.value)))
      && Classify(c, s.unit.value, ports, s.pid) == category && category != "unknown"
  {
    hide Classify;
    if s.unit.Some? {
      BaselineWords(c.baselineKeywords, c.lower(s.unit.value));
    }
  }

  /** A category runs on the host exactly when a unit adds it, or when it is that of the first socket with a
      category among the sockets of one (proto, port) that are not baseline. */
  lemma RunsIff(c: Catalog, services: seq<ServiceUnit>, ports: seq<ListenPort>, category: string)
    ensures Runs(c, services, ports, category) <==>
      || (exists s | s in services :: FromUnit(c, s, ports, category))
      || (exists k :: 0 <= k < |ports| && !IsBaselineSocket(c, ports[k])
            && SocketCategory(c, ports[k]) == Some(category)
            && forall j | 0 <= j < k :: KeyOf(ports[j]) == KeyOf(ports[k]) ==>
                 IsBaselineSocket(c, ports[j]) || SocketCategory(c, ports[j]).None?)
  {
    hide FromUnit, IsBaselineSocket, SocketCategory, SocketsOf, ClassifiedSockets;
    if i :| 0 <= i < |services| && FromUnit(c, services[i], ports, category) {
      assert services[i] in services;
    }
    SocketRunsIff(c, ports, category);
  }

  /** The socket's category counts: it is not baseline and has one. */
  function Counted(c: Catalog): ListenPort -> bool {
    p => !IsBaselineSocket(c, p) && SocketCategory(c, p).Some?
  }

  lemma SocketRunsIff(c: Catalog, ports: seq<ListenPort>, category: string)
    ensures SocketsOf(c, ClassifiedSockets(c, NonBaseline(c, ports)), category) != [] <==>
      exists k: nat :: IsFirst(ports, k, Counted(c)) && SocketCategory(c, ports[k]) == Some(category)
  {
    hide SocketCategory, IsBaselineSocket;
    var front := NonBaseline(c, ports);
    var listed := SocketsOf(c, ClassifiedSockets(c, front), category);
    if listed != [] {
      DetectedFirst(c, front, category, listed[0]);
      var p :| FirstOk(front, listed[0], HasCategory(c)) == Some(p) && SocketCategory(c, p) == Some(category);
      FilterKeepsFirst(c, ports, listed[0]);
      FirstOkIff(ports, listed[0], Counted(c), p);
    }
    if k: nat :| IsFirst(ports, k, Counted(c)) && SocketCategory(c, ports[k]) == Some(category) {
      var key := KeyOf(ports[k]);
      FirstOkIff(ports, key, Counted(c), ports[k]);
      FilterKeepsFirst(c, ports, key);
      DetectedFirst(c, front, category, key);
    }
  }

  lemma DetectedFirst(c: Catalog, ports: seq<ListenPort>, category: string, key: MatchedPort)
    ensures key in SocketsOf(c, ClassifiedSockets(c, ports), category) <==>
      exists p :: FirstOk(ports, key, HasCategory(c)) == Some(p) && SocketCategory(c, p) == Some(category)
  {
    hide SocketCategory;
    var es, ok := ClassifiedSockets(c, ports), HasCategory(c);
    SocketsOfMember(c, es, category, key);
    forall p: ListenPort ensures p in es <==> FirstOk(ports, KeyOf(p), ok) == Some(p) {
      DedupKeepsFirst(Sorted(ports), ok, p);
      SortKeepsFirst(ports, KeyOf(p), ok);
    }
    FirstOkQualifies(ports, key, ok);
  }

  lemma {:induction false} FilterKeepsFirst(c: Catalog, es: seq<ListenPort>, key: MatchedPort)
    ensures FirstOk(NonBaseline(c, es), key, HasCategory(c)) == FirstOk(es, key, Counted(c))
  {
    hide SocketCategory, IsBaselineSocket;
    if es != [] {
      var prior, last := es[..|es| - 1], es[|es| - 1];
      FilterKeepsFirst(c, prior, key);
      assert es == prior + [last];
      FirstOkSnoc(prior, last, key, Counted(c));
      FirstOkSnoc(NonBaseline(c, prior), last, key, HasCategory(c));
      assert NonBaseline(c, prior) + [] == NonBaseline(c, prior);
    }
  }
}
