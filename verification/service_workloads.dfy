/** A host's workload categories, and what the classifier promises about each socket. */
module ServiceWorkloads {
  import opened Wrappers
  import opened Sorting
  import opened ServiceClassifier

  // ---------------------------------------------------------------- who owns a port

  /** A unit gets a port exactly when some entry of it is eligible: owned by the unit's pid, or ownerless
      and of the unit's category. */
  lemma MatchedIff(c: Catalog, unit: string, ports: seq<ListenPort>, pid: Option<int>, key: MatchedPort)
    ensures key in MatchedPorts(c, unit, ports, pid) <==>
      exists p | p in ports :: KeyOf(p) == key && Eligible(c, Classify(c, unit, ports, None), pid, p)
  {
    var category := Classify(c, unit, ports, None);
    PickedIff(ports, EligibleTo(c, category, pid), key);
    var es := MatchedEntries(c, unit, ports, pid);
    KeysMember(es, key);
    if e :| e in es && KeyOf(e) == key {
      var i :| 0 <= i < |es| && es[i] == e;
      assert MatchedPorts(c, unit, ports, pid)[i] == key;
    }
    if key in MatchedPorts(c, unit, ports, pid) {
      var i :| 0 <= i < |es| && MatchedPorts(c, unit, ports, pid)[i] == key;
      assert es[i] in es;
    }
  }

  /** A port owned by one process appears with the unit of that pid and with no other unit. */
  lemma OwnedPortStaysHome(c: Catalog, unit: string, ports: seq<ListenPort>, pid: Option<int>, p: ListenPort)
    requires p in ports && p.pid.Some?
    requires forall q | q in ports :: KeyOf(q) == KeyOf(p) ==> q.pid == p.pid
    ensures KeyOf(p) in MatchedPorts(c, unit, ports, pid) <==> pid == p.pid
  {
    MatchedIff(c, unit, ports, pid, KeyOf(p));
  }

  // ---------------------------------------------------------------- one category per socket

  lemma {:induction false} SocketsOfMember(c: Catalog, es: seq<ListenPort>, category: string, key: MatchedPort)
    ensures key in SocketsOf(c, es, category) <==>
      exists e | e in es :: KeyOf(e) == key && SocketCategory(c, e) == Some(category)
  {
    if es != [] {
      SocketsOfMember(c, es[..|es| - 1], category, key);
      assert es == es[..|es| - 1] + [es[|es| - 1]];
    }
  }

  lemma {:induction false} DistinctKeysIdentify(es: seq<ListenPort>, a: ListenPort, b: ListenPort)
    requires KeysDistinct(es) && a in es && b in es && KeyOf(a) == KeyOf(b)
    ensures a == b
  {
    var prior, last := es[..|es| - 1], es[|es| - 1];
    assert es == prior + [last];
    KeysMember(prior, KeyOf(last));
    if a != last && b != last {
      DistinctKeysIdentify(prior, a, b);
    }
  }

  /** No (proto, port) is listed under two categories, whatever duplicates the input holds. */
  lemma SocketInOneCategory(c: Catalog, ports: seq<ListenPort>, key: MatchedPort, one: string, other: string)
    requires key in SocketsOf(c, ClassifiedSockets(c, ports), one)
    requires key in SocketsOf(c, ClassifiedSockets(c, ports), other)
    ensures one == other
  {
    var es := ClassifiedSockets(c, ports);
    DedupDistinct(Filter(Sorted(ports), HasCategory(c)));
    SocketsOfMember(c, es, one, key);
    SocketsOfMember(c, es, other, key);
    var a :| a in es && KeyOf(a) == key && SocketCategory(c, a) == Some(one);
    var b :| b in es && KeyOf(b) == key && SocketCategory(c, b) == Some(other);
    DistinctKeysIdentify(es, a, b);
  }

  // ---------------------------------------------------------------- the stored category list

  predicate AnyKeyword(keywords: seq<string>, text: string) {
    exists i | 0 <= i < |keywords| :: Contains(text, keywords[i])
  }

  predicate IsBaselineService(c: Catalog, name: Option<string>) {
    AnyKeyword(c.baselineKeywords, c.lower(if name.Some? then name.value else ""))
  }

  predicate IsBaselineSocket(c: Catalog, p: ListenPort) {
    IsBaselineService(c, p.comm) || PortOf(p) in c.baselinePorts
  }

  function Foreground(c: Catalog): ListenPort -> bool {
    p => !IsBaselineSocket(c, p)
  }

  function NonBaseline(c: Catalog, ports: seq<ListenPort>): seq<ListenPort> {
    Filter(ports, Foreground(c))
  }

  /** The unit is named and not one that every host runs. */
  predicate Counts(c: Catalog, s: ServiceUnit) {
    s.unit.Some? && s.unit.value != "" && !IsBaselineService(c, s.unit)
  }

  predicate FromUnit(c: Catalog, s: ServiceUnit, ports: seq<ListenPort>, category: string) {
    Counts(c, s) && Classify(c, s.unit.value, ports, s.pid) == category && category != UNKNOWN
  }

  /** The category of some unit or of some listening socket that is not baseline. */
  predicate Runs(c: Catalog, services: seq<ServiceUnit>, ports: seq<ListenPort>, category: string) {
    || (exists i | 0 <= i < |services| :: FromUnit(c, services[i], ports, category))
    || SocketsOf(c, ClassifiedSockets(c, NonBaseline(c, ports)), category) != []
  }

  /** In order, each element once. */
  ghost predicate StrictlySorted(s: seq<string>) {
    SortedBy(StrLe, s) && forall x :: multiset(s)[x] <= 1
  }

  /** Python's sorted over a set. */
  method SortedSet(cats: set<string>) returns (r: seq<string>)
    ensures StrictlySorted(r)
    ensures forall x :: x in r <==> x in cats
  {
    var items: seq<string> := [];
    var rest := cats;
    while rest != {}
      invariant rest <= cats && multiset(items) == multiset(cats - rest)
      decreases rest
    {
      var x :| x in rest;
      items := items + [x];
      rest := rest - {x};
    }
    StrLeIsAnOrder();
    SortBySorted(StrLe, items);
    r := SortStrings(items);
    forall x ensures x in r <==> x in cats {
      assert x in r <==> x in multiset(r);
      assert x in cats <==> x in multiset(cats - {});
    }
  }

  /** The sorted list of exactly the categories that run. */
  ghost predicate StoredList(c: Catalog, services: seq<ServiceUnit>, ports: seq<ListenPort>, r: seq<string>) {
    StrictlySorted(r) && forall category :: category in r <==> Runs(c, services, ports, category)
  }

  method ComputeServiceCategories(c: Catalog, services: seq<ServiceUnit>, ports: seq<ListenPort>)
    returns (r: seq<string>)
    ensures StoredList(c, services, ports, r)
  {
    var cats: set<string> := {};
    for i := 0 to |services|
      invariant forall category :: category in cats <==>
        exists j | 0 <= j < i :: FromUnit(c, services[j], ports, category)
    {
      var s := services[i];
      if !Counts(c, s) {
        continue;
      }
      var category := Classify(c, s.unit.value, ports, s.pid);
      if category != UNKNOWN {
        cats := cats + {category};
      }
    }
    var detected := DetectListenCategories(c, NonBaseline(c, ports));
    cats := cats + detected.Keys;
    r := SortedSet(cats);
  }

  /** "unknown" is never stored. */
  lemma UnknownNeverRuns(c: Catalog, services: seq<ServiceUnit>, ports: seq<ListenPort>)
    requires Proper(c)
    ensures !Runs(c, services, ports, UNKNOWN)
  {
    hide SocketsOf, ClassifiedSockets;
    var es := ClassifiedSockets(c, NonBaseline(c, ports));
    if SocketsOf(c, es, UNKNOWN) != [] {
      var key := SocketsOf(c, es, UNKNOWN)[0];
      SocketsOfMember(c, es, UNKNOWN, key);
      var e :| e in es && KeyOf(e) == key && SocketCategory(c, e) == Some(UNKNOWN);
      UnknownIsNoCategory(c, e);
    }
  }

  lemma UnknownIsNoCategory(c: Catalog, p: ListenPort)
    requires Proper(c)
    ensures SocketCategory(c, p) != Some(UNKNOWN)
  {
    hide FirstKeyword;
    KeywordIsProper(c.nameIndex, CommOf(c, p));
  }

  lemma {:induction false} KeywordIsProper(index: seq<(string, string)>, text: string)
    requires forall i | 0 <= i < |index| :: index[i].1 != UNKNOWN
    ensures FirstKeyword(index, text) != Some(UNKNOWN)
  {
    if index != [] {
      KeywordIsProper(index[1..], text);
    }
  }
}
