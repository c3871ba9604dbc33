/**
 When the order of a host's sockets does not matter: entries that do not tie, and, exactly, when the
 detected groups are the same for every order.
 */
module ServiceOrder {
  import opened Wrappers
  import opened Sorting
  import opened ServiceClassifier
  import opened ServiceWorkloads

  // ---------------------------------------------------------------- order does not matter

  /** Without entries that tie on (port, proto) but differ, the sorted order forgets the input order. */
  lemma SortedForgetsOrder(a: seq<ListenPort>, b: seq<ListenPort>)
    requires multiset(a) == multiset(b) && NoTies(PortLe, a)
    ensures Sorted(a) == Sorted(b)
  {
    PortLeIsAnOrder();
    SortForgetsOrder(PortLe, a, b);
  }

  lemma SameClass(c: Catalog, unit: string, a: seq<ListenPort>, b: seq<ListenPort>, pid: Option<int>)
    requires Sorted(a) == Sorted(b)
    ensures AttributedPorts(c, unit, a, pid) == AttributedPorts(c, unit, b, pid)
    ensures Classify(c, unit, a, pid) == Classify(c, unit, b, pid)
  {
    assert AttributedPorts(c, unit, a, pid) == AttributedPorts(c, unit, b, pid);
  }

  lemma SameMatches(c: Catalog, unit: string, a: seq<ListenPort>, b: seq<ListenPort>, pid: Option<int>)
    requires Sorted(a) == Sorted(b)
    ensures MatchedPorts(c, unit, a, pid) == MatchedPorts(c, unit, b, pid)
  {
    SameClass(c, unit, a, b, None);
    assert MatchedEntries(c, unit, a, pid) == MatchedEntries(c, unit, b, pid);
  }

  /** Classification, port matching and socket detection do not depend on the order of the sockets. */
  lemma ClassifierForgetsOrder(c: Catalog, unit: string, a: seq<ListenPort>, b: seq<ListenPort>, pid: Option<int>)
    requires multiset(a) == multiset(b) && NoTies(PortLe, a)
    ensures Classify(c, unit, a, pid) == Classify(c, unit, b, pid)
    ensures MatchedPorts(c, unit, a, pid) == MatchedPorts(c, unit, b, pid)
    ensures ClassifiedSockets(c, a) == ClassifiedSockets(c, b)
  {
    SortedForgetsOrder(a, b);
    SameClass(c, unit, a, b, pid);
    SameMatches(c, unit, a, b, pid);
  }

  // ---------------------------------------------------------------- exactly when detection is stable

  lemma {:induction false} FilterMultiset(es: seq<ListenPort>, ok: ListenPort -> bool, e: ListenPort)
    ensures multiset(Filter(es, ok))[e] == if ok(e) then multiset(es)[e] else 0
  {
    if es != [] {
      FilterMultiset(es[..|es| - 1], ok, e);
      assert es == es[..|es| - 1] + [es[|es| - 1]];
    }
  }

  /** Classified entries of one (proto, port) have one category. */
  predicate CategoriesAgree(c: Catalog, ports: seq<ListenPort>) {
    forall p, q | p in ports && q in ports && KeyOf(p) == KeyOf(q) ::
      SocketCategory(c, p).Some? && SocketCategory(c, q).Some? ==> SocketCategory(c, p) == SocketCategory(c, q)
  }

  ghost predicate SameGroups(c: Catalog, a: seq<ListenPort>, b: seq<ListenPort>) {
    forall category ::
      SocketsOf(c, ClassifiedSockets(c, a), category) == SocketsOf(c, ClassifiedSockets(c, b), category)
  }

  /** Every order of the sockets gives the same groups. */
  ghost predicate DetectionStable(c: Catalog, ports: seq<ListenPort>) {
    forall b: seq<ListenPort> | multiset(b) == multiset(ports) :: SameGroups(c, ports, b)
  }

  predicate KeyLe(a: MatchedPort, b: MatchedPort) {
    a.port < b.port || (a.port == b.port && StrLe(a.proto, b.proto))
  }

  lemma LastIsGreatest(es: seq<ListenPort>, e: ListenPort)
    requires es != [] && SortedBy(PortLe, es) && e in es[..|es| - 1]
    ensures PortLe(e, es[|es| - 1])
  {
    var i :| 0 <= i < |es| - 1 && es[i] == e;
    assert PortLe(es[i], es[|es| - 1]);
  }

  lemma SortedSnoc(es: seq<ListenPort>, last: ListenPort)
    requires SortedBy(PortLe, es) && forall e | e in es :: PortLe(e, last)
    ensures SortedBy(PortLe, es + [last])
  {
    forall i, j | 0 <= i < j < |es + [last]| ensures PortLe((es + [last])[i], (es + [last])[j]) {
      assert es == (es + [last])[..|es|];
    }
  }

  lemma {:induction false} FilterSorted(es: seq<ListenPort>, ok: ListenPort -> bool)
    requires SortedBy(PortLe, es)
    ensures SortedBy(PortLe, Filter(es, ok))
  {
    if es != [] {
      var prior, last := es[..|es| - 1], es[|es| - 1];
      FilterSorted(prior, ok);
      forall e | e in Filter(prior, ok) ensures PortLe(e, last) {
        FilterMembers(prior, ok, e);
        LastIsGreatest(es, e);
      }
      SortedSnoc(Filter(prior, ok), last);
    }
  }

  lemma {:induction false} DedupSorted(es: seq<ListenPort>)
    requires SortedBy(PortLe, es)
    ensures SortedBy(PortLe, Dedup(es))
  {
    if es != [] {
      var prior, last := es[..|es| - 1], es[|es| - 1];
      DedupSorted(prior);
      DedupDistinct(prior);
      hide PortLe;
      forall e | e in Dedup(prior) ensures PortLe(e, last) {
        LastIsGreatest(es, e);
      }
      SortedSnoc(Dedup(prior), last);
    }
  }

  lemma PickedSorted(ports: seq<ListenPort>, ok: ListenPort -> bool)
    ensures SortedBy(KeyLe, AsMatched(Picked(ports, ok)))
  {
    PortLeIsAnOrder();
    SortBySorted(PortLe, ports);
    FilterSorted(Sorted(ports), ok);
    DedupSorted(Filter(Sorted(ports), ok));
  }

  lemma {:induction false} DistinctCounts(es: seq<ListenPort>, key: MatchedPort)
    requires KeysDistinct(es)
    ensures multiset(AsMatched(es))[key] == if key in Keys(es) then 1 else 0
  {
    if es != [] {
      var prior, last := es[..|es| - 1], es[|es| - 1];
      DistinctCounts(prior, key);
      assert AsMatched(es) == AsMatched(prior) + [KeyOf(last)];
    }
  }

  lemma PickedDistinct(ports: seq<ListenPort>, ok: ListenPort -> bool)
    ensures KeysDistinct(Picked(ports, ok))
  {
    DedupDistinct(Filter(Sorted(ports), ok));
  }

  /** The picked keys, in order, depend on the set of picked keys only. */
  lemma PickedCanonical(a: seq<ListenPort>, ok: ListenPort -> bool, b: seq<ListenPort>, also: ListenPort -> bool)
    requires forall key :: key in AsMatched(Picked(a, ok)) <==> key in AsMatched(Picked(b, also))
    ensures AsMatched(Picked(a, ok)) == AsMatched(Picked(b, also))
  {
    hide Picked, AsMatched, Keys, KeysDistinct;
    var es, fs := Picked(a, ok), Picked(b, also);
    PickedDistinct(a, ok);
    PickedDistinct(b, also);
    forall key ensures multiset(AsMatched(es))[key] == multiset(AsMatched(fs))[key] {
      DistinctCounts(es, key);
      DistinctCounts(fs, key);
      assert key in AsMatched(es) <==> key in multiset(AsMatched(es));
      assert key in AsMatched(fs) <==> key in multiset(AsMatched(fs));
    }
    PickedSorted(a, ok);
    PickedSorted(b, also);
    StrLeIsAnOrder();
    SortedIsCanonical(KeyLe, AsMatched(es), AsMatched(fs));
  }

  lemma PickedKeysForgetOrder(a: seq<ListenPort>, b: seq<ListenPort>, ok: ListenPort -> bool)
    requires multiset(a) == multiset(b)
    ensures AsMatched(Picked(a, ok)) == AsMatched(Picked(b, ok))
  {
    SameElements(a, b);
    forall key ensures key in AsMatched(Picked(a, ok)) <==> key in AsMatched(Picked(b, ok)) {
      PickedIff(a, ok, key);
      PickedIff(b, ok, key);
      KeysAreMatched(Picked(a, ok), key);
      KeysAreMatched(Picked(b, ok), key);
    }
    PickedCanonical(a, ok, b, ok);
  }

  lemma KeysAreMatched(es: seq<ListenPort>, key: MatchedPort)
    ensures key in AsMatched(es) <==> key in Keys(es)
  {
    KeysMember(es, key);
    if key in AsMatched(es) {
      var i :| 0 <= i < |es| && AsMatched(es)[i] == key;
      assert es[i] in es;
    }
    if e :| e in es && KeyOf(e) == key {
      var i :| 0 <= i < |es| && es[i] == e;
      assert AsMatched(es)[i] == key;
    }
  }

  lemma {:induction false} SameSockets(c: Catalog, es: seq<ListenPort>, fs: seq<ListenPort>, category: string)
    requires |es| == |fs|
    requires forall i | 0 <= i < |es| ::
      KeyOf(es[i]) == KeyOf(fs[i]) && SocketCategory(c, es[i]) == SocketCategory(c, fs[i])
    ensures SocketsOf(c, es, category) == SocketsOf(c, fs, category)
  {
    if es != [] {
      SameSockets(c, es[..|es| - 1], fs[..|fs| - 1], category);
    }
  }

  lemma PickedQualify(ports: seq<ListenPort>, ok: ListenPort -> bool, e: ListenPort)
    requires e in Picked(ports, ok)
    ensures e in ports && ok(e)
  {
    DedupDistinct(Filter(Sorted(ports), ok));
    FilterMembers(Sorted(ports), ok, e);
    SameElements(ports, Sorted(ports));
  }

  lemma AgreementIsStable(c: Catalog, a: seq<ListenPort>, b: seq<ListenPort>)
    requires multiset(a) == multiset(b) && CategoriesAgree(c, a)
    ensures SameGroups(c, a, b)
  {
    var ok := HasCategory(c);
    var es, fs := Picked(a, ok), Picked(b, ok);
    PickedKeysForgetOrder(a, b, ok);
    SameElements(a, b);
    assert |es| == |AsMatched(es)| == |AsMatched(fs)| == |fs|;
    forall i | 0 <= i < |es|
      ensures KeyOf(es[i]) == KeyOf(fs[i]) && SocketCategory(c, es[i]) == SocketCategory(c, fs[i])
    {
      assert AsMatched(es)[i] == AsMatched(fs)[i];
      PickedQualify(a, ok, es[i]);
      PickedQualify(b, ok, fs[i]);
    }
    forall category
      ensures SocketsOf(c, ClassifiedSockets(c, a), category) == SocketsOf(c, ClassifiedSockets(c, b), category)
    {
      SameSockets(c, es, fs, category);
    }
  }

  lemma {:induction false} InsertSplits(x: ListenPort, s: seq<ListenPort>) returns (i: nat)
    ensures i <= |s| && InsertBy(PortLe, x, s) == s[..i] + [x] + s[i..]
    ensures forall j | 0 <= j < i :: !PortLe(x, s[j])
  {
    hide PortLe;
    if s == [] || PortLe(x, s[0]) {
      i := 0;
    } else {
      var k := InsertSplits(x, s[1..]);
      i := k + 1;
      SplitsCons(x, s, InsertBy(PortLe, x, s[1..]), k);
    }
  }

  lemma SplitsCons(x: ListenPort, s: seq<ListenPort>, t: seq<ListenPort>, k: nat)
    requires s != [] && k < |s| && t == s[1..][..k] + [x] + s[1..][k..]
    ensures [s[0]] + t == s[..k + 1] + [x] + s[k + 1..]
  {
    assert s[1..][k..] == s[k + 1..];
    assert s[..k + 1] == [s[0]] + s[1..][..k];
  }

  lemma {:induction false} FilterConcat(a: seq<ListenPort>, b: seq<ListenPort>, ok: ListenPort -> bool)
    ensures Filter(a + b, ok) == Filter(a, ok) + Filter(b, ok)
  {
    if b == [] {
      assert a + b == a;
    } else {
      assert (a + b)[..|a + b| - 1] == a + b[..|b| - 1];
      FilterConcat(a, b[..|b| - 1], ok);
    }
  }

  lemma {:induction false} DedupGrows(a: seq<ListenPort>, b: seq<ListenPort>, e: ListenPort)
    requires e in Dedup(a)
    ensures e in Dedup(a + b)
  {
    if b == [] {
      assert a + b == a;
    } else {
      assert (a + b)[..|a + b| - 1] == a + b[..|b| - 1];
      DedupGrows(a, b[..|b| - 1], e);
    }
  }

  /** The stable sort puts the first element before its ties, so it is the one picked for its key. */
  lemma HeadIsPicked(p: ListenPort, rest: seq<ListenPort>, ok: ListenPort -> bool)
    requires ok(p)
    ensures p in Picked([p] + rest, ok)
  {
    assert ([p] + rest)[1..] == rest;
    var s := Sorted(rest);
    var i := InsertSplits(p, s);
    var before := Filter(s[..i], ok);
    forall e | e in before ensures KeyOf(e) != KeyOf(p) {
      FilterMembers(s[..i], ok, e);
      StrLeTotal(ProtoOf(p), ProtoOf(p));
    }
    KeysMember(before, KeyOf(p));
    DedupKeys(before);
    DedupSnoc(before, p);
    assert Filter([p], ok) == [p] by { assert [p][..0] == []; }
    FilterConcat(s[..i], [p], ok);
    FilterConcat(s[..i] + [p], s[i..], ok);
    DedupGrows(before + [p], Filter(s[i..], ok), p);
  }

  lemma HeadDecides(c: Catalog, p: ListenPort, rest: seq<ListenPort>)
    requires SocketCategory(c, p).Some?
    ensures KeyOf(p) in SocketsOf(c, ClassifiedSockets(c, [p] + rest), SocketCategory(c, p).value)
  {
    HeadIsPicked(p, rest, HasCategory(c));
    SocketsOfMember(c, ClassifiedSockets(c, [p] + rest), SocketCategory(c, p).value, KeyOf(p));
  }

  lemma Foremost(ports: seq<ListenPort>, p: ListenPort) returns (rest: seq<ListenPort>)
    requires p in ports
    ensures multiset([p] + rest) == multiset(ports)
  {
    var i :| 0 <= i < |ports| && ports[i] == p;
    rest := ports[..i] + ports[i + 1..];
    assert ports == ports[..i] + [p] + ports[i + 1..];
  }

  lemma DisagreementIsUnstable(c: Catalog, ports: seq<ListenPort>, p: ListenPort, q: ListenPort)
    requires p in ports && q in ports && KeyOf(p) == KeyOf(q)
    requires SocketCategory(c, p).Some? && SocketCategory(c, q).Some? && SocketCategory(c, p) != SocketCategory(c, q)
    ensures !DetectionStable(c, ports)
  {
    hide Picked, SocketsOf, SocketCategory, KeyOf;
    var first := Foremost(ports, p);
    var second := Foremost(ports, q);
    HeadDecides(c, p, first);
    HeadDecides(c, q, second);
    if DetectionStable(c, ports) {
      assert SameGroups(c, ports, [p] + first) && SameGroups(c, ports, [q] + second);
      SocketInOneCategory(c, ports, KeyOf(p), SocketCategory(c, p).value, SocketCategory(c, q).value);
    }
  }

  /** Socket detection gives the same groups for every order of the sockets exactly when the classified
      entries of each (proto, port) share one category. */
  lemma DetectionStableIff(c: Catalog, ports: seq<ListenPort>)
    ensures DetectionStable(c, ports) <==> CategoriesAgree(c, ports)
  {
    if CategoriesAgree(c, ports) {
      forall b: seq<ListenPort> | multiset(b) == multiset(ports) ensures SameGroups(c, ports, b) {
        AgreementIsStable(c, ports, b);
      }
    } else {
      var p, q :| p in ports && q in ports && KeyOf(p) == KeyOf(q) && SocketCategory(c, p).Some?
                  && SocketCategory(c, q).Some? && SocketCategory(c, p) != SocketCategory(c, q);
      DisagreementIsUnstable(c, ports, p, q);
    }
  }
}
