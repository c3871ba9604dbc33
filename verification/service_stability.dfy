/**
 Which categories a unit and a host can get as the order of the sockets varies, and exactly when they
 always get the same.
 */
module ServiceStability {
  import opened Wrappers
  import opened Sorting
  import opened ServiceClassifier
  import opened ServiceWorkloads
  import opened ServiceOrder

  // ---------------------------------------------------------------- exactly when classification is stable

  function HasKey(key: MatchedPort): ListenPort -> bool {
    p => KeyOf(p) == key
  }

  function WithKey(ok: ListenPort -> bool, key: MatchedPort): ListenPort -> bool {
    p => ok(p) && KeyOf(p) == key
  }

  /** The stable sort keeps the order of the entries that share a key. */
  lemma {:induction false} SortKeepsTies(ports: seq<ListenPort>, ok: ListenPort -> bool, key: MatchedPort)
    ensures Filter(Sorted(ports), WithKey(ok, key)) == Filter(ports, WithKey(ok, key))
  {
    if ports != [] {
      var p, rest, tied := ports[0], ports[1..], WithKey(ok, key);
      SortKeepsTies(rest, ok, key);
      InsertKeepsTies(p, Sorted(rest), ok, key);
      assert ports == [p] + rest;
      FilterConcat([p], rest, tied);
    }
  }

  lemma InsertKeepsTies(p: ListenPort, s: seq<ListenPort>, ok: ListenPort -> bool, key: MatchedPort)
    ensures Filter(InsertBy(PortLe, p, s), WithKey(ok, key))
         == Filter([p], WithKey(ok, key)) + Filter(s, WithKey(ok, key))
  {
    hide Filter, WithKey, InsertBy;
    var tied := WithKey(ok, key);
    var i := InsertSplits(p, s);
    NothingTiedBefore(p, s[..i], ok, key);
    assert s[..i] + s[i..] == s;
    FilterMoves(s[..i], [p], s[i..], tied);
  }

  /** A middle part without qualifying entries before it may as well come first. */
  lemma FilterMoves(a: seq<ListenPort>, b: seq<ListenPort>, d: seq<ListenPort>, ok: ListenPort -> bool)
    requires Filter(a, ok) == [] || Filter(b, ok) == []
    ensures Filter(a + b + d, ok) == Filter(b, ok) + Filter(a + d, ok)
  {
    hide Filter;
    FilterConcat(a, b, ok);
    FilterConcat(a + b, d, ok);
    FilterConcat(a, d, ok);
  }

  lemma NothingTiedBefore(p: ListenPort, before: seq<ListenPort>, ok: ListenPort -> bool, key: MatchedPort)
    requires forall j | 0 <= j < |before| :: !PortLe(p, before[j])
    ensures Filter([p], WithKey(ok, key)) == [] || Filter(before, WithKey(ok, key)) == []
  {
    var tied := WithKey(ok, key);
    assert [p][..0] == [];
    if tied(p) && Filter(before, tied) != [] {
      var e := Filter(before, tied)[0];
      FilterMembers(before, tied, e);
      StrLeTotal(ProtoOf(p), ProtoOf(p));
    }
  }

  lemma {:induction false} FilterTwice(es: seq<ListenPort>, ok: ListenPort -> bool, key: MatchedPort)
    ensures Filter(Filter(es, ok), HasKey(key)) == Filter(es, WithKey(ok, key))
  {
    if es != [] {
      var prior, last := es[..|es| - 1], es[|es| - 1];
      FilterTwice(prior, ok, key);
      if ok(last) {
        var kept := Filter(prior, ok);
        assert (kept + [last])[..|kept|] == kept;
      } else {
        assert Filter(es, ok) == Filter(prior, ok);
      }
    }
  }

  /** Deduplication keeps the first entry of each key. */
  lemma {:induction false} DedupIsFirst(es: seq<ListenPort>, e: ListenPort)
    requires e in Dedup(es)
    ensures var tied := Filter(es, HasKey(KeyOf(e))); tied != [] && tied[0] == e
  {
    var prior, last := es[..|es| - 1], es[|es| - 1];
    if e in Dedup(prior) {
      DedupIsFirst(prior, e);
    } else {
      assert e == last;
      DedupKeys(prior);
      if Filter(prior, HasKey(KeyOf(e))) != [] {
        var other := Filter(prior, HasKey(KeyOf(e)))[0];
        FilterMembers(prior, HasKey(KeyOf(e)), other);
        KeysMember(prior, KeyOf(e));
      }
    }
  }

  /** The entry picked for a key is the first qualifying one of the input. */
  lemma PickedIsForemost(ports: seq<ListenPort>, ok: ListenPort -> bool, e: ListenPort)
    requires e in Picked(ports, ok)
    ensures var tied := Filter(ports, WithKey(ok, KeyOf(e))); tied != [] && tied[0] == e
  {
    DedupIsFirst(Filter(Sorted(ports), ok), e);
    FilterTwice(Sorted(ports), ok, KeyOf(e));
    SortKeepsTies(ports, ok, KeyOf(e));
  }

  function NameOf(c: Catalog, p: ListenPort): Option<string> {
    MatchKeyword(c, CommOf(c, p))
  }

  function Named(c: Catalog): ListenPort -> bool {
    p => NameOf(c, p).Some?
  }

  function Unnamed(c: Catalog): ListenPort -> bool {
    p => NameOf(c, p).None?
  }

  /** Some entry of the key goes to the unit without a known process name. */
  predicate Skippable(c: Catalog, unit: string, ports: seq<ListenPort>, pid: Option<int>, key: MatchedPort) {
    exists q | q in ports :: KeyOf(q) == key && Attributable(c, unit, pid, q) && NameOf(c, q).None?
  }

  /** An entry of the unit whose process name is known, while each smaller key has an entry to skip: some
      order of the sockets makes it decide the category. */
  predicate MayDecide(c: Catalog, unit: string, ports: seq<ListenPort>, pid: Option<int>, p: ListenPort) {
    && p in ports && Attributable(c, unit, pid, p) && NameOf(c, p).Some?
    && forall q | q in ports && Attributable(c, unit, pid, q) && KeyOf(q) != KeyOf(p) && KeyLe(KeyOf(q), KeyOf(p)) ::
         Skippable(c, unit, ports, pid, KeyOf(q))
  }

  /** Every key of the unit has an entry to skip: some order leaves the decision to the port numbers. */
  predicate MayFallBack(c: Catalog, unit: string, ports: seq<ListenPort>, pid: Option<int>) {
    forall q | q in ports && Attributable(c, unit, pid, q) :: Skippable(c, unit, ports, pid, KeyOf(q))
  }

  /** The category by port numbers alone. */
  function ByPort(c: Catalog, unit: string, ports: seq<ListenPort>, pid: Option<int>): string {
    var byPort := FirstPort(c, AttributedPorts(c, unit, ports, pid));
    if byPort.Some? then byPort.value else UNKNOWN
  }

  predicate NamesUnit(c: Catalog, unit: string) {
    MatchKeyword(c, RemoveSuffix(c.lower(unit), ".service")).Some?
  }

  /** Every entry that may decide says the same, and so do the port numbers where they may decide. */
  predicate DecidersAgree(c: Catalog, unit: string, ports: seq<ListenPort>, pid: Option<int>) {
    forall p | p in ports && MayDecide(c, unit, ports, pid, p) ::
      && (forall q | q in ports && MayDecide(c, unit, ports, pid, q) :: NameOf(c, p) == NameOf(c, q))
      && (MayFallBack(c, unit, ports, pid) ==> NameOf(c, p) == Some(ByPort(c, unit, ports, pid)))
  }

  /** Every order of the sockets gives the unit the same category. */
  ghost predicate ClassifyStable(c: Catalog, unit: string, ports: seq<ListenPort>, pid: Option<int>) {
    forall b: seq<ListenPort> | multiset(b) == multiset(ports) ::
      Classify(c, unit, b, pid) == Classify(c, unit, ports, pid)
  }

  /** The first entry with a known name decides, if there is one. */
  lemma {:induction false} FirstCommAt(c: Catalog, es: seq<ListenPort>) returns (i: nat)
    ensures i <= |es| && (forall j | 0 <= j < i :: NameOf(c, es[j]).None?)
    ensures if i < |es| then NameOf(c, es[i]).Some? && FirstComm(c, es) == NameOf(c, es[i])
            else FirstComm(c, es) == None
  {
    if es == [] || NameOf(c, es[0]).Some? {
      i := 0;
    } else {
      var k := FirstCommAt(c, es[1..]);
      i := k + 1;
    }
  }

  lemma {:induction false} FirstPortByKeys(c: Catalog, es: seq<ListenPort>, fs: seq<ListenPort>)
    requires AsMatched(es) == AsMatched(fs)
    ensures FirstPort(c, es) == FirstPort(c, fs)
  {
    assert |es| == |AsMatched(es)| == |AsMatched(fs)| == |fs|;
    if es != [] {
      assert AsMatched(es)[0] == AsMatched(fs)[0];
      assert AsMatched(es[1..]) == AsMatched(es)[1..] && AsMatched(fs[1..]) == AsMatched(fs)[1..];
      FirstPortByKeys(c, es[1..], fs[1..]);
    }
  }

  lemma ByPortForgetsOrder(c: Catalog, unit: string, a: seq<ListenPort>, b: seq<ListenPort>, pid: Option<int>)
    requires multiset(a) == multiset(b)
    ensures ByPort(c, unit, a, pid) == ByPort(c, unit, b, pid)
  {
    PickedKeysForgetOrder(a, b, AttributableTo(c, unit, pid));
    FirstPortByKeys(c, AttributedPorts(c, unit, a, pid), AttributedPorts(c, unit, b, pid));
  }

  lemma DecidersForgetOrder(c: Catalog, unit: string, a: seq<ListenPort>, b: seq<ListenPort>, pid: Option<int>)
    requires multiset(a) == multiset(b)
    ensures forall key :: Skippable(c, unit, a, pid, key) == Skippable(c, unit, b, pid, key)
    ensures forall p :: MayDecide(c, unit, a, pid, p) == MayDecide(c, unit, b, pid, p)
    ensures MayFallBack(c, unit, a, pid) == MayFallBack(c, unit, b, pid)
  {
    SameElements(a, b);
    forall key ensures Skippable(c, unit, a, pid, key) == Skippable(c, unit, b, pid, key) {
    }
  }

  /** A unit its name does not place is placed by an entry that may decide, or by port numbers. */
  lemma OutcomeIsPossible(c: Catalog, unit: string, ports: seq<ListenPort>, pid: Option<int>)
    returns (decider: Option<ListenPort>)
    requires !NamesUnit(c, unit)
    ensures decider.Some? ==>
      MayDecide(c, unit, ports, pid, decider.value)
      && NameOf(c, decider.value) == Some(Classify(c, unit, ports, pid))
    ensures decider.None? ==>
      MayFallBack(c, unit, ports, pid) && Classify(c, unit, ports, pid) == ByPort(c, unit, ports, pid)
  {
    var ok, es := AttributableTo(c, unit, pid), AttributedPorts(c, unit, ports, pid);
    var i := FirstCommAt(c, es);
    if i < |es| {
      decider := Some(es[i]);
      PickedQualify(ports, ok, es[i]);
      forall q | q in ports && ok(q) && KeyOf(q) != KeyOf(es[i]) && KeyLe(KeyOf(q), KeyOf(es[i]))
        ensures Skippable(c, unit, ports, pid, KeyOf(q))
      {
        SkippedBefore(c, unit, ports, pid, i, q);
      }
    } else {
      decider := None;
      forall q | q in ports && ok(q) ensures Skippable(c, unit, ports, pid, KeyOf(q)) {
        var j := PickedAt(ports, ok, q);
        PickedQualify(ports, ok, es[j]);
        assert NameOf(c, es[j]).None?;
      }
    }
  }

  /** A qualifying key is picked at some place. */
  lemma PickedAt(ports: seq<ListenPort>, ok: ListenPort -> bool, q: ListenPort) returns (j: nat)
    requires q in ports && ok(q)
    ensures j < |Picked(ports, ok)| && KeyOf(Picked(ports, ok)[j]) == KeyOf(q)
  {
    PickedIff(ports, ok, KeyOf(q));
    KeysMember(Picked(ports, ok), KeyOf(q));
    var e :| e in Picked(ports, ok) && KeyOf(e) == KeyOf(q);
    j :| 0 <= j < |Picked(ports, ok)| && Picked(ports, ok)[j] == e;
  }

  /** Smaller keys come before. */
  lemma PickedBefore(ports: seq<ListenPort>, ok: ListenPort -> bool, i: nat, j: nat)
    requires i < |Picked(ports, ok)| && j < |Picked(ports, ok)|
    requires KeyOf(Picked(ports, ok)[j]) != KeyOf(Picked(ports, ok)[i])
    ensures KeyLe(KeyOf(Picked(ports, ok)[j]), KeyOf(Picked(ports, ok)[i])) <==> j < i
  {
    var keys := AsMatched(Picked(ports, ok));
    PickedSorted(ports, ok);
    StrLeIsAnOrder();
    assert keys[i] == KeyOf(Picked(ports, ok)[i]) && keys[j] == KeyOf(Picked(ports, ok)[j]);
    if j < i {
      assert KeyLe(keys[j], keys[i]);
    } else if i < j {
      assert KeyLe(keys[i], keys[j]);
    }
  }

  lemma SkippedBefore(c: Catalog, unit: string, ports: seq<ListenPort>, pid: Option<int>, i: nat, q: ListenPort)
    requires var es := Picked(ports, AttributableTo(c, unit, pid));
      && i < |es| && (forall j | 0 <= j < i :: NameOf(c, es[j]).None?)
      && KeyOf(q) != KeyOf(es[i]) && KeyLe(KeyOf(q), KeyOf(es[i]))
    requires q in ports && Attributable(c, unit, pid, q)
    ensures Skippable(c, unit, ports, pid, KeyOf(q))
  {
    var ok := AttributableTo(c, unit, pid);
    var es := Picked(ports, ok);
    var j := PickedAt(ports, ok, q);
    PickedBefore(ports, ok, i, j);
    PickedQualify(ports, ok, es[j]);
    assert NameOf(c, es[j]).None?;
  }

  /** The sockets with `head` first, then those without a known process name, then the others. */
  function Arranged(c: Catalog, head: seq<ListenPort>, rest: seq<ListenPort>): seq<ListenPort> {
    head + (Filter(rest, Unnamed(c)) + Filter(rest, Named(c)))
  }

  lemma ArrangedIsPermutation(c: Catalog, head: seq<ListenPort>, rest: seq<ListenPort>)
    ensures multiset(Arranged(c, head, rest)) == multiset(head + rest)
  {
    forall e ensures multiset(Arranged(c, head, rest))[e] == multiset(head + rest)[e] {
      FilterMultiset(rest, Unnamed(c), e);
      FilterMultiset(rest, Named(c), e);
    }
  }

  /** In that order a key with an entry to skip, other than the head's, is picked without a name. */
  lemma SkippableIsSkipped(c: Catalog, unit: string, head: seq<ListenPort>, rest: seq<ListenPort>, pid: Option<int>,
                           e: ListenPort)
    requires e in Picked(Arranged(c, head, rest), AttributableTo(c, unit, pid))
    requires Skippable(c, unit, head + rest, pid, KeyOf(e)) && forall h | h in head :: KeyOf(h) != KeyOf(e)
    ensures NameOf(c, e).None?
  {
    var tied := WithKey(AttributableTo(c, unit, pid), KeyOf(e));
    var plain, named := Filter(rest, Unnamed(c)), Filter(rest, Named(c));
    PickedIsForemost(Arranged(c, head, rest), AttributableTo(c, unit, pid), e);
    FilterConcat(head, plain + named, tied);
    FilterConcat(plain, named, tied);
    if Filter(head, tied) != [] {
      FilterMembers(head, tied, Filter(head, tied)[0]);
    }
    var q :| q in head + rest && KeyOf(q) == KeyOf(e) && Attributable(c, unit, pid, q) && NameOf(c, q).None?;
    FilterMembers(rest, Unnamed(c), q);
    FilterMembers(plain, tied, q);
    assert Filter(plain, tied) != [] && e == Filter(plain, tied)[0];
    FilterMembers(plain, tied, e);
    FilterMembers(rest, Unnamed(c), e);
  }

  /** Each entry that may decide does so in some order. */
  lemma DeciderDecides(c: Catalog, unit: string, p: ListenPort, rest: seq<ListenPort>, pid: Option<int>)
    requires !NamesUnit(c, unit) && MayDecide(c, unit, [p] + rest, pid, p)
    ensures Some(Classify(c, unit, Arranged(c, [p], rest), pid)) == NameOf(c, p)
  {
    var ok, b := AttributableTo(c, unit, pid), Arranged(c, [p], rest);
    var es := AttributedPorts(c, unit, b, pid);
    HeadIsPicked(p, b[1..], ok);
    assert b == [p] + b[1..];
    var i :| 0 <= i < |es| && es[i] == p;
    var k := FirstCommAt(c, es);
    if k < i {
      NamedAfterDecider(c, unit, p, rest, pid, i, k);
    }
  }

  lemma NamedAfterDecider(c: Catalog, unit: string, p: ListenPort, rest: seq<ListenPort>, pid: Option<int>,
                          i: nat, k: nat)
    requires MayDecide(c, unit, [p] + rest, pid, p)
    requires var es := Picked(Arranged(c, [p], rest), AttributableTo(c, unit, pid)); k < i < |es| && es[i] == p
    ensures NameOf(c, Picked(Arranged(c, [p], rest), AttributableTo(c, unit, pid))[k]).None?
  {
    var ok, b := AttributableTo(c, unit, pid), Arranged(c, [p], rest);
    var es := Picked(b, ok);
    PickedDistinct(b, ok);
    if KeyOf(es[k]) == KeyOf(p) {
      DistinctPlaces(es, k, i);
    }
    PickedBefore(b, ok, i, k);
    PickedQualify(b, ok, es[k]);
    ArrangedIsPermutation(c, [p], rest);
    SameElements(b, [p] + rest);
    SkippableIsSkipped(c, unit, [p], rest, pid, es[k]);
  }

  lemma {:induction false} DistinctPlaces(es: seq<ListenPort>, j: nat, i: nat)
    requires KeysDistinct(es) && j < i < |es|
    ensures KeyOf(es[j]) != KeyOf(es[i])
  {
    if i < |es| - 1 {
      DistinctPlaces(es[..|es| - 1], j, i);
    } else {
      KeysMember(es[..i], KeyOf(es[i]));
      assert es[j] in es[..i];
    }
  }

  /** Where port numbers may decide, they do in some order. */
  lemma FallbackDecides(c: Catalog, unit: string, ports: seq<ListenPort>, pid: Option<int>)
    requires !NamesUnit(c, unit) && MayFallBack(c, unit, ports, pid)
    ensures Classify(c, unit, Arranged(c, [], ports), pid) == ByPort(c, unit, ports, pid)
  {
    var ok, b := AttributableTo(c, unit, pid), Arranged(c, [], ports);
    var es := AttributedPorts(c, unit, b, pid);
    ArrangedIsPermutation(c, [], ports);
    assert [] + ports == ports;
    SameElements(b, ports);
    ByPortForgetsOrder(c, unit, ports, b, pid);
    var k := FirstCommAt(c, es);
    if k < |es| {
      PickedQualify(b, ok, es[k]);
      SkippableIsSkipped(c, unit, [], ports, pid, es[k]);
    }
  }

  /** A unit gets the same category for every order of the sockets exactly when its name decides or all
      entries that may decide, and the port numbers where they may, agree. */
  lemma ClassifyStableIff(c: Catalog, unit: string, ports: seq<ListenPort>, pid: Option<int>)
    ensures ClassifyStable(c, unit, ports, pid) <==> NamesUnit(c, unit) || DecidersAgree(c, unit, ports, pid)
  {
    if !NamesUnit(c, unit) {
      if DecidersAgree(c, unit, ports, pid) {
        forall b: seq<ListenPort> | multiset(b) == multiset(ports)
          ensures Classify(c, unit, b, pid) == Classify(c, unit, ports, pid)
        {
          AgreementDecides(c, unit, ports, b, pid);
        }
      }
      if ClassifyStable(c, unit, ports, pid) {
        forall p | p in ports && MayDecide(c, unit, ports, pid, p)
          ensures NameOf(c, p) == Some(Classify(c, unit, ports, pid))
        {
          StableDecider(c, unit, ports, pid, p);
        }
        if MayFallBack(c, unit, ports, pid) {
          FallbackDecides(c, unit, ports, pid);
          ArrangedIsPermutation(c, [], ports);
          assert [] + ports == ports;
        }
      }
    }
  }

  lemma AgreementDecides(c: Catalog, unit: string, a: seq<ListenPort>, b: seq<ListenPort>, pid: Option<int>)
    requires !NamesUnit(c, unit) && multiset(b) == multiset(a) && DecidersAgree(c, unit, a, pid)
    ensures Classify(c, unit, b, pid) == Classify(c, unit, a, pid)
  {
    DecidersForgetOrder(c, unit, a, b, pid);
    ByPortForgetsOrder(c, unit, a, b, pid);
    var p := OutcomeIsPossible(c, unit, a, pid);
    var q := OutcomeIsPossible(c, unit, b, pid);
  }

  lemma StableDecider(c: Catalog, unit: string, ports: seq<ListenPort>, pid: Option<int>, p: ListenPort)
    requires !NamesUnit(c, unit) && ClassifyStable(c, unit, ports, pid)
    requires p in ports && MayDecide(c, unit, ports, pid, p)
    ensures NameOf(c, p) == Some(Classify(c, unit, ports, pid))
  {
    var rest := Foremost(ports, p);
    DecidersForgetOrder(c, unit, ports, [p] + rest, pid);
    DeciderDecides(c, unit, p, rest, pid);
    ArrangedIsPermutation(c, [p], rest);
    assert Classify(c, unit, Arranged(c, [p], rest), pid) == Classify(c, unit, ports, pid);
  }

  /** The category is possible for the unit. */
  predicate MayBe(c: Catalog, unit: string, ports: seq<ListenPort>, pid: Option<int>, category: string) {
    if NamesUnit(c, unit) then Classify(c, unit, [], pid) == category
    else
      || (exists p | p in ports :: MayDecide(c, unit, ports, pid, p) && NameOf(c, p) == Some(category))
      || (MayFallBack(c, unit, ports, pid) && ByPort(c, unit, ports, pid) == category)
  }

  lemma PossibleIsOutcome(c: Catalog, unit: string, ports: seq<ListenPort>, pid: Option<int>, category: string)
    returns (b: seq<ListenPort>)
    requires MayBe(c, unit, ports, pid, category)
    ensures multiset(b) == multiset(ports) && Classify(c, unit, b, pid) == category
  {
    b := ports;
    if !NamesUnit(c, unit) {
      if p :| p in ports && MayDecide(c, unit, ports, pid, p) && NameOf(c, p) == Some(category) {
        var rest := Foremost(ports, p);
        DecidersForgetOrder(c, unit, ports, [p] + rest, pid);
        DeciderDecides(c, unit, p, rest, pid);
        ArrangedIsPermutation(c, [p], rest);
        b := Arranged(c, [p], rest);
      } else {
        FallbackDecides(c, unit, ports, pid);
        ArrangedIsPermutation(c, [], ports);
        assert [] + ports == ports;
        b := Arranged(c, [], ports);
      }
    }
  }

  /** Some order of the sockets gives the unit the category exactly when an entry that may decide has it,
      or the port numbers where they may, or the unit's own name. */
  lemma MayBeIff(c: Catalog, unit: string, ports: seq<ListenPort>, pid: Option<int>, category: string)
    ensures MayBe(c, unit, ports, pid, category) <==>
      exists b: seq<ListenPort> :: multiset(b) == multiset(ports) && Classify(c, unit, b, pid) == category
  {
    if MayBe(c, unit, ports, pid, category) {
      var b := PossibleIsOutcome(c, unit, ports, pid, category);
    }
    if b: seq<ListenPort> :| multiset(b) == multiset(ports) && Classify(c, unit, b, pid) == category {
      if !NamesUnit(c, unit) {
        var decider := OutcomeIsPossible(c, unit, b, pid);
        DecidersForgetOrder(c, unit, ports, b, pid);
        ByPortForgetsOrder(c, unit, ports, b, pid);
        SameElements(ports, b);
      }
    }
  }

  // ---------------------------------------------------------------- exactly when matching is stable

  /** Ports of the category fall to the unit when nobody owns them. */
  predicate Claims(c: Catalog, category: string, p: ListenPort) {
    category != UNKNOWN && CategoryOfPort(c, PortOf(p)) == Some(category)
  }

  predicate OwnedBy(ports: seq<ListenPort>, pid: Option<int>, key: MatchedPort) {
    exists q | q in ports :: KeyOf(q) == key && q.pid.Some? && q.pid == pid
  }

  /** Two orders of the sockets give a unit the same ports exactly when the categories they give it claim
      the same ownerless ports, those of its own process aside. */
  lemma MatchedForgetsOrderIff(c: Catalog, unit: string, a: seq<ListenPort>, b: seq<ListenPort>, pid: Option<int>)
    requires multiset(a) == multiset(b)
    ensures MatchedPorts(c, unit, a, pid) == MatchedPorts(c, unit, b, pid) <==>
      forall p | p in a && p.pid.None? && !OwnedBy(a, pid, KeyOf(p)) ::
        Claims(c, Classify(c, unit, a, None), p) == Claims(c, Classify(c, unit, b, None), p)
  {
    var x, y := Classify(c, unit, a, None), Classify(c, unit, b, None);
    SameElements(a, b);
    forall key ensures key in MatchedPorts(c, unit, a, pid) <==> OwnedBy(a, pid, key) || Open(c, a, x, key) {
      MatchedByKey(c, unit, a, pid, key);
    }
    forall key ensures key in MatchedPorts(c, unit, b, pid) <==> OwnedBy(a, pid, key) || Open(c, a, y, key) {
      MatchedByKey(c, unit, b, pid, key);
    }
    if forall p | p in a && p.pid.None? && !OwnedBy(a, pid, KeyOf(p)) :: Claims(c, x, p) == Claims(c, y, p) {
      MatchedCanonical(c, unit, a, b, pid);
    } else {
      var p :| p in a && p.pid.None? && !OwnedBy(a, pid, KeyOf(p)) && Claims(c, x, p) != Claims(c, y, p);
      assert Open(c, a, x, KeyOf(p)) == Claims(c, x, p) && Open(c, a, y, KeyOf(p)) == Claims(c, y, p);
    }
  }

  /** Some ownerless entry of the key is claimed by the category. */
  predicate Open(c: Catalog, ports: seq<ListenPort>, category: string, key: MatchedPort) {
    exists q | q in ports :: KeyOf(q) == key && q.pid.None? && Claims(c, category, q)
  }

  lemma MatchedByKey(c: Catalog, unit: string, ports: seq<ListenPort>, pid: Option<int>, key: MatchedPort)
    ensures key in MatchedPorts(c, unit, ports, pid) <==>
      OwnedBy(ports, pid, key) || Open(c, ports, Classify(c, unit, ports, None), key)
  {
    MatchedIff(c, unit, ports, pid, key);
  }

  lemma MatchedCanonical(c: Catalog, unit: string, a: seq<ListenPort>, b: seq<ListenPort>, pid: Option<int>)
    requires forall key :: key in MatchedPorts(c, unit, a, pid) <==> key in MatchedPorts(c, unit, b, pid)
    ensures MatchedPorts(c, unit, a, pid) == MatchedPorts(c, unit, b, pid)
  {
    var x, y := Classify(c, unit, a, None), Classify(c, unit, b, None);
    forall key
      ensures key in AsMatched(Picked(a, EligibleTo(c, x, pid))) <==> key in AsMatched(Picked(b, EligibleTo(c, y, pid)))
    {
      assert key in MatchedPorts(c, unit, a, pid) <==> key in MatchedPorts(c, unit, b, pid);
    }
    PickedCanonical(a, EligibleTo(c, x, pid), b, EligibleTo(c, y, pid));
  }

  // ---------------------------------------------------------------- the workload and its stored list

  lemma SameUnits(c: Catalog, services: seq<ServiceUnit>, units: seq<ServiceUnit>, a: seq<ListenPort>,
                  b: seq<ListenPort>, category: string)
    requires multiset(services) == multiset(units) && multiset(a) == multiset(b)
    requires forall s | s in services && Counts(c, s) :: ClassifyStable(c, s.unit.value, a, s.pid)
    ensures (exists i | 0 <= i < |services| :: FromUnit(c, services[i], a, category)) <==>
      (exists j | 0 <= j < |units| :: FromUnit(c, units[j], b, category))
  {
    SameElements(services, units);
    forall s | s in services ensures FromUnit(c, s, a, category) == FromUnit(c, s, b, category) {
      if Counts(c, s) {
        assert ClassifyStable(c, s.unit.value, a, s.pid);
      }
    }
    if i :| 0 <= i < |services| && FromUnit(c, services[i], a, category) {
      assert services[i] in units;
      var j :| 0 <= j < |units| && units[j] == services[i];
      assert FromUnit(c, units[j], b, category);
    }
    if j :| 0 <= j < |units| && FromUnit(c, units[j], b, category) {
      assert units[j] in services;
      var i :| 0 <= i < |services| && services[i] == units[j];
      assert FromUnit(c, services[i], a, category);
    }
  }

  lemma NonBaselineForgetsOrder(c: Catalog, a: seq<ListenPort>, b: seq<ListenPort>)
    requires multiset(a) == multiset(b)
    ensures multiset(NonBaseline(c, a)) == multiset(NonBaseline(c, b))
  {
    var ok := Foreground(c);
    forall e ensures multiset(Filter(a, ok))[e] == multiset(Filter(b, ok))[e] {
      FilterMultiset(a, ok, e);
      FilterMultiset(b, ok, e);
    }
  }

  /** Every counted unit is classified alike in every order, and so are the sockets that count. */
  ghost predicate WorkloadStable(c: Catalog, services: seq<ServiceUnit>, ports: seq<ListenPort>) {
    && CategoriesAgree(c, NonBaseline(c, ports))
    && forall s | s in services && Counts(c, s) :: ClassifyStable(c, s.unit.value, ports, s.pid)
  }

  lemma WorkloadForgetsOrder(c: Catalog, services: seq<ServiceUnit>, units: seq<ServiceUnit>, a: seq<ListenPort>,
                             b: seq<ListenPort>, category: string)
    requires multiset(services) == multiset(units) && multiset(a) == multiset(b)
    requires WorkloadStable(c, services, a)
    ensures Runs(c, services, a, category) <==> Runs(c, units, b, category)
  {
    SameUnits(c, services, units, a, b, category);
    NonBaselineForgetsOrder(c, a, b);
    AgreementIsStable(c, NonBaseline(c, a), NonBaseline(c, b));
  }

  /** The category is possible for a counted unit, or is that of a socket that is not baseline. */
  predicate MayRun(c: Catalog, services: seq<ServiceUnit>, ports: seq<ListenPort>, category: string) {
    || (category != UNKNOWN
        && exists s | s in services :: Counts(c, s) && MayBe(c, s.unit.value, ports, s.pid, category))
    || (exists p | p in ports :: !IsBaselineSocket(c, p) && SocketCategory(c, p) == Some(category))
  }

  lemma SocketMayRun(c: Catalog, services: seq<ServiceUnit>, ports: seq<ListenPort>, p: ListenPort)
    returns (b: seq<ListenPort>)
    requires p in ports && !IsBaselineSocket(c, p) && SocketCategory(c, p).Some?
    ensures multiset(b) == multiset(ports) && Runs(c, services, b, SocketCategory(c, p).value)
  {
    var rest := Foremost(ports, p);
    b := [p] + rest;
    FilterConcat([p], rest, Foreground(c));
    assert NonBaseline(c, [p]) == [p] by { assert [p][..0] == []; }
    HeadDecides(c, p, NonBaseline(c, rest));
  }

  lemma RunningSocket(c: Catalog, ports: seq<ListenPort>, category: string) returns (p: ListenPort)
    requires SocketsOf(c, ClassifiedSockets(c, NonBaseline(c, ports)), category) != []
    ensures p in ports && !IsBaselineSocket(c, p) && SocketCategory(c, p) == Some(category)
  {
    var es := ClassifiedSockets(c, NonBaseline(c, ports));
    var key := SocketsOf(c, es, category)[0];
    SocketsOfMember(c, es, category, key);
    p :| p in es && KeyOf(p) == key && SocketCategory(c, p) == Some(category);
    PickedQualify(NonBaseline(c, ports), HasCategory(c), p);
    FilterMembers(ports, Foreground(c), p);
  }

  lemma PossibleRuns(c: Catalog, services: seq<ServiceUnit>, ports: seq<ListenPort>, category: string)
    returns (b: seq<ListenPort>)
    requires MayRun(c, services, ports, category)
    ensures multiset(b) == multiset(ports) && Runs(c, services, b, category)
  {
    if p :| p in ports && !IsBaselineSocket(c, p) && SocketCategory(c, p) == Some(category) {
      b := SocketMayRun(c, services, ports, p);
    } else {
      var s :| s in services && Counts(c, s) && MayBe(c, s.unit.value, ports, s.pid, category);
      b := PossibleIsOutcome(c, s.unit.value, ports, s.pid, category);
      var i :| 0 <= i < |services| && services[i] == s;
      assert FromUnit(c, services[i], b, category);
    }
  }

  lemma RunningIsPossible(c: Catalog, services: seq<ServiceUnit>, ports: seq<ListenPort>, b: seq<ListenPort>,
                          category: string)
    requires multiset(b) == multiset(ports) && Runs(c, services, b, category)
    ensures MayRun(c, services, ports, category)
  {
    SameElements(ports, b);
    if i :| 0 <= i < |services| && FromUnit(c, services[i], b, category) {
      var s := services[i];
      MayBeIff(c, s.unit.value, ports, s.pid, category);
      assert s in services && MayBe(c, s.unit.value, ports, s.pid, category);
    } else {
      var p := RunningSocket(c, b, category);
      assert p in ports;
    }
  }

  /** Some order of the sockets makes the category run exactly when it is possible for a counted unit or
      is that of a socket that is not baseline. */
  lemma MayRunIff(c: Catalog, services: seq<ServiceUnit>, ports: seq<ListenPort>, category: string)
    ensures MayRun(c, services, ports, category) <==>
      exists b: seq<ListenPort> :: multiset(b) == multiset(ports) && Runs(c, services, b, category)
  {
    if MayRun(c, services, ports, category) {
      var b := PossibleRuns(c, services, ports, category);
    }
    if b: seq<ListenPort> :| multiset(b) == multiset(ports) && Runs(c, services, b, category) {
      RunningIsPossible(c, services, ports, b, category);
    }
  }

  /** A strictly sorted list is determined by its elements. */
  lemma StrictlySortedIsUnique(a: seq<string>, b: seq<string>)
    requires StrictlySorted(a) && StrictlySorted(b) && (forall x :: x in a <==> x in b)
    ensures a == b
  {
    forall x ensures multiset(a)[x] == multiset(b)[x] {
      assert x in a <==> x in multiset(a);
      assert x in b <==> x in multiset(b);
    }
    StrLeIsAnOrder();
    SortedIsCanonical(StrLe, a, b);
  }

  /** Permuting the units and the sockets of a host stores the very same list. */
  lemma StoredListForgetsOrder(c: Catalog, services: seq<ServiceUnit>, units: seq<ServiceUnit>, a: seq<ListenPort>,
                               b: seq<ListenPort>, r: seq<string>, q: seq<string>)
    requires multiset(services) == multiset(units) && multiset(a) == multiset(b)
    requires WorkloadStable(c, services, a)
    requires StoredList(c, services, a, r) && StoredList(c, units, b, q)
    ensures r == q
  {
    forall category ensures category in r <==> category in q {
      WorkloadForgetsOrder(c, services, units, a, b, category);
    }
    StrictlySortedIsUnique(r, q);
  }
}
