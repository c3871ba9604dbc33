/**
 Issuing install tasks: an all-or-nothing precheck, then one transaction per target that publishes
 before it commits.  Other sessions' statements come in between, and every broker or commit call may
 raise whether or not it took effect.
 */
module InstallTasks {
  import opened Wrappers
  import opened TaskTable

  type PublicId = string

  datatype Package = LinuxPackage | WindowsPackage

  /** A row of get_servers: the server and the OS family its agent reported. */
  datatype Detail = Detail(server: ServerId, osFamily: Option<string>)

  /** One requested host, the id its INSERT would draw, how its calls end, and what others do meanwhile. */
  datatype Target = Target(
    publicId: PublicId, id: TaskId, publish: CallOutcome, commit: CallOutcome,
    beforeInsert: seq<Event>, beforePublish: seq<Event>, beforeCommit: seq<Event>)

  datatype Outcome = Created | TaskNotFound | DuplicatePending | NotConfigured | BrokerUnavailable | PublishFailed
    | CommitRaised

  datatype IssueResult = Issued | Conflict | PublishRaised | CommitFailed

  function ResolveInstallDispatch(osFamily: string): Option<Package> {
    if osFamily == "linux" then Some(LinuxPackage)
    else if osFamily == "windows" then Some(WindowsPackage)
    else None
  }

  /** An unknown family falls back to linux. */
  function OsFamilyOf(d: Detail): string {
    if d.osFamily.None? || d.osFamily.value == "" then "linux" else d.osFamily.value
  }

  /** The host's package exists and its metadata could be fetched. */
  predicate Installable(d: Detail, packages: set<Package>) {
    var package := ResolveInstallDispatch(OsFamilyOf(d));
    package.Some? && package.value in packages
  }

  /** A host without a family, or with an empty one, counts as linux; of the others only windows has a
      package. */
  lemma InstallableIff(d: Detail, packages: set<Package>)
    ensures Installable(d, packages) <==>
      || ((d.osFamily == None || d.osFamily == Some("") || d.osFamily == Some("linux")) && LinuxPackage in packages)
      || (d.osFamily == Some("windows") && WindowsPackage in packages)
  {
  }

  // ---------------------------------------------------------------- other sessions

  /** The event belongs to a transaction of one of our rows. */
  predicate TouchesOwn(e: Event, mine: set<TaskId>) {
    (e.Insert? || e.Publish? || e.Commit? || e.Abandon?) && e.id in mine
  }

  predicate Foreign(es: seq<Event>, mine: set<TaskId>) {
    forall k | 0 <= k < |es| :: !TouchesOwn(es[k], mine)
  }

  predicate ForeignAround(t: Target, mine: set<TaskId>) {
    Foreign(t.beforeInsert, mine) && Foreign(t.beforePublish, mine) && Foreign(t.beforeCommit, mine)
  }

  predicate Quiet(t: Target) {
    t.beforeInsert == [] && t.beforePublish == [] && t.beforeCommit == [] && t.publish.Confirmed? && t.commit.Confirmed?
  }

  /** Our row's life is the same in both states: results and expiry may only update its columns. */
  predicate SameOwn(s: State, t: State, id: TaskId) {
    && (id in s.issued <==> id in t.issued)
    && (id in s.messages <==> id in t.messages)
    && (id in s.tasks <==> id in t.tasks)
    && (id in s.tasks ==>
          id in t.tasks && s.tasks[id].slot == t.tasks[id].slot
          && s.tasks[id].deadline == t.tasks[id].deadline)
    && (id in s.inflight <==> id in t.inflight)
    && (id in s.inflight ==> id in t.inflight && s.inflight[id] == t.inflight[id])
  }

  lemma {:induction false} ForeignKeepsOwn(s: State, es: seq<Event>, mine: set<TaskId>, id: TaskId)
    requires Foreign(es, mine) && id in mine
    ensures SameOwn(s, Replay(s, es), id)
  {
    if es != [] {
      ForeignKeepsOwn(s, es[..|es| - 1], mine, id);
    }
  }

  lemma NothingReplayed(s: State)
    ensures Replay(s, []) == s
  {
  }

  predicate Untouched(s: State, id: TaskId) {
    id !in s.issued && id !in s.messages && id !in s.tasks && id !in s.inflight
  }

  lemma NotIssuedIsUntouched(s: State, id: TaskId)
    requires WellKept(s) && id !in s.issued
    ensures Untouched(s, id)
  {
  }

  predicate Uncommitted(s: State, id: TaskId) {
    id !in s.tasks && id !in s.inflight
  }

  /** Committed for the slot with the deadline, and its message published. */
  predicate Stored(s: State, id: TaskId, slot: Slot, deadline: int) {
    && id in s.tasks && s.tasks[id].slot == slot && s.tasks[id].deadline == Some(deadline)
    && id in s.messages && id !in s.inflight
  }

  /** A message at the broker whose task does not exist. */
  predicate Orphaned(s: State, id: TaskId) {
    id in s.messages && id !in s.tasks
  }

  /** The publish raised although the broker took the message, or the commit after it had no effect. */
  predicate LeavesOrphan(t: Target) {
    t.publish.RaisedApplied? || (t.publish.Confirmed? && t.commit.RaisedUnapplied?)
  }

  /** The statements of one host's transaction, with what others do around them: a conflict ends it at the
      INSERT, a publish that raises before the COMMIT. */
  function IssueEvents(t: Target, slot: Slot, deadline: int, r: IssueResult): seq<Event> {
    t.beforeInsert + [Insert(t.id, slot, deadline)]
    + if r.Conflict? then [] else PublishEvents(t, r)
  }

  function PublishEvents(t: Target, r: IssueResult): seq<Event> {
    t.beforePublish + [Publish(t.id, t.publish)]
    + if r.PublishRaised? then [] else t.beforeCommit + [Commit(t.id, t.commit)]
  }

  /** The whole effect of one undisturbed issue. */
  function IssuedState(s: State, id: TaskId, slot: Slot, deadline: int): State {
    s.(tasks := s.tasks[id := Task(slot, "pending", Some(deadline), None, None)],
       issued := s.issued + {id}, messages := s.messages + {id})
  }

  lemma IssueTakesSlot(s: State, id: TaskId, slot: Slot, deadline: int, other: Slot)
    requires Untouched(s, id)
    ensures Occupied(IssuedState(s, id, slot, deadline), other) <==> Occupied(s, other) || other == slot
  {
    var t := IssuedState(s, id, slot, deadline);
    if Occupied(t, other) {
      var holder :| holder in t.tasks.Keys + t.inflight.Keys && Holds(t, holder, other);
      if holder != id { HolderOccupies(s, holder, other); }
    }
    if Occupied(s, other) {
      var holder :| holder in s.tasks.Keys + s.inflight.Keys && Holds(s, holder, other);
      HolderOccupies(t, holder, other);
    } else if other == slot {
      HolderOccupies(t, id, other);
    }
  }

  // ---------------------------------------------------------------- the precheck

  /** Servers that have a pending task. */
  function PendingServers(s: State, servers: seq<ServerId>): set<ServerId> {
    set id | id in s.tasks && s.tasks[id].Pending() && s.tasks[id].slot.server in servers :: s.tasks[id].slot.server
  }

  function ServersOf(targets: seq<Target>, resolved: map<PublicId, ServerId>): seq<ServerId>
    requires AllResolved(targets, resolved)
  {
    seq(|targets|, k requires 0 <= k < |targets| => resolved[targets[k].publicId])
  }

  predicate AllResolved(targets: seq<Target>, resolved: map<PublicId, ServerId>) {
    forall k | 0 <= k < |targets| :: targets[k].publicId in resolved
  }

  /** The table the busy check reads: overdue tasks of the servers expired, then other sessions. */
  function CheckedTable(s: State, servers: seq<ServerId>, now: int, others: seq<Event>): State {
    Replay(Apply(s, ExpireServers(servers, now)), others)
  }

  /** With nothing in between, the busy check finds exactly the servers with a pending task in time. */
  lemma BusyIffInTime(s: State, servers: seq<ServerId>, now: int, server: ServerId)
    requires WellKept(s)
    ensures server in PendingServers(CheckedTable(s, servers, now, []), servers) <==>
      && server in servers
      && exists id | id in s.tasks :: s.tasks[id].status == "pending" && s.tasks[id].slot.server == server
                                      && s.tasks[id].deadline.value >= now
  {
    NothingReplayed(Apply(s, ExpireServers(servers, now)));
    var t := CheckedTable(s, servers, now, []);
    if id :| id in t.tasks && t.tasks[id].Pending() && t.tasks[id].slot.server == server && server in servers {
      assert s.tasks[id].status == "pending" && s.tasks[id].deadline.value >= now;
    }
    if id :| id in s.tasks && s.tasks[id].status == "pending" && s.tasks[id].slot.server == server
             && s.tasks[id].deadline.value >= now {
      assert t.tasks[id].Pending() && t.tasks[id].slot.server == server;
    }
  }

  /** An install in time survives the expiry and is found by the busy check. */
  lemma InTimeBlocks(s: State, servers: seq<ServerId>, now: int)
    requires WellKept(s)
    ensures forall id | id in s.tasks && s.tasks[id].status == "pending" && s.tasks[id].slot.server in servers
                        && s.tasks[id].deadline.value >= now ::
      var t := Apply(s, ExpireServers(servers, now));
      id in t.tasks && t.tasks[id] == s.tasks[id] && s.tasks[id].slot.server in PendingServers(t, servers)
  {
  }

  predicate AllInstallable(details: seq<Detail>, packages: set<Package>) {
    forall k | 0 <= k < |details| :: Installable(details[k], packages)
  }

  lemma AllInstallableIff(details: seq<Detail>, packages: set<Package>)
    ensures AllInstallable(details, packages) <==> forall d | d in details :: Installable(d, packages)
  {
    if AllInstallable(details, packages) {
      forall d | d in details ensures Installable(d, packages) {
        var k :| 0 <= k < |details| && details[k] == d;
      }
    }
  }

  predicate HasDetail(details: seq<Detail>, server: ServerId) {
    exists k | 0 <= k < |details| :: details[k].server == server
  }

  function SlotOf(t: Target, resolved: map<PublicId, ServerId>): Slot
    requires t.publicId in resolved
  {
    Slot(resolved[t.publicId], INSTALL)
  }

  /** Slots of the first `k` targets. */
  function SlotsOf(targets: seq<Target>, resolved: map<PublicId, ServerId>, k: nat): set<Slot>
    requires AllResolved(targets, resolved) && k <= |targets|
  {
    if k == 0 then {} else SlotsOf(targets, resolved, k - 1) + {SlotOf(targets[k - 1], resolved)}
  }

  /** Each of the first `n` targets has its server's details, a free slot, and shares it with no
      earlier target. */
  predicate Issuable(s: State, targets: seq<Target>, resolved: map<PublicId, ServerId>, details: seq<Detail>, n: nat)
    requires AllResolved(targets, resolved) && n <= |targets|
  {
    forall k | 0 <= k < n ::
      && HasDetail(details, resolved[targets[k].publicId])
      && !Occupied(s, SlotOf(targets[k], resolved))
      && SlotOf(targets[k], resolved) !in SlotsOf(targets, resolved, k)
  }

  /** Some pending install of the server is in the table or in an open transaction. */
  ghost predicate InstallPending(s: State, server: ServerId) {
    || (exists id | id in s.tasks ::
          s.tasks[id].status == "pending" && s.tasks[id].slot == Slot(server, "zconverter_install"))
    || (exists id | id in s.inflight ::
          s.inflight[id].task.status == "pending" && s.inflight[id].task.slot == Slot(server, "zconverter_install"))
  }

  lemma {:induction false} SlotsOfMember(targets: seq<Target>, resolved: map<PublicId, ServerId>, k: nat, slot: Slot)
    requires AllResolved(targets, resolved) && k <= |targets|
    ensures slot in SlotsOf(targets, resolved, k)
       <==> exists j :: 0 <= j < k && slot == Slot(resolved[targets[j].publicId], "zconverter_install")
  {
    if k > 0 {
      SlotsOfMember(targets, resolved, k - 1, slot);
    }
  }

  lemma SlotIsFree(s: State, t: Target, resolved: map<PublicId, ServerId>)
    requires t.publicId in resolved
    ensures Occupied(s, SlotOf(t, resolved)) <==> InstallPending(s, resolved[t.publicId])
  {
    var slot := SlotOf(t, resolved);
    if Occupied(s, slot) {
      var id :| id in s.tasks.Keys + s.inflight.Keys && Holds(s, id, slot);
    }
    if id :| id in s.tasks && s.tasks[id].status == "pending" && s.tasks[id].slot == slot {
      HolderOccupies(s, id, slot);
    }
    if id :| id in s.inflight && s.inflight[id].task.status == "pending" && s.inflight[id].task.slot == slot {
      HolderOccupies(s, id, slot);
    }
  }

  lemma HasDetailIff(details: seq<Detail>, server: ServerId)
    ensures HasDetail(details, server) <==> exists d | d in details :: d.server == server
  {
    if HasDetail(details, server) {
      var k :| 0 <= k < |details| && details[k].server == server;
      assert details[k] in details;
    }
  }

  /** What issuing all targets undisturbed takes: details for every server, no pending install on any, and
      no server named twice. */
  lemma IssuableIff(s: State, targets: seq<Target>, resolved: map<PublicId, ServerId>, details: seq<Detail>)
    requires AllResolved(targets, resolved)
    ensures Issuable(s, targets, resolved, details, |targets|) <==>
      && (forall k | 0 <= k < |targets| :: HasDetail(details, resolved[targets[k].publicId]))
      && (forall k | 0 <= k < |targets| :: !InstallPending(s, resolved[targets[k].publicId]))
      && (forall j, k | 0 <= j < k < |targets| :: resolved[targets[j].publicId] != resolved[targets[k].publicId])
  {
    hide Occupied, InstallPending, SlotsOf, HasDetail;
    forall k | 0 <= k < |targets|
      ensures SlotOf(targets[k], resolved) !in SlotsOf(targets, resolved, k)
         <==> forall j | 0 <= j < k :: resolved[targets[j].publicId] != resolved[targets[k].publicId]
      ensures Occupied(s, SlotOf(targets[k], resolved)) <==> InstallPending(s, resolved[targets[k].publicId])
    {
      SlotsOfMember(targets, resolved, k, SlotOf(targets[k], resolved));
      SlotIsFree(s, targets[k], resolved);
    }
    if Issuable(s, targets, resolved, details, |targets|) {
      forall j, k | 0 <= j < k < |targets| ensures resolved[targets[j].publicId] != resolved[targets[k].publicId] {
        assert SlotOf(targets[k], resolved) !in SlotsOf(targets, resolved, k);
      }
    }
  }

  /** The statements of the targets handled so far, in order. */
  function IssuedEvents(targets: seq<Target>, resolved: map<PublicId, ServerId>, deadline: int,
                        results: seq<IssueResult>): seq<Event>
    requires AllResolved(targets, resolved) && |results| <= |targets|
  {
    if results == [] then [] else
      var n := |results| - 1;
      IssuedEvents(targets, resolved, deadline, results[..n])
      + IssueEvents(targets[n], SlotOf(targets[n], resolved), deadline, results[n])
  }

  lemma IssuedEventsSnoc(targets: seq<Target>, resolved: map<PublicId, ServerId>, deadline: int,
                         results: seq<IssueResult>, r: IssueResult)
    requires AllResolved(targets, resolved) && |results| < |targets|
    ensures IssuedEvents(targets, resolved, deadline, results + [r]) ==
      IssuedEvents(targets, resolved, deadline, results)
      + IssueEvents(targets[|results|], SlotOf(targets[|results|], resolved), deadline, r)
  {
    assert (results + [r])[..|results|] == results;
  }

  /** The loop stops at the first target that is not issued; `r` tells how it ended. */
  predicate Ends(r: Outcome, results: seq<IssueResult>, n: nat) {
    && |results| <= n
    && (forall k | 0 <= k < |results| - 1 :: results[k].Issued?)
    && (r == Created <==> |results| == n && (n > 0 ==> results[n - 1].Issued?))
    && (r == TaskNotFound ==> results == [] || results[|results| - 1].Issued?)
    && (r == DuplicatePending ==> results != [] && results[|results| - 1].Conflict?)
    && (r == PublishFailed ==> results != [] && results[|results| - 1].PublishRaised?)
    && (r == CommitRaised ==> results != [] && results[|results| - 1].CommitFailed?)
    && r != NotConfigured && r != BrokerUnavailable
  }

  predicate AllQuiet(targets: seq<Target>) {
    forall k | 0 <= k < |targets| :: Quiet(targets[k])
  }

  /** The first `n` targets are stored, those after them have left no trace. */
  predicate Progress(
    s: State, targets: seq<Target>, resolved: map<PublicId, ServerId>, deadline: int, n: nat, from: nat)
    requires AllResolved(targets, resolved) && n <= |targets|
  {
    && (forall k | 0 <= k < n :: Stored(s, targets[k].id, SlotOf(targets[k], resolved), deadline))
    && (forall k | from <= k < |targets| :: Untouched(s, targets[k].id))
  }

  ghost predicate KeepsOthers(s: State, t: State, mine: set<TaskId>, id: TaskId) {
    forall other | other in mine && other != id :: SameOwn(s, t, other)
  }

  lemma ProgressKept(s: State, t: State, targets: seq<Target>, resolved: map<PublicId, ServerId>, deadline: int,
                     k: nat, mine: set<TaskId>)
    requires AllResolved(targets, resolved) && k < |targets| && OwnIds(targets, mine)
    requires Progress(s, targets, resolved, deadline, k, k) && KeepsOthers(s, t, mine, targets[k].id)
    ensures Progress(t, targets, resolved, deadline, k, k + 1)
  {
  }

  predicate OwnIds(targets: seq<Target>, mine: set<TaskId>) {
    && (forall k | 0 <= k < |targets| :: targets[k].id in mine && ForeignAround(targets[k], mine))
    && (forall i, j | 0 <= i < j < |targets| :: targets[i].id != targets[j].id)
  }

  /** `t` holds the slots `s` holds and the taken ones, no other. */
  ghost predicate OnlyTaken(s: State, t: State, taken: set<Slot>) {
    forall slot :: Occupied(t, slot) <==> Occupied(s, slot) || slot in taken
  }

  lemma NothingIssued(s: State, targets: seq<Target>, resolved: map<PublicId, ServerId>, details: seq<Detail>,
                      deadline: int)
    requires AllResolved(targets, resolved) && forall k | 0 <= k < |targets| :: Untouched(s, targets[k].id)
    ensures Progress(s, targets, resolved, deadline, 0, 0) && Issuable(s, targets, resolved, details, 0)
    ensures OnlyTaken(s, s, SlotsOf(targets, resolved, 0))
  {
  }

  lemma NothingIssuedYet(targets: seq<Target>, resolved: map<PublicId, ServerId>, deadline: int)
    requires AllResolved(targets, resolved)
    ensures IssuedEvents(targets, resolved, deadline, []) == []
  {
  }

  lemma AllIssued(s: State, targets: seq<Target>, resolved: map<PublicId, ServerId>, deadline: int)
    requires AllResolved(targets, resolved) && Progress(s, targets, resolved, deadline, |targets|, |targets|)
    ensures Progress(s, targets, resolved, deadline, |targets|, |targets| + 1)
  {
  }

  lemma ProgressMeans(s: State, targets: seq<Target>, resolved: map<PublicId, ServerId>, deadline: int, k: nat)
    requires AllResolved(targets, resolved) && k < |targets| && Progress(s, targets, resolved, deadline, k, k)
    ensures Progress(s, targets, resolved, deadline, k, k + 1) && Untouched(s, targets[k].id)
  {
  }

  /** After target `k` was handled: it joins the stored prefix if it was stored. */
  lemma NextUncommitted(s: State, targets: seq<Target>, resolved: map<PublicId, ServerId>, deadline: int, k: nat)
    requires AllResolved(targets, resolved) && k < |targets| && Progress(s, targets, resolved, deadline, k, k + 1)
    ensures Stored(s, targets[k].id, SlotOf(targets[k], resolved), deadline) ==>
      Progress(s, targets, resolved, deadline, k + 1, k + 1) && Progress(s, targets, resolved, deadline, k + 1, k + 2)
    ensures k + 1 < |targets| ==> Uncommitted(s, targets[k + 1].id)
  {
  }

  lemma IssuableMeans(s: State, targets: seq<Target>, resolved: map<PublicId, ServerId>, details: seq<Detail>, k: nat)
    requires AllResolved(targets, resolved) && k < |targets|
    ensures Issuable(s, targets, resolved, details, k + 1) <==>
      && Issuable(s, targets, resolved, details, k)
      && HasDetail(details, resolved[targets[k].publicId])
      && !Occupied(s, SlotOf(targets[k], resolved))
      && SlotOf(targets[k], resolved) !in SlotsOf(targets, resolved, k)
    ensures !Issuable(s, targets, resolved, details, k + 1) ==>
      !Issuable(s, targets, resolved, details, |targets|)
  {
    hide Occupied, SlotsOf, HasDetail;
  }

  lemma TakenMeans(s: State, t: State, taken: set<Slot>, slot: Slot)
    requires OnlyTaken(s, t, taken)
    ensures Occupied(t, slot) <==> Occupied(s, slot) || slot in taken
  {
  }

  lemma OneMoreSlot(targets: seq<Target>, resolved: map<PublicId, ServerId>, k: nat)
    requires AllResolved(targets, resolved) && k < |targets|
    ensures SlotsOf(targets, resolved, k + 1) == SlotsOf(targets, resolved, k) + {SlotOf(targets[k], resolved)}
  {
  }

  lemma PublishIs(s: State, id: TaskId, call: CallOutcome)
    requires id in s.inflight && !s.inflight[id].confirmed
    ensures Apply(s, Publish(id, call)) == s.(
      inflight := if call.Confirmed? then s.inflight[id := Opened(s.inflight[id].task, true)] else s.inflight - {id},
      messages := if call.RaisedUnapplied? then s.messages else s.messages + {id})
  {
  }

  lemma CommitIs(s: State, id: TaskId, call: CallOutcome)
    requires id in s.inflight && s.inflight[id].confirmed
    ensures Apply(s, Commit(id, call)) == s.(
      inflight := s.inflight - {id},
      tasks := if call.RaisedUnapplied? then s.tasks else s.tasks[id := s.inflight[id].task])
  {
  }

  class TaskService {
    var table: State
    /** Every statement so far. */
    ghost var events: seq<Event>

    ghost predicate Valid()
      reads this
    {
      WellKept(table) && SlotsExclusive(table) && table == After(events)
    }

    constructor ()
      ensures Valid() && table == Empty && events == []
    {
      table := Empty;
      events := [];
    }

    method Interleave(es: seq<Event>)
      requires Valid()
      modifies this
      ensures Valid() && table == Replay(old(table), es) && events == old(events) + es
    {
      ReplayKeepsInvariant(table, es);
      ReplayConcat(Empty, events, es);
      table := Replay(table, es);
      events := events + es;
    }

    method Step(e: Event)
      requires Valid()
      modifies this
      ensures Valid() && table == Apply(old(table), e) && events == old(events) + [e]
    {
      StepKeepsInvariant(table, e);
      ReplaySnoc(Empty, events, e);
      table := Apply(table, e);
      events := events + [e];
    }

    /** The `deadline IS NOT NULL` filter of the SELECT hides no pending task. */
    method FindPendingDeadlineServers(servers: seq<ServerId>) returns (busy: set<ServerId>)
      requires Valid()
      ensures busy == PendingServers(table, servers)
      ensures forall server :: server in busy <==>
        && server in servers
        && exists id | id in table.tasks ::
             table.tasks[id].status == "pending" && table.tasks[id].slot.server == server
    {
      busy := set id | id in table.tasks && table.tasks[id].Pending() && table.tasks[id].deadline.Some?
                       && table.tasks[id].slot.server in servers :: table.tasks[id].slot.server;
      forall server | server in busy
        ensures server in servers
        ensures exists id | id in table.tasks ::
          table.tasks[id].status == "pending" && table.tasks[id].slot.server == server
      {
        var id :| id in table.tasks && table.tasks[id].Pending() && table.tasks[id].slot.server == server;
      }
    }

    /** INSERT, publish, commit for one host. */
    method IssueOne(t: Target, slot: Slot, deadline: int, ghost mine: set<TaskId>) returns (r: IssueResult)
      requires Valid() && t.id in mine && ForeignAround(t, mine) && Untouched(table, t.id)
      modifies this
      ensures Valid() && events == old(events) + IssueEvents(t, slot, deadline, r)
      ensures r.Conflict? <==> Occupied(Replay(old(table), t.beforeInsert), slot)
      ensures r.Conflict? ==> Untouched(table, t.id)
      ensures r.PublishRaised? ==> !t.publish.Confirmed? && Uncommitted(table, t.id)
      ensures r.CommitFailed? && t.commit.RaisedUnapplied? ==> Uncommitted(table, t.id)
      ensures r.Issued? || (r.CommitFailed? && !t.commit.RaisedUnapplied?) ==> Stored(table, t.id, slot, deadline)
      ensures r.CommitFailed? ==> !t.commit.Confirmed?
      ensures t.id in table.messages <==> !r.Conflict? && !t.publish.RaisedUnapplied?
      ensures Orphaned(table, t.id) <==> !r.Conflict? && LeavesOrphan(t)
      ensures KeepsOthers(old(table), table, mine, t.id)
      ensures Quiet(t) ==> r == if Occupied(old(table), slot) then Conflict else Issued
      ensures Quiet(t) && r.Issued? ==> table == IssuedState(old(table), t.id, slot, deadline)
    {
      hide Replay, After, PublishEvents;
      NothingReplayed(table);
      forall id | id in mine ensures SameOwn(table, Replay(table, t.beforeInsert), id) {
        ForeignKeepsOwn(table, t.beforeInsert, mine, id);
      }
      Interleave(t.beforeInsert);
      var conflict := Occupied(table, slot);
      Step(Insert(t.id, slot, deadline));
      if conflict {
        return Conflict;
      }
      r := PublishAndCommit(t, slot, deadline, mine);
    }

    method PublishAndCommit(t: Target, slot: Slot, deadline: int, ghost mine: set<TaskId>) returns (r: IssueResult)
      requires Valid() && t.id in mine && ForeignAround(t, mine)
      requires t.id in table.inflight && table.inflight[t.id] == Opened(NewTask(slot, deadline), false)
        && t.id !in table.messages
      modifies this
      ensures Valid() && events == old(events) + PublishEvents(t, r)
      ensures r == if !t.publish.Confirmed? then PublishRaised
                   else if !t.commit.Confirmed? then CommitFailed else Issued
      ensures if r.Issued? || (r.CommitFailed? && !t.commit.RaisedUnapplied?) then Stored(table, t.id, slot, deadline)
              else Uncommitted(table, t.id)
      ensures t.id in table.messages <==> !t.publish.RaisedUnapplied?
      ensures Orphaned(table, t.id) <==> LeavesOrphan(t)
      ensures KeepsOthers(old(table), table, mine, t.id)
      ensures Quiet(t) ==> table == old(table).(
        inflight := old(table).inflight - {t.id},
        tasks := old(table).tasks[t.id := Task(slot, "pending", Some(deadline), None, None)],
        messages := old(table).messages + {t.id})
    {
      hide TaskTable.Apply, Enabled, Replay, After, SlotsExclusive, Holds;
      NothingReplayed(table);
      forall id | id in mine ensures SameOwn(table, Replay(table, t.beforePublish), id) {
        ForeignKeepsOwn(table, t.beforePublish, mine, id);
      }
      Interleave(t.beforePublish);
      NothingReplayed(table);
      PublishIs(table, t.id, t.publish);
      Step(Publish(t.id, t.publish));
      if !t.publish.Confirmed? {
        return PublishRaised;
      }
      NothingReplayed(table);
      forall id | id in mine ensures SameOwn(table, Replay(table, t.beforeCommit), id) {
        ForeignKeepsOwn(table, t.beforeCommit, mine, id);
      }
      Interleave(t.beforeCommit);
      CommitIs(table, t.id, t.commit);
      Step(Commit(t.id, t.commit));
      r := if t.commit.Confirmed? then Issued else CommitFailed;
    }

    /** The commit loop: whatever happens, a prefix of the targets ends up stored. */
    method IssueAll(targets: seq<Target>, resolved: map<PublicId, ServerId>, details: seq<Detail>, deadline: int,
                    ghost mine: set<TaskId>)
      returns (r: Outcome, ghost stored: nat, ghost results: seq<IssueResult>)
      requires Valid() && OwnIds(targets, mine) && AllResolved(targets, resolved)
      requires forall k | 0 <= k < |targets| :: Untouched(table, targets[k].id)
      modifies this
      ensures Valid() && stored <= |targets| && |results| <= |targets| && Ends(r, results, |targets|)
      ensures events == old(events) + IssuedEvents(targets, resolved, deadline, results)
      ensures Progress(table, targets, resolved, deadline, stored, stored + 1)
      ensures stored < |targets| ==> Uncommitted(table, targets[stored].id)
      ensures r.Created? ==> stored == |targets|
      ensures AllQuiet(targets) ==> (r.Created? <==> Issuable(old(table), targets, resolved, details, |targets|))
    {
      hide TaskTable.Apply, Replay, Occupied, Holds, WellKept, SlotsExclusive, SameOwn, KeepsOthers, IssuedState;
      hide OnlyTaken, Issuable, Progress, SlotsOf, Stored, IssueEvents, After, IssuedEvents;
      stored := 0;
      results := [];
      NothingIssuedYet(targets, resolved, deadline);
      ghost var start := table;
      NothingIssued(start, targets, resolved, details, deadline);
      for k := 0 to |targets|
        invariant |results| == k && forall j | 0 <= j < k :: results[j].Issued?
        invariant events == old(events) + IssuedEvents(targets, resolved, deadline, results)
        invariant Valid() && stored == k && Progress(table, targets, resolved, deadline, k, k)
        invariant AllQuiet(targets) ==>
          OnlyTaken(start, table, SlotsOf(targets, resolved, k)) && Issuable(start, targets, resolved, details, k)
      {
        var t := targets[k];
        ProgressMeans(table, targets, resolved, deadline, k);
        IssuableMeans(start, targets, resolved, details, k);
        if !HasDetail(details, resolved[t.publicId]) {
          return TaskNotFound, stored, results;
        }
        var slot := SlotOf(t, resolved);
        ghost var before := table;
        var one := IssueOne(t, slot, deadline, mine);
        IssuedEventsSnoc(targets, resolved, deadline, results, one);
        results := results + [one];
        ProgressKept(before, table, targets, resolved, deadline, k, mine);
        NextUncommitted(table, targets, resolved, deadline, k);
        if AllQuiet(targets) {
          TakenMeans(start, before, SlotsOf(targets, resolved, k), slot);
        }
        if !one.Issued? {
          stored := if one.CommitFailed? && !t.commit.RaisedUnapplied? then k + 1 else k;
          r := match one case Conflict => DuplicatePending case PublishRaised => PublishFailed case _ => CommitRaised;
          return;
        }
        stored := k + 1;
        if AllQuiet(targets) {
          TakenAfterIssue(start, before, t.id, slot, deadline, SlotsOf(targets, resolved, k));
          OneMoreSlot(targets, resolved, k);
        }
      }
      AllIssued(table, targets, resolved, deadline);
      r := Created;
    }

    /** The whole request. */
    method CreateInstallTasks(targets: seq<Target>, resolved: map<PublicId, ServerId>, details: seq<Detail>,
                              packages: set<Package>, brokerUp: bool, beforeSelect: seq<Event>, now: int, deadline: int,
                              ghost mine: set<TaskId>)
      returns (r: Outcome, ghost stored: nat, ghost results: seq<IssueResult>)
      requires Valid() && OwnIds(targets, mine) && Foreign(beforeSelect, mine)
      requires forall k | 0 <= k < |targets| :: targets[k].id !in table.issued
      modifies this
      ensures Valid() && stored <= |targets|
      ensures !AllResolved(targets, resolved) ==> r == TaskNotFound && table == old(table) && events == old(events)
      ensures AllResolved(targets, resolved) ==>
        && |results| <= |targets| && (results != [] ==> Ends(r, results, |targets|))
        && events == old(events) + [ExpireServers(ServersOf(targets, resolved), now)] + beforeSelect
                     + IssuedEvents(targets, resolved, deadline, results)
      // an install that is still in time blocks the request and stays pending
      ensures AllResolved(targets, resolved) && beforeSelect == [] ==>
        forall id | id in old(table).tasks && old(table).tasks[id].status == "pending"
                    && old(table).tasks[id].slot.server in ServersOf(targets, resolved)
                    && old(table).tasks[id].deadline.value >= now ::
          r == DuplicatePending && id in table.tasks && table.tasks[id] == old(table).tasks[id]
      ensures AllResolved(targets, resolved) ==>
        var servers := ServersOf(targets, resolved);
        var checked := CheckedTable(old(table), servers, now, beforeSelect);
        && (PendingServers(checked, servers) != {} ==> r == DuplicatePending && table == checked)
        && (PendingServers(checked, servers) == {} && !AllInstallable(details, packages) ==>
              r == NotConfigured && table == checked)
        && (PendingServers(checked, servers) == {} && AllInstallable(details, packages) && !brokerUp ==>
              r == BrokerUnavailable && table == checked)
        && (AllQuiet(targets) ==>
              (r.Created? <==> PendingServers(checked, servers) == {} && AllInstallable(details, packages) && brokerUp
                               && Issuable(checked, targets, resolved, details, |targets|)))
      ensures AllResolved(targets, resolved) ==> Progress(table, targets, resolved, deadline, stored, stored + 1)
      // every stored task is an install on its target's server, due at the request's deadline
      ensures forall k | 0 <= k < stored ::
        && targets[k].publicId in resolved && targets[k].id in table.tasks && targets[k].id in table.messages
        && table.tasks[targets[k].id].slot == Slot(resolved[targets[k].publicId], "zconverter_install")
        && table.tasks[targets[k].id].deadline == Some(deadline)
      ensures stored < |targets| ==> Uncommitted(table, targets[stored].id)
      ensures r.Created? ==> stored == |targets|
    {
      hide After, Issuable, Ends, IssuedEvents, AllQuiet, Occupied, Holds, SlotsOf, SlotsExclusive, WellKept;
      forall k | 0 <= k < |targets| ensures Untouched(table, targets[k].id) {
        NotIssuedIsUntouched(table, targets[k].id);
      }
      if k :| 0 <= k < |targets| && targets[k].publicId !in resolved {
        return TaskNotFound, 0, [];
      }
      NothingIssuedYet(targets, resolved, deadline);
      var servers := ServersOf(targets, resolved);
      InTimeBlocks(table, servers, now);
      NothingReplayed(Apply(table, ExpireServers(servers, now)));
      Step(ExpireServers(servers, now));
      forall k | 0 <= k < |targets| ensures Untouched(Replay(table, beforeSelect), targets[k].id) {
        NotIssuedIsUntouched(table, targets[k].id);
        ForeignKeepsOwn(table, beforeSelect, mine, targets[k].id);
      }
      Interleave(beforeSelect);
      var busy := FindPendingDeadlineServers(servers);
      if busy != {} {
        return DuplicatePending, 0, [];
      }
      for k := 0 to |details|
        invariant forall j | 0 <= j < k :: Installable(details[j], packages)
      {
        if !Installable(details[k], packages) {
          return NotConfigured, 0, [];
        }
      }
      if !brokerUp {
        return BrokerUnavailable, 0, [];
      }
      r, stored, results := IssueAll(targets, resolved, details, deadline, mine);
    }
  }

  lemma TakenAfterIssue(start: State, s: State, id: TaskId, slot: Slot, deadline: int, taken: set<Slot>)
    requires OnlyTaken(start, s, taken) && Untouched(s, id)
    ensures OnlyTaken(start, IssuedState(s, id, slot, deadline), taken + {slot})
  {
    forall other
      ensures Occupied(IssuedState(s, id, slot, deadline), other) <==> Occupied(start, other) || other in taken + {slot}
    {
      IssueTakesSlot(s, id, slot, deadline, other);
    }
  }
}
