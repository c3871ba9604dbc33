/**
 The `tasks` table with its partial unique index over pending rows, and the broker's task messages.

 An issuing request inserts a row, publishes its message inside the still open transaction, and then
 commits; results, per-server expiry and the reaper update committed rows.  Each statement is one
 atomic `Event`; an event whose guard does not hold changes nothing, so a run is any sequence of
 events of any number of requests.
 */
module TaskTable {
  import opened Wrappers

  type TaskId = nat
  type ServerId = nat

  const PENDING := "pending"
  const INSTALL := "zconverter_install"

  /** The columns of the partial unique index. */
  datatype Slot = Slot(server: ServerId, taskType: string)

  datatype Task = Task(
    slot: Slot, status: string, deadline: Option<int>, completedAt: Option<int>, failureReason: Option<string>)
  {
    predicate Pending() { status == PENDING }

    predicate Overdue(now: int) {
      Pending() && deadline.Some? && deadline.value < now
    }
  }

  /** A row of a transaction still open; `confirmed` once its publish call returned. */
  datatype Opened = Opened(task: Task, confirmed: bool)

  datatype State = State(tasks: map<TaskId, Task>, inflight: map<TaskId, Opened>, issued: set<TaskId>,
                         messages: set<TaskId>)

  const Empty := State(map[], map[], {}, {})

  /** A call may raise although it took effect. */
  datatype CallOutcome = Confirmed | RaisedApplied | RaisedUnapplied

  datatype Update = Update(status: string, failureReason: Option<string>, completedAt: int)

  datatype Event =
    | Insert(id: TaskId, slot: Slot, deadline: int)
    | Publish(id: TaskId, call: CallOutcome)
    | Commit(id: TaskId, call: CallOutcome)
    | Abandon(id: TaskId)
    | ExpireServers(servers: seq<ServerId>, now: int)
    | ExpireAll(now: int)
    | Complete(id: TaskId, update: Update)

  function NewTask(slot: Slot, deadline: int): Task {
    Task(slot, PENDING, Some(deadline), None, None)
  }

  function TimedOut(task: Task, now: int): Task {
    task.(status := "failure", failureReason := Some("timeout"), completedAt := Some(now))
  }

  function Completed(task: Task, u: Update): Task {
    task.(status := u.status, failureReason := u.failureReason, completedAt := Some(u.completedAt))
  }

  /** `id` occupies the slot in the unique index. */
  predicate Holds(s: State, id: TaskId, slot: Slot) {
    || (id in s.tasks && s.tasks[id].Pending() && s.tasks[id].slot == slot)
    || (id in s.inflight && s.inflight[id].task.Pending() && s.inflight[id].task.slot == slot)
  }

  predicate Occupied(s: State, slot: Slot) {
    exists id | id in s.tasks.Keys + s.inflight.Keys :: Holds(s, id, slot)
  }

  /** Another row holds the slot: writing status 'pending' violates the index. */
  predicate HeldByOther(s: State, id: TaskId, slot: Slot) {
    exists other | other in s.tasks.Keys + s.inflight.Keys :: other != id && Holds(s, other, slot)
  }

  predicate Enabled(s: State, e: Event) {
    match e
    case Insert(id, slot, _) => id !in s.issued && !Occupied(s, slot)
    case Publish(id, _) => id in s.inflight && !s.inflight[id].confirmed
    case Commit(id, _) => id in s.inflight && s.inflight[id].confirmed
    case Abandon(id) => id in s.inflight
    case ExpireServers(_, _) => true
    case ExpireAll(_) => true
    case Complete(id, u) => id in s.tasks && (u.status == PENDING ==> !HeldByOther(s, id, s.tasks[id].slot))
  }

  function Expire(tasks: map<TaskId, Task>, due: set<TaskId>, now: int): map<TaskId, Task> {
    map id | id in tasks :: if id in due then TimedOut(tasks[id], now) else tasks[id]
  }

  function OverdueOf(s: State, servers: seq<ServerId>, now: int): set<TaskId> {
    set id | id in s.tasks && s.tasks[id].Overdue(now) && s.tasks[id].slot.server in servers
  }

  function AllOverdue(s: State, now: int): set<TaskId> {
    set id | id in s.tasks && s.tasks[id].Overdue(now)
  }

  function Apply(s: State, e: Event): State {
    if !Enabled(s, e) then s else
    match e
    case Insert(id, slot, deadline) =>
      s.(inflight := s.inflight[id := Opened(NewTask(slot, deadline), false)], issued := s.issued + {id})
    case Publish(id, call) =>
      s.(inflight := if call.Confirmed? then s.inflight[id := Opened(s.inflight[id].task, true)] else s.inflight - {id},
         messages := if call.RaisedUnapplied? then s.messages else s.messages + {id})
    case Commit(id, call) =>
      s.(inflight := s.inflight - {id},
         tasks := if call.RaisedUnapplied? then s.tasks else s.tasks[id := s.inflight[id].task])
    case Abandon(id) => s.(inflight := s.inflight - {id})
    case ExpireServers(servers, now) => s.(tasks := Expire(s.tasks, OverdueOf(s, servers, now), now))
    case ExpireAll(now) => s.(tasks := Expire(s.tasks, AllOverdue(s, now), now))
    case Complete(id, u) => s.(tasks := s.tasks[id := Completed(s.tasks[id], u)])
  }

  function Replay(s: State, es: seq<Event>): State {
    if es == [] then s else Apply(Replay(s, es[..|es| - 1]), es[|es| - 1])
  }

  function After(es: seq<Event>): State {
    Replay(Empty, es)
  }

  lemma ReplaySnoc(s: State, es: seq<Event>, e: Event)
    ensures Replay(s, es + [e]) == Apply(Replay(s, es), e)
  {
    assert (es + [e])[..|es|] == es;
  }

  lemma {:induction false} ReplayConcat(s: State, a: seq<Event>, b: seq<Event>)
    ensures Replay(s, a + b) == Replay(Replay(s, a), b)
  {
    if b == [] {
      assert a + b == a;
    } else {
      assert (a + b)[..|a + b| - 1] == a + b[..|b| - 1];
      ReplayConcat(s, a, b[..|b| - 1]);
    }
  }

  // ---------------------------------------------------------------- invariants

  predicate WellKept(s: State) {
    && s.tasks.Keys !! s.inflight.Keys
    && s.tasks.Keys <= s.messages <= s.issued
    && s.inflight.Keys <= s.issued
    && (forall id | id in s.inflight :: s.inflight[id].task.Pending() && s.inflight[id].task.deadline.Some?)
    && (forall id | id in s.inflight && s.inflight[id].confirmed :: id in s.messages)
    && (forall id | id in s.tasks :: s.tasks[id].deadline.Some?)
  }

  /** One pending row per (server, type), whether committed or in an open transaction. */
  ghost predicate SlotsExclusive(s: State) {
    forall a: TaskId, b: TaskId, slot | Holds(s, a, slot) && Holds(s, b, slot) :: a == b
  }

  lemma HolderOccupies(s: State, id: TaskId, slot: Slot)
    requires Holds(s, id, slot)
    ensures Occupied(s, slot)
    ensures forall other :: other != id ==> HeldByOther(s, other, slot)
  {
    assert id in s.tasks.Keys + s.inflight.Keys;
  }

  lemma InsertKeepsSlots(s: State, e: Event)
    requires e.Insert? && Enabled(s, e) && WellKept(s) && SlotsExclusive(s)
    ensures SlotsExclusive(Apply(s, e))
  {
    var t := Apply(s, e);
    forall id: TaskId, slot | Holds(t, id, slot) && id != e.id ensures Holds(s, id, slot) && !Holds(t, e.id, slot) {
      HolderOccupies(s, id, slot);
    }
  }

  lemma CompleteKeepsSlots(s: State, e: Event)
    requires e.Complete? && Enabled(s, e) && WellKept(s) && SlotsExclusive(s)
    ensures SlotsExclusive(Apply(s, e))
  {
    var t := Apply(s, e);
    forall id: TaskId, slot | Holds(t, id, slot) && id != e.id ensures Holds(s, id, slot) && !Holds(t, e.id, slot) {
      HolderOccupies(s, id, slot);
    }
  }

  /** The remaining events only release slots or move a row from its transaction into the table. */
  lemma OtherEventsKeepSlots(s: State, e: Event)
    requires !e.Insert? && !e.Complete? && WellKept(s) && SlotsExclusive(s)
    ensures SlotsExclusive(Apply(s, e))
  {
    var t := Apply(s, e);
    forall id: TaskId, slot | Holds(t, id, slot) ensures Holds(s, id, slot) {
    }
    forall a: TaskId, b: TaskId, slot | Holds(t, a, slot) && Holds(t, b, slot) ensures a == b {
      assert Holds(s, a, slot) && Holds(s, b, slot);
    }
  }

  lemma StepKeepsWellKept(s: State, e: Event)
    requires WellKept(s)
    ensures WellKept(Apply(s, e))
  {
  }

  lemma StepKeepsInvariant(s: State, e: Event)
    requires WellKept(s) && SlotsExclusive(s)
    ensures WellKept(Apply(s, e)) && SlotsExclusive(Apply(s, e))
  {
    StepKeepsWellKept(s, e);
    if Enabled(s, e) {
      match e {
        case Insert(_, _, _) => InsertKeepsSlots(s, e);
        case Complete(_, _) => CompleteKeepsSlots(s, e);
        case _ => OtherEventsKeepSlots(s, e);
      }
    }
  }

  lemma {:induction false} ReplayKeepsInvariant(s: State, es: seq<Event>)
    requires WellKept(s) && SlotsExclusive(s)
    ensures WellKept(Replay(s, es)) && SlotsExclusive(Replay(s, es))
  {
    if es != [] {
      ReplayKeepsInvariant(s, es[..|es| - 1]);
      StepKeepsInvariant(Replay(s, es[..|es| - 1]), es[|es| - 1]);
    }
  }

  lemma EveryRunIsWellKept(es: seq<Event>)
    ensures WellKept(After(es)) && SlotsExclusive(After(es))
  {
    ReplayKeepsInvariant(Empty, es);
  }

  // ---------------------------------------------------------------- whole runs

  /** Two pending tasks of one server and type are the same task, whatever statuses results carry. */
  lemma AtMostOnePending(es: seq<Event>, a: TaskId, b: TaskId)
    requires a in After(es).tasks && b in After(es).tasks
    requires After(es).tasks[a].status == After(es).tasks[b].status == "pending"
    requires After(es).tasks[a].slot == After(es).tasks[b].slot
    ensures a == b
  {
    EveryRunIsWellKept(es);
    assert Holds(After(es), a, After(es).tasks[a].slot) && Holds(After(es), b, After(es).tasks[a].slot);
  }

  /** The event that makes a task visible finds its message already at the broker. */
  lemma PublishedBeforeCommit(es: seq<Event>, e: Event, id: TaskId)
    requires id !in After(es).tasks && id in After(es + [e]).tasks
    ensures e.Commit? && e.id == id && id in After(es).messages
  {
    EveryRunIsWellKept(es);
    ReplaySnoc(Empty, es, e);
  }

  /** The expired row: failed with the reason "timeout" at `now`, its slot and deadline as they were. */
  predicate IsTimedOut(before: Task, after: Task, now: int) {
    && after.status == "failure" && after.failureReason == Some("timeout") && after.completedAt == Some(now)
    && after.slot == before.slot && after.deadline == before.deadline
  }

  /** A reaper tick times out exactly the pending tasks whose deadline has passed, and leaves every other
      task as it is; right after it every pending task still has time left, so the `deadline IS NOT NULL`
      filter skips none. */
  lemma TickClearsOverdue(es: seq<Event>, now: int, id: TaskId)
    ensures var s, t := After(es), After(es + [ExpireAll(now)]);
      && (id in t.tasks <==> id in s.tasks)
      && (id in s.tasks ==> s.tasks[id].deadline.Some?)
      && (id in s.tasks && id in t.tasks ==>
            if s.tasks[id].status == "pending" && s.tasks[id].deadline.value < now
            then IsTimedOut(s.tasks[id], t.tasks[id], now) else t.tasks[id] == s.tasks[id])
  {
    EveryRunIsWellKept(es);
    ReplaySnoc(Empty, es, ExpireAll(now));
  }

  /** The expiry before an issuing request does the same, for the servers it names only. */
  lemma ServerExpiryIsExact(es: seq<Event>, servers: seq<ServerId>, now: int, id: TaskId)
    ensures var s, t := After(es), After(es + [ExpireServers(servers, now)]);
      && (id in t.tasks <==> id in s.tasks)
      && (id in s.tasks ==> s.tasks[id].deadline.Some?)
      && (id in s.tasks && id in t.tasks ==>
            if s.tasks[id].status == "pending" && s.tasks[id].deadline.value < now
              && s.tasks[id].slot.server in servers
            then IsTimedOut(s.tasks[id], t.tasks[id], now) else t.tasks[id] == s.tasks[id])
  {
    EveryRunIsWellKept(es);
    ReplaySnoc(Empty, es, ExpireServers(servers, now));
  }

  /** No event removes a task, and only its creation fixes its slot and deadline. */
  lemma TasksArePermanent(s: State, e: Event, id: TaskId)
    requires WellKept(s) && id in s.tasks
    ensures id in Apply(s, e).tasks && Apply(s, e).tasks[id].slot == s.tasks[id].slot
    ensures Apply(s, e).tasks[id].deadline == s.tasks[id].deadline
  {
  }

  /** A result carrying the status 'pending' reopens a finished task exactly when its slot is free. */
  lemma ReopenedIfSlotFree(es: seq<Event>, id: TaskId, u: Update)
    requires id in After(es).tasks && After(es).tasks[id].status != "pending" && u.status == "pending"
    ensures After(es + [Complete(id, u)]).tasks[id].status == "pending" <==>
      && (forall other | other in After(es).tasks ::
            After(es).tasks[other].status == "pending" ==> After(es).tasks[other].slot != After(es).tasks[id].slot)
      && (forall other | other in After(es).inflight ::
            After(es).inflight[other].task.slot != After(es).tasks[id].slot)
  {
    EveryRunIsWellKept(es);
    var s := After(es);
    ReplaySnoc(Empty, es, Complete(id, u));
    var slot := s.tasks[id].slot;
    if HeldByOther(s, id, slot) {
      var other :| other in s.tasks.Keys + s.inflight.Keys && Holds(s, other, slot);
    }
    if other :| other in s.tasks && s.tasks[other].status == "pending" && s.tasks[other].slot == slot {
      HolderOccupies(s, other, slot);
    }
    if other :| other in s.inflight && s.inflight[other].task.slot == slot {
      HolderOccupies(s, other, slot);
    }
  }
}
