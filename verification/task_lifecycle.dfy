/** What ends a task: the agent's result, judged by policy, and the reaper's timeout. */
module TaskLifecycle {
  import opened Wrappers
  import opened TaskTable

  // ---------------------------------------------------------------- judging a result

  datatype Report = Report(
    status: string, failureReason: Option<string>, exitCode: Option<int>,
    osFamily: Option<string>, osVersion: Option<string>, osId: Option<string>, taskPolicy: Option<bool>)

  predicate NonEmpty(s: Option<string>) {
    s.Some? && s.value != ""
  }

  /** Text before the first dot. */
  function Major(version: string): string {
    if version == "" || version[0] == '.' then "" else [version[0]] + Major(version[1..])
  }

  /** The major version is everything before the first dot, or all of it. */
  lemma {:induction false} MajorIsUpToDot(version: string)
    ensures Major(version) <= version && '.' !in Major(version)
    ensures Major(version) == version || version[|Major(version)|] == '.'
  {
    if version != "" && version[0] != '.' {
      MajorIsUpToDot(version[1..]);
    }
  }

  /** The allowlist key speaks about the reporting host. */
  predicate Covers(key: string, r: Report) {
    || (r.osFamily == Some("windows") && (key == "windows" || (NonEmpty(r.osVersion) && key == r.osVersion.value)))
    || (r.osFamily == Some("linux") && NonEmpty(r.osId) && NonEmpty(r.osVersion)
        && key == r.osId.value + ":" + Major(r.osVersion.value))
  }

  /** The script failed without a verdict of the agent, with an exit code that some key of the host
      excuses. */
  predicate Excused(r: Report, codes: map<string, seq<int>>) {
    && r.taskPolicy.None? && r.status == "failure" && r.failureReason == Some("script_failed") && r.exitCode.Some?
    && exists key | key in codes :: Covers(key, r) && r.exitCode.value in codes[key]
  }

  /** The agent gave a verdict of its own. */
  predicate Verdict(r: Report, success: bool) {
    r.taskPolicy.Some? && r.taskPolicy.value == success
  }

  /** What a judged result must be: a success only by the agent's verdict or an excuse, a rejection
      always with a reason, and every other result untouched. */
  predicate Judged(r: Report, codes: map<string, seq<int>>, status: string, reason: Option<string>) {
    && (Verdict(r, true) || Excused(r, codes) ==> status == "success" && reason == None)
    && (Verdict(r, false) ==>
          status == "failure" && NonEmpty(reason) && (reason == r.failureReason || reason == Some("install_unverified"))
          && (NonEmpty(r.failureReason) ==> reason == r.failureReason))
    && (r.taskPolicy.None? && !Excused(r, codes) ==> status == r.status && reason == r.failureReason)
  }

  /** `effective_task_result` with its key list, most specific key first, and its loop. */
  method JudgeTaskResult(r: Report, codes: map<string, seq<int>>) returns (status: string, reason: Option<string>)
    ensures Judged(r, codes, status, reason)
  {
    if r.taskPolicy == Some(true) {
      return "success", None;
    }
    if r.taskPolicy == Some(false) {
      return "failure", if NonEmpty(r.failureReason) then r.failureReason else Some("install_unverified");
    }
    if r.status != "failure" || r.failureReason != Some("script_failed") || r.exitCode.None? {
      return r.status, r.failureReason;
    }
    var keys: seq<string> := [];
    if r.osFamily == Some("windows") {
      if NonEmpty(r.osVersion) {
        keys := keys + [r.osVersion.value];
      }
      keys := keys + ["windows"];
    } else if r.osFamily == Some("linux") && NonEmpty(r.osId) && NonEmpty(r.osVersion) {
      keys := keys + [r.osId.value + ":" + Major(r.osVersion.value)];
    }
    for k := 0 to |keys|
      invariant forall key :: Covers(key, r) <==> key in keys
      invariant forall j | 0 <= j < k :: !(keys[j] in codes && r.exitCode.value in codes[keys[j]])
    {
      if keys[k] in codes && r.exitCode.value in codes[keys[k]] {
        return "success", None;
      }
    }
    return r.status, r.failureReason;
  }

  predicate Allows(codes: map<string, seq<int>>, key: string, code: int) {
    key in codes && code in codes[key]
  }

  /** The allowlist speaks about a Windows host by its build or as "windows", and about a Linux host that
      reports both by id and major version; about no other host. */
  predicate HostAllows(r: Report, codes: map<string, seq<int>>, code: int) {
    if r.osFamily == Some("windows") then
      || Allows(codes, "windows", code)
      || (r.osVersion.Some? && r.osVersion.value != "" && Allows(codes, r.osVersion.value, code))
    else
      && r.osFamily == Some("linux") && r.osId.Some? && r.osId.value != ""
      && r.osVersion.Some? && r.osVersion.value != ""
      && Allows(codes, r.osId.value + ":" + Major(r.osVersion.value), code)
  }

  /** The agent's own verdict comes first, and an unverified install always has a reason; without a verdict
      only a failed script can turn into a success, and only by an exit code allowed for its host. */
  lemma JudgedMeans(r: Report, codes: map<string, seq<int>>, status: string, reason: Option<string>)
    requires Judged(r, codes, status, reason)
    ensures r.taskPolicy == Some(true) ==> status == "success" && reason == None
    ensures r.taskPolicy == Some(false) ==>
      && status == "failure"
      && reason == if r.failureReason == None || r.failureReason == Some("") then Some("install_unverified")
                   else r.failureReason
    ensures r.taskPolicy == None ==>
      if r.status == "failure" && r.failureReason == Some("script_failed") && r.exitCode.Some?
         && HostAllows(r, codes, r.exitCode.value)
      then status == "success" && reason == None else status == r.status && reason == r.failureReason
  {
    assert "windows" != "linux" by { assert "windows"[0] != "linux"[0]; }
    if r.exitCode.Some? && HostAllows(r, codes, r.exitCode.value) {
      var key := if r.osFamily == Some("linux") then r.osId.value + ":" + Major(r.osVersion.value)
                 else if Allows(codes, "windows", r.exitCode.value) then "windows" else r.osVersion.value;
      assert Covers(key, r) && Allows(codes, key, r.exitCode.value);
    }
  }

  /** Every code `codes` allows, `more` allows too. */
  predicate Extends(codes: map<string, seq<int>>, more: map<string, seq<int>>) {
    forall key | key in codes :: key in more && forall code | code in codes[key] :: code in more[key]
  }

  /** The rules leave no choice. */
  lemma JudgementIsUnique(r: Report, codes: map<string, seq<int>>, status: string, reason: Option<string>,
                          other: string, otherReason: Option<string>)
    requires Judged(r, codes, status, reason) && Judged(r, codes, other, otherReason)
    ensures status == other && reason == otherReason
  {
  }

  /** Extending the allowlist can only turn a failed script without a verdict into a success: it never
      fails a success, and it never touches a result the agent judged. */
  lemma AllowlistOnlyRescues(r: Report, codes: map<string, seq<int>>, more: map<string, seq<int>>,
                             status: string, reason: Option<string>, later: string, laterReason: Option<string>)
    requires Extends(codes, more)
    requires Judged(r, codes, status, reason) && Judged(r, more, later, laterReason)
    ensures (later == status && laterReason == reason)
      || (r.taskPolicy.None? && status == "failure" && reason == Some("script_failed")
          && later == "success" && laterReason == None)
  {
    if Excused(r, codes) {
      var key :| key in codes && Covers(key, r) && r.exitCode.value in codes[key];
      var code := r.exitCode.value;
      assert code in codes[key];
      assert key in more && code in more[key];
    } else if Excused(r, more) {
      assert reason == r.failureReason == Some("script_failed");
    }
  }

  /** Judging a judged result again changes nothing. */
  lemma JudgingIsIdempotent(r: Report, codes: map<string, seq<int>>, status: string, reason: Option<string>)
    requires Judged(r, codes, status, reason)
    ensures Judged(r.(status := status, failureReason := reason), codes, status, reason)
  {
    var judged := r.(status := status, failureReason := reason);
    forall key ensures Covers(key, judged) <==> Covers(key, r) {
    }
    assert "success" != "failure" by { assert "success"[0] != "failure"[0]; }
  }

  // ---------------------------------------------------------------- the reaper

  /** One pass of the loop: what others did before it, its clock, and how its transaction ended. */
  datatype Tick = Tick(others: seq<Event>, now: int, call: CallOutcome)

  function TickEvents(ticks: seq<Tick>): seq<Event> {
    if ticks == [] then [] else
      var last := ticks[|ticks| - 1];
      TickEvents(ticks[..|ticks| - 1]) + last.others + if last.call.RaisedUnapplied? then [] else [ExpireAll(last.now)]
  }

  predicate Reopens(e: Event, id: TaskId) {
    e.Complete? && e.id == id && e.update.status == PENDING
  }

  lemma {:induction false} StaysFinished(s: State, es: seq<Event>, id: TaskId)
    requires WellKept(s) && id in s.tasks && !s.tasks[id].Pending()
    requires forall k | 0 <= k < |es| :: !Reopens(es[k], id)
    ensures WellKept(Replay(s, es)) && id in Replay(s, es).tasks && !Replay(s, es).tasks[id].Pending()
  {
    if es != [] {
      StaysFinished(s, es[..|es| - 1], id);
      StepKeepsWellKept(Replay(s, es[..|es| - 1]), es[|es| - 1]);
      TasksArePermanent(Replay(s, es[..|es| - 1]), es[|es| - 1], id);
    }
  }

  /** One committed tick after its deadline finishes a task for good, unless a later result says
      'pending' again; what else happens before or after does not matter. */
  lemma ReapedForGood(before: seq<Event>, now: int, after: seq<Event>, id: TaskId)
    requires id in After(before).tasks && After(before).tasks[id].deadline.Some?
      && After(before).tasks[id].deadline.value < now
    requires forall k | 0 <= k < |after| :: !Reopens(after[k], id)
    ensures var end := After(before + [ExpireAll(now)] + after); id in end.tasks && !end.tasks[id].Pending()
  {
    EveryRunIsWellKept(before);
    EveryRunIsWellKept(before + [ExpireAll(now)]);
    TickClearsOverdue(before, now, id);
    ReplayConcat(Empty, before + [ExpireAll(now)], after);
    StaysFinished(After(before + [ExpireAll(now)]), after, id);
  }

  lemma TickEventsSnoc(ticks: seq<Tick>, k: nat)
    requires k < |ticks|
    ensures TickEvents(ticks[..k + 1]) ==
      TickEvents(ticks[..k]) + ticks[k].others
      + if ticks[k].call.RaisedUnapplied? then [] else [ExpireAll(ticks[k].now)]
  {
    assert ticks[..k + 1][..k] == ticks[..k];
  }

  lemma {:induction false} TicksExtend(ticks: seq<Tick>, k: nat)
    requires k <= |ticks|
    ensures TickEvents(ticks[..k]) <= TickEvents(ticks)
  {
    if k == |ticks| {
      assert ticks[..k] == ticks;
    } else {
      assert ticks[..|ticks| - 1][..k] == ticks[..k];
      TicksExtend(ticks[..|ticks| - 1], k);
    }
  }

  /** In the loop, every tick that committed finishes the tasks that were overdue then, whatever the other
      ticks did; one that raised without effect sends nothing. */
  lemma CommittedTickReaps(before: seq<Event>, ticks: seq<Tick>, k: nat, id: TaskId)
    requires k < |ticks| && id in After(before + (TickEvents(ticks[..k]) + ticks[k].others)).tasks
    requires var due := After(before + (TickEvents(ticks[..k]) + ticks[k].others)).tasks[id];
      due.deadline.Some? && due.deadline.value < ticks[k].now
    requires forall j | |TickEvents(ticks[..k + 1])| <= j < |TickEvents(ticks)| :: !Reopens(TickEvents(ticks)[j], id)
    ensures !ticks[k].call.RaisedUnapplied? ==>
      var end := After(before + TickEvents(ticks)); id in end.tasks && end.tasks[id].status != "pending"
    ensures ticks[k].call.RaisedUnapplied? ==> TickEvents(ticks[..k + 1]) == TickEvents(ticks[..k]) + ticks[k].others
  {
    var all, head := TickEvents(ticks), TickEvents(ticks[..k]) + ticks[k].others;
    TickEventsSnoc(ticks, k);
    TicksExtend(ticks, k + 1);
    hide TickEvents, After, Replay;
    if !ticks[k].call.RaisedUnapplied? {
      var expiry := [ExpireAll(ticks[k].now)];
      var tail := all[|head| + 1..];
      assert all == head + expiry + tail;
      assert before + all == before + head + expiry + tail;
      ReapedForGood(before + head, ticks[k].now, tail, id);
    }
  }

  // ---------------------------------------------------------------- results that come too early

  /** The row holds the result. */
  predicate Reported(task: Task, u: Update) {
    task.status == u.status && task.failureReason == u.failureReason && task.completedAt == Some(u.completedAt)
  }

  /** The row holds no result: it is pending or timed out. */
  predicate Unreported(task: Task) {
    task.Pending() || (task.status == "failure" && task.failureReason == Some("timeout"))
  }

  predicate Completes(e: Event, id: TaskId) {
    e.Complete? && e.id == id
  }

  lemma {:induction false} FinishedStays(s: State, es: seq<Event>, id: TaskId)
    requires WellKept(s) && id in s.tasks && !s.tasks[id].Pending()
    requires forall k | 0 <= k < |es| :: !Completes(es[k], id)
    ensures WellKept(Replay(s, es)) && id in Replay(s, es).tasks && Replay(s, es).tasks[id] == s.tasks[id]
  {
    if es != [] {
      FinishedStays(s, es[..|es| - 1], id);
      StepKeepsWellKept(Replay(s, es[..|es| - 1]), es[|es| - 1]);
    }
  }

  lemma {:induction false} UnreportedStays(s: State, es: seq<Event>, id: TaskId)
    requires WellKept(s) && (id in s.tasks ==> Unreported(s.tasks[id]))
    requires forall k | 0 <= k < |es| :: !Completes(es[k], id)
    ensures WellKept(Replay(s, es))
    ensures id in Replay(s, es).tasks ==> Unreported(Replay(s, es).tasks[id])
  {
    if es != [] {
      UnreportedStays(s, es[..|es| - 1], id);
      StepKeepsWellKept(Replay(s, es[..|es| - 1]), es[|es| - 1]);
    }
  }

  /** The message is out before the row is committed, so a result may come too early.  The last result of a
      task is kept exactly when the row was committed when it came; else it is dropped silently, and the
      task stays pending or times out. */
  lemma ResultKeptIff(before: seq<Event>, id: TaskId, u: Update, after: seq<Event>)
    requires u.status != PENDING
    requires forall k | 0 <= k < |after| :: !Completes(after[k], id)
    ensures var end := After(before + [Complete(id, u)] + after);
      id in end.tasks ==>
        if id in After(before).tasks then Reported(end.tasks[id], u) else Unreported(end.tasks[id])
  {
    EveryRunIsWellKept(before);
    EveryRunIsWellKept(before + [Complete(id, u)]);
    ReplaySnoc(Empty, before, Complete(id, u));
    ReplayConcat(Empty, before + [Complete(id, u)], after);
    hide Replay, Unreported;
    if id in After(before).tasks {
      FinishedStays(After(before + [Complete(id, u)]), after, id);
    } else {
      UnreportedStays(After(before), after, id);
    }
  }

  /** From every run with a published but uncommitted row: a result that comes now is lost although the
      commit goes through, and the reaper times it out. */
  lemma EarlyResultTimesOut(before: seq<Event>, id: TaskId, u: Update, now: int)
    requires id in After(before).inflight && After(before).inflight[id].confirmed
    requires After(before).inflight[id].task.deadline.Some? && After(before).inflight[id].task.deadline.value < now
    ensures id in After(before).messages
    ensures var end := After(before + [Complete(id, u)] + [Commit(id, Confirmed)] + [ExpireAll(now)]);
      id in end.tasks && IsTimedOut(After(before).inflight[id].task, end.tasks[id], now)
  {
    EveryRunIsWellKept(before);
    ReplaySnoc(Empty, before, Complete(id, u));
    ReplaySnoc(Empty, before + [Complete(id, u)], Commit(id, Confirmed));
    ReplaySnoc(Empty, before + [Complete(id, u)] + [Commit(id, Confirmed)], ExpireAll(now));
  }

  /** Another task of the same server and type is pending, committed or not. */
  predicate PendingBeside(s: State, id: TaskId)
    requires id in s.tasks
  {
    || (exists other | other in s.tasks ::
          other != id && s.tasks[other].status == "pending" && s.tasks[other].slot == s.tasks[id].slot)
    || (exists other | other in s.inflight ::
          other != id && s.inflight[other].task.status == "pending" && s.inflight[other].task.slot == s.tasks[id].slot)
  }

  lemma HeldIsPendingBeside(s: State, id: TaskId)
    requires id in s.tasks
    ensures HeldByOther(s, id, s.tasks[id].slot) <==> PendingBeside(s, id)
  {
    var slot := s.tasks[id].slot;
    if HeldByOther(s, id, slot) {
      var other :| other in s.tasks.Keys + s.inflight.Keys && other != id && Holds(s, other, slot);
    }
    if other :| other in s.tasks && other != id && s.tasks[other].status == "pending" && s.tasks[other].slot == slot {
      HolderOccupies(s, other, slot);
    }
    if other :| other in s.inflight && other != id && s.inflight[other].task.status == "pending"
                && s.inflight[other].task.slot == slot {
      HolderOccupies(s, other, slot);
    }
  }

  class TaskRepository {
    var table: State

    ghost predicate Valid()
      reads this
    {
      WellKept(table) && SlotsExclusive(table)
    }

    constructor ()
      ensures Valid() && table == Empty
    {
      table := Empty;
    }

    /** An unknown id updates no row and is acknowledged silently; a 'pending' that would violate the
        index changes nothing and raises. */
    method CompleteTask(id: TaskId, report: Report, codes: map<string, seq<int>>, completedAt: int)
      returns (updated: bool, raised: bool, status: string, reason: Option<string>)
      requires Valid()
      modifies this
      ensures Valid() && Judged(report, codes, status, reason)
      ensures updated <==> id in old(table).tasks && !raised
      ensures raised <==> id in old(table).tasks && status == "pending" && PendingBeside(old(table), id)
      ensures !updated ==> table == old(table)
      ensures updated ==>
        table == old(table).(tasks := old(table).tasks[id := old(table).tasks[id].(
          status := status, failureReason := reason, completedAt := Some(completedAt))])
    {
      status, reason := JudgeTaskResult(report, codes);
      var e := Complete(id, Update(status, reason, completedAt));
      updated := Enabled(table, e);
      raised := id in table.tasks && !updated;
      if id in table.tasks {
        HeldIsPendingBeside(table, id);
      }
      StepKeepsInvariant(table, e);
      table := Apply(table, e);
    }

    method ExpireAllOverdueTasks(now: int) returns (n: nat)
      requires Valid()
      modifies this
      ensures Valid() && table == Apply(old(table), ExpireAll(now))
      ensures n == |set id | id in old(table).tasks && old(table).tasks[id].status == "pending"
                             && old(table).tasks[id].deadline.Some? && old(table).tasks[id].deadline.value < now|
      ensures table.tasks.Keys == old(table).tasks.Keys
      ensures forall id | id in table.tasks ::
        var before := old(table).tasks[id];
        table.tasks[id] ==
          if before.status == "pending" && before.deadline.Some? && before.deadline.value < now
          then before.(status := "failure", failureReason := Some("timeout"), completedAt := Some(now)) else before
    {
      n := |AllOverdue(table, now)|;
      assert AllOverdue(table, now) ==
        (set id | id in table.tasks && table.tasks[id].status == "pending" && table.tasks[id].deadline.Some?
                  && table.tasks[id].deadline.value < now);
      StepKeepsInvariant(table, ExpireAll(now));
      table := Apply(table, ExpireAll(now));
    }

    /** A tick whose transaction raises is swallowed and the loop goes on. */
    method RunTaskReaper(ticks: seq<Tick>)
      requires Valid()
      modifies this
      ensures Valid() && table == Replay(old(table), TickEvents(ticks))
    {
      ghost var start := table;
      for k := 0 to |ticks|
        invariant Valid() && table == Replay(start, TickEvents(ticks[..k]))
      {
        assert ticks[..k + 1][..k] == ticks[..k];
        ReplayKeepsInvariant(table, ticks[k].others);
        ReplayConcat(start, TickEvents(ticks[..k]), ticks[k].others);
        table := Replay(table, ticks[k].others);
        ReplaySnoc(start, TickEvents(ticks[..k]) + ticks[k].others, ExpireAll(ticks[k].now));
        if !ticks[k].call.RaisedUnapplied? {
          var _ := ExpireAllOverdueTasks(ticks[k].now);
        } else {
          assert TickEvents(ticks[..k]) + ticks[k].others + [] == TickEvents(ticks[..k]) + ticks[k].others;
        }
      }
      assert ticks[..|ticks|] == ticks;
    }
  }
}
