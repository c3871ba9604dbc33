/**
 The `diagnostic_jobs` table and the statements that change it.

 The table is shared by the web process (enqueue, emit, retention) and by any number of report
 workers (claim, finish, fail, recover).  Each statement is one atomic `Event`; an event whose guard
 does not hold leaves the table alone, so a run is an arbitrary sequence of events and every theorem
 below quantifies over all of them.  An INSERT stays in flight until its transaction commits or rolls
 back: in-flight rows already occupy the partial unique index but no other transaction reads them.
 */
module JobTable {
  import opened Wrappers

  /** A UUID drawn by `gen_random_uuid()`. */
  type JobId = nat

  /** The columns of the active partial unique index. */
  datatype Key = Key(scope: string, inputHash: string, jobType: string)

  datatype Status = Pending | Running | Succeeded | Failed
  datatype Stage = Queued | Requeued | InProgress

  datatype Job = Job(
    key: Key,
    status: Status,
    stage: Option<Stage>,
    result: Option<string>,
    errorMessage: Option<string>,
    createdAt: int,
    startedAt: Option<int>,
    finishedAt: Option<int>,
    requestedBy: Option<string>)
  {
    predicate Active() {
      status == Pending || status == Running
    }

    predicate Terminal() {
      status == Succeeded || status == Failed
    }
  }

  datatype State = State(rows: map<JobId, Job>, inflight: map<JobId, Job>, issued: set<JobId>)

  const Empty := State(map[], map[], {})

  const SECONDS_PER_DAY := 86400

  datatype Event =
    | Insert(id: JobId, key: Key, requestedBy: Option<string>, now: int)
    | FinishOwn(id: JobId, result: string, now: int)
    | Commit(id: JobId)
    | Rollback(id: JobId)
    | Claim(id: JobId, locked: set<JobId>, now: int)
    | Succeed(id: JobId, result: string, now: int)
    | Fail(id: JobId, message: string, now: int)
    | Recover(staleSeconds: int, now: int)
    | Retain(olderThanDays: int, now: int)

  // ---------------------------------------------------------------- statements

  function QueuedJob(key: Key, requestedBy: Option<string>, now: int): Job {
    Job(key, Pending, Some(Queued), None, None, now, None, None, requestedBy)
  }

  function ClaimedJob(job: Job, now: int): Job {
    job.(status := Running, startedAt := Some(now), stage := Some(InProgress))
  }

  function SucceededJob(job: Job, result: string, now: int): Job {
    job.(status := Succeeded, result := Some(result), finishedAt := Some(now), stage := None)
  }

  function FailedJob(job: Job, message: string, now: int): Job {
    job.(status := Failed, errorMessage := Some(message), finishedAt := Some(now), stage := None)
  }

  function RequeuedJob(job: Job): Job {
    job.(status := Pending, startedAt := None, stage := Some(Requeued))
  }

  /** Some committed or in-flight row holds the active slot of `key`: ON CONFLICT would hit. */
  predicate Occupied(s: State, key: Key) {
    HasActive(s, key) || HasInflight(s, key)
  }

  predicate HasActive(s: State, key: Key) {
    exists id :: id in s.rows && s.rows[id].Active() && s.rows[id].key == key
  }

  predicate HasInflight(s: State, key: Key) {
    exists id :: id in s.inflight && s.inflight[id].key == key
  }

  predicate Claimable(rows: map<JobId, Job>, locked: set<JobId>, id: JobId) {
    id in rows && rows[id].status == Pending && id !in locked
  }

  /** `id` is a row that ORDER BY created_at ... SKIP LOCKED LIMIT 1 may return. */
  predicate Oldest(rows: map<JobId, Job>, locked: set<JobId>, id: JobId) {
    && Claimable(rows, locked, id)
    && forall other :: other in rows && Claimable(rows, locked, other) ==> rows[id].createdAt <= rows[other].createdAt
  }

  /** A NULL started_at never compares below the cutoff. */
  predicate Stale(job: Job, staleSeconds: int, now: int) {
    job.status == Running && job.startedAt.Some? && job.startedAt.value < now - staleSeconds
  }

  predicate Expired(job: Job, olderThanDays: int, now: int) {
    job.finishedAt.Some? && job.finishedAt.value < now - olderThanDays * SECONDS_PER_DAY
  }

  predicate Enabled(s: State, e: Event) {
    match e
    case Insert(id, key, _, _) => id !in s.issued && !Occupied(s, key)
    case FinishOwn(id, _, _) => id in s.inflight && s.inflight[id].status == Pending
    case Commit(id) => id in s.inflight
    case Rollback(id) => id in s.inflight
    case Claim(id, locked, _) => Oldest(s.rows, locked, id)
    case Succeed(id, _, _) => id in s.rows
    case Fail(id, _, _) => id in s.rows
    case Recover(_, _) => true
    case Retain(_, _) => true
  }

  function Apply(s: State, e: Event): State {
    if !Enabled(s, e) then s else
    match e
    case Insert(id, key, requestedBy, now) =>
      s.(inflight := s.inflight[id := QueuedJob(key, requestedBy, now)], issued := s.issued + {id})
    case FinishOwn(id, result, now) =>
      s.(inflight := s.inflight[id := SucceededJob(s.inflight[id], result, now)])
    case Commit(id) =>
      s.(rows := s.rows[id := s.inflight[id]], inflight := s.inflight - {id})
    case Rollback(id) =>
      s.(inflight := s.inflight - {id})
    case Claim(id, _, now) =>
      s.(rows := s.rows[id := ClaimedJob(s.rows[id], now)])
    case Succeed(id, result, now) =>
      s.(rows := s.rows[id := SucceededJob(s.rows[id], result, now)])
    case Fail(id, message, now) =>
      s.(rows := s.rows[id := FailedJob(s.rows[id], message, now)])
    case Recover(staleSeconds, now) =>
      s.(rows := map id | id in s.rows ::
           if Stale(s.rows[id], staleSeconds, now) then RequeuedJob(s.rows[id]) else s.rows[id])
    case Retain(olderThanDays, now) =>
      s.(rows := map id | id in s.rows && !Expired(s.rows[id], olderThanDays, now) :: s.rows[id])
  }

  /** The table after the first `n` events of a run that starts from the empty table. */
  function After(es: seq<Event>): State {
    if es == [] then Empty else Apply(After(es[..|es| - 1]), es[|es| - 1])
  }

  // ---------------------------------------------------------------- the table invariant

  /** Which columns a row fills in, by status. */
  predicate Coupled(job: Job) {
    && (job.status == Pending ==>
          job.startedAt.None? && job.finishedAt.None? && job.stage in {Some(Queued), Some(Requeued)})
    && (job.status == Running ==>
          job.startedAt.Some? && job.finishedAt.None? && job.stage == Some(InProgress))
    && (job.Active() ==> job.result.None? && job.errorMessage.None?)
    && (job.Terminal() ==> job.finishedAt.Some? && job.stage.None?)
    && (job.status == Succeeded ==> job.result.Some?)
    && (job.status == Failed ==> job.errorMessage.Some?)
  }

  predicate UniqueActive(s: State) {
    forall i, j | i in s.rows && j in s.rows && s.rows[i].Active() && s.rows[j].Active() ::
      s.rows[i].key == s.rows[j].key ==> i == j
  }

  predicate InflightExclusive(s: State) {
    && (forall i, j :: i in s.inflight && j in s.rows && s.rows[j].Active() ==> s.inflight[i].key != s.rows[j].key)
    && (forall i, j :: i in s.inflight && j in s.inflight && s.inflight[i].key == s.inflight[j].key ==> i == j)
  }

  predicate WellStored(s: State) {
    && s.rows.Keys !! s.inflight.Keys
    && s.rows.Keys + s.inflight.Keys <= s.issued
    && (forall id :: id in s.rows ==> Coupled(s.rows[id]))
    && (forall id :: id in s.inflight ==>
          Coupled(s.inflight[id]) && s.inflight[id].status in {Pending, Succeeded} && s.inflight[id].startedAt.None?)
  }

  predicate Inv(s: State) {
    WellStored(s) && UniqueActive(s) && InflightExclusive(s)
  }

  /** The statements on committed rows create no row, change no key and activate no inactive row. */
  predicate OnlyUpdates(s: State, t: State) {
    && t.inflight == s.inflight && t.issued == s.issued
    && (forall id :: id in t.rows ==>
          && id in s.rows && t.rows[id].key == s.rows[id].key
          && (t.rows[id].Active() ==> s.rows[id].Active()))
  }

  lemma UpdatesKeepSlots(s: State, t: State)
    requires Inv(s) && OnlyUpdates(s, t)
    ensures t.rows.Keys !! t.inflight.Keys && t.rows.Keys + t.inflight.Keys <= t.issued
    ensures UniqueActive(t) && InflightExclusive(t)
  {
  }

  lemma ClaimUpdates(s: State, e: Event)
    requires Inv(s) && e.Claim?
    ensures OnlyUpdates(s, Apply(s, e))
    ensures forall id :: id in Apply(s, e).rows ==> Coupled(Apply(s, e).rows[id])
  {
  }

  lemma FinishUpdates(s: State, e: Event)
    requires Inv(s) && (e.Succeed? || e.Fail?)
    ensures OnlyUpdates(s, Apply(s, e))
    ensures forall id :: id in Apply(s, e).rows ==> Coupled(Apply(s, e).rows[id])
  {
  }

  lemma ScanUpdates(s: State, e: Event)
    requires Inv(s) && (e.Recover? || e.Retain?)
    ensures OnlyUpdates(s, Apply(s, e))
    ensures forall id :: id in Apply(s, e).rows ==> Coupled(Apply(s, e).rows[id])
  {
  }

  lemma UpdatesKeepInv(s: State, t: State)
    requires Inv(s) && OnlyUpdates(s, t)
    requires forall id :: id in t.rows ==> Coupled(t.rows[id])
    ensures Inv(t)
  {
    UpdatesKeepSlots(s, t);
  }

  lemma InsertKeepsInv(s: State, e: Event)
    requires Inv(s) && e.Insert?
    ensures Inv(Apply(s, e))
  {
    var t := Apply(s, e);
    if Enabled(s, e) {
      assert t.rows == s.rows;
      forall i, j | i in t.inflight && j in t.rows && t.rows[j].Active()
        ensures t.inflight[i].key != t.rows[j].key
      {
        if i == e.id { assert !HasActive(s, e.key); }
      }
      forall i | i in s.inflight
        ensures s.inflight[i].key != e.key
      {
        assert !HasInflight(s, e.key);
      }
    }
  }

  lemma TransactionKeepsInv(s: State, e: Event)
    requires Inv(s) && (e.FinishOwn? || e.Commit? || e.Rollback?)
    ensures Inv(Apply(s, e))
  {
  }

  lemma ApplyKeepsInv(s: State, e: Event)
    requires Inv(s)
    ensures Inv(Apply(s, e))
  {
    match e
    case Insert(_, _, _, _) => InsertKeepsInv(s, e);
    case FinishOwn(_, _, _) => TransactionKeepsInv(s, e);
    case Commit(_) => TransactionKeepsInv(s, e);
    case Rollback(_) => TransactionKeepsInv(s, e);
    case Claim(_, _, _) => ClaimUpdates(s, e); UpdatesKeepInv(s, Apply(s, e));
    case Succeed(_, _, _) => FinishUpdates(s, e); UpdatesKeepInv(s, Apply(s, e));
    case Fail(_, _, _) => FinishUpdates(s, e); UpdatesKeepInv(s, Apply(s, e));
    case Recover(_, _) => ScanUpdates(s, e); UpdatesKeepInv(s, Apply(s, e));
    case Retain(_, _) => ScanUpdates(s, e); UpdatesKeepInv(s, Apply(s, e));
  }

  lemma {:induction false} AfterInv(es: seq<Event>)
    ensures Inv(After(es))
  {
    if es != [] {
      AfterInv(es[..|es| - 1]);
      ApplyKeepsInv(After(es[..|es| - 1]), es[|es| - 1]);
    }
  }

  /** Some run of events, from the empty table, leads to `s`. */
  ghost predicate Reachable(s: State) {
    exists es :: After(es) == s
  }

  lemma ReachableStep(s: State, e: Event)
    requires Reachable(s)
    ensures Reachable(Apply(s, e))
  {
    var es :| After(es) == s;
    assert (es + [e])[..|es|] == es;
    assert After(es + [e]) == Apply(s, e);
  }

  /** At most one pending or running job per (scope, input_hash, job_type), in every reachable state. */
  lemma AtMostOneActive(es: seq<Event>, i: JobId, j: JobId)
    requires i in After(es).rows && j in After(es).rows
    requires After(es).rows[i].status in {Pending, Running} && After(es).rows[j].status in {Pending, Running}
    requires After(es).rows[i].key == After(es).rows[j].key
    ensures i == j
  {
    AfterInv(es);
  }

  lemma FieldsFollowStatus(es: seq<Event>, id: JobId)
    requires id in After(es).rows
    ensures Coupled(After(es).rows[id])
  {
    AfterInv(es);
  }

  /** Retention removes exactly the rows that finished before the cutoff, and those are terminal. */
  lemma RetentionDeletesExactlyOldTerminal(es: seq<Event>, olderThanDays: int, now: int, id: JobId)
    requires id in After(es).rows
    ensures id !in Apply(After(es), Retain(olderThanDays, now)).rows
       <==> After(es).rows[id].finishedAt.Some?
            && After(es).rows[id].finishedAt.value < now - olderThanDays * 86400
    ensures id !in Apply(After(es), Retain(olderThanDays, now)).rows ==>
      After(es).rows[id].status in {Succeeded, Failed}
  {
    AfterInv(es);
  }

  /** A recovery touches exactly the running rows that started before the cutoff, and puts them back into
      the queue without a start. */
  lemma RecoveryRequeuesExactlyStale(es: seq<Event>, staleSeconds: int, now: int, id: JobId)
    requires id in After(es).rows
    ensures var (before, rows) := (After(es).rows[id], Apply(After(es), Recover(staleSeconds, now)).rows);
      && id in rows
      && (rows[id] != before <==>
            before.status == Running && before.startedAt.Some? && before.startedAt.value < now - staleSeconds)
      && (rows[id] != before ==>
            && rows[id].status == Pending && rows[id].startedAt.None? && rows[id].stage == Some(Requeued)
            && rows[id].finishedAt.None? && rows[id].result.None? && rows[id].errorMessage.None?
            && rows[id].key == before.key && rows[id].createdAt == before.createdAt
            && rows[id].requestedBy == before.requestedBy)
  {
    AfterInv(es);
  }

  /** The event leaves a job alone that was claimed at `claimedAt`: it does not finish it, and a recovery
      among them comes before its time has run out. */
  predicate LeavesClaim(e: Event, id: JobId, claimedAt: int) {
    match e
    case Succeed(other, _, _) => other != id
    case Fail(other, _, _) => other != id
    case Recover(staleSeconds, now) => now - claimedAt <= staleSeconds
    case _ => true
  }

  /** A claimed job keeps running, whatever else happens, until it is finished or its time has run out. */
  lemma {:induction false} ClaimLasts(es: seq<Event>, n: nat, id: JobId, claimedAt: int)
    requires n <= |es| && id in After(es[..n]).rows
    requires After(es[..n]).rows[id].status == Running && After(es[..n]).rows[id].startedAt == Some(claimedAt)
    requires forall k | n <= k < |es| :: LeavesClaim(es[k], id, claimedAt)
    ensures id in After(es).rows && After(es).rows[id] == After(es[..n]).rows[id]
  {
    if n == |es| {
      assert es[..n] == es;
    } else {
      var prior := es[..|es| - 1];
      assert prior[..n] == es[..n];
      ClaimLasts(prior, n, id, claimedAt);
      AfterInv(prior);
    }
  }

  /** Once terminal, a job stays terminal for as long as its row exists (a late worker may still turn
      one terminal status into the other). */
  lemma {:induction false} TerminalIsNeverLeft(es: seq<Event>, n: nat, id: JobId)
    requires n <= |es|
    requires id in After(es[..n]).rows && After(es[..n]).rows[id].Terminal()
    ensures id in After(es).issued && id !in After(es).inflight
    ensures id in After(es).rows ==> After(es).rows[id].Terminal()
  {
    AfterInv(es[..n]);
    if n == |es| {
      assert es[..n] == es;
    } else {
      var prior := es[..|es| - 1];
      assert prior[..n] == es[..n];
      TerminalIsNeverLeft(prior, n, id);
    }
  }

  // ---------------------------------------------------------------- one job, one worker

  predicate Claims(s: State, e: Event, id: JobId) {
    e.Claim? && e.id == id && Enabled(s, e)
  }

  predicate Recovers(s: State, e: Event, id: JobId) {
    e.Recover? && id in s.rows && Stale(s.rows[id], e.staleSeconds, e.now)
  }

  /** How often a claim returned `id` during the run. */
  function ClaimCount(es: seq<Event>, id: JobId): nat {
    if es == [] then 0 else
      ClaimCount(es[..|es| - 1], id) + if Claims(After(es[..|es| - 1]), es[|es| - 1], id) then 1 else 0
  }

  /** How often a recovery put `id` back to pending during the run. */
  function RecoveryCount(es: seq<Event>, id: JobId): nat {
    if es == [] then 0 else
      RecoveryCount(es[..|es| - 1], id) + if Recovers(After(es[..|es| - 1]), es[|es| - 1], id) then 1 else 0
  }

  /** Claims and recoveries of one job alternate, and the status says whose turn it is. */
  lemma {:induction false} ClaimsMatchRecoveries(es: seq<Event>, id: JobId)
    ensures ClaimCount(es, id) in {RecoveryCount(es, id), RecoveryCount(es, id) + 1}
    ensures id !in After(es).issued || id in After(es).inflight ==> ClaimCount(es, id) == 0
    ensures id in After(es).rows ==>
      match After(es).rows[id].status
      case Pending => ClaimCount(es, id) == RecoveryCount(es, id)
      case Running => ClaimCount(es, id) == RecoveryCount(es, id) + 1
      case Succeeded => true
      case Failed => true
  {
    if es != [] {
      var prior, last := es[..|es| - 1], es[|es| - 1];
      ClaimsMatchRecoveries(prior, id);
      AfterInv(prior);
      StepOfOneJob(After(prior), last, id);
    }
  }

  /** How one event moves one job through the claim cycle. */
  lemma StepOfOneJob(s: State, e: Event, id: JobId)
    requires Inv(s)
    ensures var t := Apply(s, e);
      && (Claims(s, e, id) ==>
            id in s.rows && s.rows[id].status == Pending && id in t.rows && t.rows[id].status == Running)
      && (Recovers(s, e, id) ==>
            id in s.rows && s.rows[id].status == Running && id in t.rows && t.rows[id].status == Pending)
      && (!Claims(s, e, id) && !Recovers(s, e, id) && id in s.rows && id in t.rows ==>
            t.rows[id].status == s.rows[id].status || t.rows[id].Terminal())
      && (id in t.rows && id !in s.rows ==> id in s.inflight && t.rows[id].status != Running)
      && (id in t.inflight ==> id !in s.issued || id in s.inflight)
      && (id in s.issued ==> id in t.issued)
      && (id in s.inflight ==> !Claims(s, e, id) && !Recovers(s, e, id))
  {
    match e
    case Insert(_, _, _, _) =>
    case FinishOwn(_, _, _) =>
    case Commit(_) =>
    case Rollback(_) =>
    case Claim(_, _, _) =>
    case Succeed(_, _, _) =>
    case Fail(_, _, _) =>
    case Recover(_, _) =>
    case Retain(_, _) =>
  }

  lemma {:induction false} RecoveriesBetween(es: seq<Event>, n: nat, id: JobId)
    requires n <= |es|
    requires RecoveryCount(es[..n], id) < RecoveryCount(es, id)
    ensures exists k :: n <= k < |es| && Recovers(After(es[..k]), es[k], id)
  {
    assert es[..|es|] == es;
    if n < |es| {
      var last := |es| - 1;
      var prior := es[..last];
      assert prior[..n] == es[..n];
      if !Recovers(After(prior), es[last], id) {
        RecoveriesBetween(prior, n, id);
        var k :| n <= k < |prior| && Recovers(After(prior[..k]), prior[k], id);
        assert prior[..k] == es[..k];
      }
    }
  }

  /** Two claims never return the same job unless a recovery of that job happened in between. */
  lemma NoTwoClaimsWithoutRecovery(es: seq<Event>, i: nat, j: nat, id: JobId)
    requires i < j < |es|
    requires Claims(After(es[..i]), es[i], id) && Claims(After(es[..j]), es[j], id)
    ensures exists k :: i < k < j && Recovers(After(es[..k]), es[k], id)
  {
    var first, second := es[..i + 1], es[..j];
    assert first[..i] == es[..i] && second[..i + 1] == first;
    ClaimsMatchRecoveries(first, id);
    ClaimsMatchRecoveries(second, id);
    ClaimsMatchRecoveries(es[..i], id);
    assert RecoveryCount(first, id) < RecoveryCount(second, id) by {
      CountsGrow(second, i + 1, id);
    }
    RecoveriesBetween(second, i + 1, id);
    var k :| i + 1 <= k < |second| && Recovers(After(second[..k]), second[k], id);
    assert second[..k] == es[..k];
  }

  lemma {:induction false} CountsGrow(es: seq<Event>, n: nat, id: JobId)
    requires n <= |es|
    ensures ClaimCount(es[..n], id) <= ClaimCount(es, id)
    ensures RecoveryCount(es[..n], id) <= RecoveryCount(es, id)
  {
    if n == |es| {
      assert es[..n] == es;
    } else {
      assert es[..|es| - 1][..n] == es[..n];
      CountsGrow(es[..|es| - 1], n, id);
    }
  }
}
