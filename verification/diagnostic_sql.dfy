/** The repository object over `diagnostic_jobs`: one method per SQL statement of the source. */
module DiagnosticSql {
  import opened Wrappers
  import opened JobTable

  datatype JobCreate = JobCreate(key: Key, requestedBy: Option<string>)

  /** The event opens, finishes or closes the transaction of one of the rows in `mine`. */
  predicate TouchesTransaction(e: Event, mine: set<JobId>) {
    (e.Insert? || e.FinishOwn? || e.Commit? || e.Rollback?) && e.id in mine
  }

  /** What other sessions do between two statements of ours: anything but our own transactions. */
  predicate Foreign(es: seq<Event>, mine: set<JobId>) {
    forall k | 0 <= k < |es| :: !TouchesTransaction(es[k], mine)
  }

  /** Our own transactions look the same in both states. */
  ghost predicate SameTransactions(s: State, t: State, mine: set<JobId>) {
    forall id | id in mine ::
      && (id in t.inflight <==> id in s.inflight)
      && (id in t.inflight ==> t.inflight[id] == s.inflight[id])
      && (id in t.issued <==> id in s.issued)
      && (id in t.rows ==> id in s.rows)
  }

  lemma OneForeignStep(s: State, e: Event, mine: set<JobId>)
    requires !TouchesTransaction(e, mine)
    ensures SameTransactions(s, Apply(s, e), mine)
  {
  }

  lemma SameTransactionsChain(s: State, t: State, u: State, mine: set<JobId>)
    requires SameTransactions(s, t, mine) && SameTransactions(t, u, mine)
    ensures SameTransactions(s, u, mine)
  {
  }

  lemma SameTransactionsHere(s: State, mine: set<JobId>)
    ensures SameTransactions(s, s, mine)
  {
  }

  lemma OldestExists(rows: map<JobId, Job>, locked: set<JobId>, id: JobId)
    requires Claimable(rows, locked, id)
    ensures exists oldest :: oldest in rows && Oldest(rows, locked, oldest)
    decreases rows[id].createdAt - EarliestBound(rows)
  {
    EarliestIsBound(rows, id);
    if !Oldest(rows, locked, id) {
      var other :| other in rows && Claimable(rows, locked, other) && rows[other].createdAt < rows[id].createdAt;
      EarliestIsBound(rows, other);
      OldestExists(rows, locked, other);
    }
  }

  ghost function EarliestBound(rows: map<JobId, Job>): int
    decreases rows.Keys
  {
    if rows.Keys == {} then 0 else
      var id :| id in rows;
      var rest := EarliestBound(rows - {id});
      if rows[id].createdAt < rest then rows[id].createdAt else rest
  }

  lemma {:induction false} EarliestIsBound(rows: map<JobId, Job>, id: JobId)
    requires id in rows
    ensures EarliestBound(rows) <= rows[id].createdAt
    decreases rows.Keys
  {
    var pick :| pick in rows && EarliestBound(rows) ==
      (var rest := EarliestBound(rows - {pick}); if rows[pick].createdAt < rest then rows[pick].createdAt else rest);
    if id != pick {
      assert id in rows - {pick};
      EarliestIsBound(rows - {pick}, id);
    }
  }

  class DiagnosticRepository {
    var table: State
    /** Every state the table has been in, oldest first, and every statement that led there. */
    ghost var log: seq<State>
    ghost var events: seq<Event>

    ghost predicate Valid()
      reads this
    {
      log != [] && log[|log| - 1] == table && table == After(events)
    }

    constructor ()
      ensures Valid() && table == Empty && log == [Empty] && events == []
    {
      table := Empty;
      log := [Empty];
      events := [];
    }

    method Step(e: Event)
      requires Valid()
      modifies this
      ensures Valid()
      ensures table == Apply(old(table), e) && log == old(log) + [table] && events == old(events) + [e]
    {
      table := Apply(table, e);
      log := log + [table];
      events := events + [e];
      assert events[..|events| - 1] == old(events);
    }

    /** Statements of other sessions, in any order and number. */
    method Interleave(es: seq<Event>, ghost mine: set<JobId>)
      requires Valid() && Foreign(es, mine)
      modifies this
      ensures Valid() && old(log) <= log && events == old(events) + es && (es == [] ==> table == old(table))
      ensures forall k | |old(log)| - 1 <= k < |log| :: SameTransactions(old(table), log[k], mine)
    {
      hide JobTable.Apply, After, SameTransactions, TouchesTransaction;
      SameTransactionsHere(table, mine);
      for k := 0 to |es|
        invariant Valid() && old(log) <= log && events == old(events) + es[..k] && (k == 0 ==> table == old(table))
        invariant forall k | |old(log)| - 1 <= k < |log| :: SameTransactions(old(table), log[k], mine)
      {
        OneForeignStep(table, es[k], mine);
        SameTransactionsChain(old(table), table, JobTable.Apply(table, es[k]), mine);
        Step(es[k]);
      }
      assert es[..|es|] == es;
    }

    /** INSERT ... ON CONFLICT DO NOTHING RETURNING id; `drawn` is the UUID the server draws. */
    method Enqueue(job: JobCreate, drawn: JobId, now: int) returns (id: Option<JobId>)
      requires Valid() && drawn !in table.issued
      modifies this
      ensures Valid() && log == old(log) + [table]
      ensures events == old(events) + [Insert(drawn, job.key, job.requestedBy, now)]
      ensures id == None <==>
        || (exists j | j in old(table).rows ::
              old(table).rows[j].key == job.key && old(table).rows[j].status in {Pending, Running})
        || (exists j | j in old(table).inflight :: old(table).inflight[j].key == job.key)
      ensures id == None || id == Some(drawn)
      ensures id.None? ==> table == old(table)
      ensures id.Some? ==>
        && table.rows == old(table).rows
        && table.inflight == old(table).inflight[drawn :=
             Job(job.key, Pending, Some(Queued), None, None, now, None, None, job.requestedBy)]
        && table.issued == old(table).issued + {drawn}
    {
      id := if Occupied(table, job.key) then None else Some(drawn);
      Step(Insert(drawn, job.key, job.requestedBy, now));
    }

    /** SELECT id ... WHERE key AND status IN (pending, running) LIMIT 1, over committed rows only. */
    method GetActiveByHash(key: Key) returns (id: Option<JobId>)
      requires Valid()
      ensures forall j | j in table.rows ::
        table.rows[j].key == key && table.rows[j].status in {Pending, Running} <==> id == Some(j)
      ensures id.Some? ==> id.value in table.rows
    {
      AfterInv(events);
      if HasActive(table, key) {
        var found :| found in table.rows && table.rows[found].Active() && table.rows[found].key == key;
        id := Some(found);
      } else {
        id := None;
      }
    }

    /** SELECT ... ORDER BY created_at FOR UPDATE SKIP LOCKED LIMIT 1, then mark running.
        `locked` are the rows other claim transactions hold at this moment. */
    method ClaimNextPending(locked: set<JobId>, now: int) returns (id: Option<JobId>)
      requires Valid()
      modifies this
      ensures Valid() && old(log) <= log
      ensures id.None? <==> forall j | j in old(table).rows :: old(table).rows[j].status == Pending ==> j in locked
      ensures id.None? ==> table == old(table)
      ensures id.Some? ==>
        && id.value in old(table).rows && old(table).rows[id.value].status == Pending && id.value !in locked
        && (forall j | j in old(table).rows && old(table).rows[j].status == Pending && j !in locked ::
              old(table).rows[id.value].createdAt <= old(table).rows[j].createdAt)
        && table == old(table).(rows := old(table).rows[id.value :=
             old(table).rows[id.value].(status := Running, startedAt := Some(now), stage := Some(InProgress))])
    {
      if pending :| pending in table.rows && Claimable(table.rows, locked, pending) {
        OldestExists(table.rows, locked, pending);
        var oldest :| oldest in table.rows && Oldest(table.rows, locked, oldest);
        Step(Claim(oldest, locked, now));
        id := Some(oldest);
      } else {
        id := None;
      }
    }

    /** UPDATE ... WHERE id: no status guard, and no row is touched when the id is gone. */
    method MarkSucceeded(id: JobId, result: string, now: int)
      requires Valid()
      modifies this
      ensures Valid() && log == old(log) + [table]
      ensures table.inflight == old(table).inflight && table.issued == old(table).issued
      ensures table.rows == if id in old(table).rows
                            then old(table).rows[id := old(table).rows[id].(
                              status := Succeeded, result := Some(result), finishedAt := Some(now), stage := None)]
                            else old(table).rows
    {
      Step(Succeed(id, result, now));
    }

    method MarkFailed(id: JobId, message: string, now: int)
      requires Valid()
      modifies this
      ensures Valid() && log == old(log) + [table]
      ensures table.inflight == old(table).inflight && table.issued == old(table).issued
      ensures table.rows == if id in old(table).rows
                            then old(table).rows[id := old(table).rows[id].(
                              status := Failed, errorMessage := Some(message), finishedAt := Some(now), stage := None)]
                            else old(table).rows
    {
      Step(Fail(id, message, now));
    }

    /** Put every stale running row back to pending; the row count is returned. */
    method RecoverStaleRunning(staleSeconds: int, now: int) returns (n: nat)
      requires Valid()
      modifies this
      ensures Valid() && log == old(log) + [table]
      ensures n == |set id | id in old(table).rows && old(table).rows[id].status == Running
                             && old(table).rows[id].startedAt.Some?
                             && old(table).rows[id].startedAt.value < now - staleSeconds|
      ensures table.inflight == old(table).inflight && table.issued == old(table).issued
      ensures table.rows.Keys == old(table).rows.Keys
      ensures forall id | id in table.rows ::
        var before := old(table).rows[id];
        table.rows[id] ==
          if before.status == Running && before.startedAt.Some? && before.startedAt.value < now - staleSeconds
          then before.(status := Pending, startedAt := None, stage := Some(Requeued)) else before
    {
      n := |set id | id in table.rows && Stale(table.rows[id], staleSeconds, now)|;
      assert (set id | id in table.rows && Stale(table.rows[id], staleSeconds, now))
        == (set id | id in table.rows && table.rows[id].status == Running
                     && table.rows[id].startedAt.Some? && table.rows[id].startedAt.value < now - staleSeconds);
      Step(Recover(staleSeconds, now));
    }

    method DeleteRetention(olderThanDays: int, now: int) returns (n: nat)
      requires Valid()
      modifies this
      ensures Valid() && log == old(log) + [table]
      ensures n == |old(table).rows| - |table.rows|
      ensures forall id :: id in table.rows <==>
        id in old(table).rows && (old(table).rows[id].finishedAt.Some? ==>
          old(table).rows[id].finishedAt.value >= now - olderThanDays * 86400)
      ensures forall id | id in table.rows :: table.rows[id] == old(table).rows[id]
    {
      hide After;
      var expired := set id | id in table.rows && Expired(table.rows[id], olderThanDays, now);
      n := |expired|;
      Step(Retain(olderThanDays, now));
      assert old(table).rows.Keys == table.rows.Keys + expired;
    }
  }
}
