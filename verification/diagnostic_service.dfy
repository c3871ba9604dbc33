/**
 Publishing a report from the web process: `enqueue_report` (asynchronous, with its bounded retry)
 and `emit_report` (the finished snapshot in one transaction).  Every pair of consecutive statements
 may be separated by arbitrary statements of other sessions.
 */
module DiagnosticService {
  import opened Wrappers
  import opened Sorting
  import opened JobTable
  import opened DiagnosticSql

  const ENQUEUE_MAX_ATTEMPTS: nat := 2

  datatype Request = Request(
    view: string,
    scope: string,
    serverPublicIds: seq<string>,
    timeRange: string,
    anchorAt: int)

  /** The JSON object that is hashed; `serverPublicId` is the extra key of a one-server request. */
  datatype InputParams = InputParams(
    view: string,
    serverPublicIds: seq<string>,
    timeRange: string,
    anchorAt: int,
    serverPublicId: Option<string>)

  function BuildInputParams(r: Request): InputParams {
    InputParams(
      r.view,
      SortStrings(r.serverPublicIds),
      r.timeRange,
      r.anchorAt,
      if r.scope == "server" && |r.serverPublicIds| == 1 then Some(r.serverPublicIds[0]) else None)
  }

  /** The active-slot key of a request; `hash` stands for SHA-256 over scope and canonical JSON. */
  function RequestKey(hash: (string, InputParams) -> string, r: Request): Key {
    Key(r.scope, hash(r.scope, BuildInputParams(r)), r.view + "_report")
  }

  /** The hashed object determines the request up to the order of the servers, and nothing else. */
  lemma ParamsIdentifyRequest(a: Request, b: Request)
    requires a.scope == b.scope
    ensures BuildInputParams(a) == BuildInputParams(b)
       <==> && a.view == b.view && a.timeRange == b.timeRange && a.anchorAt == b.anchorAt
            && multiset(a.serverPublicIds) == multiset(b.serverPublicIds)
  {
    SortStringsCanonical(a.serverPublicIds, b.serverPublicIds);
    if multiset(a.serverPublicIds) == multiset(b.serverPublicIds) {
      SameElements(a.serverPublicIds, b.serverPublicIds);
      if |a.serverPublicIds| == 1 {
        assert b.serverPublicIds[0] in a.serverPublicIds;
      }
    }
  }

  /** What the key carries: the scope, the report type of the view, and the hash of the scope with the view,
      the sorted server ids, the range and the anchor; a lone server of scope "server" is named once more. */
  lemma KeyCarriesRequest(hash: (string, InputParams) -> string, r: Request)
    ensures exists p: InputParams {:trigger hash(r.scope, p)} ::
      && RequestKey(hash, r) == Key(r.scope, hash(r.scope, p), r.view + "_report")
      && p.view == r.view && p.timeRange == r.timeRange && p.anchorAt == r.anchorAt
      && multiset(p.serverPublicIds) == multiset(r.serverPublicIds)
      && (forall i, j | 0 <= i < j < |p.serverPublicIds| :: StrLe(p.serverPublicIds[i], p.serverPublicIds[j]))
      && (p.serverPublicId.Some? <==> r.scope == "server" && |r.serverPublicIds| == 1)
      && (p.serverPublicId.Some? ==> p.serverPublicId.value == r.serverPublicIds[0])
  {
    var p := BuildInputParams(r);
    SortStringsSorts(r.serverPublicIds);
    assert RequestKey(hash, r) == Key(r.scope, hash(r.scope, p), r.view + "_report");
  }

  /** With a hash that collides on no input, two requests share a slot exactly when they ask for the same
      report. */
  lemma KeyIdentifiesRequest(hash: (string, InputParams) -> string, a: Request, b: Request)
    requires forall s, t, p, q :: hash(s, p) == hash(t, q) ==> s == t && p == q
    ensures RequestKey(hash, a) == RequestKey(hash, b)
       <==> && a.scope == b.scope && a.view == b.view && a.timeRange == b.timeRange && a.anchorAt == b.anchorAt
            && multiset(a.serverPublicIds) == multiset(b.serverPublicIds)
  {
    if a.scope == b.scope {
      ParamsIdentifyRequest(a, b);
    }
  }

  /** Permuting the servers of a request keeps its key, for every hash function. */
  lemma KeyForgetsServerOrder(hash: (string, InputParams) -> string, r: Request, permuted: seq<string>)
    requires multiset(permuted) == multiset(r.serverPublicIds)
    ensures RequestKey(hash, r.(serverPublicIds := permuted)) == RequestKey(hash, r)
  {
    ParamsIdentifyRequest(r, r.(serverPublicIds := permuted));
  }

  /** What other sessions do before the INSERT of one round, and between it and the next statement. */
  datatype Gaps = Gaps(beforeInsert: seq<Event>, afterInsert: seq<Event>)

  /** The statements of one round: ours, with what others do around them. */
  function RoundEvents(
    key: Key, requestedBy: Option<string>, drawn: JobId, now: int, gaps: Gaps, committed: bool): seq<Event>
  {
    gaps.beforeInsert + [Insert(drawn, key, requestedBy, now)] + gaps.afterInsert
    + if committed then [Commit(drawn)] else []
  }

  predicate ForeignGaps(gaps: Gaps, mine: set<JobId>) {
    Foreign(gaps.beforeInsert, mine) && Foreign(gaps.afterInsert, mine)
  }

  /** A committed pending or running job of the key. */
  predicate ActiveFor(s: State, key: Key, id: JobId) {
    id in s.rows && s.rows[id].status in {Pending, Running} && s.rows[id].key == key
  }

  /** A committed pending or running job, or any job not committed yet, holds the key. */
  predicate SlotTaken(s: State, key: Key) {
    || (exists id | id in s.rows :: ActiveFor(s, key, id))
    || (exists id | id in s.inflight :: s.inflight[id].key == key)
  }

  /** The INSERT of a round hit the active index and the recovery SELECT saw no committed job. */
  ghost predicate Conflicted(log: seq<State>, key: Key, atInsert: nat, atSelect: nat) {
    && atInsert < |log| && atSelect < |log| && SlotTaken(log[atInsert], key)
    && forall id | id in log[atSelect].rows :: !ActiveFor(log[atSelect], key, id)
  }

  /** The row of a request as the queue first shows it. */
  predicate FreshRow(s: State, id: JobId, key: Key, requestedBy: Option<string>, now: int) {
    && id in s.rows
    && s.rows[id] == Job(key, Pending, Some(Queued), None, None, now, None, None, requestedBy)
  }

  ghost predicate InOrder(instants: seq<nat>, lo: int, hi: int) {
    && (forall k | 0 <= k < |instants| :: lo <= instants[k] < hi)
    && (forall j, k | 0 <= j < k < |instants| :: instants[j] <= instants[k])
  }

  /** What a call promises.  `instants` are the positions in the log at which its INSERTs, SELECTs
      and COMMIT saw the table.
      - A returned job has the requested key and was active at an instant of the call.
      - It is a new job, just as it was requested, exactly when the slot was free at its INSERT.
      - There is a second round only after a first one that conflicted and found nothing.
      - The error means that both rounds conflicted and found nothing; with no statement between the
        second round's INSERT and SELECT, only an uncommitted competitor can cause it. */
  ghost predicate EnqueueOutcome(
    log: seq<State>, key: Key, requestedBy: Option<string>, now: int, drawn: seq<JobId>, id: Option<JobId>,
    instants: seq<nat>, quietSecondRound: bool)
    requires |drawn| == 2
  {
    && |instants| in {2, 4}
    && (forall k | 0 <= k < |instants| :: instants[k] < |log|)
    && (|instants| == 4 ==> Conflicted(log, key, instants[0], instants[1]))
    && match id
       case Some(job) =>
         var rounds := |instants| / 2;
         var atInsert, atEnd := log[instants[2 * rounds - 2]], log[instants[2 * rounds - 1]];
         && ActiveFor(atEnd, key, job)
         && (job == drawn[rounds - 1] <==> !SlotTaken(atInsert, key))
         && (job == drawn[rounds - 1] ==> FreshRow(atEnd, job, key, requestedBy, now))
       case None =>
         && |instants| == 4
         && Conflicted(log, key, instants[2], instants[3])
         && (quietSecondRound ==>
               exists other | other in log[instants[2]].inflight :: log[instants[2]].inflight[other].key == key)
  }

  /** Nothing happened between INSERT and SELECT: the slot is held by a row that is not committed. */
  lemma OnlyInflight(s: State, log: seq<State>, key: Key, atInsert: nat, atSelect: nat)
    requires Conflicted(log, key, atInsert, atSelect) && log[atInsert] == log[atSelect] == s
    ensures exists other | other in s.inflight :: s.inflight[other].key == key
  {
  }

  lemma NotStoredYet(s: State, events: seq<Event>, mine: set<JobId>)
    requires s == After(events)
    requires forall d | d in mine :: d !in s.issued
    ensures forall d | d in mine :: d !in s.inflight && d !in s.rows
  {
    AfterInv(events);
  }

  lemma SlotTakenIff(s: State, key: Key)
    ensures SlotTaken(s, key) <==>
      || (exists j | j in s.rows :: s.rows[j].key == key && s.rows[j].status in {Pending, Running})
      || (exists j | j in s.inflight :: s.inflight[j].key == key)
  {
    if j :| j in s.rows && s.rows[j].key == key && s.rows[j].status in {Pending, Running} {
      assert ActiveFor(s, key, j);
    }
  }

  lemma CommitIs(s: State, id: JobId)
    requires id in s.inflight
    ensures JobTable.Apply(s, Commit(id)) ==
      s.(rows := s.rows[id := s.inflight[id]], inflight := s.inflight - {id})
  {
  }

  class Service {
    const repo: DiagnosticRepository
    const hash: (string, InputParams) -> string

    constructor (repo: DiagnosticRepository, hash: (string, InputParams) -> string)
      ensures this.repo == repo && this.hash == hash
    {
      this.repo := repo;
      this.hash := hash;
    }

    method EnqueueReport(
      r: Request, requestedBy: Option<string>, drawn: seq<JobId>, now: int, others: seq<Gaps>)
      returns (id: Option<JobId>, ghost instants: seq<nat>)
      requires repo.Valid()
      requires |drawn| == |others| == ENQUEUE_MAX_ATTEMPTS && drawn[0] != drawn[1]
      requires forall k | 0 <= k < |drawn| :: drawn[k] !in repo.table.issued
      requires forall k | 0 <= k < |others| :: ForeignGaps(others[k], {drawn[0], drawn[1]})
      modifies repo
      ensures repo.Valid() && old(repo.log) <= repo.log
      ensures InOrder(instants, |old(repo.log)| - 1, |repo.log|)
      ensures repo.events == old(repo.events)
        + RoundEvents(RequestKey(hash, r), requestedBy, drawn[0], now, others[0], id == Some(drawn[0]))
        + if |instants| == 2 then []
          else RoundEvents(RequestKey(hash, r), requestedBy, drawn[1], now, others[1], id == Some(drawn[1]))
      ensures EnqueueOutcome(
        repo.log, RequestKey(hash, r), requestedBy, now, drawn, id, instants, others[1].afterInsert == [])
      ensures forall k | 0 <= k < |drawn| ::
        drawn[k] !in repo.table.inflight && (drawn[k] in repo.table.issued ==> id == Some(drawn[k]))
    {
      id, instants := EnqueueKey(RequestKey(hash, r), requestedBy, drawn, now, others, {drawn[0], drawn[1]});
    }

    /** The retry loop.  None is the source's ReportEnqueueError. */
    method EnqueueKey(
      key: Key, requestedBy: Option<string>, drawn: seq<JobId>, now: int, others: seq<Gaps>, ghost mine: set<JobId>)
      returns (id: Option<JobId>, ghost instants: seq<nat>)
      requires repo.Valid()
      requires |drawn| == |others| == ENQUEUE_MAX_ATTEMPTS && drawn[0] != drawn[1] && mine == {drawn[0], drawn[1]}
      requires forall d | d in mine :: d !in repo.table.issued
      requires forall k | 0 <= k < |others| :: ForeignGaps(others[k], mine)
      modifies repo
      ensures repo.Valid() && old(repo.log) <= repo.log
      ensures InOrder(instants, |old(repo.log)| - 1, |repo.log|)
      ensures repo.events == old(repo.events)
        + RoundEvents(key, requestedBy, drawn[0], now, others[0], id == Some(drawn[0]))
        + if |instants| == 2 then []
          else RoundEvents(key, requestedBy, drawn[1], now, others[1], id == Some(drawn[1]))
      ensures EnqueueOutcome(repo.log, key, requestedBy, now, drawn, id, instants, others[1].afterInsert == [])
      ensures forall d | d in mine :: d !in repo.table.inflight && (d in repo.table.issued ==> id == Some(d))
    {
      hide ActiveFor, FreshRow, SlotTaken, RoundEvents, DiagnosticRepository.Valid;
      instants := [];
      id := None;
      for attempt := 0 to ENQUEUE_MAX_ATTEMPTS
        invariant repo.Valid() && old(repo.log) <= repo.log
        invariant forall d | d in mine :: d !in repo.table.issued && (attempt > 0 ==> d !in repo.table.inflight)
        invariant id.None? && |instants| == 2 * attempt
        invariant InOrder(instants, |old(repo.log)| - 1, |repo.log|)
        invariant repo.events == old(repo.events)
          + (if attempt < 1 then [] else RoundEvents(key, requestedBy, drawn[0], now, others[0], false))
          + if attempt < 2 then [] else RoundEvents(key, requestedBy, drawn[1], now, others[1], false)
        invariant attempt >= 1 ==> Conflicted(repo.log, key, instants[0], instants[1])
        invariant attempt == 2 ==> Conflicted(repo.log, key, instants[2], instants[3])
        invariant attempt == 2 && others[1].afterInsert == [] ==> repo.log[instants[2]] == repo.log[instants[3]]
      {
        ghost var atInsert, atEnd;
        id, atInsert, atEnd := EnqueueRound(key, requestedBy, drawn[attempt], now, others[attempt], mine);
        instants := instants + [atInsert, atEnd];
        if id.Some? {
          return id, instants;
        }
      }
      if others[1].afterInsert == [] {
        OnlyInflight(repo.log[instants[2]], repo.log, key, instants[2], instants[3]);
      }
    }

    /** One round: INSERT, then either COMMIT or the recovery SELECT and ROLLBACK. */
    method EnqueueRound(
      key: Key, requestedBy: Option<string>, drawn: JobId, now: int, gaps: Gaps, ghost mine: set<JobId>)
      returns (id: Option<JobId>, ghost atInsert: nat, ghost atEnd: nat)
      requires repo.Valid() && drawn in mine
      requires forall d | d in mine :: d !in repo.table.issued
      requires ForeignGaps(gaps, mine)
      modifies repo
      ensures repo.Valid() && old(repo.log) <= repo.log
      ensures repo.events == old(repo.events) + RoundEvents(key, requestedBy, drawn, now, gaps, id == Some(drawn))
      ensures |old(repo.log)| - 1 <= atInsert <= atEnd < |repo.log|
      ensures id.Some? ==> ActiveFor(repo.log[atEnd], key, id.value)
      ensures id == Some(drawn) <==> !SlotTaken(repo.log[atInsert], key)
      ensures id.Some? && id.value in mine ==> id.value == drawn
      ensures id == Some(drawn) ==> FreshRow(repo.log[atEnd], drawn, key, requestedBy, now)
      ensures id.None? ==> Conflicted(repo.log, key, atInsert, atEnd)
      ensures id.None? && gaps.afterInsert == [] ==> repo.log[atInsert] == repo.log[atEnd]
      ensures forall d | d in mine :: d !in repo.table.inflight && (d in repo.table.issued ==> id == Some(d))
    {
      hide JobTable.Apply, Enabled, After, Occupied, Foreign, SlotTaken;
      NotStoredYet(repo.table, repo.events, mine);
      repo.Interleave(gaps.beforeInsert, mine);
      atInsert := |repo.log| - 1;
      SlotTakenIff(repo.table, key);
      id := repo.Enqueue(JobCreate(key, requestedBy), drawn, now);
      repo.Interleave(gaps.afterInsert, mine);
      if id.Some? {
        CommitIs(repo.table, drawn);
        repo.Step(Commit(drawn));
      } else {
        id := repo.GetActiveByHash(key);
      }
      atEnd := |repo.log| - 1;
    }

    /** The finished snapshot, inserted and succeeded in one transaction.  A double click on an
        active key returns that job instead, or None when it is no longer visible. */
    method EmitReport(
      r: Request, result: string, requestedBy: Option<string>, drawn: JobId, now: int,
      afterInsert: seq<Event>, beforeCommit: seq<Event>)
      returns (id: Option<JobId>)
      requires repo.Valid() && drawn !in repo.table.issued
      requires Foreign(afterInsert, {drawn}) && Foreign(beforeCommit, {drawn})
      modifies repo
      ensures repo.Valid() && old(repo.log) <= repo.log
      ensures repo.events == old(repo.events) + [Insert(drawn, RequestKey(hash, r), requestedBy, now)] + afterInsert
        + if id == Some(drawn) then [FinishOwn(drawn, result, now)] + beforeCommit + [Commit(drawn)] else []
      ensures id == Some(drawn) <==> !SlotTaken(old(repo.table), RequestKey(hash, r))
      ensures id == Some(drawn) ==>
        && drawn in repo.table.rows
        && repo.table.rows[drawn] ==
             Job(RequestKey(hash, r), Succeeded, None, Some(result), None, now, None, Some(now), requestedBy)
      // nobody ever reads the emitted row in an active status, so no worker claims it
      ensures forall k | |old(repo.log)| <= k < |repo.log| && drawn in repo.log[k].rows ::
        repo.log[k].rows[drawn].status == Succeeded
      ensures id != Some(drawn) ==> drawn !in repo.table.issued
      ensures id.Some? && id != Some(drawn) ==> ActiveFor(repo.table, RequestKey(hash, r), id.value)
      ensures id.None? ==> forall j | j in repo.table.rows :: !ActiveFor(repo.table, RequestKey(hash, r), j)
      ensures drawn !in repo.table.inflight
    {
      var key := RequestKey(hash, r);
      hide After, Foreign, Stale, Expired, Oldest;
      NotStoredYet(repo.table, repo.events, {drawn});
      var newId := repo.Enqueue(JobCreate(key, requestedBy), drawn, now);
      repo.Interleave(afterInsert, {drawn});
      if newId.None? {
        id := repo.GetActiveByHash(key);
        return id;
      }
      FinishAndCommit(RequestKey(hash, r), result, requestedBy, drawn, now, beforeCommit);
      return newId;
    }

    /** The rest of the transaction: the open row is finished, then committed. */
    method FinishAndCommit(key: Key, result: string, requestedBy: Option<string>, drawn: JobId, now: int,
                           beforeCommit: seq<Event>)
      requires repo.Valid() && Foreign(beforeCommit, {drawn}) && drawn !in repo.table.rows
      requires drawn in repo.table.inflight && repo.table.inflight[drawn] == QueuedJob(key, requestedBy, now)
      modifies repo
      ensures repo.Valid() && old(repo.log) <= repo.log
      ensures repo.events == old(repo.events) + [FinishOwn(drawn, result, now)] + beforeCommit + [Commit(drawn)]
      ensures drawn in repo.table.rows && drawn !in repo.table.inflight
      ensures repo.table.rows[drawn] == SucceededJob(QueuedJob(key, requestedBy, now), result, now)
      ensures forall k | |old(repo.log)| <= k < |repo.log| && drawn in repo.log[k].rows ::
        repo.log[k].rows[drawn].status == Succeeded
    {
      repo.Step(FinishOwn(drawn, result, now));
      repo.Interleave(beforeCommit, {drawn});
      repo.Step(Commit(drawn));
    }
  }
}
