/**
 The report workers on top of the job table: what a worker does with a claimed job, and which
 terminal writes reach the table.  A database call may raise, and a raising call may or may not have
 been committed (a lost acknowledgement), so every call carries its outcome.
 */
module ReportWorker {
  import opened Wrappers
  import T = JobTable

  type WorkerId = nat
  type JobId = T.JobId

  datatype Call = Ok | RaisedUnapplied | RaisedApplied {
    predicate Applied() { !RaisedUnapplied? }
  }

  /** Where a running worker process is in its loop. */
  datatype Pc = Idle | Generating(job: JobId) | MustFail(job: JobId)

  datatype Fleet = Fleet(db: T.State, pcs: map<WorkerId, Pc>, writes: map<JobId, nat>)

  const Initial := Fleet(T.Empty, map[], map[])

  datatype Action =
    | Start(w: WorkerId, staleSeconds: int, now: int, call: Call)
    | Claim(w: WorkerId, id: JobId, locked: set<JobId>, now: int, call: Call)
    | Generated(w: WorkerId, result: string, now: int, call: Call)
    | NotGenerated(w: WorkerId, message: string, now: int, call: Call)
    | FailAfterRaise(w: WorkerId, now: int, call: Call)
    | Stop(w: WorkerId)
    | Web(event: T.Event)

  predicate Holds(f: Fleet, w: WorkerId, id: JobId) {
    w in f.pcs && f.pcs[w] in {Generating(id), MustFail(id)}
  }

  predicate Enabled(f: Fleet, a: Action) {
    match a
    case Start(w, _, _, _) => w !in f.pcs
    case Claim(w, id, locked, _, _) => w in f.pcs && f.pcs[w].Idle? && T.Oldest(f.db.rows, locked, id)
    case Generated(w, _, _, _) => w in f.pcs && f.pcs[w].Generating?
    case NotGenerated(w, _, _, _) => w in f.pcs && f.pcs[w].Generating?
    case FailAfterRaise(w, _, _) => w in f.pcs && f.pcs[w].MustFail?
    case Stop(w) => w in f.pcs
    case Web(e) => T.Enabled(f.db, e) && (e.Insert? || e.FinishOwn? || e.Commit? || e.Rollback? || e.Retain?)
  }

  /** The statement an action sends to the table. */
  function Statement(f: Fleet, a: Action): T.Event
    requires Enabled(f, a) && !a.Stop?
  {
    match a
    case Start(_, staleSeconds, now, _) => T.Recover(staleSeconds, now)
    case Claim(_, id, locked, now, _) => T.Claim(id, locked, now)
    case Generated(w, result, now, _) => T.Succeed(f.pcs[w].job, result, now)
    case NotGenerated(w, message, now, _) => T.Fail(f.pcs[w].job, message, now)
    case FailAfterRaise(w, now, _) => T.Fail(f.pcs[w].job, "internal error", now)
    case Web(e) => e
  }

  /** Whether the statement of an action takes effect. */
  predicate TakesEffect(a: Action) {
    match a
    case Stop(_) => false
    case Web(_) => true
    case _ => a.call.Applied()
  }

  /** A terminal write: the statement puts a row into a terminal status. */
  predicate WritesTerminal(s: T.State, e: T.Event) {
    (e.Succeed? || e.Fail? || e.FinishOwn?) && T.Enabled(s, e)
  }

  function WriteCount(f: Fleet, id: JobId): nat {
    if id in f.writes then f.writes[id] else 0
  }

  function SendTo(f: Fleet, e: T.Event): Fleet {
    f.(db := T.Apply(f.db, e),
       writes := if WritesTerminal(f.db, e) then f.writes[e.id := WriteCount(f, e.id) + 1] else f.writes)
  }

  function NextPcs(f: Fleet, a: Action): map<WorkerId, Pc>
    requires Enabled(f, a)
  {
    match a
    case Start(w, _, _, _) => f.pcs[w := Idle]
    case Claim(w, id, _, _, call) => if call.Ok? then f.pcs[w := Generating(id)] else f.pcs
    case Generated(w, _, _, call) => f.pcs[w := if call.Ok? then Idle else MustFail(f.pcs[w].job)]
    case NotGenerated(w, _, _, _) => f.pcs[w := Idle]
    case FailAfterRaise(w, _, _) => f.pcs[w := Idle]
    case Stop(w) => f.pcs - {w}
    case Web(_) => f.pcs
  }

  function Apply(f: Fleet, a: Action): Fleet {
    if !Enabled(f, a) then f else
      var sent := if TakesEffect(a) then SendTo(f, Statement(f, a)) else f;
      sent.(pcs := NextPcs(f, a))
  }

  function After(actions: seq<Action>): Fleet {
    if actions == [] then Initial else Apply(After(actions[..|actions| - 1]), actions[|actions| - 1])
  }

  /** The fleet adds nothing to the table: whatever the workers do, it has been led there by its statements. */
  lemma {:induction false} FleetRunsTheTable(actions: seq<Action>)
    ensures T.Reachable(After(actions).db)
  {
    if actions == [] {
      assert T.After([]) == T.Empty;
    } else {
      var prior, a := After(actions[..|actions| - 1]), actions[|actions| - 1];
      FleetRunsTheTable(actions[..|actions| - 1]);
      if Enabled(prior, a) && TakesEffect(a) {
        T.ReachableStep(prior.db, Statement(prior, a));
      }
    }
  }

  predicate FromWeb(e: T.Event) {
    e.Insert? || e.FinishOwn? || e.Commit? || e.Rollback? || e.Retain?
  }

  /** The web process and its retention job may do anything they like next to the workers. */
  lemma {:induction false} WebRunsFreely(es: seq<T.Event>)
    requires forall k | 0 <= k < |es| :: FromWeb(es[k])
    ensures After(seq(|es|, k requires 0 <= k < |es| => Web(es[k]))).db == T.After(es)
  {
    if es != [] {
      var actions, prior := seq(|es|, k requires 0 <= k < |es| => Web(es[k])), es[..|es| - 1];
      assert actions[..|es| - 1] == seq(|prior|, k requires 0 <= k < |prior| => Web(prior[k]));
      WebRunsFreely(prior);
    }
  }

  /** The actions of others, and the claims, that leave worker `w` at its job. */
  predicate LeavesAtWork(a: Action, w: WorkerId) {
    a.Web? || a.w != w || a.Start? || a.Claim?
  }

  /** A worker works on one job until it finishes it, fails it or stops. */
  lemma {:induction false} HeldUntilFinished(actions: seq<Action>, n: nat, w: WorkerId, id: JobId)
    requires n <= |actions| && Holds(After(actions[..n]), w, id)
    requires forall k | n <= k < |actions| :: LeavesAtWork(actions[k], w)
    ensures Holds(After(actions), w, id)
  {
    if n == |actions| {
      assert actions[..n] == actions;
    } else {
      var prior := actions[..|actions| - 1];
      assert prior[..n] == actions[..n];
      HeldUntilFinished(prior, n, w, id);
    }
  }

  // ---------------------------------------------------------------- one terminal write per job

  /** The two assumptions: a recovery finds no running job whose claimer is still at work, and a
      raising `finish_succeeded` did not commit. */
  predicate Safe(f: Fleet, a: Action) {
    && (a.Start? && a.call.Applied() ==>
          forall id, w | id in f.db.rows && w in f.pcs ::
            T.Stale(f.db.rows[id], a.staleSeconds, a.now) ==> !Holds(f, w, id))
    && (a.Generated? ==> !a.call.RaisedApplied?)
  }

  ghost predicate SafeRun(actions: seq<Action>) {
    forall k | 0 <= k < |actions| :: Safe(After(actions[..k]), actions[k])
  }

  /** A job has been written once if it is terminal and not at all before. */
  predicate WrittenOnce(f: Fleet, id: JobId, job: T.Job) {
    && WriteCount(f, id) == (if job.Terminal() then 1 else 0)
    && (job.Terminal() ==> (job.result.Some? <==> job.errorMessage.None?))
  }

  predicate ClaimersAgree(f: Fleet) {
    && (forall w | w in f.pcs && !f.pcs[w].Idle? ::
          f.pcs[w].job in f.db.rows && f.db.rows[f.pcs[w].job].status == T.Running)
    && (forall v, w | v in f.pcs && w in f.pcs && !f.pcs[v].Idle? && !f.pcs[w].Idle? ::
          f.pcs[v].job == f.pcs[w].job ==> v == w)
  }

  predicate CountsAgree(f: Fleet) {
    && (forall id | id in f.db.rows :: WrittenOnce(f, id, f.db.rows[id]))
    && (forall id | id in f.db.inflight :: WrittenOnce(f, id, f.db.inflight[id]))
    && (forall id | id in f.writes :: id in f.db.issued && f.writes[id] <= 1)
  }

  predicate FleetInv(f: Fleet) {
    T.Inv(f.db) && ClaimersAgree(f) && CountsAgree(f)
  }

  lemma TransactionKeepsClaimers(f: Fleet, a: Action)
    requires T.WellStored(f.db) && ClaimersAgree(f)
    requires a.Web? && Enabled(f, a) && !a.event.Retain?
    ensures ClaimersAgree(Apply(f, a))
  {
  }

  lemma TransactionKeepsCounts(f: Fleet, a: Action)
    requires T.WellStored(f.db) && CountsAgree(f)
    requires a.Web? && Enabled(f, a) && !a.event.Retain?
    ensures CountsAgree(Apply(f, a))
  {
  }

  lemma RetentionKeepsFleet(f: Fleet, a: Action)
    requires T.WellStored(f.db) && ClaimersAgree(f) && CountsAgree(f)
    requires a.Web? && Enabled(f, a) && a.event.Retain?
    ensures ClaimersAgree(Apply(f, a)) && CountsAgree(Apply(f, a))
  {
  }

  lemma RecoveryKeepsCounts(f: Fleet, a: Action)
    requires T.WellStored(f.db) && CountsAgree(f)
    requires Enabled(f, a) && a.Start?
    ensures CountsAgree(Apply(f, a))
  {
  }

  lemma RecoveryKeepsClaimers(f: Fleet, a: Action)
    requires T.WellStored(f.db) && ClaimersAgree(f)
    requires Enabled(f, a) && Safe(f, a) && a.Start?
    ensures ClaimersAgree(Apply(f, a))
  {
    var g := Apply(f, a);
    forall w | w in g.pcs && !g.pcs[w].Idle?
      ensures g.pcs[w].job in g.db.rows && g.db.rows[g.pcs[w].job].status == T.Running
    {
      assert Holds(f, w, f.pcs[w].job);
    }
  }

  lemma ClaimKeepsClaimers(f: Fleet, a: Action)
    requires T.WellStored(f.db) && ClaimersAgree(f)
    requires Enabled(f, a) && a.Claim?
    ensures ClaimersAgree(Apply(f, a))
  {
  }

  lemma ClaimKeepsCounts(f: Fleet, a: Action)
    requires T.WellStored(f.db) && CountsAgree(f)
    requires Enabled(f, a) && a.Claim?
    ensures CountsAgree(Apply(f, a))
  {
  }

  lemma ClaimKeepsFleet(f: Fleet, a: Action)
    requires T.WellStored(f.db) && ClaimersAgree(f) && CountsAgree(f)
    requires Enabled(f, a) && a.Claim?
    ensures ClaimersAgree(Apply(f, a)) && CountsAgree(Apply(f, a))
  {
    ClaimKeepsClaimers(f, a);
    ClaimKeepsCounts(f, a);
  }

  /** A worker that holds a running job writes it terminal and goes idle. */
  lemma HolderLeaves(f: Fleet, w: WorkerId, e: T.Event)
    requires ClaimersAgree(f) && (e.Succeed? || e.Fail?) && Holds(f, w, e.id)
    ensures ClaimersAgree(SendTo(f, e).(pcs := f.pcs[w := Idle]))
  {
  }

  lemma HolderCounts(f: Fleet, e: T.Event)
    requires T.WellStored(f.db) && CountsAgree(f)
    requires (e.Succeed? || e.Fail?) && e.id in f.db.rows && f.db.rows[e.id].status == T.Running
    ensures CountsAgree(SendTo(f, e))
  {
    var g := SendTo(f, e);
    assert T.Coupled(f.db.rows[e.id]) && WrittenOnce(f, e.id, f.db.rows[e.id]);
    assert g.writes == f.writes[e.id := 1] && g.db.inflight == f.db.inflight;
    forall id | id in g.db.inflight ensures WrittenOnce(g, id, g.db.inflight[id]) {
      assert WrittenOnce(f, id, f.db.inflight[id]);
    }
  }

  /** The actions that end a claim, or leave it to a later call. */
  predicate Finishes(a: Action) {
    a.Generated? || a.NotGenerated? || a.FailAfterRaise?
  }

  lemma FinishKeepsClaimers(f: Fleet, a: Action)
    requires ClaimersAgree(f) && Enabled(f, a) && Safe(f, a) && Finishes(a)
    ensures ClaimersAgree(Apply(f, a))
  {
    if TakesEffect(a) {
      HolderLeaves(f, a.w, Statement(f, a));
      assert Apply(f, a) == SendTo(f, Statement(f, a)).(pcs := f.pcs[a.w := Idle]);
    }
  }

  lemma FinishKeepsCounts(f: Fleet, a: Action)
    requires T.WellStored(f.db) && ClaimersAgree(f) && CountsAgree(f) && Enabled(f, a) && Finishes(a)
    ensures CountsAgree(Apply(f, a))
  {
    if TakesEffect(a) {
      HolderCounts(f, Statement(f, a));
      assert Apply(f, a) == SendTo(f, Statement(f, a)).(pcs := NextPcs(f, a));
    }
  }

  lemma FinishKeepsFleet(f: Fleet, a: Action)
    requires T.WellStored(f.db) && ClaimersAgree(f) && CountsAgree(f)
    requires Enabled(f, a) && Safe(f, a) && Finishes(a)
    ensures ClaimersAgree(Apply(f, a)) && CountsAgree(Apply(f, a))
  {
    FinishKeepsClaimers(f, a);
    FinishKeepsCounts(f, a);
  }

  lemma SafeStepKeepsInv(f: Fleet, a: Action)
    requires FleetInv(f) && Safe(f, a)
    ensures FleetInv(Apply(f, a))
  {
    if Enabled(f, a) {
      if TakesEffect(a) {
        T.ApplyKeepsInv(f.db, Statement(f, a));
      }
      match a
      case Start(_, _, _, _) => RecoveryKeepsClaimers(f, a); RecoveryKeepsCounts(f, a);
      case Claim(_, _, _, _, _) => ClaimKeepsFleet(f, a);
      case Generated(_, _, _, _) => FinishKeepsFleet(f, a);
      case NotGenerated(_, _, _, _) => FinishKeepsFleet(f, a);
      case FailAfterRaise(_, _, _) => FinishKeepsFleet(f, a);
      case Stop(_) =>
      case Web(e) =>
        if e.Retain? {
          RetentionKeepsFleet(f, a);
        } else {
          TransactionKeepsClaimers(f, a);
          TransactionKeepsCounts(f, a);
        }
    }
  }

  lemma {:induction false} SafeRunInv(actions: seq<Action>)
    requires SafeRun(actions)
    ensures FleetInv(After(actions))
  {
    if actions != [] {
      var prior := actions[..|actions| - 1];
      forall k | 0 <= k < |prior| ensures Safe(After(prior[..k]), prior[k]) {
        assert prior[..k] == actions[..k];
      }
      SafeRunInv(prior);
      SafeStepKeepsInv(After(prior), actions[|actions| - 1]);
    }
  }

  /** Under the two assumptions every job gets exactly one terminal write when it becomes terminal
      and none before, no job ever gets a second one, and a terminal job carries either a result or
      an error message, never both. */
  lemma ExactlyOneTerminalWrite(actions: seq<Action>, id: JobId)
    requires SafeRun(actions)
    ensures WriteCount(After(actions), id) <= 1
    ensures id in After(actions).db.rows ==>
      var job := After(actions).db.rows[id];
      && (WriteCount(After(actions), id) == 1 <==> job.Terminal())
      && (job.Terminal() ==> (job.result.Some? <==> job.errorMessage.None?))
      && (job.Active() ==> job.result.None? && job.errorMessage.None?)
  {
    SafeRunInv(actions);
  }

  /** Two workers never work on the same job. */
  lemma OneClaimerPerJob(actions: seq<Action>, v: WorkerId, w: WorkerId, id: JobId)
    requires SafeRun(actions)
    requires Holds(After(actions), v, id) && Holds(After(actions), w, id)
    ensures v == w && id in After(actions).db.rows && After(actions).db.rows[id].status == T.Running
  {
    SafeRunInv(actions);
  }

  // ---------------------------------------------------------------- the assumptions are needed

  function RunFrom(f: Fleet, actions: seq<Action>): Fleet
    decreases actions
  {
    if actions == [] then f else RunFrom(Apply(f, actions[0]), actions[1..])
  }

  lemma RunFromCons(f: Fleet, a: Action, rest: seq<Action>)
    ensures RunFrom(f, [a] + rest) == RunFrom(Apply(f, a), rest)
  {
    assert ([a] + rest)[1..] == rest;
  }

  /** Some continuation of the run writes a job a second time. */
  ghost predicate CanWriteTwice(f: Fleet) {
    exists actions, id :: WriteCount(RunFrom(f, actions), id) > 1
  }

  lemma WrittenTwice(f: Fleet, actions: seq<Action>, id: JobId)
    requires WriteCount(RunFrom(f, actions), id) > 1
    ensures CanWriteTwice(f)
  {
  }

  /** A recovery that takes a job from a worker still at work lets two workers write it. */
  lemma UnsafeRecoveryCanWriteTwice(f: Fleet, a: Action, w: WorkerId, id: JobId)
    requires FleetInv(f) && Enabled(f, a) && a.Start? && a.call.Applied()
    requires id in f.db.rows && Holds(f, w, id) && T.Stale(f.db.rows[id], a.staleSeconds, a.now)
    ensures CanWriteTwice(Apply(f, a))
  {
    var g := Apply(f, a);
    var claim := Claim(a.w, id, g.db.rows.Keys - {id}, a.now, Ok);
    RecoveredJobIsClaimable(f, a, w, id);
    var g1 := Apply(g, claim);
    var late := if f.pcs[w].Generating? then Generated(w, "", a.now, Ok) else FailAfterRaise(w, a.now, Ok);
    HolderCanWrite(g1, w, id, late);
    var g2 := Apply(g1, late);
    var second := Generated(a.w, "", a.now, Ok);
    HolderCanWrite(g2, a.w, id, second);
    RunFromCons(g, claim, [late] + [second]);
    RunFromCons(g1, late, [second]);
    RunFromCons(g2, second, []);
    assert [second] + [] == [second];
    WrittenTwice(g, [claim] + ([late] + [second]), id);
  }

  lemma RecoveredJobIsClaimable(f: Fleet, a: Action, w: WorkerId, id: JobId)
    requires Enabled(f, a) && a.Start? && a.call.Applied()
    requires id in f.db.rows && Holds(f, w, id) && T.Stale(f.db.rows[id], a.staleSeconds, a.now)
    ensures var g := Apply(f, a);
      var g1 := Apply(g, Claim(a.w, id, g.db.rows.Keys - {id}, a.now, Ok));
      w != a.w && id in g1.db.rows && w in g1.pcs && g1.pcs[w] == f.pcs[w] && a.w in g1.pcs
        && g1.pcs[a.w] == Generating(id)
  {
    var g := Apply(f, a);
    assert g.db.rows[id] == T.RequeuedJob(f.db.rows[id]);
    assert T.Oldest(g.db.rows, g.db.rows.Keys - {id}, id);
  }

  /** A worker that holds an existing row adds one terminal write and leaves the others alone. */
  lemma HolderCanWrite(f: Fleet, w: WorkerId, id: JobId, a: Action)
    requires w in f.pcs && id in f.db.rows
    requires (a.Generated? && f.pcs[w] == Generating(id)) || (a.FailAfterRaise? && f.pcs[w] == MustFail(id))
    requires a.w == w && a.call.Ok?
    ensures var g := Apply(f, a);
      && WriteCount(g, id) == WriteCount(f, id) + 1 && id in g.db.rows
      && g.pcs == f.pcs[w := Idle]
  {
  }

  /** A committed `finish_succeeded` that raises is followed by `finish_failed` on the same job. */
  lemma LostAcknowledgementCanWriteTwice(f: Fleet, a: Action)
    requires FleetInv(f) && Enabled(f, a) && a.Generated? && a.call.RaisedApplied?
    ensures CanWriteTwice(Apply(f, a))
  {
    var id := f.pcs[a.w].job;
    var g := Apply(f, a);
    assert WriteCount(g, id) == WriteCount(f, id) + 1;
    var again := FailAfterRaise(a.w, a.now, Ok);
    HolderCanWrite(g, a.w, id, again);
    RunFromCons(g, again, []);
    WrittenTwice(g, [again] + [], id);
  }

  /** Each assumption is necessary: from any good state, an action that breaks one of them opens a
      continuation in which some job is written twice. */
  lemma UnsafeActionCanWriteTwice(f: Fleet, a: Action)
    requires FleetInv(f) && Enabled(f, a) && !Safe(f, a)
    ensures CanWriteTwice(Apply(f, a))
  {
    if a.Start? {
      var id, w :| id in f.db.rows && w in f.pcs && T.Stale(f.db.rows[id], a.staleSeconds, a.now) && Holds(f, w, id);
      UnsafeRecoveryCanWriteTwice(f, a, w, id);
    } else {
      LostAcknowledgementCanWriteTwice(f, a);
    }
  }

  const EXAMPLE_KEY := T.Key("server", "h", "customer_report")

  const EXAMPLE_JOB := T.QueuedJob(EXAMPLE_KEY, None, 0)

  const TWICE_WRITTEN_JOB :=
    T.Job(EXAMPLE_KEY, T.Failed, None, Some("snapshot"), Some("internal error"), 0, Some(2), Some(4), None)

  /** A job is enqueued and worker 1 claims it. */
  const ENQUEUED := [Web(T.Insert(0, EXAMPLE_KEY, None, 0)), Web(T.Commit(0))]
  const CLAIMED := [Start(1, 600, 1, Ok), Claim(1, 0, {}, 2, Ok)]

  /** A finish that was committed raises, and the worker fails the job. */
  const WRITTEN_TWICE := [Generated(1, "snapshot", 3, RaisedApplied), FailAfterRaise(1, 4, Ok)]

  /** A run from the empty system with one lost acknowledgement: the job ends up failed, with a result
      and an error message, after two terminal writes. */
  lemma LostAcknowledgementExample()
    ensures var end := RunFrom(Initial, ENQUEUED + (CLAIMED + WRITTEN_TWICE));
      && WriteCount(end, 0) == 2
      && end.db.rows == map[0 := TWICE_WRITTEN_JOB]
  {
    hide Apply, RunFrom, T.ClaimedJob;
    EnqueuedExample();
    ClaimedExample(RunFrom(Initial, ENQUEUED));
    TwiceWrittenExample(RunFrom(RunFrom(Initial, ENQUEUED), CLAIMED));
    RunFromConcat(Initial, ENQUEUED, CLAIMED + WRITTEN_TWICE);
    RunFromConcat(RunFrom(Initial, ENQUEUED), CLAIMED, WRITTEN_TWICE);
  }

  lemma {:induction false} RunFromConcat(f: Fleet, a: seq<Action>, b: seq<Action>)
    ensures RunFrom(f, a + b) == RunFrom(RunFrom(f, a), b)
    decreases a
  {
    if a == [] {
      assert a + b == b;
    } else {
      assert (a + b)[1..] == a[1..] + b;
      RunFromConcat(Apply(f, a[0]), a[1..], b);
    }
  }

  lemma RunOfTwo(f: Fleet, a: Action, b: Action)
    ensures RunFrom(f, [a, b]) == Apply(Apply(f, a), b)
  {
    assert [a, b] == [a] + [b] && [b] == [b] + [];
    RunFromCons(f, a, [b]);
    RunFromCons(Apply(f, a), b, []);
  }

  lemma EnqueuedExample()
    ensures RunFrom(Initial, ENQUEUED)
         == Fleet(T.State(map[0 := EXAMPLE_JOB], map[], {0}), map[], map[])
  {
    var f1 := Fleet(T.State(map[], map[0 := EXAMPLE_JOB], {0}), map[], map[]);
    assert Apply(Initial, Web(T.Insert(0, EXAMPLE_KEY, None, 0))) == f1;
    RunOfTwo(Initial, Web(T.Insert(0, EXAMPLE_KEY, None, 0)), Web(T.Commit(0)));
  }

  /** A queued job is claimed by worker 1. */
  lemma ClaimedExample(f: Fleet)
    requires f == Fleet(T.State(map[0 := EXAMPLE_JOB], map[], {0}), map[], map[])
    ensures var g := RunFrom(f, CLAIMED);
      && g.db == T.State(map[0 := T.ClaimedJob(EXAMPLE_JOB, 2)], map[], {0})
      && g.pcs == map[1 := Generating(0)] && g.writes == map[]
  {
    assert Apply(f, Start(1, 600, 1, Ok)) == f.(pcs := map[1 := Idle]);
    RunOfTwo(f, Start(1, 600, 1, Ok), Claim(1, 0, {}, 2, Ok));
  }

  lemma TwiceWrittenExample(f: Fleet)
    requires f.db == T.State(map[0 := T.ClaimedJob(EXAMPLE_JOB, 2)], map[], {0})
    requires f.pcs == map[1 := Generating(0)] && f.writes == map[]
    ensures var end := RunFrom(f, WRITTEN_TWICE);
      && WriteCount(end, 0) == 2
      && end.db.rows == map[0 := TWICE_WRITTEN_JOB]
  {
    RunOfTwo(f, Generated(1, "snapshot", 3, RaisedApplied), FailAfterRaise(1, 4, Ok));
  }

  const SLOWLY_WRITTEN_JOB :=
    T.Job(EXAMPLE_KEY, T.Succeeded, None, Some("slow"), None, 0, Some(1001), Some(1003), None)

  /** Worker 2 starts and takes the job over, and then both finish it. */
  const RETAKEN := [Start(2, 600, 1000, Ok), Claim(2, 0, {}, 1001, Ok)]
  const WRITTEN_BY_BOTH := [Generated(2, "quick", 1002, Ok), Generated(1, "slow", 1003, Ok)]

  /** A run from the empty system in which the second worker's recovery takes the job from the first, who
      is still at work: both finish it, and the slower result stays. */
  lemma StaleRecoveryExample()
    ensures var end := RunFrom(Initial, ENQUEUED + (CLAIMED + (RETAKEN + WRITTEN_BY_BOTH)));
      && WriteCount(end, 0) == 2
      && end.db.rows == map[0 := SLOWLY_WRITTEN_JOB]
  {
    hide Apply, RunFrom, T.ClaimedJob, T.RequeuedJob;
    var f1 := RunFrom(Initial, ENQUEUED);
    var f2 := RunFrom(f1, CLAIMED);
    EnqueuedExample();
    ClaimedExample(f1);
    RetakenExample(f2);
    WrittenByBothExample(RunFrom(f2, RETAKEN));
    RunFromConcat(Initial, ENQUEUED, CLAIMED + (RETAKEN + WRITTEN_BY_BOTH));
    RunFromConcat(f1, CLAIMED, RETAKEN + WRITTEN_BY_BOTH);
    RunFromConcat(f2, RETAKEN, WRITTEN_BY_BOTH);
  }

  /** The job claimed again after the recovery. */
  const RETAKEN_JOB := T.ClaimedJob(T.RequeuedJob(EXAMPLE_JOB), 1001)

  /** Worker 2 starts, requeues the job of worker 1 as stale and claims it. */
  lemma RetakenExample(f: Fleet)
    requires f.db == T.State(map[0 := T.ClaimedJob(EXAMPLE_JOB, 2)], map[], {0})
    requires f.pcs == map[1 := Generating(0)] && f.writes == map[]
    ensures var g := RunFrom(f, RETAKEN);
      && g.db.rows == map[0 := RETAKEN_JOB]
      && g.pcs == map[1 := Generating(0), 2 := Generating(0)] && g.writes == map[]
  {
    RunOfTwo(f, RETAKEN[0], RETAKEN[1]);
    hide RunFrom;
    RequeuedExample(f);
    ClaimedAgainExample(Apply(f, RETAKEN[0]));
  }

  lemma RequeuedExample(f: Fleet)
    requires f.db == T.State(map[0 := T.ClaimedJob(EXAMPLE_JOB, 2)], map[], {0})
    requires f.pcs == map[1 := Generating(0)] && f.writes == map[]
    ensures var g := Apply(f, Start(2, 600, 1000, Ok));
      && g.db.rows == map[0 := T.RequeuedJob(EXAMPLE_JOB)]
      && g.pcs == map[1 := Generating(0), 2 := Idle] && g.writes == map[]
  {
  }

  lemma ClaimedAgainExample(f: Fleet)
    requires f.db.rows == map[0 := T.RequeuedJob(EXAMPLE_JOB)]
    requires f.pcs == map[1 := Generating(0), 2 := Idle] && f.writes == map[]
    ensures var g := Apply(f, Claim(2, 0, {}, 1001, Ok));
      && g.db.rows == map[0 := RETAKEN_JOB]
      && g.pcs == map[1 := Generating(0), 2 := Generating(0)] && g.writes == map[]
  {
  }

  lemma WrittenByBothExample(f: Fleet)
    requires f.db.rows == map[0 := RETAKEN_JOB]
    requires f.pcs == map[1 := Generating(0), 2 := Generating(0)] && f.writes == map[]
    ensures var end := RunFrom(f, WRITTEN_BY_BOTH);
      && WriteCount(end, 0) == 2
      && end.db.rows == map[0 := SLOWLY_WRITTEN_JOB]
  {
    var quick := T.SucceededJob(RETAKEN_JOB, "quick", 1002);
    RunOfTwo(f, WRITTEN_BY_BOTH[0], WRITTEN_BY_BOTH[1]);
    hide RunFrom;
    FinishedExample(f, 2, "quick", 1002, RETAKEN_JOB);
    FinishedExample(Apply(f, WRITTEN_BY_BOTH[0]), 1, "slow", 1003, quick);
  }

  /** A worker that holds job 0 finishes it. */
  lemma FinishedExample(f: Fleet, w: WorkerId, result: string, now: int, job: T.Job)
    requires f.db.rows == map[0 := job] && w in f.pcs && f.pcs[w] == Generating(0)
    ensures var g := Apply(f, Generated(w, result, now, Ok));
      && g.db.rows == map[0 := T.SucceededJob(job, result, now)]
      && g.pcs == f.pcs[w := Idle] && WriteCount(g, 0) == WriteCount(f, 0) + 1
  {
  }

  // ---------------------------------------------------------------- the worker loop

  /** How `build_report_result_for_job` ended. */
  datatype Generation = Report(result: string) | Refused(reason: string) | Crashed

  /** One turn of the loop: the rows other claimers hold, and how the turn's calls end. */
  datatype Turn = Turn(
    others: seq<Action>, locked: set<JobId>, claim: Call, generation: Generation,
    first: Call, between: seq<Action>, second: Call, now: int)

  /** Nobody else acts for worker `w`. */
  predicate OtherWorkers(actions: seq<Action>, w: WorkerId) {
    forall k | 0 <= k < |actions| :: !actions[k].Web? ==> actions[k].w != w
  }

  lemma OthersKeepPc(f: Fleet, a: Action, w: WorkerId)
    requires a.Web? || a.w != w
    ensures w in Apply(f, a).pcs <==> w in f.pcs
    ensures w in f.pcs ==> Apply(f, a).pcs[w] == f.pcs[w]
  {
  }

  lemma StartedIsIdle(f: Fleet, w: WorkerId, staleSeconds: int, now: int, call: Call)
    requires w !in f.pcs
    ensures var g := Apply(f, Start(w, staleSeconds, now, call)); w in g.pcs && g.pcs[w] == Idle
  {
  }

  lemma ClaimedPc(f: Fleet, w: WorkerId, id: JobId, turn: Turn)
    requires w in f.pcs && f.pcs[w].Idle? && T.Oldest(f.db.rows, turn.locked, id)
    ensures var g := Apply(f, Claim(w, id, turn.locked, turn.now, turn.claim));
      && w in g.pcs && g.pcs[w] == (if turn.claim.Ok? then Generating(id) else Idle)
      && (turn.claim.Applied() ==>
            id in g.db.rows && g.db.rows[id].status == T.Running && g.db.rows[id].startedAt == Some(turn.now))
  {
  }

  lemma NoTurnsYet(begun: seq<Action>, w: WorkerId)
    ensures LoopTrace(begun, w, [], []) == begun && AllPolled(begun, w, [], [])
  {
  }

  class System {
    var fleet: Fleet
    /** Every action so far. */
    ghost var trace: seq<Action>

    ghost predicate Valid()
      reads this
    {
      fleet == After(trace)
    }

    constructor ()
      ensures Valid() && trace == []
    {
      fleet := Initial;
      trace := [];
    }

    method Step(a: Action)
      requires Valid()
      modifies this
      ensures Valid() && fleet == Apply(old(fleet), a) && trace == old(trace) + [a]
    {
      fleet := Apply(fleet, a);
      trace := trace + [a];
      assert trace[..|trace| - 1] == old(trace);
    }

    method Interleave(actions: seq<Action>, w: WorkerId)
      requires Valid() && OtherWorkers(actions, w)
      modifies this
      ensures Valid() && trace == old(trace) + actions
      ensures w in fleet.pcs <==> w in old(fleet).pcs
      ensures w in fleet.pcs ==> fleet.pcs[w] == old(fleet).pcs[w]
    {
      for k := 0 to |actions|
        invariant Valid() && trace == old(trace) + actions[..k]
        invariant w in fleet.pcs <==> w in old(fleet).pcs
        invariant w in fleet.pcs ==> fleet.pcs[w] == old(fleet).pcs[w]
      {
        OthersKeepPc(fleet, actions[k], w);
        Step(actions[k]);
      }
      assert actions[..|actions|] == actions;
    }

    /** `_process_one`: finish, or fail; a raising finish is followed by a fail.  The trace says which
        calls were made, `raised` whether the last one raised out of the method. */
    method ProcessOne(w: WorkerId, turn: Turn) returns (raised: bool)
      requires Valid() && w in fleet.pcs && fleet.pcs[w].Generating? && OtherWorkers(turn.between, w)
      modifies this
      ensures Valid() && w in fleet.pcs && fleet.pcs[w].Idle?
      ensures turn.generation.Report? && turn.first.Ok? && old(fleet.pcs[w].job in fleet.db.rows) ==>
        fleet.db.rows == old(fleet.db.rows)[old(fleet.pcs[w].job) :=
          old(fleet.db.rows[fleet.pcs[w].job]).(status := T.Succeeded, result := Some(turn.generation.result),
            finishedAt := Some(turn.now), stage := None)]
      ensures !turn.generation.Report? && !turn.first.RaisedUnapplied? && old(fleet.pcs[w].job in fleet.db.rows) ==>
        fleet.db.rows == old(fleet.db.rows)[old(fleet.pcs[w].job) :=
          old(fleet.db.rows[fleet.pcs[w].job]).(status := T.Failed,
            errorMessage := Some(if turn.generation.Refused? then turn.generation.reason else "internal error"),
            finishedAt := Some(turn.now), stage := None)]
      ensures turn.generation.Report? && !turn.first.Ok? && !turn.second.RaisedUnapplied? ==>
        old(fleet.pcs[w].job) in fleet.db.rows ==>
          var job := fleet.db.rows[old(fleet.pcs[w].job)];
          && job.status == T.Failed && job.errorMessage == Some("internal error")
          && job.finishedAt == Some(turn.now) && job.stage.None?
      ensures !turn.generation.Report? && turn.first.RaisedUnapplied? ==> fleet.db == old(fleet.db)
      ensures trace == old(trace) + ProcessTrace(w, turn)
      ensures raised <==> !turn.first.Ok? && (turn.generation.Report? ==> !turn.second.Ok?)
    {
      raised := !turn.first.Ok?;
      match turn.generation {
        case Report(result) =>
          Step(Generated(w, result, turn.now, turn.first));
          if !turn.first.Ok? {
            Interleave(turn.between, w);
            Step(FailAfterRaise(w, turn.now, turn.second));
            raised := !turn.second.Ok?;
          }
        case Refused(reason) =>
          Step(NotGenerated(w, reason, turn.now, turn.first));
        case Crashed =>
          Step(NotGenerated(w, "internal error", turn.now, turn.first));
      }
    }

    /** `run_report_worker`: one recovery, then claim and process until stopped.  Whatever the calls
        do, the loop survives every turn and ends idle; `claims` are the jobs the turns claimed. */
    method RunReportWorker(w: WorkerId, staleSeconds: int, startedAt: int, recovery: Call, turns: seq<Turn>)
      returns (ghost claims: seq<Option<JobId>>)
      requires Valid() && w !in fleet.pcs
      requires forall k | 0 <= k < |turns| :: OtherWorkers(turns[k].others, w) && OtherWorkers(turns[k].between, w)
      modifies this
      ensures Valid() && w in fleet.pcs && fleet.pcs[w].Idle?
      ensures |claims| == |turns|
      ensures trace == LoopTrace(old(trace) + [Start(w, staleSeconds, startedAt, recovery)], w, turns, claims)
      ensures AllPolled(old(trace) + [Start(w, staleSeconds, startedAt, recovery)], w, turns, claims)
    {
      hide Apply, After, LoopTrace, AllPolled;
      StartedIsIdle(fleet, w, staleSeconds, startedAt, recovery);
      Step(Start(w, staleSeconds, startedAt, recovery));
      ghost var begun := trace;
      NoTurnsYet(begun, w);
      claims := [];
      for k := 0 to |turns|
        invariant Valid() && w in fleet.pcs && fleet.pcs[w].Idle?
        invariant |claims| == k && trace == LoopTrace(begun, w, turns[..k], claims)
        invariant AllPolled(begun, w, turns[..k], claims)
      {
        ghost var claim := Turned(w, turns[k]);
        LoopTraceSnoc(begun, w, turns[..k], claims, turns[k], claim);
        assert turns[..k + 1] == turns[..k] + [turns[k]];
        claims := claims + [claim];
      }
      assert turns[..|turns|] == turns;
    }

    /** One turn of the loop. */
    method Turned(w: WorkerId, turn: Turn) returns (ghost claim: Option<JobId>)
      requires Valid() && w in fleet.pcs && fleet.pcs[w].Idle?
      requires OtherWorkers(turn.others, w) && OtherWorkers(turn.between, w)
      modifies this
      ensures Valid() && w in fleet.pcs && fleet.pcs[w].Idle?
      ensures trace == old(trace) + TurnTrace(w, turn, claim) && Polled(old(trace), turn, claim)
      // what the turn leaves of the job it claimed, unless it was deleted while the finish was repeated
      ensures claim.Some? && turn.claim.Applied() ==>
        (claim.value !in fleet.db.rows ==> turn.claim.Ok? && turn.generation.Report? && !turn.first.Ok?)
      ensures claim.Some? && turn.claim.RaisedApplied? && claim.value in fleet.db.rows ==>
        fleet.db.rows[claim.value].status == T.Running && fleet.db.rows[claim.value].startedAt == Some(turn.now)
      ensures claim.Some? && turn.claim.Ok? && turn.first.Ok? && claim.value in fleet.db.rows ==>
        var job := fleet.db.rows[claim.value];
        && job.startedAt == Some(turn.now) && job.finishedAt == Some(turn.now) && job.stage.None?
        && (turn.generation.Report? ==> job.status == T.Succeeded && job.result == Some(turn.generation.result))
        && (turn.generation.Refused? ==>
              job.status == T.Failed && job.errorMessage == Some(turn.generation.reason))
        && (turn.generation.Crashed? ==> job.status == T.Failed && job.errorMessage == Some("internal error"))
    {
      hide Apply, After, LoopTrace, AllPolled;
      Interleave(turn.others, w);
      claim := None;
      if id :| id in fleet.db.rows && T.Oldest(fleet.db.rows, turn.locked, id) {
        claim := Some(id);
        ClaimedPc(fleet, w, id, turn);
        Step(Claim(w, id, turn.locked, turn.now, turn.claim));
        if turn.claim.Ok? {
          var _ := ProcessOne(w, turn);
        }
      }
    }
  }

  /** The calls of one processed job. */
  function ProcessTrace(w: WorkerId, turn: Turn): seq<Action> {
    match turn.generation
    case Report(result) =>
      [Generated(w, result, turn.now, turn.first)]
      + if turn.first.Ok? then [] else turn.between + [FailAfterRaise(w, turn.now, turn.second)]
    case Refused(reason) => [NotGenerated(w, reason, turn.now, turn.first)]
    case Crashed => [NotGenerated(w, "internal error", turn.now, turn.first)]
  }

  /** A claimed job is processed only when the claim returned. */
  function TurnTrace(w: WorkerId, turn: Turn, claim: Option<JobId>): seq<Action> {
    turn.others
    + if claim.None? then []
      else [Claim(w, claim.value, turn.locked, turn.now, turn.claim)]
           + if turn.claim.Ok? then ProcessTrace(w, turn) else []
  }

  function LoopTrace(begun: seq<Action>, w: WorkerId, turns: seq<Turn>, claims: seq<Option<JobId>>): seq<Action>
    requires |turns| == |claims|
  {
    if turns == [] then begun else
      var n := |turns| - 1;
      LoopTrace(begun, w, turns[..n], claims[..n]) + TurnTrace(w, turns[n], claims[n])
  }

  /** Every turn claimed as it should. */
  ghost predicate AllPolled(begun: seq<Action>, w: WorkerId, turns: seq<Turn>, claims: seq<Option<JobId>>)
    requires |turns| == |claims|
  {
    turns == [] ||
    var n := |turns| - 1;
    AllPolled(begun, w, turns[..n], claims[..n])
      && Polled(LoopTrace(begun, w, turns[..n], claims[..n]), turns[n], claims[n])
  }

  lemma LoopTraceSnoc(begun: seq<Action>, w: WorkerId, turns: seq<Turn>, claims: seq<Option<JobId>>, turn: Turn,
                      claim: Option<JobId>)
    requires |turns| == |claims|
    requires AllPolled(begun, w, turns, claims) && Polled(LoopTrace(begun, w, turns, claims), turn, claim)
    ensures LoopTrace(begun, w, turns + [turn], claims + [claim]) ==
      LoopTrace(begun, w, turns, claims) + TurnTrace(w, turn, claim)
    ensures AllPolled(begun, w, turns + [turn], claims + [claim])
  {
    assert (turns + [turn])[..|turns|] == turns && (claims + [claim])[..|claims|] == claims;
  }

  /** The claim is an oldest unlocked pending job at that moment; None means there was none. */
  ghost predicate Polled(before: seq<Action>, turn: Turn, claim: Option<JobId>) {
    var rows := After(before + turn.others).db.rows;
    if claim.Some? then T.Oldest(rows, turn.locked, claim.value)
    else forall id | id in rows :: !T.Oldest(rows, turn.locked, id)
  }
}
