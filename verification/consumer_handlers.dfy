/**
 The message handlers: the Redis gate, the bounded retry around one transaction, and what any run of
 deliveries leaves in the store.  Redis answers, attempt outcomes and the commits of other handlers
 are arbitrary inputs; a raising attempt may have been committed (a lost acknowledgement).
 */
module ConsumerHandlers {
  import opened Wrappers
  import opened CollectStore
  import opened CollectSql
  import opened MetricsIngest

  // ---------------------------------------------------------------- failures

  const RETRY_MAX_ATTEMPTS: nat := 3

  datatype DbApiKind = IntegrityError | OperationalError | InterfaceError | OtherDbError

  /** Unrelated: an exception the retry does not catch. */
  datatype Failure = TimeoutError | DbApiError(kind: DbApiKind, sqlstate: Option<string>) | Unrelated

  predicate IsRetryableDbExc(kind: DbApiKind, sqlstate: Option<string>) {
    || kind.OperationalError?
    || kind.InterfaceError?
    || (sqlstate.Some?
        && ("08" <= sqlstate.value || sqlstate.value in {"40001", "40P01", "57P01", "57P02", "57P03"}))
  }

  predicate IsPermanentDbFailure(e: Failure) {
    e.DbApiError? && (e.kind.IntegrityError? || !IsRetryableDbExc(e.kind, e.sqlstate))
  }

  datatype Attempt = Returned | Raised(failure: Failure, committed: bool)

  predicate Committed(a: Attempt) {
    a.Returned? || a.committed
  }

  predicate Transient(a: Attempt) {
    a.Raised? && !a.failure.Unrelated? && !IsPermanentDbFailure(a.failure)
  }

  predicate StartsWith08(state: string) {
    |state| >= 2 && state[0] == '0' && state[1] == '8'
  }

  /** What is retried: timeouts, operational and interface errors whatever their code, and any other database
      error but a violated constraint if its code says that the connection broke (08...), a serialization
      failure, a deadlock or a server going down. */
  lemma RetriedIff(a: Attempt)
    ensures Transient(a) <==>
      a.Raised? &&
      match a.failure
      case TimeoutError => true
      case Unrelated => false
      case DbApiError(kind, code) =>
        || kind == OperationalError || kind == InterfaceError
        || (kind == OtherDbError && code.Some?
            && (StartsWith08(code.value) || code.value == "40001" || code.value == "40P01"
                || code.value == "57P01" || code.value == "57P02" || code.value == "57P03"))
  {
    if a.Raised? && a.failure.DbApiError? && a.failure.sqlstate.Some? {
      var code := a.failure.sqlstate.value;
      assert "08" <= code <==> StartsWith08(code) by {
        if StartsWith08(code) {
          assert code[..2] == "08";
        }
      }
    }
  }

  // ---------------------------------------------------------------- repeated writes

  /** The agent's inventory after the writes, when it was `start` before them. */
  function LastOf(agent: AgentId, start: Inventory, ws: seq<Write>): Inventory {
    if ws == [] then start
    else if ws[|ws| - 1].InventoryWrite? && ws[|ws| - 1].agent == agent then ws[|ws| - 1].inventory
    else LastOf(agent, start, ws[..|ws| - 1])
  }

  lemma {:induction false} CurrentIsLast(s: Store, agent: AgentId, ws: seq<Write>)
    requires agent in s.servers
    ensures agent in RunFrom(s, ws).servers
    ensures RunFrom(s, ws).servers[agent].inventory == LastOf(agent, s.servers[agent].inventory, ws)
  {
    if ws != [] {
      CurrentIsLast(s, agent, ws[..|ws| - 1]);
    }
  }

  /** The writes leave the agent with another inventory than the one `w` wrote. */
  predicate Overtaken(w: Write, between: seq<Write>) {
    w.InventoryWrite? && LastOf(w.agent, w.inventory, between) != w.inventory
  }

  lemma {:induction false} MetricsStayAbsorbed(s: Store, w: Write, others: seq<Write>)
    requires Absorbed(s, w) && w.MetricsWrite?
    ensures Absorbed(RunFrom(s, others), w)
  {
    if others != [] {
      MetricsStayAbsorbed(s, w, others[..|others| - 1]);
      StaysAbsorbed(RunFrom(s, others[..|others| - 1]), w, others[|others| - 1]);
    }
  }

  /** Storing the write adds no history row: it compares equal with what it read, or the instant has its
      row already. */
  predicate Silent(s: Store, w: Write) {
    w.InventoryWrite? && Records(w.read, w.inventory) ==>
      w.agent in s.servers && HasHistory(s.history, s.servers[w.agent].id, w.inventory.collectedAt)
  }

  /** A write repeated later, by a transaction that read `read`, changes nothing exactly when the writes in
      between did not overtake it and it adds no history row.  A metrics message always meets both. */
  lemma RepeatIsNoOpIff(s: Store, before: seq<Write>, w: Write, between: seq<Write>, read: Option<Inventory>)
    ensures var once := RunFrom(s, before + [w] + between);
      RunFrom(s, before + [w] + between + [ReadAs(w, read)]) == once <==>
        !Overtaken(w, between) && Silent(once, ReadAs(w, read))
  {
    var stored := RunFrom(s, before + [w]);
    RunFromSnoc(s, before, w);
    ApplyAbsorbs(RunFrom(s, before), w);
    RunFromConcat(s, before + [w], between);
    if w.MetricsWrite? {
      MetricsStayAbsorbed(stored, w, between);
    } else {
      CurrentIsLast(stored, w.agent, between);
    }
    RunFromSnoc(s, before + [w] + between, ReadAs(w, read));
    NoOpIff(RunFrom(s, before + [w] + between), ReadAs(w, read));
  }

  /** No inventory of the agent among the writes. */
  predicate Quiet(agent: AgentId, ws: seq<Write>) {
    forall k | 0 <= k < |ws| :: ws[k].InventoryWrite? ==> ws[k].agent != agent
  }

  lemma {:induction false} QuietKeepsLast(agent: AgentId, start: Inventory, seen: seq<Write>, raced: seq<Write>)
    requires Quiet(agent, raced)
    ensures LastOf(agent, start, seen + raced) == LastOf(agent, start, seen)
  {
    if raced == [] {
      assert seen + raced == seen;
    } else {
      assert (seen + raced)[..|seen + raced| - 1] == seen + raced[..|raced| - 1];
      QuietKeepsLast(agent, start, seen, raced[..|raced| - 1]);
    }
  }

  /** When no inventory of the agent commits between the repeat's read and its upsert, only the last
      inventory in between decides. */
  lemma FreshRepeatIsNoOpIff(s: Store, before: seq<Write>, w: Write, seen: seq<Write>, raced: seq<Write>)
    requires Quiet(w.agent, raced)
    ensures var again := ReadAs(w, RowRead(RunFrom(s, before + [w] + seen), w.agent));
      RunFrom(s, before + [w] + (seen + raced) + [again]) == RunFrom(s, before + [w] + (seen + raced)) <==>
        !Overtaken(w, seen)
  {
    var read := RowRead(RunFrom(s, before + [w] + seen), w.agent);
    RepeatIsNoOpIff(s, before, w, seen + raced, read);
    if w.InventoryWrite? {
      QuietKeepsLast(w.agent, w.inventory, seen, raced);
      RunFromSnoc(s, before, w);
      RunFromConcat(s, before + [w], seen);
      CurrentIsLast(RunFrom(s, before + [w]), w.agent, seen);
    }
  }

  /** An overtaken repeat puts the older snapshot back over the newer one. */
  lemma RepeatReverts(s: Store, before: seq<Write>, w: Write, between: seq<Write>, read: Option<Inventory>)
    requires w.InventoryWrite?
    ensures var once, twice := RunFrom(s, before + [w] + between),
      RunFrom(s, before + [w] + between + [ReadAs(w, read)]);
      && w.agent in once.servers && once.servers[w.agent].inventory == LastOf(w.agent, w.inventory, between)
      && w.agent in twice.servers && twice.servers[w.agent].inventory == w.inventory
  {
    RunFromSnoc(s, before, w);
    RunFromConcat(s, before + [w], between);
    CurrentIsLast(RunFrom(s, before + [w]), w.agent, between);
    RunFromSnoc(s, before + [w] + between, ReadAs(w, read));
  }

  // ---------------------------------------------------------------- the bounded retry

  /** One attempt: what others commit before its SELECT and between that and its writes, and its end. */
  datatype Session = Session(before: seq<Write>, between: seq<Write>, outcome: Attempt)
  {
    function Others(): seq<Write> { before + between }
  }

  function Flat(xs: seq<Session>): seq<Write> {
    if xs == [] then [] else Flat(xs[..|xs| - 1]) + xs[|xs| - 1].Others()
  }

  /** The write as the session lands it when it opens on the store. */
  function Landing(s: Store, w: Write, x: Session): Write {
    ReadAs(w, RowRead(RunFrom(s, x.before), w.agent))
  }

  /** The write as attempt `m` lands it. */
  function LandingAt(s: Store, w: Write, xs: seq<Session>, m: nat): Write
    requires m < |xs|
    decreases m, 1
  {
    Landing(RunFrom(s, Commits(s, w, xs, m)), w, xs[m])
  }

  /** Everything committed during the first `n` attempts. */
  function Commits(s: Store, w: Write, xs: seq<Session>, n: nat): seq<Write>
    requires n <= |xs|
    decreases n, 0
  {
    if n == 0 then [] else
      Commits(s, w, xs, n - 1) + xs[n - 1].Others()
      + if Committed(xs[n - 1].outcome) then [LandingAt(s, w, xs, n - 1)] else []
  }

  /** The first attempt that was committed, `n` if none was. */
  function FirstCommit(xs: seq<Session>, n: nat): (k: nat)
    requires n <= |xs|
    ensures k <= n
  {
    if n == 0 then 0
    else if FirstCommit(xs, n - 1) < n - 1 then FirstCommit(xs, n - 1)
    else if Committed(xs[n - 1].outcome) then n - 1 else n
  }

  /** The other handlers' commits with the write applied once, at its first commit, or not at all. */
  function AppliedOnce(s: Store, w: Write, xs: seq<Session>, n: nat): seq<Write>
    requires n <= |xs|
  {
    var k := FirstCommit(xs, n);
    if k == n then Flat(xs[..n]) else Flat(xs[..k + 1]) + [LandingAt(s, w, xs, k)] + Flat(xs[k + 1..n])
  }

  lemma AppendAssociates(a: seq<Write>, b: seq<Write>, c: seq<Write>)
    ensures a + (b + c) == a + b + c
  {
  }

  lemma FlatSnoc(xs: seq<Session>, last: Session)
    ensures Flat(xs + [last]) == Flat(xs) + last.Others()
  {
    assert (xs + [last])[..|xs|] == xs;
  }

  lemma StepAfterCommit(s: Store, w: Write, xs: seq<Session>, n: nat)
    requires n < |xs| && FirstCommit(xs, n) < n
    ensures AppliedOnce(s, w, xs, n + 1) == AppliedOnce(s, w, xs, n) + xs[n].Others()
  {
    hide Commits, LandingAt, Flat;
    var k := FirstCommit(xs, n);
    FlatSnoc(xs[k + 1..n], xs[n]);
    assert xs[k + 1..n + 1] == xs[k + 1..n] + [xs[n]];
    AppendAssociates(Flat(xs[..k + 1]) + [LandingAt(s, w, xs, k)], Flat(xs[k + 1..n]), xs[n].Others());
  }

  lemma StepBeforeCommit(s: Store, w: Write, xs: seq<Session>, n: nat)
    requires n < |xs| && FirstCommit(xs, n) == n
    ensures Committed(xs[n].outcome) ==>
      AppliedOnce(s, w, xs, n + 1) == AppliedOnce(s, w, xs, n) + xs[n].Others() + [LandingAt(s, w, xs, n)]
    ensures !Committed(xs[n].outcome) ==>
      AppliedOnce(s, w, xs, n + 1) == AppliedOnce(s, w, xs, n) + xs[n].Others()
  {
    hide Commits, LandingAt;
    FlatSnoc(xs[..n], xs[n]);
    assert xs[..n + 1] == xs[..n] + [xs[n]];
    assert xs[n + 1..n + 1] == [] && Flat([]) == [];
  }

  /** The attempt repeats a write committed before. */
  predicate Repeats(xs: seq<Session>, m: nat)
    requires m < |xs|
  {
    FirstCommit(xs, m) < m && Committed(xs[m].outcome)
  }

  /** What others committed from the first commit of the write up to attempt `m`. */
  function SinceFirst(xs: seq<Session>, m: nat): seq<Write>
    requires m < |xs| && FirstCommit(xs, m) < m
  {
    Flat(xs[FirstCommit(xs, m) + 1..m + 1])
  }

  /** Everything committed before attempt `m` lands. */
  function UpTo(s: Store, w: Write, xs: seq<Session>, m: nat): seq<Write>
    requires m < |xs|
  {
    Commits(s, w, xs, m) + xs[m].Others()
  }

  /** No repeated commit finds the write overtaken or adds a history row. */
  predicate NeverFelt(s: Store, w: Write, xs: seq<Session>, n: nat)
    requires n <= |xs|
  {
    n == 0 || (NeverFelt(s, w, xs, n - 1)
               && (Repeats(xs, n - 1) ==>
                     !Overtaken(w, SinceFirst(xs, n - 1))
                     && Silent(RunFrom(s, UpTo(s, w, xs, n - 1)), LandingAt(s, w, xs, n - 1))))
  }

  /** No repeated commit changes the store. */
  predicate RepeatsChangeNothing(s: Store, w: Write, xs: seq<Session>, n: nat)
    requires n <= |xs|
  {
    n == 0 || (RepeatsChangeNothing(s, w, xs, n - 1)
               && (Repeats(xs, n - 1) ==> RunFrom(s, Commits(s, w, xs, n)) == RunFrom(s, UpTo(s, w, xs, n - 1))))
  }

  /** Whatever the attempts' outcomes and whatever others commit in between: the repeated commits change
      nothing exactly when none of them finds the write overtaken or adds a history row, and then the
      store ends as if the message had been applied once at its first commit, or never if no attempt was
      committed. */
  lemma {:induction false} RetryAppliesOnceIff(s: Store, w: Write, xs: seq<Session>, n: nat)
    requires n <= |xs|
    ensures RepeatsChangeNothing(s, w, xs, n) <==> NeverFelt(s, w, xs, n)
    ensures NeverFelt(s, w, xs, n) ==>
      RunFrom(s, Commits(s, w, xs, n)) == RunFrom(s, AppliedOnce(s, w, xs, n))
  {
    hide Commits, LandingAt, AppliedOnce, FirstCommit, RunFrom, Silent, Overtaken, SinceFirst, UpTo;
    if n == 0 {
      NothingApplied(s, w, xs);
    } else {
      RetryAppliesOnceIff(s, w, xs, n - 1);
      if NeverFelt(s, w, xs, n - 1) {
        OneMoreAttempt(s, w, xs, n - 1);
      }
    }
  }

  lemma NothingApplied(s: Store, w: Write, xs: seq<Session>)
    ensures Commits(s, w, xs, 0) == AppliedOnce(s, w, xs, 0)
  {
    assert xs[..0] == [];
  }

  lemma OneMoreAttempt(s: Store, w: Write, xs: seq<Session>, m: nat)
    requires m < |xs|
    requires RunFrom(s, Commits(s, w, xs, m)) == RunFrom(s, AppliedOnce(s, w, xs, m))
    ensures Repeats(xs, m) ==>
      (RunFrom(s, Commits(s, w, xs, m + 1)) == RunFrom(s, UpTo(s, w, xs, m)) <==>
        !Overtaken(w, SinceFirst(xs, m)) && Silent(RunFrom(s, UpTo(s, w, xs, m)), LandingAt(s, w, xs, m)))
    ensures (Repeats(xs, m) ==> RunFrom(s, Commits(s, w, xs, m + 1)) == RunFrom(s, UpTo(s, w, xs, m))) ==>
      RunFrom(s, Commits(s, w, xs, m + 1)) == RunFrom(s, AppliedOnce(s, w, xs, m + 1))
  {
    hide Commits, LandingAt, AppliedOnce, Flat, FirstCommit, RunFrom, Silent, Overtaken;
    var others, landing := xs[m].Others(), LandingAt(s, w, xs, m);
    CommitsStep(s, w, xs, m);
    SameAfterBatch(s, Commits(s, w, xs, m), AppliedOnce(s, w, xs, m), others, landing);
    if FirstCommit(xs, m) < m {
      StepAfterCommit(s, w, xs, m);
      LaterAttempt(s, w, xs, m);
    } else {
      StepBeforeCommit(s, w, xs, m);
    }
  }

  lemma CommitsStep(s: Store, w: Write, xs: seq<Session>, m: nat)
    requires m < |xs|
    ensures Committed(xs[m].outcome) ==>
      Commits(s, w, xs, m + 1) == Commits(s, w, xs, m) + xs[m].Others() + [LandingAt(s, w, xs, m)]
    ensures !Committed(xs[m].outcome) ==> Commits(s, w, xs, m + 1) == Commits(s, w, xs, m) + xs[m].Others()
  {
  }

  lemma SameAfterBatch(s: Store, a: seq<Write>, b: seq<Write>, batch: seq<Write>, w: Write)
    requires RunFrom(s, a) == RunFrom(s, b)
    ensures RunFrom(s, a + batch) == RunFrom(s, b + batch)
    ensures RunFrom(s, a + batch + [w]) == RunFrom(s, b + batch + [w])
  {
    RunFromConcat(s, a, batch);
    RunFromConcat(s, b, batch);
    RunFromSnoc(s, a + batch, w);
    RunFromSnoc(s, b + batch, w);
  }

  lemma LaterAttempt(s: Store, w: Write, xs: seq<Session>, m: nat)
    requires m < |xs| && FirstCommit(xs, m) < m
    ensures var once := AppliedOnce(s, w, xs, m) + xs[m].Others();
      RunFrom(s, once + [LandingAt(s, w, xs, m)]) == RunFrom(s, once) <==>
        !Overtaken(w, SinceFirst(xs, m)) && Silent(RunFrom(s, once), LandingAt(s, w, xs, m))
  {
    hide Commits, Flat, RunFrom;
    var k := FirstCommit(xs, m);
    var first := LandingAt(s, w, xs, k);
    var read := RowRead(RunFrom(RunFrom(s, Commits(s, w, xs, m)), xs[m].before), w.agent);
    OnceSplits(s, w, xs, m);
    RepeatIsNoOpIff(s, Flat(xs[..k + 1]), first, SinceFirst(xs, m), read);
  }

  lemma OnceSplits(s: Store, w: Write, xs: seq<Session>, m: nat)
    requires m < |xs| && FirstCommit(xs, m) < m
    ensures var k := FirstCommit(xs, m);
      AppliedOnce(s, w, xs, m) + xs[m].Others() == Flat(xs[..k + 1]) + [LandingAt(s, w, xs, k)] + SinceFirst(xs, m)
  {
    hide Commits, LandingAt, Flat;
    var k := FirstCommit(xs, m);
    FlatSnoc(xs[k + 1..m], xs[m]);
    assert xs[k + 1..m + 1] == xs[k + 1..m] + [xs[m]];
    AppendAssociates(Flat(xs[..k + 1]) + [LandingAt(s, w, xs, k)], Flat(xs[k + 1..m]), xs[m].Others());
  }

  class Database {
    var store: Store

    constructor ()
      ensures store == EmptyStore
    {
      store := EmptyStore;
    }
  }

  /** What one metrics write reports: a row count per table. */
  predicate Counted(s: Store, w: Write, result: MetricInsertResult) {
    forall table: TableName :: result.Get(table) == RowCount(s, w, table)
  }

  /** One session: open, run the handler's statements, commit.  Others commit before its first SELECT and
      between that and its writes.  A metrics save also returns the row counts of its inserts. */
  method DbAttempt(db: Database, w: Write, x: Session)
    returns (failure: Option<Failure>, result: Option<MetricInsertResult>)
    modifies db
    ensures db.store == RunFrom(old(db.store),
      x.Others() + if Committed(x.outcome) then [Landing(old(db.store), w, x)] else [])
    ensures failure == if x.outcome.Returned? then None else Some(x.outcome.failure)
    ensures w.MetricsWrite? ==> result.Some? && Counted(RunFrom(old(db.store), x.Others()), w, result.value)
  {
    var repo := new SqlCollectRepository(RunFrom(db.store, x.before));
    RunFromConcat(db.store, x.before, x.between);
    RunFromSnoc(db.store, x.Others(), Landing(db.store, w, x));
    assert x.Others() + [] == x.Others();
    result := None;
    match w {
      case MetricsWrite(agent, placeholder, message) =>
        var id, _ := repo.EnsureServerId(agent, placeholder, x.between);
        var counts := repo.RecordMetrics(id.value, message);
        result := Some(counts);
      case InventoryWrite(agent, inventory, _) =>
        var _ := repo.UpsertServer(agent, inventory, x.between);
    }
    if Committed(x.outcome) {
      db.store := repo.view;
    } else {
      db.store := RunFrom(db.store, x.Others());
    }
    failure := if x.outcome.Returned? then None else Some(x.outcome.failure);
  }

  predicate AllTransient(xs: seq<Session>, n: nat)
    requires n <= |xs|
  {
    forall k | 0 <= k < n :: Transient(xs[k].outcome)
  }

  method DbRetry(db: Database, w: Write, xs: seq<Session>) returns (failure: Option<Failure>, attempts: nat)
    requires |xs| == RETRY_MAX_ATTEMPTS
    modifies db
    ensures 1 <= attempts <= RETRY_MAX_ATTEMPTS
    ensures AllTransient(xs, attempts - 1)
    ensures attempts == RETRY_MAX_ATTEMPTS || !Transient(xs[attempts - 1].outcome)
    ensures failure == if xs[attempts - 1].outcome.Returned? then None else Some(xs[attempts - 1].outcome.failure)
    ensures db.store == RunFrom(old(db.store), Commits(old(db.store), w, xs, attempts))
  {
    hide Commits, RunFrom;
    attempts := 0;
    ghost var start := db.store;
    NothingCommitted(start, w, xs);
    for attempt := 1 to RETRY_MAX_ATTEMPTS
      invariant attempts == attempt - 1
      invariant AllTransient(xs, attempts)
      invariant db.store == RunFrom(start, Commits(start, w, xs, attempts))
    {
      failure := Try(db, w, xs, attempts, start);
      attempts := attempt;
      if failure.None? || failure.value.Unrelated? || IsPermanentDbFailure(failure.value) {
        return;
      }
    }
    failure := Try(db, w, xs, attempts, start);
    attempts := attempts + 1;
  }

  lemma NothingCommitted(s: Store, w: Write, xs: seq<Session>)
    ensures RunFrom(s, Commits(s, w, xs, 0)) == s
  {
  }

  method Try(db: Database, w: Write, xs: seq<Session>, n: nat, ghost start: Store)
    returns (failure: Option<Failure>)
    requires n < |xs|
    requires db.store == RunFrom(start, Commits(start, w, xs, n))
    modifies db
    ensures db.store == RunFrom(start, Commits(start, w, xs, n + 1))
    ensures failure == if xs[n].outcome.Returned? then None else Some(xs[n].outcome.failure)
  {
    hide RunFrom;
    ghost var step := xs[n].Others() + if Committed(xs[n].outcome) then [LandingAt(start, w, xs, n)] else [];
    RunFromConcat(start, Commits(start, w, xs, n), step);
    assert Commits(start, w, xs, n) + step == Commits(start, w, xs, n + 1);
    var raised, _ := DbAttempt(db, w, xs[n]);
    failure := raised;
  }

  /** A retry that returns has been committed. */
  lemma ReturnedMeansCommitted(xs: seq<Session>, attempts: nat)
    requires 0 < attempts <= |xs| && xs[attempts - 1].outcome.Returned?
    ensures FirstCommit(xs, attempts) < attempts && Committed(xs[FirstCommit(xs, attempts)].outcome)
  {
    FirstCommitIsFirst(xs, attempts);
  }

  lemma {:induction false} FirstCommitIsFirst(xs: seq<Session>, n: nat)
    requires n <= |xs|
    ensures forall i | 0 <= i < FirstCommit(xs, n) :: !Committed(xs[i].outcome)
    ensures FirstCommit(xs, n) < n ==> Committed(xs[FirstCommit(xs, n)].outcome)
  {
    if n > 0 {
      FirstCommitIsFirst(xs, n - 1);
    }
  }
}
