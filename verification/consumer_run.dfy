/**
 Any run of the consumer over any deliveries, duplicates included: the gate in front of each
 delivery, its attempts, and Redis keys that come and go.
 */
module ConsumerRun {
  import opened Wrappers
  import opened CollectStore
  import opened ConsumerHandlers
  import opened MetricsIngest

  type MessageId = nat

  /** A delivery the broker makes; a redelivery repeats the message id. */
  datatype Delivery = Delivery(message: MessageId, write: Write)

  datatype Phase = Arrived | Skipped | Retrying(attempts: nat) | Acked | Nacked | Cancelled

  /** Unavailable: Redis raised, although the key may have been set. */
  datatype GateReply = Answered | Unavailable(recorded: bool)

  /** `read` is the row an inventory's SELECT found earlier in the attempt: anything, since other handlers
      commit in between.  Cancel: the channel closes under a handler that has not finished; its delivery
      stays unacknowledged. */
  datatype Step =
    | Gate(delivery: nat, reply: GateReply)
    | Attempted(delivery: nat, outcome: Attempt, read: Option<Inventory>)
    | Cancel(delivery: nat)
    | RedisChanges(seen: set<MessageId>)

  /** One committed transaction of a delivery. */
  datatype Commit = Commit(delivery: nat, write: Write)

  datatype Consumer = Consumer(store: Store, seen: set<MessageId>, phases: map<nat, Phase>, commits: seq<Commit>)

  const Started := Consumer(EmptyStore, {}, map[], [])

  function PhaseOf(c: Consumer, delivery: nat): Phase {
    if delivery in c.phases then c.phases[delivery] else Arrived
  }

  predicate PastGate(phase: Phase) {
    !phase.Arrived? && !phase.Skipped?
  }

  /** SET NX; without an answer the message goes through. */
  function CheckIdempotent(c: Consumer, message: MessageId, reply: GateReply): (bool, set<MessageId>) {
    match reply
    case Answered => (message !in c.seen, c.seen + {message})
    case Unavailable(recorded) => (true, if recorded then c.seen + {message} else c.seen)
  }

  function AfterAttempt(made: nat, outcome: Attempt): Phase {
    if outcome.Returned? then Acked
    else if !Transient(outcome) || made + 1 >= RETRY_MAX_ATTEMPTS then Nacked
    else Retrying(made + 1)
  }

  /** A step whose precondition does not hold leaves the consumer as it is. */
  function Next(ds: seq<Delivery>, c: Consumer, step: Step): Consumer {
    match step
    case Gate(d, reply) =>
      if d >= |ds| || !PhaseOf(c, d).Arrived? then c else
        var (passes, seen) := CheckIdempotent(c, ds[d].message, reply);
        c.(seen := seen, phases := c.phases[d := if passes then Retrying(0) else Skipped])
    case Attempted(d, outcome, read) =>
      if d >= |ds| || !PhaseOf(c, d).Retrying? then c else
        var phase, write := AfterAttempt(PhaseOf(c, d).attempts, outcome), ReadAs(ds[d].write, read);
        if Committed(outcome) then
          c.(store := Apply(c.store, write), phases := c.phases[d := phase],
             commits := c.commits + [Commit(d, write)])
        else c.(phases := c.phases[d := phase])
    case Cancel(d) =>
      if d >= |ds| || !PhaseOf(c, d).Retrying? then c else c.(phases := c.phases[d := Cancelled])
    case RedisChanges(seen) => c.(seen := seen)
  }

  function Run(ds: seq<Delivery>, steps: seq<Step>): Consumer {
    if steps == [] then Started else Next(ds, Run(ds, steps[..|steps| - 1]), steps[|steps| - 1])
  }

  /** The gate in front of a delivery that has just arrived: it is skipped exactly when Redis answers that
      the message is there already.  The message is there from now on, unless Redis raised before it was set. */
  lemma GateSkipsIffSeen(ds: seq<Delivery>, c: Consumer, d: nat, reply: GateReply)
    requires d < |ds| && PhaseOf(c, d) == Arrived
    ensures var next := Next(ds, c, Gate(d, reply));
      && PhaseOf(next, d) == (if reply == Answered && ds[d].message in c.seen then Skipped else Retrying(0))
      && (forall m :: m in next.seen <==> m in c.seen || (m == ds[d].message && reply != Unavailable(false)))
      && (forall e | e != d :: PhaseOf(next, e) == PhaseOf(c, e))
      && next.store == c.store && next.commits == c.commits
  {
  }

  /** An attempt is the last one when it returned, raised what cannot be retried, or was the third; it
      commits when it returned or the acknowledgement of its COMMIT was lost. */
  lemma AttemptEndsIff(ds: seq<Delivery>, c: Consumer, d: nat, made: nat, outcome: Attempt, read: Option<Inventory>)
    requires d < |ds| && PhaseOf(c, d) == Retrying(made)
    ensures var next := Next(ds, c, Attempted(d, outcome, read));
      && (PhaseOf(next, d) == Acked <==> outcome == Returned)
      && (PhaseOf(next, d) == Nacked <==> outcome.Raised? && (made >= 2 || !Transient(outcome)))
      && (PhaseOf(next, d) == Retrying(made + 1) <==> made < 2 && Transient(outcome))
      && (if outcome == Returned || outcome.committed
          then next.store == Apply(c.store, ReadAs(ds[d].write, read))
               && next.commits == c.commits + [Commit(d, ReadAs(ds[d].write, read))]
          else next.store == c.store && next.commits == c.commits)
      && (forall e | e != d :: PhaseOf(next, e) == PhaseOf(c, e)) && next.seen == c.seen
  {
  }

  // ---------------------------------------------------------------- one delivery

  function CommitsOf(commits: seq<Commit>, delivery: nat): nat {
    if commits == [] then 0 else
      CommitsOf(commits[..|commits| - 1], delivery) + if commits[|commits| - 1].delivery == delivery then 1 else 0
  }

  lemma CommitsOfSnoc(commits: seq<Commit>, last: Commit, delivery: nat)
    ensures CommitsOf(commits + [last], delivery)
         == CommitsOf(commits, delivery) + if last.delivery == delivery then 1 else 0
  {
    assert (commits + [last])[..|commits|] == commits;
  }

  /** How many transactions a delivery may have committed in each phase. */
  predicate Accounted(phase: Phase, commits: nat) {
    match phase
    case Arrived => commits == 0
    case Skipped => commits == 0
    case Retrying(attempts) => commits <= attempts < RETRY_MAX_ATTEMPTS
    case Acked => 1 <= commits <= RETRY_MAX_ATTEMPTS
    case Nacked => commits <= RETRY_MAX_ATTEMPTS
    case Cancelled => commits < RETRY_MAX_ATTEMPTS
  }

  lemma AttemptIsAccounted(made: nat, commits: nat, outcome: Attempt)
    requires commits <= made < RETRY_MAX_ATTEMPTS
    ensures Accounted(AfterAttempt(made, outcome), commits + if Committed(outcome) then 1 else 0)
  {
  }

  lemma StepIsAccounted(ds: seq<Delivery>, c: Consumer, step: Step, delivery: nat)
    requires Accounted(PhaseOf(c, delivery), CommitsOf(c.commits, delivery))
    ensures Accounted(PhaseOf(Next(ds, c, step), delivery), CommitsOf(Next(ds, c, step).commits, delivery))
  {
    hide CollectStore.Apply, ReadAs, AfterAttempt, CheckIdempotent, CommitsOf;
    if step.Attempted? && step.delivery < |ds| && PhaseOf(c, step.delivery).Retrying? {
      CommitsOfSnoc(c.commits, Commit(step.delivery, ReadAs(ds[step.delivery].write, step.read)), delivery);
      if step.delivery == delivery {
        AttemptIsAccounted(PhaseOf(c, delivery).attempts, CommitsOf(c.commits, delivery), step.outcome);
      }
    }
  }

  /** An acknowledged delivery was committed, a skipped one never, and none more than three times. */
  lemma {:induction false} DeliveryIsAccounted(ds: seq<Delivery>, steps: seq<Step>, delivery: nat)
    ensures var c := Run(ds, steps); Accounted(PhaseOf(c, delivery), CommitsOf(c.commits, delivery))
  {
    if steps != [] {
      DeliveryIsAccounted(ds, steps[..|steps| - 1], delivery);
      StepIsAccounted(ds, Run(ds, steps[..|steps| - 1]), steps[|steps| - 1], delivery);
    }
  }

  /** The writes that reached the store, in commit order. */
  function Processed(commits: seq<Commit>): seq<Write> {
    if commits == [] then [] else Processed(commits[..|commits| - 1]) + [commits[|commits| - 1].write]
  }

  lemma {:induction false} StoreIsProcessed(ds: seq<Delivery>, steps: seq<Step>)
    ensures Run(ds, steps).store == After(Processed(Run(ds, steps).commits))
  {
    if steps != [] {
      var prior, step := Run(ds, steps[..|steps| - 1]), steps[|steps| - 1];
      StoreIsProcessed(ds, steps[..|steps| - 1]);
      if step.Attempted? && step.delivery < |ds| {
        var last := Commit(step.delivery, ReadAs(ds[step.delivery].write, step.read));
        assert (prior.commits + [last])[..|prior.commits|] == prior.commits;
        RunFromSnoc(EmptyStore, Processed(prior.commits), last.write);
      }
    }
  }

  // ---------------------------------------------------------------- duplicates

  /** The writes store one message, whatever their transactions read. */
  predicate SameMessage(a: Write, b: Write) {
    ReadAs(a, None) == ReadAs(b, None)
  }

  predicate Stored(ws: seq<Write>, w: Write) {
    exists k | 0 <= k < |ws| :: SameMessage(ws[k], w)
  }

  /** Each distinct message once, at its first commit. */
  function FirstOccurrences(ws: seq<Write>): seq<Write> {
    if ws == [] then [] else
      FirstOccurrences(ws[..|ws| - 1]) + if Stored(ws[..|ws| - 1], ws[|ws| - 1]) then [] else [ws[|ws| - 1]]
  }

  /** The same metric tables and the same agents under the same ids. */
  ghost predicate SameIngest(a: Store, b: Store) {
    && a.tables == b.tables && a.nextId == b.nextId && a.servers.Keys == b.servers.Keys
    && (forall agent | agent in a.servers :: a.servers[agent].id == b.servers[agent].id)
  }

  lemma ApplyKeepsSameIngest(a: Store, b: Store, w: Write)
    requires SameIngest(a, b)
    ensures SameIngest(Apply(a, w), Apply(b, w))
  {
  }

  lemma {:induction false} PastWriteStays(ws: seq<Write>, w: Write)
    requires Stored(ws, w)
    ensures w.agent in After(ws).servers
    ensures w.MetricsWrite? ==> Absorbed(After(ws), w)
  {
    var prior, last := ws[..|ws| - 1], ws[|ws| - 1];
    if SameMessage(last, w) {
      ApplyAbsorbs(After(prior), last);
    } else {
      var k :| 0 <= k < |ws| && SameMessage(ws[k], w);
      assert SameMessage(prior[k], w);
      PastWriteStays(prior, w);
      if w.MetricsWrite? {
        StaysAbsorbed(After(prior), w, last);
      }
    }
  }

  /** An inventory of a registered agent touches its row and history only. */
  lemma KnownInventoryAddsNothing(s: Store, w: Write)
    requires w.InventoryWrite? && w.agent in s.servers
    ensures SameIngest(Apply(s, w), s)
  {
  }

  /** Committing a message again, after whatever else, adds no metric row, agent or id: the tables and
      the agents are those of each distinct message applied once. */
  lemma {:induction false} DuplicatesAddNothing(ws: seq<Write>)
    ensures SameIngest(After(ws), After(FirstOccurrences(ws)))
  {
    if ws != [] {
      var prior, w := ws[..|ws| - 1], ws[|ws| - 1];
      DuplicatesAddNothing(prior);
      if Stored(prior, w) {
        DuplicateAddsNothing(prior, w);
        assert FirstOccurrences(ws) == FirstOccurrences(prior);
      } else {
        RunFromSnoc(EmptyStore, FirstOccurrences(prior), w);
        ApplyKeepsSameIngest(After(prior), After(FirstOccurrences(prior)), w);
      }
    }
  }

  lemma DuplicateAddsNothing(prior: seq<Write>, w: Write)
    requires Stored(prior, w)
    ensures SameIngest(Apply(After(prior), w), After(prior))
  {
    PastWriteStays(prior, w);
    if w.MetricsWrite? {
      AbsorbedIsNoOp(After(prior), w);
    } else {
      KnownInventoryAddsNothing(After(prior), w);
    }
  }

  /** For every run: each table holds, per natural key, the row that came first among the processed
      messages, each message counted once. */
  lemma RunTablesAreFirstWins(ds: seq<Delivery>, steps: seq<Step>, table: TableName)
    ensures var processed := FirstOccurrences(Processed(Run(ds, steps).commits));
      FirstWins(Run(ds, steps).store.tables.Get(table), Arrivals(processed, table))
  {
    var processed := Processed(Run(ds, steps).commits);
    StoreIsProcessed(ds, steps);
    DuplicatesAddNothing(processed);
    TablesAreFirstWins(FirstOccurrences(processed), table);
  }

  // ---------------------------------------------------------------- lost messages

  /** Redis answers every gate and loses no key. */
  predicate RedisReliable(steps: seq<Step>) {
    forall k | 0 <= k < |steps| :: !steps[k].RedisChanges? && (steps[k].Gate? ==> steps[k].reply.Answered?)
  }

  /** Past the gate means seen, and only one delivery of each message is past the gate. */
  ghost predicate OnePerMessage(ds: seq<Delivery>, c: Consumer) {
    && (forall d | d in c.phases && PastGate(c.phases[d]) :: d < |ds| && ds[d].message in c.seen)
    && (forall d, e | d in c.phases && e in c.phases && PastGate(c.phases[d]) && PastGate(c.phases[e]) ::
          d < |ds| && e < |ds| && (ds[d].message == ds[e].message ==> d == e))
  }

  lemma {:induction false} OneDeliveryPasses(ds: seq<Delivery>, steps: seq<Step>)
    requires RedisReliable(steps)
    ensures OnePerMessage(ds, Run(ds, steps))
  {
    if steps != [] {
      OneDeliveryPasses(ds, steps[..|steps| - 1]);
    }
  }

  /** While Redis works, everything seen has a delivery past the gate, and so has everything skipped. */
  ghost predicate SeenByOne(ds: seq<Delivery>, c: Consumer) {
    && (forall m | m in c.seen :: exists e :: e in c.phases && PastGate(c.phases[e]) && e < |ds| && ds[e].message == m)
    && (forall d | d in c.phases && c.phases[d] == Skipped :: d < |ds| && ds[d].message in c.seen)
  }

  lemma SeenByOneStep(ds: seq<Delivery>, c: Consumer, step: Step)
    requires SeenByOne(ds, c) && !step.RedisChanges? && (step.Gate? ==> step.reply == Answered)
    ensures SeenByOne(ds, Next(ds, c, step))
  {
    hide CollectStore.Apply, ReadAs;
    var next := Next(ds, c, step);
    forall m | m in next.seen
      ensures exists e :: e in next.phases && PastGate(next.phases[e]) && e < |ds| && ds[e].message == m
    {
      if m in c.seen {
        var e :| e in c.phases && PastGate(c.phases[e]) && e < |ds| && ds[e].message == m;
        assert e in next.phases && PastGate(next.phases[e]);
      } else {
        assert step.Gate? && step.delivery in next.phases && PastGate(next.phases[step.delivery]);
      }
    }
    forall d | d in next.phases && next.phases[d] == Skipped
      ensures d < |ds| && ds[d].message in next.seen
    {
    }
  }

  lemma {:induction false} SkippedHasPassed(ds: seq<Delivery>, steps: seq<Step>)
    requires RedisReliable(steps)
    ensures SeenByOne(ds, Run(ds, steps))
  {
    if steps != [] {
      SkippedHasPassed(ds, steps[..|steps| - 1]);
      SeenByOneStep(ds, Run(ds, steps[..|steps| - 1]), steps[|steps| - 1]);
    }
  }

  /** While Redis works, a delivery past its gate check was skipped exactly when another delivery of the
      same message is past the gate: nothing is skipped for another reason, and nothing passes twice. */
  lemma SkippedIffPassedBefore(ds: seq<Delivery>, steps: seq<Step>, d: nat)
    requires RedisReliable(steps) && d < |ds| && !PhaseOf(Run(ds, steps), d).Arrived?
    ensures PhaseOf(Run(ds, steps), d) == Skipped <==>
      exists e :: 0 <= e < |ds| && e != d && ds[e].message == ds[d].message && PastGate(PhaseOf(Run(ds, steps), e))
  {
    SkippedHasPassed(ds, steps);
    OneDeliveryPasses(ds, steps);
  }

  /** The handler of the delivery is done with it, one way or another. */
  predicate Ended(phase: Phase) {
    phase.Acked? || phase.Nacked? || phase.Cancelled?
  }

  lemma {:induction false} EndedStays(ds: seq<Delivery>, steps: seq<Step>, more: seq<Step>, d: nat)
    requires Ended(PhaseOf(Run(ds, steps), d))
    ensures PhaseOf(Run(ds, steps + more), d) == PhaseOf(Run(ds, steps), d)
    ensures CommitsOf(Run(ds, steps + more).commits, d) == CommitsOf(Run(ds, steps).commits, d)
  {
    if more == [] {
      assert steps + more == steps;
    } else {
      var less := more[..|more| - 1];
      assert (steps + more)[..|steps + more| - 1] == steps + less;
      EndedStays(ds, steps, less, d);
      EndedStep(ds, Run(ds, steps + less), more[|more| - 1], d);
    }
  }

  lemma EndedStep(ds: seq<Delivery>, c: Consumer, step: Step, d: nat)
    requires Ended(PhaseOf(c, d))
    ensures PhaseOf(Next(ds, c, step), d) == PhaseOf(c, d)
    ensures CommitsOf(Next(ds, c, step).commits, d) == CommitsOf(c.commits, d)
  {
    hide CollectStore.Apply, ReadAs, AfterAttempt, CheckIdempotent, CommitsOf;
    if step.Attempted? && step.delivery < |ds| {
      CommitsOfSnoc(c.commits, Commit(step.delivery, ReadAs(ds[step.delivery].write, step.read)), d);
    }
  }

  /** Some delivery of the message has been committed. */
  ghost predicate MessageCommitted(ds: seq<Delivery>, c: Consumer, message: MessageId) {
    exists d | 0 <= d < |ds| :: ds[d].message == message && CommitsOf(c.commits, d) > 0
  }

  /** While Redis works, the message is committed exactly when the one delivery past its gate is. */
  lemma CommittedIffByFirst(ds: seq<Delivery>, steps: seq<Step>, d: nat)
    requires RedisReliable(steps) && d < |ds| && PastGate(PhaseOf(Run(ds, steps), d))
    ensures MessageCommitted(ds, Run(ds, steps), ds[d].message) <==> CommitsOf(Run(ds, steps).commits, d) > 0
  {
    OneDeliveryPasses(ds, steps);
    forall e | 0 <= e < |ds| && ds[e].message == ds[d].message && e != d
      ensures CommitsOf(Run(ds, steps).commits, e) == 0
    {
      DeliveryIsAccounted(ds, steps, e);
    }
  }

  /** The idempotency gate is not exactly-once: once the delivery past the gate has ended, whether it
      was acknowledged, rejected or cancelled unacknowledged, the message is committed in any
      continuation exactly when that delivery had committed it; redeliveries never make up for it. */
  lemma CommittedIffByEnded(ds: seq<Delivery>, steps: seq<Step>, more: seq<Step>, d: nat)
    requires RedisReliable(steps + more) && d < |ds| && Ended(PhaseOf(Run(ds, steps), d))
    ensures MessageCommitted(ds, Run(ds, steps + more), ds[d].message) <==> CommitsOf(Run(ds, steps).commits, d) > 0
  {
    EndedStays(ds, steps, more, d);
    CommittedIffByFirst(ds, steps + more, d);
  }

  lemma RunOfTwo(ds: seq<Delivery>, steps: seq<Step>, a: Step, b: Step)
    ensures Run(ds, steps + [a, b]) == Next(ds, Next(ds, Run(ds, steps), a), b)
  {
    assert (steps + [a, b])[..|steps| + 1] == steps + [a];
    assert (steps + [a])[..|steps|] == steps;
  }

  /** In every run every message not seen yet can be lost: its delivery passes the gate and is cancelled
      before its transaction, and while Redis works nothing that follows commits it. */
  lemma UnseenMessageCanBeLost(ds: seq<Delivery>, steps: seq<Step>, more: seq<Step>, d: nat)
    requires d < |ds| && PhaseOf(Run(ds, steps), d).Arrived? && ds[d].message !in Run(ds, steps).seen
    requires RedisReliable(steps) && RedisReliable(more)
    ensures !MessageCommitted(ds, Run(ds, steps + [Gate(d, Answered), Cancel(d)] + more), ds[d].message)
  {
    var lost := steps + [Gate(d, Answered), Cancel(d)];
    RunOfTwo(ds, steps, Gate(d, Answered), Cancel(d));
    DeliveryIsAccounted(ds, steps, d);
    CommittedIffByEnded(ds, lost, more, d);
  }
}
