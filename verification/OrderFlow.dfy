/**
 * Order events delivered at least once: every delivery runs its credit command as one
 * transaction, compensates when that fails, and only then acknowledges; a crash at any point
 * before the acknowledgement leaves the event to be delivered again. The outbox of the embedded
 * Transactions machine is the log of all published envelopes.
 */
module OrderFlow {
  import opened Results
  import opened Events
  import opened LoyaltyStores
  import opened CreditHandlers
  import opened OrderHandlers
  import GoInt
  import T = Transactions

  /** Done: the handler is finished, but the bus has not acknowledged yet. */
  datatype Status = Running | Failing | Done(outcome: Outcome) | Acked(outcome: Outcome)

  /** One delivery; its transaction has the same number. */
  datatype Delivery = Delivery(env: Envelope, status: Status)

  /** `crashed` are the deliveries that crashed before they were acknowledged. */
  datatype State = State(tx: T.State, deliveries: map<nat, Delivery>, crashed: set<nat>) {
    function Log(): seq<Envelope> {
      tx.db.outbox
    }
  }

  const INITIAL := State(T.INITIAL, map[], {})

  /** Announce publishes an envelope that no order delivery produces. */
  datatype Action =
    | Announce(env: Envelope)
    | Deliver(t: nat, index: nat, converted: GoInt.Int)
    | Transact(step: T.Action)
    | Compensate(t: nat, eventId: string)
    | LoseCompensation(t: nat)
    | Ack(t: nat)
    | Crash(t: nat)

  /** Generated event ids are new. */
  predicate FreshId(log: seq<Envelope>, eventId: string) {
    eventId != "" && forall env <- log :: env.eventId != eventId
  }

  predicate Guard(s: State, a: Action) {
    match a
    case Announce(env) => FreshId(s.Log(), env.eventId)
    case Deliver(_, index, _) =>
      index < |s.Log()| && IsOrder(s.Log()[index])
    case Transact(step) =>
      && !step.Begin? && !step.PublishOther?
      && step.t in s.deliveries && s.deliveries[step.t].status.Running?
      && (step.Commit? ==> FreshId(s.Log(), step.ids.eventId))
    case Compensate(t, eventId) =>
      && t in s.deliveries && s.deliveries[t].status.Failing?
      && s.deliveries[t].env.payload.OrderPayload? && FreshId(s.Log(), eventId)
    case LoseCompensation(t) => t in s.deliveries && s.deliveries[t].status.Failing?
    case Ack(t) => t in s.deliveries && s.deliveries[t].status.Done?
    case Crash(t) => t in s.deliveries && !s.deliveries[t].status.Acked?
  }

  /** The step of the transaction machine, if the action has one. */
  function TxStep(s: State, a: Action): Option<T.Action>
    requires Guard(s, a)
  {
    match a
    case Announce(env) => Some(T.PublishOther(env))
    case Deliver(t, index, converted) => Some(T.Begin(t, CommandFor(s.Log()[index], converted)))
    case Transact(step) => Some(step)
    case Compensate(t, eventId) => Some(T.PublishOther(Compensation(s.deliveries[t].env, eventId)))
    case LoseCompensation(_) => None
    case Ack(_) => None
    case Crash(t) => if t in s.tx.txs then Some(T.Abort(t)) else None
  }

  ghost predicate Enabled(s: State, a: Action) {
    Guard(s, a) && (TxStep(s, a).Some? ==> T.Enabled(s.tx, TxStep(s, a).value))
  }

  ghost function NextTx(s: State, a: Action): T.State
    requires Enabled(s, a)
  {
    if TxStep(s, a).Some? then T.Step(s.tx, TxStep(s, a).value) else s.tx
  }

  function NextDeliveries(s: State, a: Action, tx': T.State): map<nat, Delivery>
    requires Guard(s, a)
  {
    match a
    case Announce(_) => s.deliveries
    case Deliver(t, index, _) => s.deliveries[t := Delivery(s.Log()[index], Running)]
    case Transact(step) =>
      if step.Commit? then s.deliveries[step.t := s.deliveries[step.t].(status := Done(CreditCommitted))]
      else if step.t in tx'.txs then s.deliveries
      else s.deliveries[step.t := s.deliveries[step.t].(status := Failing)]
    case Compensate(t, _) => s.deliveries[t := s.deliveries[t].(status := Done(CompensationPublished))]
    case LoseCompensation(t) => s.deliveries[t := s.deliveries[t].(status := Done(CompensationLost))]
    case Ack(t) => s.deliveries[t := s.deliveries[t].(status := Acked(s.deliveries[t].status.outcome))]
    case Crash(t) => s.deliveries - {t}
  }

  ghost function Step(s: State, a: Action): State
    requires Enabled(s, a)
  {
    State(NextTx(s, a), NextDeliveries(s, a, NextTx(s, a)), if a.Crash? then s.crashed + {a.t} else s.crashed)
  }

  ghost predicate Runs(s: State, actions: seq<Action>)
    decreases |actions|
  {
    actions == [] || (Enabled(s, actions[0]) && Runs(Step(s, actions[0]), actions[1..]))
  }

  ghost function Run(s: State, actions: seq<Action>): State
    requires Runs(s, actions)
    decreases |actions|
  {
    if actions == [] then s else Run(Step(s, actions[0]), actions[1..])
  }

  // ---------- deliveries and transactions ----------

  ghost predicate Owns(s: State, t: nat)
    requires t in s.tx.txs && t in s.deliveries
  {
    && s.tx.txs[t].cmd.causationId == s.deliveries[t].env.eventId
    && s.tx.txs[t].cmd.correlationId == s.deliveries[t].env.correlationId
  }

  predicate IsOrder(env: Envelope) {
    env.topic == OrderCompleted && env.payload.OrderPayload?
  }

  /** Deliveries carry logged orders, and exactly the running ones own a transaction, for their event. */
  ghost predicate InFlight(s: State) {
    && (forall env <- s.Log() :: env.eventId != "")
    && (forall t <- s.deliveries :: s.deliveries[t].env in s.Log() && IsOrder(s.deliveries[t].env))
    && Owned(s)
  }

  ghost predicate CausedBy(log: seq<Envelope>, env: Envelope) {
    exists cause <- log :: cause.eventId == env.causationId && cause.correlationId == env.correlationId
  }

  /** A step appends at most one envelope: an announcement, or one caused by a logged order. */
  ghost predicate Extends(log: seq<Envelope>, log': seq<Envelope>, a: Action) {
    log' == log ||
    (&& |log'| == |log| + 1 && log'[..|log|] == log
     && FreshId(log, log'[|log|].eventId)
     && (if a.Announce? then log'[|log|] == a.env
         else log'[|log|].topic in {LoyaltyCredited, LoyaltyCreditFailed} && CausedBy(log, log'[|log|])))
  }

  lemma TransactExtendsLog(s: State, a: Action)
    requires Enabled(s, a) && InFlight(s) && a.Transact?
    ensures Extends(s.Log(), Step(s, a).Log(), a)
  {
    if a.step.Commit? {
      var t := a.step.t;
      assert Owns(s, t);
      assert s.deliveries[t].env in s.Log();
    }
  }

  lemma StepExtendsLog(s: State, a: Action)
    requires Enabled(s, a) && InFlight(s)
    ensures Extends(s.Log(), Step(s, a).Log(), a)
  {
    if a.Transact? {
      TransactExtendsLog(s, a);
    }
  }

  /** Exactly the running deliveries own a transaction, for their event. */
  ghost predicate Owned(s: State) {
    && (forall t <- s.deliveries :: t in s.tx.started && (s.deliveries[t].status.Running? <==> t in s.tx.txs))
    && (forall t <- s.tx.txs :: t in s.deliveries && Owns(s, t))
  }

  lemma TransactKeepsOwned(s: State, a: Action)
    requires Enabled(s, a) && a.Transact? && Owned(s)
    ensures Owned(Step(s, a))
  {
    var t, s' := a.step.t, Step(s, a);
    assert s'.tx.started == s.tx.started;
    assert s'.tx.txs - {t} == s.tx.txs - {t};
    assert t in s'.tx.txs ==> s'.tx.txs[t].cmd == s.tx.txs[t].cmd;
    assert Owns(s, t);
    forall u | u in s'.tx.txs ensures u in s'.deliveries && Owns(s', u) {
      if u != t {
        assert u in s'.tx.txs - {t} && s'.tx.txs[u] == s.tx.txs[u] && Owns(s, u);
      }
    }
    forall u | u in s'.deliveries && u != t ensures u in s'.tx.txs <==> u in s.tx.txs {
      assert u in s'.tx.txs - {t} <==> u in s.tx.txs - {t};
    }
  }

  lemma OtherStepsKeepOwned(s: State, a: Action)
    requires Enabled(s, a) && !a.Transact? && Owned(s)
    ensures Owned(Step(s, a))
  {
    var s' := Step(s, a);
    forall t | t in s'.tx.txs ensures t in s'.deliveries && Owns(s', t) {
      if t in s.tx.txs {
        assert Owns(s, t);
      }
    }
  }

  lemma DeliveriesCarryLoggedOrders(s: State, a: Action, tx': T.State)
    requires Guard(s, a) && InFlight(s)
    ensures forall t <- NextDeliveries(s, a, tx') ::
      var env := NextDeliveries(s, a, tx')[t].env; env in s.Log() && IsOrder(env)
  {
  }

  lemma ExtendedLog(log: seq<Envelope>, log': seq<Envelope>, a: Action)
    requires Extends(log, log', a) && forall env <- log :: env.eventId != ""
    ensures forall env <- log :: env in log'
    ensures forall env <- log' :: env.eventId != ""
  {
    if log' != log {
      assert log' == log + [log'[|log|]];
    }
  }

  lemma LogOnlyGrows(s: State, a: Action)
    requires Enabled(s, a) && InFlight(s)
    ensures forall env <- s.Log() :: env in Step(s, a).Log()
    ensures forall env <- Step(s, a).Log() :: env.eventId != ""
  {
    StepExtendsLog(s, a);
    ExtendedLog(s.Log(), Step(s, a).Log(), a);
  }

  lemma StepKeepsInFlight(s: State, a: Action)
    requires Enabled(s, a) && InFlight(s)
    ensures InFlight(Step(s, a))
  {
    LogOnlyGrows(s, a);
    DeliveriesCarryLoggedOrders(s, a, NextTx(s, a));
    if a.Transact? {
      TransactKeepsOwned(s, a);
    } else {
      OtherStepsKeepOwned(s, a);
    }
  }

  // ---------- commits, crashes and acknowledgements ----------

  /** The handler of the delivery is finished with that outcome, acknowledged or not. */
  predicate Ended(deliveries: map<nat, Delivery>, t: nat, outcome: Outcome) {
    t in deliveries && (deliveries[t].status == Done(outcome) || deliveries[t].status == Acked(outcome))
  }

  /**
   * A delivery that ended in a credit did commit; a delivery that committed ended in a credit,
   * or crashed before it was acknowledged.
   */
  ghost predicate CommitsAccounted(s: State) {
    && (forall t <- s.deliveries :: t !in s.crashed && t in s.tx.started && !Ended(s.deliveries, t, Malformed))
    && (forall t <- s.crashed :: t in s.tx.started)
    && (forall c <- s.tx.commits ::
          c.tx in s.tx.started && (Ended(s.deliveries, c.tx, CreditCommitted) || c.tx in s.crashed))
    && (forall c <- s.tx.commits :: c.tx in s.deliveries ==> c.cmd.causationId == s.deliveries[c.tx].env.eventId)
    && (forall t <- s.deliveries :: Ended(s.deliveries, t, CreditCommitted) ==> exists c <- s.tx.commits :: c.tx == t)
  }

  /** Apart from a commit, a step neither ends a delivery in a credit nor undoes that, except by a crash. */
  lemma EndedAfter(s: State, a: Action, tx': T.State, t: nat, outcome: Outcome)
    requires Guard(s, a) && !(a.Transact? && a.step.Commit?) && (a.Deliver? ==> a.t !in s.deliveries)
    requires outcome == CreditCommitted || outcome == Malformed
    ensures Ended(NextDeliveries(s, a, tx'), t, outcome) <==>
            Ended(s.deliveries, t, outcome) && !(a.Crash? && a.t == t)
  {
  }

  lemma DeliveriesAfter(s: State, a: Action, tx': T.State, t: nat)
    requires Guard(s, a) && t in NextDeliveries(s, a, tx')
    ensures !(a.Crash? && a.t == t)
    ensures (a.Deliver? && t == a.t) || t in s.deliveries
    ensures t in s.deliveries && !a.Deliver? ==> NextDeliveries(s, a, tx')[t].env == s.deliveries[t].env
    ensures t in s.deliveries && a.Deliver? && a.t != t ==> NextDeliveries(s, a, tx')[t] == s.deliveries[t]
  {
  }

  lemma StartedAfter(s: State, a: Action)
    requires Enabled(s, a) && !(a.Transact? && a.step.Commit?)
    ensures NextTx(s, a).commits == s.tx.commits
    ensures NextTx(s, a).started == s.tx.started + if a.Deliver? then {a.t} else {}
    ensures a.Deliver? ==> a.t !in s.tx.started
  {
  }

  lemma CreditIsAccounted(s: State, s': State, c: T.Committed)
    requires CommitsAccounted(s) && c.tx in s.deliveries && !s.deliveries[c.tx].status.Done?
    requires c.cmd.causationId == s.deliveries[c.tx].env.eventId
    requires s'.tx.commits == s.tx.commits + [c] && s'.tx.started == s.tx.started && s'.crashed == s.crashed
    requires s'.deliveries == s.deliveries[c.tx := s.deliveries[c.tx].(status := Done(CreditCommitted))]
    ensures CommitsAccounted(s')
  {
    assert c in s'.tx.commits;
    forall d | d in s.tx.commits ensures d in s'.tx.commits {
    }
    forall t, outcome | t != c.tx
      ensures Ended(s'.deliveries, t, outcome) <==> Ended(s.deliveries, t, outcome)
    {
    }
  }

  lemma CommitIsAccounted(s: State, a: Action)
    requires Enabled(s, a) && InFlight(s) && CommitsAccounted(s) && a.Transact? && a.step.Commit?
    ensures CommitsAccounted(Step(s, a))
  {
    var t := a.step.t;
    assert Owns(s, t);
    CreditIsAccounted(s, Step(s, a), T.Committed(t, s.tx.txs[t].cmd));
  }

  lemma OtherStepsAreAccounted(s: State, a: Action, tx': T.State)
    requires Guard(s, a) && !(a.Transact? && a.step.Commit?) && CommitsAccounted(s)
    requires tx'.commits == s.tx.commits && tx'.started == s.tx.started + if a.Deliver? then {a.t} else {}
    requires a.Deliver? ==> a.t !in s.tx.started
    ensures CommitsAccounted(State(tx', NextDeliveries(s, a, tx'), if a.Crash? then s.crashed + {a.t} else s.crashed))
  {
    var deliveries' := NextDeliveries(s, a, tx');
    forall t ensures Ended(deliveries', t, CreditCommitted) <==>
                     Ended(s.deliveries, t, CreditCommitted) && !(a.Crash? && a.t == t)
    {
      EndedAfter(s, a, tx', t, CreditCommitted);
    }
    forall t | t in deliveries'
      ensures (a.Deliver? && t == a.t) || (t in s.deliveries && deliveries'[t].env == s.deliveries[t].env)
      ensures !Ended(deliveries', t, Malformed) && !(a.Crash? && a.t == t)
    {
      EndedAfter(s, a, tx', t, Malformed);
      DeliveriesAfter(s, a, tx', t);
    }
  }

  lemma StepKeepsCommitsAccounted(s: State, a: Action)
    requires Enabled(s, a) && InFlight(s) && CommitsAccounted(s)
    ensures CommitsAccounted(Step(s, a))
  {
    if a.Transact? && a.step.Commit? {
      CommitIsAccounted(s, a);
    } else {
      StartedAfter(s, a);
      OtherStepsAreAccounted(s, a, NextTx(s, a));
    }
  }

  lemma {:induction false} TwoCommitsCountTwice(commits: seq<T.Committed>, i: nat, j: nat, eventId: string)
    requires i < j < |commits|
    requires commits[i].cmd.causationId == commits[j].cmd.causationId == eventId
    ensures T.CommitsFor(commits, eventId) >= 2
  {
    var before := commits[..|commits| - 1];
    if j < |before| {
      TwoCommitsCountTwice(before, i, j, eventId);
    } else {
      OneCommitCounts(before, i, eventId);
    }
  }

  lemma {:induction false} OneCommitCounts(commits: seq<T.Committed>, i: nat, eventId: string)
    requires i < |commits| && commits[i].cmd.causationId == eventId
    ensures T.CommitsFor(commits, eventId) >= 1
  {
    if i < |commits| - 1 {
      OneCommitCounts(commits[..|commits| - 1], i, eventId);
    }
  }

  lemma StepKeepsExactlyOnce(s: State, a: Action, eventId: string)
    requires Enabled(s, a) && eventId != "" && T.ExactlyOnce(s.tx, eventId)
    ensures T.ExactlyOnce(Step(s, a).tx, eventId)
  {
    if TxStep(s, a).Some? {
      T.StepKeepsExactlyOnce(s.tx, TxStep(s, a).value, eventId);
    }
  }

  lemma {:induction false} RunsKeepAccounts(s: State, actions: seq<Action>, eventId: string)
    requires InFlight(s) && CommitsAccounted(s) && Runs(s, actions)
    requires eventId != "" && T.ExactlyOnce(s.tx, eventId)
    ensures InFlight(Run(s, actions)) && CommitsAccounted(Run(s, actions))
    ensures T.ExactlyOnce(Run(s, actions).tx, eventId)
    decreases |actions|
  {
    if actions != [] {
      StepKeepsInFlight(s, actions[0]);
      StepKeepsCommitsAccounted(s, actions[0]);
      StepKeepsExactlyOnce(s, actions[0], eventId);
      RunsKeepAccounts(Step(s, actions[0]), actions[1..], eventId);
    }
  }

  lemma CreditedOnce(s: State, t: nat, u: nat, eventId: string)
    requires T.CommitsFor(s.tx.commits, eventId) <= 1
    requires exists c <- s.tx.commits :: c.tx == t && c.cmd.causationId == eventId
    requires exists c <- s.tx.commits :: c.tx == u && c.cmd.causationId == eventId
    ensures t == u
  {
    if t != u {
      var c :| c in s.tx.commits && c.tx == t && c.cmd.causationId == eventId;
      var d :| d in s.tx.commits && d.tx == u && d.cmd.causationId == eventId;
      var i :| 0 <= i < |s.tx.commits| && s.tx.commits[i] == c;
      var j :| 0 <= j < |s.tx.commits| && s.tx.commits[j] == d;
      TwoCommitsCountTwice(s.tx.commits, if i < j then i else j, if i < j then j else i, eventId);
    }
  }

  // ---------- what is said to be published is published ----------

  /** The log holds a compensation for the order. */
  ghost predicate Compensated(log: seq<Envelope>, order: Envelope) {
    exists env <- log :: env.topic == LoyaltyCreditFailed && env.causationId == order.eventId &&
      env.correlationId == order.correlationId
  }

  /** A delivery that ended with a published compensation has one in the log. */
  ghost predicate CompensationsLogged(s: State) {
    forall t <- s.deliveries :: Ended(s.deliveries, t, CompensationPublished) ==>
      Compensated(s.Log(), s.deliveries[t].env)
  }

  lemma CompensatedAfter(s: State, a: Action, tx': T.State, t: nat)
    requires Guard(s, a) && Ended(NextDeliveries(s, a, tx'), t, CompensationPublished)
    ensures (a.Compensate? && a.t == t && t in s.deliveries) || Ended(s.deliveries, t, CompensationPublished)
    ensures t in s.deliveries && NextDeliveries(s, a, tx')[t].env == s.deliveries[t].env
  {
  }

  lemma CompensatedStays(log: seq<Envelope>, log': seq<Envelope>, order: Envelope)
    requires Compensated(log, order) && forall env <- log :: env in log'
    ensures Compensated(log', order)
  {
  }

  lemma StepKeepsCompensationsLogged(s: State, a: Action)
    requires Enabled(s, a) && InFlight(s) && CompensationsLogged(s)
    ensures CompensationsLogged(Step(s, a))
  {
    var s' := Step(s, a);
    LogOnlyGrows(s, a);
    forall t | t in s'.deliveries && Ended(s'.deliveries, t, CompensationPublished)
      ensures Compensated(s'.Log(), s'.deliveries[t].env)
    {
      CompensatedAfter(s, a, NextTx(s, a), t);
      if a.Compensate? && a.t == t {
        assert Compensation(s.deliveries[t].env, a.eventId) in s'.Log();
      } else {
        CompensatedStays(s.Log(), s'.Log(), s.deliveries[t].env);
      }
    }
  }

  /** In every run, a delivery acknowledged as compensated by a published event has that event in the log. */
  lemma {:induction false} RunsKeepCompensationsLogged(s: State, actions: seq<Action>)
    requires InFlight(s) && CompensationsLogged(s) && Runs(s, actions)
    ensures CompensationsLogged(Run(s, actions))
    decreases |actions|
  {
    if actions != [] {
      StepKeepsInFlight(s, actions[0]);
      StepKeepsCompensationsLogged(s, actions[0]);
      RunsKeepCompensationsLogged(Step(s, actions[0]), actions[1..]);
    }
  }

  /** The transaction credited the event. */
  ghost predicate CommittedBy(s: State, t: nat, eventId: string) {
    exists c <- s.tx.commits :: c.tx == t && c.cmd.causationId == eventId
  }

  lemma {:induction false} RunsStayInFlight(s: State, actions: seq<Action>)
    requires InFlight(s) && Runs(s, actions)
    ensures InFlight(Run(s, actions))
    decreases |actions|
  {
    if actions != [] {
      StepKeepsInFlight(s, actions[0]);
      RunsStayInFlight(Step(s, actions[0]), actions[1..]);
    }
  }

  /** Every reachable state, for the event of one of its deliveries. */
  lemma ReachedAccounts(actions: seq<Action>, t: nat)
    requires Runs(INITIAL, actions) && t in Run(INITIAL, actions).deliveries
    ensures var s := Run(INITIAL, actions);
      && InFlight(s) && CommitsAccounted(s)
      && s.deliveries[t].env.eventId != "" && T.ExactlyOnce(s.tx, s.deliveries[t].env.eventId)
  {
    RunsStayInFlight(INITIAL, actions);
    RunsKeepAccounts(INITIAL, actions, Run(INITIAL, actions).deliveries[t].env.eventId);
  }

  /**
   * In every run, however often an order event is redelivered and however its deliveries
   * interleave or crash: a delivery that ends in a credit did commit it, no other delivery of
   * the event ever commits, and each other one that ends does so with a compensation, published
   * or lost.
   */
  lemma AtMostOneDeliveryCredits(actions: seq<Action>, t: nat, u: nat)
    requires Runs(INITIAL, actions) && u != t && Ended(Run(INITIAL, actions).deliveries, t, CreditCommitted)
    ensures var s := Run(INITIAL, actions);
      && CommittedBy(s, t, s.deliveries[t].env.eventId)
      && !CommittedBy(s, u, s.deliveries[t].env.eventId)
      && (u in s.deliveries && s.deliveries[u].env.eventId == s.deliveries[t].env.eventId ==>
          forall outcome :: Ended(s.deliveries, u, outcome) ==>
            outcome == CompensationPublished || outcome == CompensationLost)
  {
    var s := Run(INITIAL, actions);
    var eventId := s.deliveries[t].env.eventId;
    ReachedAccounts(actions, t);
    EndedIsCommitted(s, t);
    if CommittedBy(s, u, eventId) {
      CreditedOnce(s, t, u, eventId);
    }
    if u in s.deliveries && s.deliveries[u].env.eventId == eventId {
      UncommittedEndsCompensated(s, u);
    }
  }

  lemma UncommittedEndsCompensated(s: State, u: nat)
    requires CommitsAccounted(s) && u in s.deliveries && !CommittedBy(s, u, s.deliveries[u].env.eventId)
    ensures forall outcome :: Ended(s.deliveries, u, outcome) ==>
      outcome == CompensationPublished || outcome == CompensationLost
  {
    if Ended(s.deliveries, u, CreditCommitted) {
      EndedIsCommitted(s, u);
    }
    assert !Ended(s.deliveries, u, Malformed);
  }

  lemma EndedIsCommitted(s: State, t: nat)
    requires CommitsAccounted(s) && Ended(s.deliveries, t, CreditCommitted)
    ensures CommittedBy(s, t, s.deliveries[t].env.eventId)
  {
    var c :| c in s.tx.commits && c.tx == t;
    assert c.cmd.causationId == s.deliveries[t].env.eventId;
  }

  /** Deliveries of the event are all acknowledged, and there is one. */
  ghost predicate FullyAcked(s: State, eventId: string) {
    && (exists t <- s.deliveries :: s.deliveries[t].env.eventId == eventId)
    && (forall t <- s.deliveries :: s.deliveries[t].env.eventId == eventId ==> s.deliveries[t].status.Acked?)
  }

  predicate IsCompensation(status: Status) {
    status == Acked(CompensationPublished) || status == Acked(CompensationLost)
  }

  /** Every acknowledgement of the event acknowledges a compensation. */
  ghost predicate OnlyCompensated(s: State, eventId: string) {
    forall t <- s.deliveries :: s.deliveries[t].env.eventId == eventId ==>
      IsCompensation(s.deliveries[t].status)
  }

  /**
   * The window of at-least-once delivery: once an event that transaction t credited is fully
   * acknowledged, it is acknowledged only as compensated, although its points were credited, if
   * and only if delivery t crashed between its commit and its acknowledgement.
   */
  lemma CreditedYetCompensatedIff(actions: seq<Action>, t: nat, eventId: string)
    requires Runs(INITIAL, actions) && eventId != ""
    requires CommittedBy(Run(INITIAL, actions), t, eventId) && FullyAcked(Run(INITIAL, actions), eventId)
    ensures OnlyCompensated(Run(INITIAL, actions), eventId) <==> t in Run(INITIAL, actions).crashed
  {
    RunsKeepAccounts(INITIAL, actions, eventId);
    CompensatedIffCrashed(Run(INITIAL, actions), t, eventId);
  }

  lemma CompensatedIffCrashed(s: State, t: nat, eventId: string)
    requires CommitsAccounted(s) && CommittedBy(s, t, eventId) && FullyAcked(s, eventId)
    requires T.CommitsFor(s.tx.commits, eventId) <= 1
    ensures OnlyCompensated(s, eventId) <==> t in s.crashed
  {
    if t in s.crashed {
      forall u | u in s.deliveries && s.deliveries[u].env.eventId == eventId
        ensures IsCompensation(s.deliveries[u].status)
      {
        var Acked(outcome) := s.deliveries[u].status;
        assert Ended(s.deliveries, u, outcome) && outcome != Malformed;
        if Ended(s.deliveries, u, CreditCommitted) {
          EndedIsCommitted(s, u);
          CreditedOnce(s, t, u, eventId);
        }
      }
    } else {
      assert Ended(s.deliveries, t, CreditCommitted) && s.deliveries[t].env.eventId == eventId;
    }
  }

  lemma RunsFrom(s: State, a: Action, rest: seq<Action>)
    ensures Runs(s, [a] + rest) <==> Enabled(s, a) && Runs(Step(s, a), rest)
    ensures Runs(s, [a] + rest) ==> Run(s, [a] + rest) == Run(Step(s, a), rest)
  {
    assert ([a] + rest)[1..] == rest;
  }

  /** A committed event's key is marked. */
  lemma CommittedIsMarked(s: State, t: nat)
    requires CommitsAccounted(s) && Ended(s.deliveries, t, CreditCommitted)
    requires T.ExactlyOnce(s.tx, s.deliveries[t].env.eventId)
    ensures s.deliveries[t].env.eventId in s.tx.db.keys
  {
    var c :| c in s.tx.commits && c.tx == t;
    var i :| 0 <= i < |s.tx.commits| && s.tx.commits[i] == c;
    OneCommitCounts(s.tx.commits, i, s.deliveries[t].env.eventId);
  }

  function RedeliverySteps(u: nat, index: nat, converted: GoInt.Int, id: string): seq<Action> {
    [Deliver(u, index, converted), Transact(T.Check(u))] + [Compensate(u, id), Ack(u)]
  }

  /** A crash after the commit, and a redelivery. */
  function CrashSteps(t: nat, u: nat, index: nat, converted: GoInt.Int, id: string): seq<Action> {
    [Crash(t)] + RedeliverySteps(u, index, converted, id)
  }

  /** The redelivery of a credited order is acknowledged as compensated and changes nothing else. */
  lemma RedeliveryCompensates(s: State, u: nat, index: nat, converted: GoInt.Int, id: string)
    requires u !in s.tx.started && Guard(s, Deliver(u, index, converted)) && FreshId(s.Log(), id)
    requires s.Log()[index].eventId in s.tx.db.keys && s.Log()[index].eventId != ""
    ensures Runs(s, RedeliverySteps(u, index, converted, id))
    ensures var s' := Run(s, RedeliverySteps(u, index, converted, id));
      && s'.deliveries == s.deliveries[u := Delivery(s.Log()[index], Acked(CompensationPublished))]
      && s'.crashed == s.crashed && s'.tx.commits == s.tx.commits
      && s'.tx.db == s.tx.db.(outbox := s.Log() + [Compensation(s.Log()[index], id)])
  {
    var redeliver := [Deliver(u, index, converted), Transact(T.Check(u))];
    DuplicateFails(s, u, index, converted);
    CompensateAndAck(Run(s, redeliver), u, id);
    RunsConcat(s, redeliver, [Compensate(u, id), Ack(u)]);
  }

  /** Delivery t crashed and u was acknowledged as compensated; nothing else changed. */
  ghost predicate CrashedAndCompensated(s: State, s': State, t: nat, u: nat, id: string) {
    && t in s.deliveries && IsOrder(s.deliveries[t].env)
    && s'.deliveries == (s.deliveries - {t})[u := Delivery(s.deliveries[t].env, Acked(CompensationPublished))]
    && s'.crashed == s.crashed + {t} && s'.tx.commits == s.tx.commits
    && s'.tx.db == s.tx.db.(outbox := s.Log() + [Compensation(s.deliveries[t].env, id)])
  }

  lemma CrashStepsRun(s: State, t: nat, u: nat, index: nat, converted: GoInt.Int, id: string)
    requires InFlight(s) && t in s.deliveries && s.deliveries[t].status == Done(CreditCommitted)
    requires s.deliveries[t].env.eventId in s.tx.db.keys
    requires index < |s.Log()| && s.Log()[index] == s.deliveries[t].env
    requires u !in s.tx.started && FreshId(s.Log(), id)
    ensures Runs(s, CrashSteps(t, u, index, converted, id))
    ensures CrashedAndCompensated(s, Run(s, CrashSteps(t, u, index, converted, id)), t, u, id)
  {
    assert s.deliveries[t].env in s.Log();
    CrashForgets(s, t);
    RedeliveryCompensates(Step(s, Crash(t)), u, index, converted, id);
    RunsFrom(s, Crash(t), RedeliverySteps(u, index, converted, id));
  }

  /**
   * The window is real: from every reachable state in which a credited delivery is not yet
   * acknowledged, a crash and a redelivery end with the event acknowledged as compensated, the
   * points kept.
   */
  lemma CrashAfterCommitCompensates(
    actions: seq<Action>, t: nat, u: nat, index: nat, converted: GoInt.Int, id: string)
    requires Runs(INITIAL, actions)
    requires var s := Run(INITIAL, actions);
      && t in s.deliveries && s.deliveries[t].status == Done(CreditCommitted)
      && index < |s.Log()| && s.Log()[index] == s.deliveries[t].env
      && u !in s.tx.started && FreshId(s.Log(), id)
    ensures var s, steps := Run(INITIAL, actions), CrashSteps(t, u, index, converted, id);
      Runs(s, steps) && CrashedAndCompensated(s, Run(s, steps), t, u, id)
  {
    ReachedAccounts(actions, t);
    CommittedIsMarked(Run(INITIAL, actions), t);
    CrashStepsRun(Run(INITIAL, actions), t, u, index, converted, id);
  }

  lemma CrashForgets(s: State, t: nat)
    requires InFlight(s) && t in s.deliveries && s.deliveries[t].status.Done?
    ensures Enabled(s, Crash(t)) && Step(s, Crash(t)) == State(s.tx, s.deliveries - {t}, s.crashed + {t})
  {
    assert t !in s.tx.txs;
  }

  lemma DuplicateFails(s: State, u: nat, index: nat, converted: GoInt.Int)
    requires u !in s.tx.started && Guard(s, Deliver(u, index, converted))
    requires s.Log()[index].eventId in s.tx.db.keys && s.Log()[index].eventId != ""
    ensures Runs(s, [Deliver(u, index, converted), Transact(T.Check(u))])
    ensures var s' := Run(s, [Deliver(u, index, converted), Transact(T.Check(u))]);
      && s'.tx.db == s.tx.db && s'.tx.commits == s.tx.commits && s'.crashed == s.crashed
      && s'.deliveries == s.deliveries[u := Delivery(s.Log()[index], Failing)]
  {
    var s1 := Step(s, Deliver(u, index, converted));
    assert s1.tx.txs[u] == T.Tx(CommandFor(s.Log()[index], converted), T.Begun);
    var s2 := Step(s1, Transact(T.Check(u)));
    assert u !in s2.tx.txs;
    RunsFrom(s1, Transact(T.Check(u)), []);
    RunsFrom(s, Deliver(u, index, converted), [Transact(T.Check(u))]);
  }

  lemma CompensateAndAck(s: State, u: nat, id: string)
    requires u in s.deliveries && s.deliveries[u].status == Failing && s.deliveries[u].env.payload.OrderPayload?
    requires FreshId(s.Log(), id)
    ensures Runs(s, [Compensate(u, id), Ack(u)])
    ensures var s' := Run(s, [Compensate(u, id), Ack(u)]);
      && s'.deliveries == s.deliveries[u := Delivery(s.deliveries[u].env, Acked(CompensationPublished))]
      && s'.crashed == s.crashed && s'.tx.commits == s.tx.commits
      && s'.tx.db == s.tx.db.(outbox := s.Log() + [Compensation(s.deliveries[u].env, id)])
  {
    var s1 := Step(s, Compensate(u, id));
    RunsFrom(s1, Ack(u), []);
    RunsFrom(s, Compensate(u, id), [Ack(u)]);
  }

  lemma {:induction false} RunsConcat(s: State, first: seq<Action>, second: seq<Action>)
    requires Runs(s, first) && Runs(Run(s, first), second)
    ensures Runs(s, first + second) && Run(s, first + second) == Run(Run(s, first), second)
    decreases |first|
  {
    if first == [] {
      assert first + second == second;
    } else {
      assert (first + second)[1..] == first[1..] + second;
      RunsConcat(Step(s, first[0]), first[1..], second);
    }
  }

  /** An order is announced, delivered and credited, but not yet acknowledged. */
  function CreditSteps(order: Envelope, converted: GoInt.Int, ids: FreshIds): seq<Action> {
    [Announce(order), Deliver(0, 0, converted)] +
    ([Transact(T.Check(0)), Transact(T.Load(0))] + [Transact(T.Commit(0, ids))])
  }

  /** One order in the log, delivered by a transaction in that phase. */
  function Delivering(order: Envelope, converted: GoInt.Int, phase: T.Phase): State
    requires IsOrder(order)
  {
    State(T.State(T.EMPTY_DB.(outbox := [order]), map[0 := T.Tx(CommandFor(order, converted), phase)], {0}, []),
          map[0 := Delivery(order, Running)], {})
  }

  lemma OrderIsDelivered(order: Envelope, converted: GoInt.Int)
    requires IsOrder(order) && order.eventId != ""
    ensures Runs(INITIAL, [Announce(order), Deliver(0, 0, converted)])
    ensures Run(INITIAL, [Announce(order), Deliver(0, 0, converted)]) == Delivering(order, converted, T.Begun)
  {
    var s1 := Step(INITIAL, Announce(order));
    assert s1.Log() == [order];
    RunsFrom(s1, Deliver(0, 0, converted), []);
    RunsFrom(INITIAL, Announce(order), [Deliver(0, 0, converted)]);
  }

  lemma OrderIsLoaded(order: Envelope, converted: GoInt.Int)
    requires IsOrder(order) && order.eventId != ""
    ensures Runs(Delivering(order, converted, T.Begun), [Transact(T.Check(0)), Transact(T.Load(0))])
    ensures Run(Delivering(order, converted, T.Begun), [Transact(T.Check(0)), Transact(T.Load(0))]) ==
            Delivering(order, converted, T.Loaded(None))
  {
    var s0 := Delivering(order, converted, T.Begun);
    var s1 := Step(s0, Transact(T.Check(0)));
    assert s1 == Delivering(order, converted, T.Checked);
    assert Step(s1, Transact(T.Load(0))) == Delivering(order, converted, T.Loaded(None));
    RunsFrom(s1, Transact(T.Load(0)), []);
    RunsFrom(s0, Transact(T.Check(0)), [Transact(T.Load(0))]);
  }

  /** The order's credit committed; its delivery is not acknowledged. */
  ghost predicate CreditedOnly(s: State, order: Envelope, ids: FreshIds) {
    && s.deliveries == map[0 := Delivery(order, Done(CreditCommitted))] && s.tx.started == {0} && s.crashed == {}
    && |s.Log()| == 2 && s.Log()[0] == order && s.Log()[1].eventId == ids.eventId
  }

  lemma LoadedOrderCommits(order: Envelope, converted: GoInt.Int, ids: FreshIds)
    requires IsOrder(order) && order.eventId != "" && FreshId([order], ids.eventId)
    requires CommandFor(order, converted).points <= INTEGER_MAX
    ensures var s, commit := Delivering(order, converted, T.Loaded(None)), Transact(T.Commit(0, ids));
      Enabled(s, commit) && CreditedOnly(Step(s, commit), order, ids)
  {
    var s := Delivering(order, converted, T.Loaded(None));
    assert T.CanCommit(s.tx.db, CommandFor(order, converted), None, ids);
  }

  lemma OrderIsCredited(order: Envelope, converted: GoInt.Int, ids: FreshIds)
    requires IsOrder(order) && order.eventId != "" && FreshId([order], ids.eventId)
    requires CommandFor(order, converted).points <= INTEGER_MAX
    ensures Runs(INITIAL, CreditSteps(order, converted, ids))
    ensures CreditedOnly(Run(INITIAL, CreditSteps(order, converted, ids)), order, ids)
  {
    var start, load := [Announce(order), Deliver(0, 0, converted)], [Transact(T.Check(0)), Transact(T.Load(0))];
    var commit := Transact(T.Commit(0, ids));
    OrderIsDelivered(order, converted);
    OrderIsLoaded(order, converted);
    LoadedOrderCommits(order, converted, ids);
    RunsFrom(Delivering(order, converted, T.Loaded(None)), commit, []);
    assert [commit] + [] == [commit];
    RunsConcat(Delivering(order, converted, T.Begun), load, [commit]);
    RunsConcat(INITIAL, start, load + [commit]);
  }

  /** It happens: an order is credited and then acknowledged only as compensated. */
  lemma CreditedThenCompensated(order: Envelope, converted: GoInt.Int, ids: FreshIds, id: string)
    requires IsOrder(order) && order.eventId != "" && FreshId([order], ids.eventId)
    requires FreshId([order], id) && id != ids.eventId
    requires CommandFor(order, converted).points <= INTEGER_MAX
    ensures var steps := CreditSteps(order, converted, ids) + CrashSteps(0, 1, 0, converted, id);
      && Runs(INITIAL, steps)
      && var s := Run(INITIAL, steps);
         CommittedBy(s, 0, order.eventId) && FullyAcked(s, order.eventId) && OnlyCompensated(s, order.eventId)
  {
    var credit, crash := CreditSteps(order, converted, ids), CrashSteps(0, 1, 0, converted, id);
    OrderIsCredited(order, converted, ids);
    var s := Run(INITIAL, credit);
    ReachedAccounts(credit, 0);
    CrashAfterCommitCompensates(credit, 0, 1, 0, converted, id);
    RunsConcat(INITIAL, credit, crash);
    OnlyTheRedeliveryIsAcked(s, Run(s, crash), order, ids, id);
  }

  lemma OnlyTheRedeliveryIsAcked(s: State, s': State, order: Envelope, ids: FreshIds, id: string)
    requires CommitsAccounted(s) && CreditedOnly(s, order, ids) && CrashedAndCompensated(s, s', 0, 1, id)
    ensures CommittedBy(s', 0, order.eventId)
    ensures FullyAcked(s', order.eventId) && OnlyCompensated(s', order.eventId)
  {
    EndedIsCommitted(s, 0);
    assert s'.deliveries == map[1 := Delivery(order, Acked(CompensationPublished))];
    assert 1 in s'.deliveries;
  }
}
