/**
 * The whole event flow: root events enter the log, orders are credited or compensated, and the
 * saga joins credits with reservations taken from that log, all interleaved and with any faults.
 */
module Protocol {
  import opened Events
  import opened Sagas
  import O = OrderFlow
  import S = SagaFlow
  import T = Transactions

  datatype State = State(orders: O.State, saga: S.State) {
    function Log(): seq<Envelope> {
      orders.Log()
    }
  }

  const INITIAL := State(O.INITIAL, S.INITIAL)

  /** Root publishes an order or a reservation. */
  datatype Action = Root(env: Envelope) | Order(order: O.Action) | Saga(saga: S.Action)

  predicate IsRoot(topic: Topic) {
    topic == OrderCompleted || topic == StockReserved
  }

  /** What an action announces in the log, beyond what order deliveries publish themselves. */
  predicate Announces(s: State, a: Action) {
    a.Root? || (a.Saga? && a.saga.Publish? && S.Enabled(s.saga, a.saga))
  }

  function Announced(s: State, a: Action): Envelope
    requires Announces(s, a)
  {
    if a.Root? then a.env else ReadyEnvelope(s.saga.active[a.saga.r].env, a.saga.eventId)
  }

  /** The step the order flow takes, if any. */
  ghost predicate OrdersMove(s: State, a: Action) {
    a.Order? || Announces(s, a)
  }

  ghost function OrderStep(s: State, a: Action): O.Action
    requires OrdersMove(s, a)
  {
    if a.Order? then a.order else O.Announce(Announced(s, a))
  }

  /** The saga takes its deliveries from the log. */
  ghost predicate Enabled(s: State, a: Action) {
    && (a.Root? ==> IsRoot(a.env.topic))
    && (a.Order? ==> !a.order.Announce?)
    && (a.Saga? ==> S.Enabled(s.saga, a.saga) && (a.saga.Start? ==> a.saga.env in s.Log()))
    && (OrdersMove(s, a) ==> O.Enabled(s.orders, OrderStep(s, a)))
  }

  ghost function Step(s: State, a: Action): State
    requires Enabled(s, a)
  {
    State(if OrdersMove(s, a) then O.Step(s.orders, OrderStep(s, a)) else s.orders,
          if a.Saga? then S.Step(s.saga, a.saga) else s.saga)
  }

  ghost predicate Runs(s: State, actions: seq<Action>)
    decreases |actions|
  {
    actions == [] || (Enabled(s, actions[0]) && Runs(Step(s, actions[0]), actions[1..]))
  }

  ghost function Run(s: State, actions: seq<Action>): State
    requires Runs(s, actions)
    decreases |actions|
  {
    if actions == [] then s else Run(Step(s, actions[0]), actions[1..])
  }

  // ---------- causes ----------

  ghost predicate IsCause(log: seq<Envelope>, j: int, i: int)
    requires 0 <= i < |log|
  {
    0 <= j < i && log[j].eventId == log[i].causationId && log[j].correlationId == log[i].correlationId
  }

  /** Ids are distinct, and every derived envelope follows its cause and keeps its correlation. */
  ghost predicate Causal(log: seq<Envelope>) {
    && (forall i, j :: 0 <= i < j < |log| ==> log[i].eventId != log[j].eventId)
    && (forall i :: 0 <= i < |log| && !IsRoot(log[i].topic) ==> exists j :: IsCause(log, j, i))
  }

  lemma AppendKeepsCausal(log: seq<Envelope>, env: Envelope)
    requires Causal(log) && O.FreshId(log, env.eventId)
    requires IsRoot(env.topic) || O.CausedBy(log, env)
    ensures Causal(log + [env])
  {
    var log' := log + [env];
    forall i | 0 <= i < |log'| && !IsRoot(log'[i].topic) ensures exists j :: IsCause(log', j, i) {
      if i < |log| {
        var j :| IsCause(log, j, i);
        assert IsCause(log', j, i);
      } else {
        var cause :| cause in log && cause.eventId == env.causationId && cause.correlationId == env.correlationId;
        var j :| 0 <= j < |log| && log[j] == cause;
        assert IsCause(log', j, i);
      }
    }
  }

  /** The saga works on logged envelopes. */
  ghost predicate Logged(s: State) {
    forall r <- s.saga.active :: s.saga.active[r].env in s.Log()
  }

  ghost predicate Linked(s: State) {
    O.InFlight(s.orders) && Logged(s) && Causal(s.Log())
  }

  lemma StepExtendsLog(s: State, a: Action)
    requires Enabled(s, a) && O.InFlight(s.orders) && Logged(s)
    ensures var log, log' := s.Log(), Step(s, a).Log();
      log' == log ||
      exists env ::
        && log' == log + [env] && O.FreshId(log, env.eventId)
        && (IsRoot(env.topic) || O.CausedBy(log, env))
        && (env.topic == FulfillmentReady ==> env in Step(s, a).saga.published)
  {
    if OrdersMove(s, a) {
      O.StepExtendsLog(s.orders, OrderStep(s, a));
      var log, log' := s.Log(), Step(s, a).Log();
      if log' != log {
        assert log' == log + [log'[|log|]];
      }
    }
  }

  lemma StepKeepsLinked(s: State, a: Action)
    requires Enabled(s, a) && Linked(s)
    ensures Linked(Step(s, a))
  {
    StepExtendsLog(s, a);
    var log, log' := s.Log(), Step(s, a).Log();
    if log' != log {
      var env :| log' == log + [env] && O.FreshId(log, env.eventId) && (IsRoot(env.topic) || O.CausedBy(log, env));
      AppendKeepsCausal(log, env);
    }
    if OrdersMove(s, a) {
      O.StepKeepsInFlight(s.orders, OrderStep(s, a));
    }
  }

  lemma {:induction false} RunsStayLinked(s: State, actions: seq<Action>)
    requires Linked(s) && Runs(s, actions)
    ensures Linked(Run(s, actions))
    decreases |actions|
  {
    if actions != [] {
      StepKeepsLinked(s, actions[0]);
      RunsStayLinked(Step(s, actions[0]), actions[1..]);
    }
  }

  /** The root event an envelope derives from, found by following causation ids back through the log. */
  ghost function RootOf(log: seq<Envelope>, i: nat): (root: nat)
    requires Causal(log) && i < |log|
    ensures root <= i && IsRoot(log[root].topic)
    ensures log[root].correlationId == log[i].correlationId
    decreases i
  {
    if IsRoot(log[i].topic) then i else
    var j: nat :| IsCause(log, j, i);
    RootOf(log, j)
  }

  /**
   * In every run, following causation ids from any envelope strictly descends through the log
   * to a root event with the same correlation id, and each step of that descent is the only
   * envelope its causation id can name.
   */
  lemma EveryEnvelopeHasRoot(actions: seq<Action>, i: nat)
    requires Runs(INITIAL, actions) && i < |Run(INITIAL, actions).Log()|
    ensures var log := Run(INITIAL, actions).Log();
      && Causal(log)
      && IsRoot(log[RootOf(log, i)].topic)
      && log[RootOf(log, i)].correlationId == log[i].correlationId
      && (forall j, k :: IsCause(log, j, i) && IsCause(log, k, i) ==> j == k)
  {
    RunsStayLinked(INITIAL, actions);
  }

  // ---------- ready means credited and reserved ----------

  /** Ready events come from the saga, what it handled is logged, and logged credits were committed. */
  ghost predicate Accounted(s: State) {
    && S.FlagsBacked(s.saga)
    && T.CreditsCommitted(s.orders.tx)
    && ReadyFromSaga(s) && HandledLogged(s)
  }

  ghost predicate ReadyFromSaga(s: State) {
    forall env <- s.Log() :: env.topic == FulfillmentReady ==> env in s.saga.published
  }

  ghost predicate HandledLogged(s: State) {
    forall p <- s.saga.handled :: exists env <- s.Log() :: env.correlationId == p.0 && env.topic == p.1
  }

  lemma StepKeepsCredits(s: State, a: Action)
    requires Enabled(s, a) && T.CreditsCommitted(s.orders.tx)
    ensures T.CreditsCommitted(Step(s, a).orders.tx)
  {
    if OrdersMove(s, a) {
      var o := OrderStep(s, a);
      if O.TxStep(s.orders, o).Some? {
        T.StepKeepsCreditsCommitted(s.orders.tx, O.TxStep(s.orders, o).value);
      }
    }
  }

  lemma StepKeepsReadyFromSaga(s: State, a: Action)
    requires Enabled(s, a) && Linked(s) && ReadyFromSaga(s)
    ensures ReadyFromSaga(Step(s, a))
  {
    StepExtendsLog(s, a);
    assert forall env <- s.saga.published :: env in Step(s, a).saga.published;
  }

  lemma StepKeepsHandledLogged(s: State, a: Action)
    requires Enabled(s, a) && Linked(s) && HandledLogged(s)
    ensures HandledLogged(Step(s, a))
  {
    StepExtendsLog(s, a);
    assert forall env <- s.Log() :: env in Step(s, a).Log();
  }

  lemma StepKeepsAccounted(s: State, a: Action)
    requires Enabled(s, a) && Linked(s) && Accounted(s)
    ensures Accounted(Step(s, a))
  {
    StepKeepsCredits(s, a);
    StepKeepsReadyFromSaga(s, a);
    StepKeepsHandledLogged(s, a);
    if a.Saga? {
      S.StepKeepsFlagsBacked(s.saga, a.saga);
    }
  }

  lemma {:induction false} RunsStayAccounted(s: State, actions: seq<Action>)
    requires Linked(s) && Accounted(s) && Runs(s, actions)
    ensures Accounted(Run(s, actions))
    decreases |actions|
  {
    if actions != [] {
      StepKeepsLinked(s, actions[0]);
      StepKeepsAccounted(s, actions[0]);
      RunsStayAccounted(Step(s, actions[0]), actions[1..]);
    }
  }

  /**
   * In every run, with any faults and interleavings: a ready event for a correlation means that
   * a credit for that correlation was committed and published, and that a reservation event for
   * it was published and delivered to the saga.
   */
  lemma ReadyMeansCreditedAndReserved(actions: seq<Action>, ready: Envelope)
    requires Runs(INITIAL, actions)
    requires ready in Run(INITIAL, actions).Log() && ready.topic == FulfillmentReady
    ensures var s := Run(INITIAL, actions);
      && (exists env <- s.Log() ::
            && env.topic == LoyaltyCredited && env.correlationId == ready.correlationId
            && T.WasCommitted(s.orders.tx.commits, env))
      && (exists env <- s.Log() :: env.topic == StockReserved && env.correlationId == ready.correlationId)
      && (ready.correlationId, StockReserved) in s.saga.handled
  {
    RunsStayAccounted(INITIAL, actions);
    var s := Run(INITIAL, actions);
    assert (ready.correlationId, LoyaltyCredited) in s.saga.handled;
    assert (ready.correlationId, StockReserved) in s.saga.handled;
  }

  // ---------- one ready event in the log ----------

  /** The ready events of a log, in order. */
  function ReadyIn(log: seq<Envelope>): seq<Envelope> {
    if log == [] then []
    else ReadyIn(log[..|log| - 1]) + if log[|log| - 1].topic == FulfillmentReady then [log[|log| - 1]] else []
  }

  lemma ReadyInAppend(log: seq<Envelope>, env: Envelope)
    ensures ReadyIn(log + [env]) == ReadyIn(log) + if env.topic == FulfillmentReady then [env] else []
  {
    assert (log + [env])[..|log|] == log;
  }

  /** The log's ready events are exactly those the saga published. */
  ghost predicate ReadyExact(s: State) {
    ReadyIn(s.Log()) == s.saga.published
  }

  lemma AnnounceExtendsLog(s: State, a: Action)
    requires Enabled(s, a) && Announces(s, a)
    ensures Step(s, a).Log() == s.Log() + [Announced(s, a)]
  {
  }

  lemma StepKeepsReadyExact(s: State, a: Action)
    requires Enabled(s, a) && Linked(s) && ReadyExact(s)
    ensures ReadyExact(Step(s, a))
  {
    if Announces(s, a) {
      AnnounceExtendsLog(s, a);
      ReadyInAppend(s.Log(), Announced(s, a));
    } else if a.Order? {
      O.StepExtendsLog(s.orders, a.order);
      OrdersAreNotReady(s.Log(), Step(s, a).Log(), a.order);
    }
  }

  lemma OrdersAreNotReady(log: seq<Envelope>, log': seq<Envelope>, a: O.Action)
    requires O.Extends(log, log', a) && !a.Announce?
    ensures ReadyIn(log') == ReadyIn(log)
  {
    if log' != log {
      assert log' == log + [log'[|log|]];
      ReadyInAppend(log, log'[|log|]);
    }
  }

  /** The saga handles the correlation's deliveries one at a time; everything else is free. */
  ghost predicate SerialFor(s: State, actions: seq<Action>, c: string)
    requires Runs(s, actions)
    decreases |actions|
  {
    actions == [] ||
    (&& (actions[0].Saga? ==> S.OneAtATime(s.saga, actions[0].saga, c))
     && SerialFor(Step(s, actions[0]), actions[1..], c))
  }

  ghost predicate Conserving(s: State, c: string) {
    Linked(s) && ReadyExact(s) && S.Exclusive(s.saga, c) && S.Conserved(s.saga, c)
  }

  lemma {:induction false} RunsStayConserving(s: State, actions: seq<Action>, c: string)
    requires Conserving(s, c) && Runs(s, actions) && SerialFor(s, actions, c)
    ensures Conserving(Run(s, actions), c)
    decreases |actions|
  {
    if actions != [] {
      var a := actions[0];
      StepKeepsLinked(s, a);
      StepKeepsReadyExact(s, a);
      if a.Saga? {
        S.StepKeepsExclusive(s.saga, a.saga, c);
        S.StepKeepsConserved(s.saga, a.saga, c);
      }
      RunsStayConserving(Step(s, a), actions[1..], c);
    }
  }

  /**
   * End to end, with any faults and interleavings of everything else: when the saga handles a
   * correlation's deliveries one at a time, the log holds at most one ready event for it, and holds
   * one exactly when the join is completed and its announcement neither lost nor still to come.
   */
  lemma AtMostOneReadyInLog(actions: seq<Action>, c: string)
    requires Runs(INITIAL, actions) && SerialFor(INITIAL, actions, c)
    ensures var s := Run(INITIAL, actions);
      && S.ReadyCount(ReadyIn(s.Log()), c) <= 1
      && (S.ReadyCount(ReadyIn(s.Log()), c) == 1 <==>
          Lookup(s.saga.states, c).completed && S.LostCount(s.saga.lost, c) == 0 && S.PendingCount(s.saga, c) == 0)
  {
    RunsStayConserving(INITIAL, actions, c);
  }
}
