/**
 * The event bus: critical topics go through the SQL transport once it is installed, all others
 * through the in-memory channel; each subscription is wired to one transport under its own name.
 */
module EventBuses {
  import opened Events
  import Decimal

  datatype Transport = Sql | Channel

  const CRITICAL: set<string> := {
    "orders.order.completed",
    "loyalty.account.credited",
    "loyalty.account.credit_failed",
    "orders.fulfillment.ready",
    "orders.order.failed"
  }

  function Route(topic: string, installed: bool): Transport {
    if topic in CRITICAL && installed then Sql else Channel
  }

  datatype Wiring = Wiring(handlerName: string, topic: string, number: nat, transport: Transport)

  datatype BusState = BusState(
    sqlPublisher: bool, sqlSubscriber: bool, subscribers: map<string, nat>, wired: seq<Wiring>)

  const NEW_BUS := BusState(false, false, map[], [])

  datatype Action =
    | SetSqlBackend(publisher: bool, subscriber: bool)
    | Subscribe(topic: string, sqlFails: bool)

  function Registered(b: BusState, topic: string): nat {
    if topic in b.subscribers then b.subscribers[topic] else 0
  }

  function HandlerName(topic: string, count: nat): string {
    "event_handler." + topic + "." + Decimal.Digits(count)
  }

  /** A subscription whose SQL subscriber cannot be created is counted but never wired. */
  predicate Wires(b: BusState, topic: string, sqlFails: bool) {
    Route(topic, b.sqlSubscriber) == Channel || !sqlFails
  }

  function Step(b: BusState, a: Action): BusState {
    match a
    case SetSqlBackend(publisher, subscriber) => b.(sqlPublisher := publisher, sqlSubscriber := subscriber)
    case Subscribe(topic, sqlFails) =>
      var count := Registered(b, topic) + 1;
      var counted := b.(subscribers := b.subscribers[topic := count]);
      if Wires(b, topic, sqlFails)
      then counted.(wired := b.wired + [Wiring(HandlerName(topic, count), topic, count, Route(topic, b.sqlSubscriber))])
      else counted
  }

  function Run(b: BusState, actions: seq<Action>): BusState {
    if actions == [] then b else Step(Run(b, actions[..|actions| - 1]), actions[|actions| - 1])
  }

  class EventBus {
    var sqlPublisher: bool
    var sqlSubscriber: bool
    var subscribers: map<string, nat>
    var wired: seq<Wiring>
    var sqlLog: seq<Envelope>
    var channelLog: seq<Envelope>

    ghost function State(): BusState
      reads this
    {
      BusState(sqlPublisher, sqlSubscriber, subscribers, wired)
    }

    constructor ()
      ensures State() == NEW_BUS && sqlLog == [] && channelLog == []
    {
      sqlPublisher, sqlSubscriber := false, false;
      subscribers, wired, sqlLog, channelLog := map[], [], [], [];
    }

    method InstallSqlBackend(publisher: bool, subscriber: bool)
      modifies this`sqlPublisher, this`sqlSubscriber
      ensures State() == Step(old(State()), SetSqlBackend(publisher, subscriber))
    {
      sqlPublisher, sqlSubscriber := publisher, subscriber;
    }

    method AddSubscription(topic: string, sqlFails: bool) returns (ok: bool)
      modifies this`subscribers, this`wired
      ensures State() == Step(old(State()), Subscribe(topic, sqlFails))
      ensures ok <==> Wires(old(State()), topic, sqlFails)
    {
      var count := (if topic in subscribers then subscribers[topic] else 0) + 1;
      subscribers := subscribers[topic := count];
      var transport := Channel;
      if topic in CRITICAL && sqlSubscriber {
        if sqlFails {
          return false;
        }
        transport := Sql;
      }
      wired := wired + [Wiring(HandlerName(topic, count), topic, count, transport)];
      return true;
    }

    /**
     * Publishes in order and stops at the first envelope whose publication fails
     * (failAt == |envelopes| when none does): each transport receives, in order, exactly the
     * published envelopes routed to it.
     */
    method Publish(envelopes: seq<Envelope>, failAt: nat) returns (ok: bool)
      requires failAt <= |envelopes|
      modifies this`sqlLog, this`channelLog
      ensures ok <==> failAt == |envelopes|
      ensures sqlLog == old(sqlLog) + Routed(envelopes[..failAt], sqlPublisher, Sql)
      ensures channelLog == old(channelLog) + Routed(envelopes[..failAt], sqlPublisher, Channel)
    {
      for i := 0 to |envelopes|
        invariant i <= failAt
        invariant sqlLog == old(sqlLog) + Routed(envelopes[..i], sqlPublisher, Sql)
        invariant channelLog == old(channelLog) + Routed(envelopes[..i], sqlPublisher, Channel)
      {
        if i == failAt {
          return false;
        }
        assert envelopes[..i + 1][..i] == envelopes[..i];
        if TopicName(envelopes[i].topic) in CRITICAL && sqlPublisher {
          sqlLog := sqlLog + [envelopes[i]];
        } else {
          channelLog := channelLog + [envelopes[i]];
        }
      }
      assert envelopes[..|envelopes|] == envelopes;
      return true;
    }
  }

  /** The envelopes that go to one transport, in publication order. */
  function Routed(envelopes: seq<Envelope>, installed: bool, transport: Transport): seq<Envelope> {
    if envelopes == [] then [] else
    var last := envelopes[|envelopes| - 1];
    Routed(envelopes[..|envelopes| - 1], installed, transport) +
    if Route(TopicName(last.topic), installed) == transport then [last] else []
  }

  /** Publishing one critical envelope with the backend installed appends exactly it to the SQL log. */
  lemma OneCriticalEnvelope(env: Envelope, published: bool)
    requires TopicName(env.topic) in CRITICAL
    ensures Routed([env][..if published then 1 else 0], true, Sql) == if published then [env] else []
  {
    assert [env][..1] == [env];
    assert [env][..0] == [];
  }

  /** With the backend installed, order, loyalty and fulfilment events go to SQL and reservations do not. */
  lemma TransportOfTopics(topic: Topic)
    ensures Route(TopicName(topic), false) == Channel
    ensures topic in {OrderCompleted, LoyaltyCredited, LoyaltyCreditFailed, FulfillmentReady, OrderFailed} ==>
      Route(TopicName(topic), true) == Sql
    ensures topic == StockReserved ==> Route(TopicName(topic), true) == Channel
    ensures forall name :: Route(name, true) == Sql <==>
      || name == "orders.order.completed" || name == "orders.order.failed" || name == "orders.fulfillment.ready"
      || name == "loyalty.account.credited" || name == "loyalty.account.credit_failed"
  {
    assert TopicName(StockReserved)[0] == 'i';
  }

  /** Every envelope goes to exactly one transport: the one its topic is routed to. */
  lemma {:induction false} RoutedOnce(envelopes: seq<Envelope>, installed: bool, env: Envelope)
    ensures |Routed(envelopes, installed, Sql)| + |Routed(envelopes, installed, Channel)| == |envelopes|
    ensures forall t :: env in Routed(envelopes, installed, t) <==>
      env in envelopes && Route(TopicName(env.topic), installed) == t
  {
    if envelopes != [] {
      RoutedOnce(envelopes[..|envelopes| - 1], installed, env);
      assert envelopes == envelopes[..|envelopes| - 1] + [envelopes[|envelopes| - 1]];
    }
  }

  // ---------- transports agree ----------

  /** Every wired subscriber listens where the bus now publishes its topic. */
  predicate Aligned(b: BusState) {
    forall w <- b.wired :: w.transport == Route(w.topic, b.sqlPublisher)
  }

  /** The backend changes only before the first subscription, and both parts change together. */
  predicate InstalledFirst(actions: seq<Action>) {
    forall i :: 0 <= i < |actions| && actions[i].SetSqlBackend? ==>
      actions[i].publisher == actions[i].subscriber &&
      forall j :: 0 <= j < i ==> !actions[j].Subscribe?
  }

  /** Subscribing keeps transports aligned exactly when the two backend parts agree on the topic, or wiring fails. */
  lemma SubscribeKeepsAlignedIff(b: BusState, topic: string, sqlFails: bool)
    requires Aligned(b)
    ensures Aligned(Step(b, Subscribe(topic, sqlFails))) <==>
            (topic !in CRITICAL || b.sqlPublisher == b.sqlSubscriber || !Wires(b, topic, sqlFails))
  {
    var b' := Step(b, Subscribe(topic, sqlFails));
    if Wires(b, topic, sqlFails) {
      var added := b'.wired[|b'.wired| - 1];
      assert added in b'.wired;
      assert forall w <- b'.wired :: w in b.wired || w == added;
    }
  }

  /**
   * Changing the backend of an aligned bus keeps it aligned exactly when the publisher stays as it
   * was or no critical topic is wired: existing subscriptions are never rewired.
   */
  lemma InstallKeepsAlignedIff(b: BusState, publisher: bool, subscriber: bool)
    requires Aligned(b)
    ensures Aligned(Step(b, SetSqlBackend(publisher, subscriber))) <==>
            publisher == b.sqlPublisher || forall w <- b.wired :: w.topic !in CRITICAL
  {
  }

  /** With the backend installed first, or never, transports are aligned after every run. */
  lemma {:induction false} RunsStayAligned(actions: seq<Action>)
    requires InstalledFirst(actions)
    ensures Aligned(Run(NEW_BUS, actions))
    ensures Run(NEW_BUS, actions).sqlPublisher == Run(NEW_BUS, actions).sqlSubscriber
    ensures (forall i :: 0 <= i < |actions| ==> !actions[i].Subscribe?) ==> Run(NEW_BUS, actions).wired == []
  {
    if actions != [] {
      var before := actions[..|actions| - 1];
      RunsStayAligned(before);
      var last := actions[|actions| - 1];
      if last.Subscribe? {
        SubscribeKeepsAlignedIff(Run(NEW_BUS, before), last.topic, last.sqlFails);
      }
    }
  }

  // ---------- handler names never collide ----------

  lemma DotSplitsOnce(a: string, b: string, m: string, n: string)
    requires a + "." + m == b + "." + n
    requires '.' !in m && '.' !in n
    ensures a == b && m == n
  {
    var s := a + "." + m;
    assert s[|a|] == '.' && s[|b|] == '.';
    assert |a| == |b|;
    assert a == s[..|a|] && b == s[..|b|];
    assert m == s[|a| + 1..] && n == s[|b| + 1..];
  }

  /** A handler name determines its topic and its number, whatever dots and digits the topic contains. */
  lemma HandlerNameInjective(t: string, m: nat, u: string, n: nat)
    requires HandlerName(t, m) == HandlerName(u, n)
    ensures t == u && m == n
  {
    var prefix := "event_handler.";
    assert HandlerName(t, m) == (prefix + t) + "." + Decimal.Digits(m);
    assert HandlerName(u, n) == (prefix + u) + "." + Decimal.Digits(n);
    DotSplitsOnce(prefix + t, prefix + u, Decimal.Digits(m), Decimal.Digits(n));
    assert (prefix + t)[|prefix|..] == t && (prefix + u)[|prefix|..] == u;
    Decimal.DigitsRoundTrip(m);
    Decimal.DigitsRoundTrip(n);
  }

  /** Each wired handler is named after its topic and its number among the topic's subscriptions. */
  ghost predicate Numbered(b: BusState) {
    forall w <- b.wired ::
      w.handlerName == HandlerName(w.topic, w.number) && w.number <= Registered(b, w.topic)
  }

  ghost predicate DistinctNames(b: BusState) {
    forall i, j :: 0 <= i < j < |b.wired| ==> b.wired[i].handlerName != b.wired[j].handlerName
  }

  lemma SubscribeKeepsNames(b: BusState, a: Action)
    requires Numbered(b) && DistinctNames(b)
    ensures Numbered(Step(b, a)) && DistinctNames(Step(b, a))
  {
    var b' := Step(b, a);
    if |b.wired| < |b'.wired| {
      var added := b'.wired[|b.wired|];
      forall i | 0 <= i < |b.wired| ensures b.wired[i].handlerName != added.handlerName {
        if b.wired[i].handlerName == added.handlerName {
          HandlerNameInjective(b.wired[i].topic, b.wired[i].number, added.topic, added.number);
        }
      }
    }
  }

  function Subscriptions(actions: seq<Action>, topic: string): nat {
    if actions == [] then 0
    else Subscriptions(actions[..|actions| - 1], topic) +
         if actions[|actions| - 1].Subscribe? && actions[|actions| - 1].topic == topic then 1 else 0
  }

  /** The bus counts a topic's subscriptions, failed ones included, and names the next one after the count. */
  lemma {:induction false} SubscriptionsAreCounted(actions: seq<Action>, topic: string)
    ensures Registered(Run(NEW_BUS, actions), topic) == Subscriptions(actions, topic)
    ensures var b := Run(NEW_BUS, actions);
      Wires(b, topic, false) && var b' := Step(b, Subscribe(topic, false));
      |b'.wired| == |b.wired| + 1 && b'.wired[|b.wired|].handlerName ==
        "event_handler." + topic + "." + Decimal.Format(Subscriptions(actions, topic) + 1)
  {
    if actions != [] {
      SubscriptionsAreCounted(actions[..|actions| - 1], topic);
    }
  }

  /** In every run, with or without a backend, no two wired handlers share a name. */
  lemma {:induction false} HandlerNamesNeverCollide(actions: seq<Action>)
    ensures Numbered(Run(NEW_BUS, actions)) && DistinctNames(Run(NEW_BUS, actions))
  {
    if actions != [] {
      var before := actions[..|actions| - 1];
      HandlerNamesNeverCollide(before);
      SubscribeKeepsNames(Run(NEW_BUS, before), actions[|actions| - 1]);
    }
  }
}
