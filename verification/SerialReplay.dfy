/**
 * Serial, fault-free processing of order events: when what the database holds at the end depends
 * only on the set of events delivered, not on their order or on how often each is redelivered.
 */
module SerialReplay {
  import opened Results
  import opened ValueObjects
  import opened LoyaltyStores
  import opened CreditHandlers
  import opened OrderHandlers
  import opened Events
  import GoInt

  /** One delivery of an event, with the ids generated while it is handled. */
  datatype Delivery = Delivery(env: Envelope, ids: FreshIds, compensationId: string)

  /** What the platform makes of each total that does not fit an `int`. */
  type Conversion = Amount -> GoInt.Int

  function FaultFree(d: Delivery, converted: Conversion): Environment {
    var number := if d.env.payload.OrderPayload? then converted(d.env.payload.total) else 0;
    Environment(number, NO_FAULTS, d.ids, d.compensationId, false)
  }

  function PointsFor(env: Envelope, converted: Conversion): GoInt.Int
    requires env.payload.OrderPayload?
  {
    DispatchedPoints(env.payload.total, converted(env.payload.total))
  }

  const EMPTY := Db(map[], {}, [])

  ghost function Replay(ds: seq<Delivery>, converted: Conversion): Db {
    if ds == [] then EMPTY
    else Delivered(Replay(ds[..|ds| - 1], converted), ds[|ds| - 1].env, FaultFree(ds[|ds| - 1], converted)).0
  }

  ghost predicate FreshAccountIds(ds: seq<Delivery>, converted: Conversion) {
    ds == [] ||
    (FreshAccountIds(ds[..|ds| - 1], converted) &&
     ds[|ds| - 1].ids.accountId !in Replay(ds[..|ds| - 1], converted).rows)
  }

  /** Well-typed orders with non-empty event ids that identify them. */
  ghost predicate Identified(envs: set<Envelope>) {
    && (forall env <- envs :: env.payload.OrderPayload? && env.eventId != "")
    && (forall env, env' :: env in envs && env' in envs && env.eventId == env'.eventId ==> env == env')
  }

  ghost predicate Orderly(ds: seq<Delivery>, converted: Conversion) {
    Identified(EventsOf(ds)) && FreshAccountIds(ds, converted)
  }

  function EventsOf(ds: seq<Delivery>): set<Envelope> {
    set d <- ds :: d.env
  }

  function EarnedBy(env: Envelope, customerId: string, converted: Conversion): nat {
    if env.payload.OrderPayload? && env.payload.customerId == customerId
    then PointsFor(env, converted) else 0
  }

  /** The points a set of events is worth to one customer. */
  ghost function Worth(envs: set<Envelope>, customerId: string, converted: Conversion): nat {
    if envs == {} then 0 else
    var env :| env in envs;
    EarnedBy(env, customerId, converted) + Worth(envs - {env}, customerId, converted)
  }

  lemma {:induction false} WorthAdds(envs: set<Envelope>, env: Envelope, customerId: string, converted: Conversion)
    requires env !in envs
    ensures Worth(envs + {env}, customerId, converted) ==
            Worth(envs, customerId, converted) + EarnedBy(env, customerId, converted)
    decreases |envs|
  {
    var all := envs + {env};
    var picked :| picked in all &&
      Worth(all, customerId, converted) ==
        EarnedBy(picked, customerId, converted) + Worth(all - {picked}, customerId, converted);
    if picked == env {
      assert all - {picked} == envs;
    } else {
      assert all - {picked} == (envs - {picked}) + {env};
      WorthAdds(envs - {picked}, env, customerId, converted);
      assert envs == (envs - {picked}) + {picked};
      WorthAdds(envs - {picked}, picked, customerId, converted);
    }
  }

  lemma {:induction false} WorthGrows(
    envs: set<Envelope>, more: set<Envelope>, customerId: string, converted: Conversion)
    requires envs <= more
    ensures Worth(envs, customerId, converted) <= Worth(more, customerId, converted)
    decreases |more - envs|
  {
    if env :| env in more - envs {
      WorthAdds(envs, env, customerId, converted);
      assert more - (envs + {env}) == (more - envs) - {env};
      WorthGrows(envs + {env}, more, customerId, converted);
    } else {
      assert envs == more;
    }
  }

  /** The events whose credit committed. */
  ghost function Marked(envs: set<Envelope>, keys: set<string>): set<Envelope> {
    set env <- envs | env.eventId in keys
  }

  /** Accounts exist only for customers with points. */
  ghost predicate Funded(rows: Rows) {
    forall c :: RowOf(rows, c).Some? ==> BalanceOf(rows, c) > 0
  }

  ghost predicate Settled(db: Db, envs: set<Envelope>, converted: Conversion) {
    && WellKept(db.rows) && Funded(db.rows)
    && (forall key <- db.keys :: exists env <- envs :: env.eventId == key)
    && (forall c :: BalanceOf(db.rows, c) == Worth(Marked(envs, db.keys), c, converted))
  }

  ghost predicate Credits(db: Db, env: Envelope, converted: Conversion)
    requires env.payload.OrderPayload?
  {
    && env.eventId !in db.keys
    && BalanceOf(db.rows, env.payload.customerId) + PointsFor(env, converted) <= INTEGER_MAX
  }

  /** A fault-free delivery credits the event, or leaves accounts and keys alone. */
  lemma DeliveryEffect(db: Db, d: Delivery, converted: Conversion)
    requires WellKept(db.rows) && d.ids.accountId !in db.rows
    requires d.env.payload.OrderPayload? && d.env.eventId != ""
    ensures var db' := Delivered(db, d.env, FaultFree(d, converted)).0;
      && WellKept(db'.rows)
      && (Funded(db.rows) ==> Funded(db'.rows))
      && (Credits(db, d.env, converted) ==>
          && db'.keys == db.keys + {d.env.eventId}
          && forall c :: BalanceOf(db'.rows, c) == BalanceOf(db.rows, c) + EarnedBy(d.env, c, converted))
      && (!Credits(db, d.env, converted) ==> db'.rows == db.rows && db'.keys == db.keys)
  {
    var cmd := CommandFor(d.env, converted(d.env.payload.total));
    assert Acceptable(db, cmd, NO_FAULTS) <==> Credits(db, d.env, converted);
    CreditSucceedsIff(db, cmd, NO_FAULTS, d.ids);
  }

  lemma CreditSettles(db: Db, db': Db, envs: set<Envelope>, env: Envelope, converted: Conversion)
    requires Settled(db, envs, converted) && Identified(envs + {env}) && WellKept(db'.rows) && Funded(db'.rows)
    requires env.eventId !in db.keys && db'.keys == db.keys + {env.eventId}
    requires forall c :: BalanceOf(db'.rows, c) == BalanceOf(db.rows, c) + EarnedBy(env, c, converted)
    ensures Settled(db', envs + {env}, converted)
  {
    var marked := Marked(envs, db.keys);
    assert env !in marked;
    assert Marked(envs + {env}, db'.keys) == marked + {env};
    forall c ensures BalanceOf(db'.rows, c) == Worth(marked + {env}, c, converted) {
      WorthAdds(marked, env, c, converted);
    }
  }

  lemma NoCreditSettles(db: Db, db': Db, envs: set<Envelope>, env: Envelope, converted: Conversion)
    requires Settled(db, envs, converted) && Identified(envs + {env})
    requires db'.rows == db.rows && db'.keys == db.keys
    ensures Settled(db', envs + {env}, converted)
  {
    assert Marked(envs + {env}, db'.keys) == Marked(envs, db.keys);
  }

  lemma LastEvent(ds: seq<Delivery>)
    requires ds != []
    ensures EventsOf(ds) == EventsOf(ds[..|ds| - 1]) + {ds[|ds| - 1].env}
  {
    assert forall d <- ds :: d in ds[..|ds| - 1] || d == ds[|ds| - 1];
  }

  /** After any serial run, each balance is what the events with marked keys are worth. */
  lemma {:induction false} ReplaySettles(ds: seq<Delivery>, converted: Conversion)
    requires Orderly(ds, converted)
    ensures Settled(Replay(ds, converted), EventsOf(ds), converted)
  {
    if ds == [] {
      assert Marked({}, {}) == {};
    } else {
      var before, d := ds[..|ds| - 1], ds[|ds| - 1];
      LastEvent(ds);
      ReplaySettles(before, converted);
      var db := Replay(before, converted);
      DeliveryEffect(db, d, converted);
      if Credits(db, d.env, converted) {
        CreditSettles(db, Replay(ds, converted), EventsOf(before), d.env, converted);
      } else {
        NoCreditSettles(db, Replay(ds, converted), EventsOf(before), d.env, converted);
      }
    }
  }

  /** Every customer's events together fit the balance column. */
  ghost predicate Fits(envs: set<Envelope>, converted: Conversion) {
    forall c :: Worth(envs, c, converted) <= INTEGER_MAX
  }

  ghost function Ids(envs: set<Envelope>): set<string> {
    set env <- envs :: env.eventId
  }

  ghost predicate AllCredited(ds: seq<Delivery>, converted: Conversion) {
    Replay(ds, converted).keys == Ids(EventsOf(ds))
  }

  /** The events that fit the balance column on their own. */
  ghost function Small(envs: set<Envelope>, converted: Conversion): set<Envelope> {
    set env <- envs | env.payload.OrderPayload? && PointsFor(env, converted) <= INTEGER_MAX
  }

  /** An event's own points are part of what a set holding it is worth. */
  lemma WorthAtLeast(envs: set<Envelope>, env: Envelope, customerId: string, converted: Conversion)
    requires env in envs
    ensures Worth(envs, customerId, converted) >= EarnedBy(env, customerId, converted)
  {
    assert envs == (envs - {env}) + {env};
    WorthAdds(envs - {env}, env, customerId, converted);
  }

  lemma SmallGrows(envs: set<Envelope>, env: Envelope, converted: Conversion)
    requires env.payload.OrderPayload?
    ensures Small(envs + {env}, converted) ==
            Small(envs, converted) + if PointsFor(env, converted) <= INTEGER_MAX then {env} else {}
  {
  }

  /** When the small events fit together, a delivery credits exactly a small event that is new. */
  lemma SmallEventIsCredited(db: Db, envs: set<Envelope>, env: Envelope, converted: Conversion)
    requires Settled(db, envs, converted) && Identified(envs + {env})
    requires db.keys == Ids(Small(envs, converted)) && Fits(Small(envs + {env}, converted), converted)
    requires env.eventId !in db.keys
    ensures Credits(db, env, converted) <==> PointsFor(env, converted) <= INTEGER_MAX
  {
    var small, c := Small(envs, converted), env.payload.customerId;
    SmallGrows(envs, env, converted);
    assert Marked(envs, db.keys) == small;
    assert BalanceOf(db.rows, c) == Worth(small, c, converted);
    if PointsFor(env, converted) <= INTEGER_MAX {
      assert env !in small;
      WorthAdds(small, env, c, converted);
      assert Worth(small + {env}, c, converted) <= INTEGER_MAX;
    }
  }

  /** When the small events fit together, exactly they are credited. */
  lemma {:induction false} SmallEventsAreCredited(ds: seq<Delivery>, converted: Conversion)
    requires Orderly(ds, converted) && Fits(Small(EventsOf(ds), converted), converted)
    ensures Replay(ds, converted).keys == Ids(Small(EventsOf(ds), converted))
  {
    if ds != [] {
      var before, d := ds[..|ds| - 1], ds[|ds| - 1];
      LastEvent(ds);
      SmallGrows(EventsOf(before), d.env, converted);
      forall c ensures Worth(Small(EventsOf(before), converted), c, converted) <= INTEGER_MAX {
        WorthGrows(Small(EventsOf(before), converted), Small(EventsOf(ds), converted), c, converted);
      }
      SmallEventsAreCredited(before, converted);
      ReplaySettles(before, converted);
      var db := Replay(before, converted);
      DeliveryEffect(db, d, converted);
      if d.env.eventId !in db.keys {
        SmallEventIsCredited(db, EventsOf(before), d.env, converted);
      } else {
        RedeliveredIsSmall(EventsOf(before), d.env, converted);
      }
    }
  }

  lemma RedeliveredIsSmall(envs: set<Envelope>, env: Envelope, converted: Conversion)
    requires Identified(envs + {env}) && env.eventId in Ids(Small(envs, converted))
    ensures env in Small(envs, converted) && Small(envs + {env}, converted) == Small(envs, converted)
  {
    var other :| other in Small(envs, converted) && other.eventId == env.eventId;
    assert other in envs + {env} && env in envs + {env};
  }

  lemma SmallOfFitting(envs: set<Envelope>, converted: Conversion)
    requires Identified(envs) && Fits(envs, converted)
    ensures Small(envs, converted) == envs
  {
    forall env | env in envs ensures PointsFor(env, converted) <= INTEGER_MAX {
      WorthAtLeast(envs, env, env.payload.customerId, converted);
    }
  }

  /** A serial run credits every event it is given if and only if each customer's events fit the balance column. */
  lemma AllCreditedIff(ds: seq<Delivery>, converted: Conversion)
    requires Orderly(ds, converted)
    ensures AllCredited(ds, converted) <==> Fits(EventsOf(ds), converted)
  {
    var db, envs := Replay(ds, converted), EventsOf(ds);
    ReplaySettles(ds, converted);
    if AllCredited(ds, converted) {
      assert Marked(envs, db.keys) == envs;
      forall c ensures Worth(envs, c, converted) <= INTEGER_MAX {
        assert BalanceOf(db.rows, c) == Worth(envs, c, converted);
      }
    }
    if Fits(envs, converted) {
      SmallOfFitting(envs, converted);
      SmallEventsAreCredited(ds, converted);
    }
  }

  ghost function TierOf(rows: Rows, customerId: string): Option<Tier> {
    match RowOf(rows, customerId)
    case None => None
    case Some(row) => Some(row.tier)
  }

  /** Same keys, and the same balance and tier for every customer. */
  ghost predicate SameState(db: Db, db': Db) {
    && db.keys == db'.keys
    && (forall c :: BalanceOf(db.rows, c) == BalanceOf(db'.rows, c))
    && (forall c :: TierOf(db.rows, c) == TierOf(db'.rows, c))
  }

  /**
   * Two serial runs that deliver the same events, in any order and with any redeliveries, end in
   * the same state when each customer's events that fit on their own also fit together: exactly
   * those events are credited.
   */
  lemma SameEventsSameState(ds: seq<Delivery>, ds': seq<Delivery>, converted: Conversion)
    requires Orderly(ds, converted) && Orderly(ds', converted)
    requires EventsOf(ds) == EventsOf(ds') && Fits(Small(EventsOf(ds), converted), converted)
    ensures SameState(Replay(ds, converted), Replay(ds', converted))
    ensures Replay(ds, converted).keys == Ids(Small(EventsOf(ds), converted))
    ensures forall c :: BalanceOf(Replay(ds, converted).rows, c) == Worth(Small(EventsOf(ds), converted), c, converted)
  {
    SmallRunBalances(ds, converted);
    SmallRunBalances(ds', converted);
    var rows, rows' := Replay(ds, converted).rows, Replay(ds', converted).rows;
    forall c ensures TierOf(rows, c) == TierOf(rows', c) {
      TierFollowsBalance(rows, rows', c);
    }
  }

  lemma SmallRunBalances(ds: seq<Delivery>, converted: Conversion)
    requires Orderly(ds, converted) && Fits(Small(EventsOf(ds), converted), converted)
    ensures var db := Replay(ds, converted);
      && Settled(db, EventsOf(ds), converted)
      && db.keys == Ids(Small(EventsOf(ds), converted))
      && forall c :: BalanceOf(db.rows, c) == Worth(Small(EventsOf(ds), converted), c, converted)
  {
    ReplaySettles(ds, converted);
    SmallEventsAreCredited(ds, converted);
    MarkedIsSmall(EventsOf(ds), converted);
  }

  lemma MarkedIsSmall(envs: set<Envelope>, converted: Conversion)
    requires Identified(envs)
    ensures Marked(envs, Ids(Small(envs, converted))) == Small(envs, converted)
  {
  }

  lemma TierFollowsBalance(rows: Rows, rows': Rows, customerId: string)
    requires WellKept(rows) && Funded(rows) && WellKept(rows') && Funded(rows')
    requires BalanceOf(rows, customerId) == BalanceOf(rows', customerId)
    ensures TierOf(rows, customerId) == TierOf(rows', customerId)
  {
  }

  // ---------- exactly when order is irrelevant ----------

  /** All serial runs over these events end in the same state. */
  ghost predicate OrderIrrelevant(envs: set<Envelope>, converted: Conversion) {
    forall ds, ds' |
      Orderly(ds, converted) && Orderly(ds', converted) && EventsOf(ds) == envs && EventsOf(ds') == envs ::
      SameState(Replay(ds, converted), Replay(ds', converted))
  }

  lemma LongerThanAll(ids: set<string>) returns (n: nat)
    ensures forall id <- ids :: |id| < n
  {
    if ids == {} {
      n := 0;
    } else {
      var id :| id in ids;
      n := LongerThanAll(ids - {id});
      n := if n <= |id| then |id| + 1 else n;
    }
  }

  /** Any run can be continued with one more event. */
  lemma Extend(ds: seq<Delivery>, env: Envelope, converted: Conversion) returns (ds': seq<Delivery>)
    requires Orderly(ds, converted) && Identified(EventsOf(ds) + {env})
    ensures Orderly(ds', converted) && EventsOf(ds') == EventsOf(ds) + {env}
    ensures ds' != [] && ds'[..|ds'| - 1] == ds && ds'[|ds'| - 1].env == env
    ensures Replay(ds, converted).keys <= Replay(ds', converted).keys
  {
    var n := LongerThanAll(Replay(ds, converted).rows.Keys);
    var d := Delivery(env, FreshIds(seq(n, _ => 'x'), ""), "");
    ds' := ds + [d];
    assert ds'[..|ds'| - 1] == ds;
    LastEvent(ds');
    ReplaySettles(ds, converted);
    DeliveryEffect(Replay(ds, converted), d, converted);
  }

  lemma {:induction false} ExtendAll(ds: seq<Delivery>, envs: set<Envelope>, converted: Conversion)
    returns (ds': seq<Delivery>)
    requires Orderly(ds, converted) && Identified(EventsOf(ds) + envs)
    ensures Orderly(ds', converted) && EventsOf(ds') == EventsOf(ds) + envs
    ensures Replay(ds, converted).keys <= Replay(ds', converted).keys
    decreases envs
  {
    if envs == {} {
      ds' := ds;
      assert EventsOf(ds) + envs == EventsOf(ds);
    } else {
      var env :| env in envs;
      ds' := Extend(ds, env, converted);
      assert EventsOf(ds') + (envs - {env}) == EventsOf(ds) + envs;
      ds' := ExtendAll(ds', envs - {env}, converted);
    }
  }

  /** A small event that is delivered first is credited. */
  lemma FirstIsCredited(env: Envelope, envs: set<Envelope>, converted: Conversion) returns (ds: seq<Delivery>)
    requires Identified(envs) && env in Small(envs, converted)
    ensures Orderly(ds, converted) && EventsOf(ds) == envs && env.eventId in Replay(ds, converted).keys
  {
    assert EventsOf([]) == {};
    var first := Extend([], env, converted);
    assert EventsOf(first) == {env};
    DeliveryEffect(EMPTY, first[|first| - 1], converted);
    ds := ExtendAll(first, envs, converted);
    assert {env} + envs == envs;
  }

  /** A run over small events that do not fit together leaves one of them uncredited. */
  lemma SomeSmallUncredited(ds: seq<Delivery>, converted: Conversion) returns (env: Envelope)
    requires Orderly(ds, converted) && !Fits(Small(EventsOf(ds), converted), converted)
    ensures env in Small(EventsOf(ds), converted) && env.eventId !in Replay(ds, converted).keys
  {
    var envs, db := EventsOf(ds), Replay(ds, converted);
    var small, marked := Small(envs, converted), Marked(envs, db.keys);
    ReplaySettles(ds, converted);
    var c :| Worth(small, c, converted) > INTEGER_MAX;
    assert Worth(marked, c, converted) == BalanceOf(db.rows, c) <= INTEGER_MAX;
    if small <= marked {
      WorthGrows(small, marked, c, converted);
      assert false;
    }
    env :| env in small && env !in marked;
  }

  /**
   * The end state depends only on the set of events if and only if, for each customer, the events
   * that fit the balance column on their own also fit it together. Otherwise any of them that one
   * run leaves uncredited is credited by the run that delivers it first.
   */
  lemma OrderIrrelevantIff(envs: set<Envelope>, converted: Conversion)
    requires Identified(envs)
    ensures OrderIrrelevant(envs, converted) <==> Fits(Small(envs, converted), converted)
  {
    if Fits(Small(envs, converted), converted) {
      forall ds, ds' |
        Orderly(ds, converted) && Orderly(ds', converted) && EventsOf(ds) == envs && EventsOf(ds') == envs
        ensures SameState(Replay(ds, converted), Replay(ds', converted))
      {
        SameEventsSameState(ds, ds', converted);
      }
    } else {
      assert EventsOf([]) + envs == envs;
      var ds := ExtendAll([], envs, converted);
      var env := SomeSmallUncredited(ds, converted);
      var ds' := FirstIsCredited(env, envs, converted);
      assert !SameState(Replay(ds, converted), Replay(ds', converted));
    }
  }

  /** Of two events that fit alone but not together, whichever is delivered first wins. */
  lemma OrderMattersBeyondColumn(d: Delivery, e: Delivery, converted: Conversion)
    requires Orderly([d, e], converted) && Orderly([e, d], converted)
    requires d.env.eventId != e.env.eventId && d.env.payload.customerId == e.env.payload.customerId
    requires PointsFor(d.env, converted) <= INTEGER_MAX
    requires PointsFor(e.env, converted) <= INTEGER_MAX
    requires PointsFor(d.env, converted) + PointsFor(e.env, converted) > INTEGER_MAX
    ensures BalanceOf(Replay([d, e], converted).rows, d.env.payload.customerId) ==
            PointsFor(d.env, converted)
    ensures BalanceOf(Replay([e, d], converted).rows, d.env.payload.customerId) ==
            PointsFor(e.env, converted)
  {
    FirstWins(d, e, converted);
    FirstWins(e, d, converted);
  }

  lemma FirstWins(d: Delivery, e: Delivery, converted: Conversion)
    requires Orderly([d, e], converted)
    requires d.env.eventId != e.env.eventId && d.env.payload.customerId == e.env.payload.customerId
    requires PointsFor(d.env, converted) <= INTEGER_MAX
    requires PointsFor(d.env, converted) + PointsFor(e.env, converted) > INTEGER_MAX
    ensures BalanceOf(Replay([d, e], converted).rows, d.env.payload.customerId) ==
            PointsFor(d.env, converted)
  {
    var ds := [d, e];
    assert ds[..1] == [d] && [d][..0] == [];
    assert EventsOf(ds) == {d.env, e.env};
    var db := Replay([d], converted);
    assert FreshAccountIds([d], converted) && e.ids.accountId !in db.rows;
    DeliveryEffect(EMPTY, d, converted);
    DeliveryEffect(db, e, converted);
  }
}
