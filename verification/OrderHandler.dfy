/**
 * The orders.order.completed handler: turns an order into points, dispatches the credit command
 * in a transaction, publishes a compensation when that fails, and always acknowledges.
 */
module OrderHandlers {
  import opened Results
  import opened LoyaltyAggregates
  import opened LoyaltyStores
  import opened CreditHandlers
  import opened Events
  import EventBuses
  import GoInt

  datatype Outcome = Malformed | CreditCommitted | CompensationPublished | CompensationLost

  /** Truncation toward zero. */
  function Truncate(x: real): int {
    if x >= 0.0 then x.Floor else -(-x).Floor
  }

  /**
   * Ten percent of the order total, at least one point. Converting a float64 that is not finite
   * or does not fit an `int` gives an implementation-specific number, here `converted`.
   */
  function DispatchedPoints(total: Amount, converted: GoInt.Int): GoInt.Int {
    var points: GoInt.Int :=
      if total.Finite? && GoInt.MIN <= Truncate(total.value * 0.10) <= GoInt.MAX
      then Truncate(total.value * 0.10)
      else converted;
    if points < 1 then 1 else points
  }

  /** The choices the environment makes during one delivery. */
  datatype Environment = Environment(
    converted: GoInt.Int, faults: Faults, ids: FreshIds, compensationId: string, compensationFails: bool)

  function CommandFor(env: Envelope, converted: GoInt.Int): Command
    requires env.payload.OrderPayload?
  {
    Command(env.payload.customerId, env.payload.orderId, DispatchedPoints(env.payload.total, converted),
            env.correlationId, env.eventId)
  }

  function Compensation(env: Envelope, eventId: string): Envelope
    requires env.payload.OrderPayload?
  {
    Envelope(eventId, env.correlationId, env.eventId, LoyaltyCreditFailed,
             CreditFailedPayload(env.payload.customerId, env.payload.orderId))
  }

  ghost function Delivered(db: Db, env: Envelope, e: Environment): (Db, Outcome) {
    if !env.payload.OrderPayload? then (db, Malformed) else
    var (db', r) := InTransaction(db, CommandFor(env, e.converted), e.faults, e.ids);
    if r.Success? then (db', CreditCommitted)
    else if e.compensationFails then (db, CompensationLost)
    else (db.(outbox := db.outbox + [Compensation(env, e.compensationId)]), CompensationPublished)
  }

  class OnOrderCompletedHandler {
    const commands: CreditLoyaltyHandler

    constructor (commands: CreditLoyaltyHandler)
      ensures this.commands == commands
    {
      this.commands := commands;
    }

    method Handle(env: Envelope, e: Environment) returns (ack: bool, outcome: Outcome)
      requires commands.Valid()
      modifies commands.writeRepo, commands.idem, commands.eventBus`sqlLog, commands.eventBus`channelLog
      ensures ack
      ensures (commands.Database(), outcome) == Delivered(old(commands.Database()), env, e)
    {
      if !env.payload.OrderPayload? {
        return true, Malformed;
      }
      var raw := e.converted;
      if env.payload.total.Finite? {
        var t := Truncate(env.payload.total.value * 0.10);
        if GoInt.MIN <= t <= GoInt.MAX {
          raw := t;
        }
      }
      var points := raw;
      if points < 1 {
        points := 1;
      }
      assert points == DispatchedPoints(env.payload.total, e.converted);
      var cmd := Command(env.payload.customerId, env.payload.orderId, points, env.correlationId, env.eventId);
      var r := commands.HandleInTransaction(cmd, e.faults, e.ids);
      if r.Success? {
        return true, CreditCommitted;
      }
      var compensation := Compensation(env, e.compensationId);
      EventBuses.OneCriticalEnvelope(compensation, !e.compensationFails);
      var published := commands.eventBus.Publish([compensation], if e.compensationFails then 0 else 1);
      if !published {
        assert commands.eventBus.sqlLog == old(commands.eventBus.sqlLog);
        return true, CompensationLost;
      }
      return true, CompensationPublished;
    }
  }

  /** A tenth of any representable total, rounded down, and never less than one point. */
  lemma PointsRule(total: Amount, converted: GoInt.Int)
    ensures DispatchedPoints(total, converted) >= 1
    ensures total.Finite? && 10.0 <= total.value && total.value / 10.0 < GoInt.MAX as real ==>
      var points := DispatchedPoints(total, converted) as real;
      points <= total.value / 10.0 < points + 1.0
    ensures total.Finite? && GoInt.MIN as real < total.value / 10.0 && total.value < 10.0 ==>
      DispatchedPoints(total, converted) == 1
    ensures total.NotFinite? || total.value / 10.0 >= GoInt.MAX as real + 1.0 ||
            total.value / 10.0 <= GoInt.MIN as real - 1.0 ==>
      DispatchedPoints(total, converted) == if converted < 1 then 1 else converted
  {
  }

  /**
   * Every delivery of a well-typed order ends in exactly one of three ways, and which one is
   * decided beforehand: the credit commits if and only if the command is acceptable; otherwise
   * the compensation is published or, if publishing fails, lost. Domain rejections never happen.
   * Only a committed credit changes accounts, keys or credited envelopes. Both envelopes carry the
   * event's correlation, its id as their cause, its customer and its order.
   */
  lemma DeliveryAccounting(db: Db, env: Envelope, e: Environment)
    requires WellKept(db.rows) && e.ids.accountId !in db.rows
    requires env.payload.OrderPayload?
    ensures var cmd := CommandFor(env, e.converted);
      var (db', outcome) := Delivered(db, env, e);
      && WellKept(db'.rows)
      && (outcome == CreditCommitted <==> Acceptable(db, cmd, e.faults))
      && (outcome == CompensationPublished <==> !Acceptable(db, cmd, e.faults) && !e.compensationFails)
      && (outcome == CompensationLost <==> !Acceptable(db, cmd, e.faults) && e.compensationFails)
      && (outcome == CreditCommitted ==>
          && RowOf(db'.rows, env.payload.customerId).Some?
          && var row := RowOf(db'.rows, env.payload.customerId).value;
             var points := DispatchedPoints(env.payload.total, e.converted);
          && row.balance.value == BalanceOf(db.rows, env.payload.customerId) + points
          && db'.outbox == db.outbox + [
               Envelope(e.ids.eventId, env.correlationId, env.eventId, LoyaltyCredited, CreditedPayload(Credited(
                 row.id, env.payload.customerId, env.payload.orderId, points, row.balance.value, row.tier)))])
      && (outcome != CreditCommitted ==> db'.rows == db.rows && db'.keys == db.keys)
      && (outcome == CompensationLost ==> db'.outbox == db.outbox)
      && (outcome == CompensationPublished ==>
          db'.outbox == db.outbox + [
            Envelope(e.compensationId, env.correlationId, env.eventId, LoyaltyCreditFailed,
                     CreditFailedPayload(env.payload.customerId, env.payload.orderId))])
    ensures InTransaction(db, CommandFor(env, e.converted), e.faults, e.ids).1 !in
            {Failure(InvalidPoints), Failure(NoPoints)}
  {
    CreditSucceedsIff(db, CommandFor(env, e.converted), e.faults, e.ids);
  }

  /** A payload of another type is acknowledged and changes nothing. */
  lemma OthersAreIgnored(db: Db, env: Envelope, e: Environment)
    ensures Delivered(db, env, e).1 == Malformed <==> !env.payload.OrderPayload?
    ensures Delivered(db, env, e).1 == Malformed ==> Delivered(db, env, e).0 == db
  {
  }

  /** Redelivering an event whose credit committed always takes a compensation branch. */
  lemma ReplayCompensates(db: Db, env: Envelope, e: Environment)
    requires env.payload.OrderPayload? && env.eventId != "" && env.eventId in db.keys
    ensures var (db', outcome) := Delivered(db, env, e);
      && outcome == (if e.compensationFails then CompensationLost else CompensationPublished)
      && db'.rows == db.rows && db'.keys == db.keys
      && db'.outbox == db.outbox + if e.compensationFails then [] else [
           Envelope(e.compensationId, env.correlationId, env.eventId, LoyaltyCreditFailed,
                    CreditFailedPayload(env.payload.customerId, env.payload.orderId))]
  {
    ReplayChangesNothing(db, CommandFor(env, e.converted), e.faults, e.ids);
  }
}
