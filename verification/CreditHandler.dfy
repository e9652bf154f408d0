/**
 * The credit-loyalty command handler: check the idempotency key, load or create the aggregate,
 * credit it, save it, publish its events, mark the key. Handle runs the steps; InTransaction
 * adds the documented contract that all of them commit together or none does.
 */
module CreditHandlers {
  import opened Results
  import opened ValueObjects
  import opened LoyaltyAggregates
  import opened LoyaltyStores
  import opened Events
  import EventBuses
  import GoInt

  datatype Command = Command(
    customerId: string, orderId: string, points: GoInt.Int, correlationId: string, causationId: string)

  datatype Response = Response(accountId: string, newBalance: GoInt.Int, newTier: Tier)

  datatype CreditError = DuplicateEvent | InvalidPoints | NoPoints | StorageFailed | PublishFailed

  /** Which of the infrastructure calls of one Handle fail. */
  datatype Faults = Faults(exists_: bool, find: bool, save: bool, publish: bool, mark: bool)

  const NO_FAULTS := Faults(false, false, false, false, false)

  /** The ULIDs that one Handle generates. */
  datatype FreshIds = FreshIds(accountId: string, eventId: string)

  /** Accounts, idempotency keys, and the SQL transport's messages, oldest first. */
  datatype Db = Db(rows: Rows, keys: set<string>, outbox: seq<Envelope>)

  /** Steps 2 and 3 once the lookup has answered. */
  function Prepare(cmd: Command, found: Option<Account>, accountId: string): Result<Account, CreditError> {
    var base := if found.Some? then found.value else NewAccount(accountId, cmd.customerId);
    var points := NewPoints(cmd.points);
    if points.Failure? then Failure(InvalidPoints)
    else if points.value.IsZero() then Failure(NoPoints)
    else Success(WithBalance(base, base.balance.Add(points.value)))
  }

  function CreditedEnvelope(cmd: Command, account: Account, eventId: string): Envelope {
    Envelope(eventId, cmd.correlationId, cmd.causationId, LoyaltyCredited,
             CreditedPayload(CreditedBy(account, cmd.orderId, Points(cmd.points))))
  }

  /** Steps 5 and 6: publish the credited event, mark the key. */
  function Finished(db: Db, cmd: Command, account: Account, faults: Faults, ids: FreshIds)
    : (Db, Result<Response, CreditError>)
  {
    var published := db.(outbox := db.outbox + [CreditedEnvelope(cmd, account, ids.eventId)]);
    var marked := published.(keys := if cmd.causationId != "" then db.keys + {cmd.causationId} else db.keys);
    if faults.publish then (db, Failure(PublishFailed))
    else if cmd.causationId != "" && (faults.mark || cmd.causationId in db.keys)
    then (published, Failure(StorageFailed))
    else (marked, Success(Response(account.id, account.balance.value, account.tier)))
  }

  /** What Handle leaves in the database, and what it returns, when nothing rolls back. */
  ghost function Handled(db: Db, cmd: Command, faults: Faults, ids: FreshIds)
    : (Db, Result<Response, CreditError>)
  {
    if cmd.causationId != "" && faults.exists_ then (db, Failure(StorageFailed))
    else if cmd.causationId != "" && cmd.causationId in db.keys then (db, Failure(DuplicateEvent))
    else
      var found := RowOf(db.rows, cmd.customerId);
      if faults.find || (found.Some? && found.value.balance.value < 0) then (db, Failure(StorageFailed))
      else
        var prepared := Prepare(cmd, found, ids.accountId);
        if prepared.Failure? then (db, Failure(prepared.error))
        else if faults.save || Upsert(db.rows, prepared.value).Failure? then (db, Failure(StorageFailed))
        else
          Finished(db.(rows := Upsert(db.rows, prepared.value).value), cmd, prepared.value, faults, ids)
  }

  /** Handle inside a transaction: an error leaves the database as it was. */
  ghost function InTransaction(db: Db, cmd: Command, faults: Faults, ids: FreshIds)
    : (Db, Result<Response, CreditError>)
  {
    var (db', r) := Handled(db, cmd, faults, ids);
    (if r.Success? then db' else db, r)
  }

  class CreditLoyaltyHandler {
    const writeRepo: LoyaltyWriteRepository
    const idem: IdempotencyRepository
    const eventBus: EventBuses.EventBus

    constructor (writeRepo: LoyaltyWriteRepository, idem: IdempotencyRepository, eventBus: EventBuses.EventBus)
      ensures this.writeRepo == writeRepo && this.idem == idem && this.eventBus == eventBus
    {
      this.writeRepo := writeRepo;
      this.idem := idem;
      this.eventBus := eventBus;
    }

    ghost function Database(): Db
      reads writeRepo, idem, eventBus
    {
      Db(writeRepo.rows, idem.keys, eventBus.sqlLog)
    }

    /** The SQL backend is installed, so credited events reach the outbox. */
    ghost predicate Valid()
      reads writeRepo, eventBus
    {
      Indexed(writeRepo.rows) && eventBus.sqlPublisher
    }

    /** Step 2: the customer's aggregate, or a new one. */
    method LoadOrCreate(cmd: Command, unavailable: bool, accountId: string)
      returns (r: Result<LoyaltyAggregate, StoreError>)
      requires Indexed(writeRepo.rows)
      ensures var row := RowOf(writeRepo.rows, cmd.customerId);
        && (r.Failure? <==> unavailable || (row.Some? && row.value.balance.value < 0))
        && (r.Success? ==>
            && fresh(r.value) && r.value.domainEvents == []
            && r.value.account == if row.Some? then row.value else NewAccount(accountId, cmd.customerId))
    {
      var found := writeRepo.FindByCustomerID(cmd.customerId, unavailable);
      if found.Failure? {
        return Failure(found.error);
      }
      if found.value != null {
        return Success(found.value);
      }
      var aggregate := new LoyaltyAggregate.ForCustomer(accountId, cmd.customerId);
      return Success(aggregate);
    }

    /** Step 5: wrap the flushed events and publish them. A command raises one event, so one ULID is enough. */
    method PublishEvents(cmd: Command, domainEvents: seq<Credited>, eventId: string, fails: bool)
      returns (ok: bool)
      requires |domainEvents| == 1 && eventBus.sqlPublisher
      modifies eventBus`sqlLog, eventBus`channelLog
      ensures ok == !fails
      ensures fails ==> eventBus.sqlLog == old(eventBus.sqlLog)
      ensures var env := Envelope(eventId, cmd.correlationId, cmd.causationId,
                                  LoyaltyCredited, CreditedPayload(domainEvents[0]));
        ok ==> eventBus.sqlLog == old(eventBus.sqlLog) + [env]
    {
      var envelopes: seq<Envelope> := [];
      for i := 0 to |domainEvents|
        invariant |envelopes| == i
        invariant forall j :: 0 <= j < i ==>
          envelopes[j] == Envelope(eventId, cmd.correlationId, cmd.causationId,
                                   LoyaltyCredited, CreditedPayload(domainEvents[j]))
      {
        envelopes := envelopes + [Envelope(eventId, cmd.correlationId, cmd.causationId,
                                           LoyaltyCredited, CreditedPayload(domainEvents[i]))];
      }
      assert envelopes == [envelopes[0]];
      EventBuses.OneCriticalEnvelope(envelopes[0], !fails);
      ok := eventBus.Publish(envelopes, if fails then 0 else 1);
    }

    method PublishAndMark(cmd: Command, aggregate: LoyaltyAggregate, faults: Faults, ids: FreshIds)
      returns (r: Result<Response, CreditError>)
      requires eventBus.sqlPublisher
      requires cmd.points >= 0
      requires aggregate.domainEvents == [CreditedBy(aggregate.account, cmd.orderId, Points(cmd.points))]
      modifies aggregate, idem, eventBus`sqlLog, eventBus`channelLog
      ensures (Database(), r) == Finished(old(Database()), cmd, old(aggregate.account), faults, ids)
    {
      var domainEvents := aggregate.FlushEvents();
      var published := PublishEvents(cmd, domainEvents, ids.eventId, faults.publish);
      if !published {
        return Failure(PublishFailed);
      }
      if cmd.causationId != "" {
        var marked := idem.Mark(cmd.causationId, faults.mark);
        if marked.Failure? {
          return Failure(StorageFailed);
        }
      }
      return Success(Response(aggregate.account.id, aggregate.account.balance.value, aggregate.account.tier));
    }

    method Handle(cmd: Command, faults: Faults, ids: FreshIds) returns (r: Result<Response, CreditError>)
      requires Valid()
      modifies writeRepo, idem, eventBus`sqlLog, eventBus`channelLog
      ensures (Database(), r) == Handled(old(Database()), cmd, faults, ids)
    {
      if cmd.causationId != "" {
        var exists_ := idem.Exists(cmd.causationId, faults.exists_);
        if exists_.Failure? {
          return Failure(StorageFailed);
        }
        if exists_.value {
          return Failure(DuplicateEvent);
        }
      }

      var loaded := LoadOrCreate(cmd, faults.find, ids.accountId);
      if loaded.Failure? {
        return Failure(StorageFailed);
      }
      var aggregate := loaded.value;

      var points := NewPoints(cmd.points);
      if points.Failure? {
        return Failure(InvalidPoints);
      }
      var credited := aggregate.CreditPoints(cmd.orderId, points.value);
      if credited.Failure? {
        return Failure(NoPoints);
      }
      assert Prepare(cmd, RowOf(writeRepo.rows, cmd.customerId), ids.accountId) == Success(aggregate.account);

      var saved := writeRepo.Save(aggregate, faults.save);
      if saved.Failure? {
        return Failure(StorageFailed);
      }
      r := PublishAndMark(cmd, aggregate, faults, ids);
    }

    /** The caller's transaction around Handle: a failed command is rolled back. */
    method HandleInTransaction(cmd: Command, faults: Faults, ids: FreshIds)
      returns (r: Result<Response, CreditError>)
      requires Valid()
      modifies writeRepo, idem, eventBus`sqlLog, eventBus`channelLog
      ensures (Database(), r) == InTransaction(old(Database()), cmd, faults, ids)
    {
      var rows, keys, sqlLog := writeRepo.rows, idem.keys, eventBus.sqlLog;
      r := Handle(cmd, faults, ids);
      if r.Failure? {
        writeRepo.rows, idem.keys, eventBus.sqlLog := rows, keys, sqlLog;
      }
    }
  }

  // ---------- what one transactional command does ----------

  /** A command succeeds exactly when this holds of it beforehand. */
  ghost predicate Acceptable(db: Db, cmd: Command, faults: Faults) {
    && (cmd.causationId != "" ==> !faults.exists_ && !faults.mark && cmd.causationId !in db.keys)
    && !faults.find && !faults.save && !faults.publish
    && cmd.points >= 1
    && BalanceOf(db.rows, cmd.customerId) + cmd.points <= INTEGER_MAX
  }

  /** The prepared account can be saved exactly when its exact balance fits the column. */
  lemma PreparedAccountIsSaved(rows: Rows, cmd: Command, accountId: string)
    requires WellKept(rows) && accountId !in rows && cmd.points >= 1
    ensures var prepared := Prepare(cmd, RowOf(rows, cmd.customerId), accountId);
      && prepared.Success?
      && (Upsert(rows, prepared.value).Success? <==> BalanceOf(rows, cmd.customerId) + cmd.points <= INTEGER_MAX)
      && (Upsert(rows, prepared.value).Success? ==>
          var account, saved := prepared.value, Upsert(rows, prepared.value).value;
          && RowOf(saved, cmd.customerId) == Some(account)
          && account.balance.value == BalanceOf(rows, cmd.customerId) + cmd.points
          && account.tier == CalculateTier(account.balance)
          && WellKept(saved)
          && (forall c :: c != cmd.customerId ==> RowOf(saved, c) == RowOf(rows, c)))
  {
    var account := Prepare(cmd, RowOf(rows, cmd.customerId), accountId).value;
    assert account.customerId == cmd.customerId;
    if Upsert(rows, account).Success? {
      SaveThenFind(rows, account);
    }
  }

  /**
   * A transactional command succeeds if and only if it is acceptable. On success the customer's
   * balance grows by exactly the points, its tier follows, the answer is the row just stored, one
   * envelope carrying that row, the order, the points and the command's correlation and causation
   * joins the outbox, and the key is marked; every other customer is untouched. On failure nothing
   * changes.
   */
  lemma CreditSucceedsIff(db: Db, cmd: Command, faults: Faults, ids: FreshIds)
    requires WellKept(db.rows) && ids.accountId !in db.rows
    ensures var (db', r) := InTransaction(db, cmd, faults, ids);
      && (r.Success? <==> Acceptable(db, cmd, faults))
      && (r.Failure? ==> db' == db)
      && WellKept(db'.rows)
      && (r.Success? ==>
          && RowOf(db'.rows, cmd.customerId).Some?
          && var row := RowOf(db'.rows, cmd.customerId).value;
          && row.balance.value == BalanceOf(db.rows, cmd.customerId) + cmd.points
          && row.tier == CalculateTier(row.balance)
          && r.value == Response(row.id, row.balance.value, row.tier)
          && db'.outbox == db.outbox + [
               Envelope(ids.eventId, cmd.correlationId, cmd.causationId, LoyaltyCredited, CreditedPayload(Credited(
                 row.id, cmd.customerId, cmd.orderId, cmd.points, row.balance.value, row.tier)))]
          && db'.keys == db.keys + (if cmd.causationId == "" then {} else {cmd.causationId})
          && (forall c :: c != cmd.customerId ==> RowOf(db'.rows, c) == RowOf(db.rows, c)))
  {
    if cmd.points >= 1 {
      PreparedAccountIsSaved(db.rows, cmd, ids.accountId);
    }
  }

  /** Nothing before the points are looked at fails. */
  predicate Reaches(db: Db, cmd: Command, faults: Faults) {
    (cmd.causationId != "" ==> !faults.exists_ && cmd.causationId !in db.keys) && !faults.find
  }

  /** Why a command fails, each reason by the calls and values that lead to it. */
  lemma WhyRejected(db: Db, cmd: Command, faults: Faults, ids: FreshIds)
    requires WellKept(db.rows) && ids.accountId !in db.rows
    ensures var r := InTransaction(db, cmd, faults, ids).1;
      && (r == Failure(DuplicateEvent) <==> cmd.causationId != "" && !faults.exists_ && cmd.causationId in db.keys)
      && (r == Failure(InvalidPoints) <==> Reaches(db, cmd, faults) && cmd.points < 0)
      && (r == Failure(NoPoints) <==> Reaches(db, cmd, faults) && cmd.points == 0)
      && (r == Failure(PublishFailed) <==>
          Acceptable(db, cmd, faults.(publish := false, mark := false)) && faults.publish)
      && (r == Failure(StorageFailed) <==>
          || (cmd.causationId != "" && faults.exists_)
          || (faults.find && (cmd.causationId == "" || cmd.causationId !in db.keys))
          || (Reaches(db, cmd, faults) && cmd.points >= 1 &&
              (faults.save || BalanceOf(db.rows, cmd.customerId) + cmd.points > INTEGER_MAX))
          || (Acceptable(db, cmd, faults.(mark := false)) && cmd.causationId != "" && faults.mark))
  {
    if cmd.points >= 1 {
      PreparedAccountIsSaved(db.rows, cmd, ids.accountId);
    }
  }

  /**
   * A replay of an event whose key is marked fails and changes nothing, even without a
   * transaction: as a duplicate, unless the key could not be read.
   */
  lemma ReplayChangesNothing(db: Db, cmd: Command, faults: Faults, ids: FreshIds)
    requires cmd.causationId != "" && cmd.causationId in db.keys
    ensures Handled(db, cmd, faults, ids).0 == db
    ensures Handled(db, cmd, faults, ids).1 == Failure(if faults.exists_ then StorageFailed else DuplicateEvent)
  {
  }

  /** The account is saved, and then publishing its event or marking the key fails. */
  ghost predicate FailsAfterSave(db: Db, cmd: Command, faults: Faults) {
    && Acceptable(db, cmd, faults.(publish := false, mark := false))
    && (faults.publish || (cmd.causationId != "" && faults.mark))
  }

  /** The handler alone is already all-or-nothing exactly when it does not fail after the save. */
  lemma TransactionNeededIff(db: Db, cmd: Command, faults: Faults, ids: FreshIds)
    requires WellKept(db.rows) && ids.accountId !in db.rows
    ensures Handled(db, cmd, faults, ids).0 == InTransaction(db, cmd, faults, ids).0 <==>
            !FailsAfterSave(db, cmd, faults)
  {
    if cmd.points >= 1 {
      PreparedAccountIsSaved(db.rows, cmd, ids.accountId);
    }
  }

  /**
   * Without the transaction, an event whose key could not be marked is credited again when it
   * is redelivered: the balance grows twice and two credited envelopes name the same cause.
   */
  lemma WithoutTransactionCreditsTwice(db: Db, cmd: Command, ids: FreshIds, ids': FreshIds)
    requires WellKept(db.rows) && ids.accountId !in db.rows && ids'.accountId !in db.rows
    requires ids'.accountId != ids.accountId
    requires cmd.causationId != "" && cmd.causationId !in db.keys && cmd.points >= 1
    requires BalanceOf(db.rows, cmd.customerId) + 2 * cmd.points <= INTEGER_MAX
    ensures var (halfDone, failed) := Handled(db, cmd, NO_FAULTS.(mark := true), ids);
      var (db', redelivered) := Handled(halfDone, cmd, NO_FAULTS, ids');
      && failed.Failure? && redelivered.Success?
      && BalanceOf(db'.rows, cmd.customerId) == BalanceOf(db.rows, cmd.customerId) + 2 * cmd.points
      && |db'.outbox| == |db.outbox| + 2
      && db'.outbox[|db.outbox|].causationId == db'.outbox[|db.outbox| + 1].causationId == cmd.causationId
  {
    PreparedAccountIsSaved(db.rows, cmd, ids.accountId);
    var (halfDone, _) := Handled(db, cmd, NO_FAULTS.(mark := true), ids);
    PreparedAccountIsSaved(halfDone.rows, cmd, ids'.accountId);
  }
}
