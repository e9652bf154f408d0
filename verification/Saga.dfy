/**
 * The order fulfilment saga: joins loyalty.account.credited and inventory.stock.reserved per
 * correlation id, saves the completed state, then publishes orders.fulfillment.ready.
 */
module Sagas {
  import opened Results
  import opened Events
  import EventBuses

  datatype SagaState = SagaState(loyaltyCredited: bool, inventoryReserved: bool, completed: bool)

  const FRESH := SagaState(false, false, false)

  type States = map<string, SagaState>

  /** A correlation without a saved state is one whose state was just created. */
  function Lookup(states: States, correlationId: string): SagaState {
    if correlationId in states then states[correlationId] else FRESH
  }

  function Flagged(state: SagaState, topic: Topic): SagaState {
    match topic
    case LoyaltyCredited => state.(loyaltyCredited := true)
    case StockReserved => state.(inventoryReserved := true)
    case _ => state
  }

  predicate BothMet(state: SagaState) {
    state.loyaltyCredited && state.inventoryReserved
  }

  function ReadyEnvelope(env: Envelope, eventId: string): Envelope {
    Envelope(eventId, env.correlationId, env.eventId, FulfillmentReady, OtherPayload)
  }

  /** Which calls of one Handle fail. */
  datatype SagaFaults = SagaFaults(find: bool, saveFlags: bool, saveCompletion: bool, publish: bool)

  datatype Handling = Handling(states: States, published: seq<Envelope>, ok: bool)

  function Handled(states: States, env: Envelope, faults: SagaFaults, readyId: string): Handling {
    var c := env.correlationId;
    if faults.find then Handling(states, [], false) else
    var found := states[c := Lookup(states, c)];
    if found[c].completed then Handling(found, [], true) else
    var flagged := Flagged(found[c], env.topic);
    if faults.saveFlags then Handling(found, [], false)
    else if !BothMet(flagged) then Handling(found[c := flagged], [], true)
    else if faults.saveCompletion then Handling(found[c := flagged], [], false)
    else Handling(found[c := flagged.(completed := true)],
                  if faults.publish then [] else [ReadyEnvelope(env, readyId)], !faults.publish)
  }

  class SagaRepository {
    var states: States

    constructor ()
      ensures states == map[]
    {
      states := map[];
    }

    method FindOrCreate(correlationId: string, unavailable: bool) returns (r: Option<SagaState>)
      modifies this
      ensures unavailable ==> r == None && states == old(states)
      ensures !unavailable ==>
        r == Some(Lookup(old(states), correlationId)) && states == old(states)[correlationId := r.value]
    {
      if unavailable {
        return None;
      }
      if correlationId !in states {
        states := states[correlationId := FRESH];
      }
      return Some(states[correlationId]);
    }

    method Save(correlationId: string, state: SagaState, unavailable: bool) returns (ok: bool)
      modifies this
      ensures ok == !unavailable
      ensures states == if ok then old(states)[correlationId := state] else old(states)
    {
      if unavailable {
        return false;
      }
      states := states[correlationId := state];
      return true;
    }
  }

  class OrderFulfillmentSaga {
    const repository: SagaRepository
    const eventBus: EventBuses.EventBus

    constructor (repository: SagaRepository, eventBus: EventBuses.EventBus)
      ensures this.repository == repository && this.eventBus == eventBus
    {
      this.repository := repository;
      this.eventBus := eventBus;
    }

    method Handle(env: Envelope, faults: SagaFaults, readyId: string) returns (ok: bool)
      requires eventBus.sqlPublisher
      modifies repository, eventBus`sqlLog, eventBus`channelLog
      ensures var h := Handled(old(repository.states), env, faults, readyId);
        repository.states == h.states && eventBus.sqlLog == old(eventBus.sqlLog) + h.published && ok == h.ok
    {
      var found := repository.FindOrCreate(env.correlationId, faults.find);
      if found.None? {
        return false;
      }
      var state := found.value;
      if state.completed {
        return true;
      }
      match env.topic {
        case LoyaltyCredited => state := state.(loyaltyCredited := true);
        case StockReserved => state := state.(inventoryReserved := true);
        case _ =>
      }
      var saved := repository.Save(env.correlationId, state, faults.saveFlags);
      if !saved {
        return false;
      }
      if state.loyaltyCredited && state.inventoryReserved {
        ok := Complete(env, state, faults, readyId);
        return;
      }
      return true;
    }

    /** Saves the completion, then publishes the ready event. */
    method Complete(env: Envelope, state: SagaState, faults: SagaFaults, readyId: string) returns (ok: bool)
      requires eventBus.sqlPublisher
      modifies repository, eventBus`sqlLog, eventBus`channelLog
      ensures ok <==> !faults.saveCompletion && !faults.publish
      ensures repository.states ==
        if faults.saveCompletion then old(repository.states)
        else old(repository.states)[env.correlationId := state.(completed := true)]
      ensures eventBus.sqlLog == old(eventBus.sqlLog) + if ok then [ReadyEnvelope(env, readyId)] else []
    {
      var saved := repository.Save(env.correlationId, state.(completed := true), faults.saveCompletion);
      if !saved {
        return false;
      }
      var ready := ReadyEnvelope(env, readyId);
      EventBuses.OneCriticalEnvelope(ready, !faults.publish);
      ok := eventBus.Publish([ready], if faults.publish then 0 else 1);
    }
  }
}
