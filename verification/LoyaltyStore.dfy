/**
 * The two loyalty tables: accounts (primary key id, unique customer_id, 32-bit INTEGER balance)
 * and idempotency keys (unique causation_event_id). A database that cannot be reached is the
 * `unavailable` argument of each operation.
 */
module LoyaltyStores {
  import opened Results
  import opened ValueObjects
  import opened LoyaltyAggregates

  type Rows = map<string, Account>

  datatype StoreError = Unavailable | OutOfRange | UniqueViolation | NegativeBalance

  const INTEGER_MAX: int := 0x7FFF_FFFF
  const INTEGER_MIN: int := -0x8000_0000

  predicate InInteger(x: int) {
    INTEGER_MIN <= x <= INTEGER_MAX
  }

  /** The primary key and the unique index on customer_id. */
  ghost predicate Indexed(rows: Rows) {
    && (forall id <- rows :: rows[id].id == id)
    && (forall i, j :: i in rows && j in rows && rows[i].customerId == rows[j].customerId ==> i == j)
  }

  predicate HasCustomer(rows: Rows, customerId: string) {
    exists id <- rows :: rows[id].customerId == customerId
  }

  /** SELECT ... WHERE customer_id = ? LIMIT 1 */
  ghost function RowOf(rows: Rows, customerId: string): (r: Option<Account>)
    ensures r.Some? <==> HasCustomer(rows, customerId)
    ensures r.Some? ==> r.value.customerId == customerId && exists id <- rows :: rows[id] == r.value
  {
    if id :| id in rows && rows[id].customerId == customerId then Some(rows[id]) else None
  }

  /** Indexed rows with balances the column holds and the tiers of those balances. */
  ghost predicate WellKept(rows: Rows) {
    && Indexed(rows)
    && forall id <- rows ::
         0 <= rows[id].balance.value <= INTEGER_MAX && rows[id].tier == CalculateTier(rows[id].balance)
  }

  ghost function BalanceOf(rows: Rows, customerId: string): int {
    match RowOf(rows, customerId)
    case None => 0
    case Some(row) => row.balance.value
  }

  /** INSERT ... ON CONFLICT (id) DO UPDATE SET balance, tier */
  function Upsert(rows: Rows, account: Account): Result<Rows, StoreError> {
    if !InInteger(account.balance.value) then Failure(OutOfRange)
    else if account.id in rows then
      Success(rows[account.id := rows[account.id].(balance := account.balance, tier := account.tier)])
    else if HasCustomer(rows, account.customerId) then Failure(UniqueViolation)
    else Success(rows[account.id := account])
  }

  class LoyaltyWriteRepository {
    var rows: Rows

    constructor ()
      ensures rows == map[]
    {
      rows := map[];
    }

    method Save(aggregate: LoyaltyAggregate, unavailable: bool) returns (r: Result<(), StoreError>)
      modifies this
      ensures r.Success? <==> !unavailable && Upsert(old(rows), aggregate.account).Success?
      ensures rows == if r.Success? then Upsert(old(rows), aggregate.account).value else old(rows)
    {
      if unavailable {
        return Failure(Unavailable);
      }
      var account := aggregate.account;
      var saved := Upsert(rows, account);
      if saved.Failure? {
        return Failure(saved.error);
      }
      rows := saved.value;
      return Success(());
    }

    /** Success(null) when the customer has no account. */
    method FindByCustomerID(customerId: string, unavailable: bool)
      returns (r: Result<LoyaltyAggregate?, StoreError>)
      requires Indexed(rows)
      ensures unavailable ==> r == Failure(Unavailable)
      ensures !unavailable ==>
        match RowOf(rows, customerId)
        case None => r == Success(null)
        case Some(row) =>
          if row.balance.value < 0 then r == Failure(NegativeBalance)
          else r.Success? && r.value != null && fresh(r.value) && r.value.State() == AggregateState(row, [])
    {
      if unavailable {
        return Failure(Unavailable);
      }
      if !HasCustomer(rows, customerId) {
        return Success(null);
      }
      var id :| id in rows && rows[id].customerId == customerId;
      var row := rows[id];
      assert RowOf(rows, customerId) == Some(row);
      var balance := NewPoints(row.balance.value);
      if balance.Failure? {
        return Failure(NegativeBalance);
      }
      var aggregate := new LoyaltyAggregate.Reconstitute(row.(balance := balance.value));
      return Success(aggregate);
    }
  }

  class IdempotencyRepository {
    var keys: set<string>

    constructor ()
      ensures keys == {}
    {
      keys := {};
    }

    method Exists(causationEventId: string, unavailable: bool) returns (r: Result<bool, StoreError>)
      ensures r == if unavailable then Failure(Unavailable) else Success(causationEventId in keys)
    {
      return if unavailable then Failure(Unavailable) else Success(causationEventId in keys);
    }

    /** The unique index rejects a key that is already there. */
    method Mark(causationEventId: string, unavailable: bool) returns (r: Result<(), StoreError>)
      modifies this
      ensures r.Success? <==> !unavailable && causationEventId !in old(keys)
      ensures keys == if r.Success? then old(keys) + {causationEventId} else old(keys)
    {
      if unavailable {
        return Failure(Unavailable);
      }
      if causationEventId in keys {
        return Failure(UniqueViolation);
      }
      keys := keys + {causationEventId};
      return Success(());
    }
  }

  /**
   * Saving an account and finding its customer gives the account back, no other customer's row
   * changes, and there is still at most one row per customer. An id already stored must belong
   * to the same customer, which holds of every account that was loaded or newly created.
   */
  lemma SaveThenFind(rows: Rows, account: Account)
    requires Indexed(rows)
    requires account.id in rows ==> rows[account.id].customerId == account.customerId
    requires Upsert(rows, account).Success?
    ensures var saved := Upsert(rows, account).value;
      && Indexed(saved)
      && RowOf(saved, account.customerId) == Some(account)
      && forall c :: c != account.customerId ==> RowOf(saved, c) == RowOf(rows, c)
  {
    var saved := Upsert(rows, account).value;
    assert saved == rows[account.id := account];
    assert saved[account.id] == account;
    forall c | c != account.customerId ensures RowOf(saved, c) == RowOf(rows, c) {
      OtherRowsKept(rows, saved, c);
    }
  }

  /** Saving never changes an existing row's id or customer, nor anything of another row. */
  lemma UpsertKeepsOthers(rows: Rows, account: Account)
    requires Upsert(rows, account).Success?
    ensures var saved := Upsert(rows, account).value;
      && saved.Keys == rows.Keys + {account.id}
      && saved[account.id].balance == account.balance && saved[account.id].tier == account.tier
      && forall id <- rows ::
           && saved[id].id == rows[id].id && saved[id].customerId == rows[id].customerId
           && (id != account.id ==> saved[id] == rows[id])
  {
  }

  /** Why a save fails: the balance does not fit 32 bits, or a new id for a customer that has a row. */
  lemma UpsertFailsIff(rows: Rows, account: Account)
    ensures Upsert(rows, account) == Failure(OutOfRange) <==>
            !(-2_147_483_648 <= account.balance.value <= 2_147_483_647)
    ensures Upsert(rows, account) == Failure(UniqueViolation) <==>
            && -2_147_483_648 <= account.balance.value <= 2_147_483_647
            && account.id !in rows && exists id <- rows :: rows[id].customerId == account.customerId
    ensures Upsert(rows, account).Failure? ==> Upsert(rows, account).error in {OutOfRange, UniqueViolation}
  {
  }

  lemma OtherRowsKept(rows: Rows, saved: Rows, customerId: string)
    requires Indexed(rows) && Indexed(saved)
    requires forall id <- rows :: rows[id].customerId == customerId ==> id in saved && saved[id] == rows[id]
    requires forall id <- saved :: saved[id].customerId == customerId ==> id in rows && saved[id] == rows[id]
    ensures RowOf(saved, customerId) == RowOf(rows, customerId)
  {
  }

  /**
   * Every stored account has a tier that fits its balance and a balance in 0..2^31-1, whatever
   * points are credited to it: the 64-bit sum either is exact, or wraps to a number the INTEGER
   * column rejects.
   */
  lemma UpsertNeverStoresWrappedBalance(rows: Rows, account: Account, points: Points)
    requires 0 <= account.balance.value <= INTEGER_MAX && Constructible(points)
    ensures var credited := WithBalance(account, account.balance.Add(points));
      InInteger(credited.balance.value) <==> account.balance.value + points.value <= INTEGER_MAX
    ensures var credited := WithBalance(account, account.balance.Add(points));
      Upsert(rows, credited).Success? ==>
        credited.balance.value == account.balance.value + points.value && 0 <= credited.balance.value
  {
  }
}
