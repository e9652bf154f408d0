/**
 * The loyalty aggregate: one account and the domain events raised since the last flush.
 * The class is the aggregate; AggregateState and Apply specify it on values.
 */
module LoyaltyAggregates {
  import opened Results
  import opened ValueObjects
  import GoInt

  datatype Account = Account(id: string, customerId: string, balance: Points, tier: Tier)

  /** The LoyaltyCreditedEvent raised by a credit. */
  datatype Credited = Credited(
    accountId: string, customerId: string, orderId: string,
    pointsEarned: GoInt.Int, newBalance: GoInt.Int, newTier: Tier)

  datatype AggregateError = ZeroPoints | InsufficientBalance

  datatype AggregateState = AggregateState(account: Account, pending: seq<Credited>)

  datatype Operation =
    | CreditOp(orderId: string, points: Points)
    | DebitOp(points: Points)
    | FlushOp

  function NewAccount(id: string, customerId: string): Account {
    Account(id, customerId, Points(0), Bronze)
  }

  function WithBalance(account: Account, balance: Points): Account {
    account.(balance := balance, tier := CalculateTier(balance))
  }

  function CreditedBy(account: Account, orderId: string, points: Points): Credited {
    Credited(account.id, account.customerId, orderId, points.value, account.balance.value, account.tier)
  }

  predicate Accepts(s: AggregateState, op: Operation) {
    match op
    case CreditOp(_, points) => !points.IsZero()
    case DebitOp(points) => s.account.balance.value >= points.value
    case FlushOp => true
  }

  function Apply(s: AggregateState, op: Operation): AggregateState {
    if !Accepts(s, op) then s else
    match op
    case CreditOp(orderId, points) =>
      var account := WithBalance(s.account, s.account.balance.Add(points));
      AggregateState(account, s.pending + [CreditedBy(account, orderId, points)])
    case DebitOp(points) =>
      AggregateState(WithBalance(s.account, s.account.balance.Sub(points).value), s.pending)
    case FlushOp => AggregateState(s.account, [])
  }

  class LoyaltyAggregate {
    var account: Account
    var domainEvents: seq<Credited>

    ghost function State(): AggregateState
      reads this
    {
      AggregateState(account, domainEvents)
    }

    /** NewLoyaltyAggregate; the account id is a fresh ULID. */
    constructor ForCustomer(id: string, customerId: string)
      ensures State() == AggregateState(NewAccount(id, customerId), [])
    {
      account := NewAccount(id, customerId);
      domainEvents := [];
    }

    constructor Reconstitute(persisted: Account)
      ensures State() == AggregateState(persisted, [])
    {
      account := persisted;
      domainEvents := [];
    }

    method CreditPoints(orderId: string, points: Points) returns (r: Result<(), AggregateError>)
      modifies this
      ensures State() == Apply(old(State()), CreditOp(orderId, points))
      ensures r.Failure? <==> points.value == 0
      ensures r.Failure? ==> r.error == ZeroPoints && State() == old(State())
    {
      if points.IsZero() {
        return Failure(ZeroPoints);
      }
      account := account.(balance := account.balance.Add(points));
      account := account.(tier := CalculateTier(account.balance));
      domainEvents := domainEvents + [CreditedBy(account, orderId, points)];
      return Success(());
    }

    method DebitPoints(points: Points) returns (r: Result<(), AggregateError>)
      modifies this
      ensures State() == Apply(old(State()), DebitOp(points))
      ensures r.Failure? <==> old(account.balance.value) < points.value
      ensures r.Failure? ==> r.error == InsufficientBalance && State() == old(State())
    {
      var newBalance := account.balance.Sub(points);
      if newBalance.Failure? {
        return Failure(InsufficientBalance);
      }
      account := account.(balance := newBalance.value);
      account := account.(tier := CalculateTier(account.balance));
      return Success(());
    }

    method FlushEvents() returns (events: seq<Credited>)
      modifies this
      ensures events == old(domainEvents)
      ensures State() == Apply(old(State()), FlushOp)
    {
      events := domainEvents;
      domainEvents := [];
    }
  }

  predicate ConstructibleOp(op: Operation) {
    (op.CreditOp? ==> Constructible(op.points)) && (op.DebitOp? ==> Constructible(op.points))
  }

  /** The event records this credit, an order id, its points and the balance it led to, of the account. */
  predicate Matches(e: Credited, account: Account, credit: (string, int, int)) {
    e.accountId == account.id && e.customerId == account.customerId &&
    e.orderId == credit.0 && e.pointsEarned == credit.1 && e.newBalance == credit.2 &&
    e.newTier == CalculateTier(Points(e.newBalance))
  }
}
