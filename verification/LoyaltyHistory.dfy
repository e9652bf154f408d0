/**
 * Aggregates and their table over whole histories: accounts are opened (found, or created),
 * credited, debited, flushed and saved, with calls that fail. The reference is a book that knows
 * only balances, over unbounded integers: no rows, ids, tiers or wrap-around.
 */
module LoyaltyHistories {
  import opened Results
  import opened ValueObjects
  import opened LoyaltyAggregates
  import opened LoyaltyStores
  import GoInt

  /** The table, and the aggregate in memory. */
  datatype State = State(rows: Rows, open: AggregateState)

  datatype Step =
    | Open(customerId: string, freshId: string, unavailable: bool)
    | Change(op: Operation)
    | Save(unavailable: bool)

  /** The customer's stored account, or a new one; None when the stored balance cannot be read. */
  ghost function Found(rows: Rows, customerId: string, freshId: string): Option<Account> {
    match RowOf(rows, customerId)
    case None => Some(NewAccount(freshId, customerId))
    case Some(row) => if row.balance.value < 0 then None else Some(row)
  }

  /** A failed open or save changes nothing. */
  ghost function Perform(s: State, step: Step): State {
    match step
    case Open(c, freshId, unavailable) =>
      var found := Found(s.rows, c, freshId);
      if unavailable || found.None? then s else s.(open := AggregateState(found.value, []))
    case Change(op) => s.(open := Apply(s.open, op))
    case Save(unavailable) =>
      var saved := Upsert(s.rows, s.open.account);
      if unavailable || saved.Failure? then s else s.(rows := saved.value)
  }

  ghost function Run(s: State, steps: seq<Step>): State
    decreases |steps|
  {
    if steps == [] then s else Run(Perform(s, steps[0]), steps[1..])
  }

  /** Ids of accounts to be created are not in the table. */
  ghost predicate FreshIds(s: State, steps: seq<Step>)
    decreases |steps|
  {
    steps == [] ||
    ((steps[0].Open? ==> steps[0].freshId !in s.rows) && FreshIds(Perform(s, steps[0]), steps[1..]))
  }

  predicate Constructed(steps: seq<Step>) {
    forall step <- steps :: step.Change? ==> ConstructibleOp(step.op)
  }

  // ---------- the book ----------

  /**
   * Stored balances by customer, the customer whose account is open, its balance in memory, and
   * its credits since it was opened or flushed, each with the balance it led to.
   */
  datatype Book = Book(stored: map<string, int>, owner: string, held: int, credits: seq<(string, int, int)>) {
    function Stored(customerId: string): int {
      if customerId in stored then stored[customerId] else 0
    }
  }

  function Entered(b: Book, step: Step): Book {
    match step
    case Open(c, _, unavailable) => if unavailable then b else Book(b.stored, c, b.Stored(c), [])
    case Change(CreditOp(orderId, points)) =>
      var held := b.held + points.value;
      if points.value == 0 then b else b.(held := held, credits := b.credits + [(orderId, points.value, held)])
    case Change(DebitOp(points)) => if b.held < points.value then b else b.(held := b.held - points.value)
    case Change(FlushOp) => b.(credits := [])
    case Save(unavailable) =>
      if unavailable || b.held > INTEGER_MAX then b else b.(stored := b.stored[b.owner := b.held])
  }

  function Kept(b: Book, steps: seq<Step>): Book
    decreases |steps|
  {
    if steps == [] then b else Kept(Entered(b, steps[0]), steps[1..])
  }

  /** No balance in memory passes the largest `int`. */
  predicate NeverOverflows(b: Book, steps: seq<Step>)
    decreases |steps|
  {
    b.held <= GoInt.MAX && (steps == [] || NeverOverflows(Entered(b, steps[0]), steps[1..]))
  }

  // ---------- the code keeps the book ----------

  /** The open account is stored under its id for its customer, or is new and its customer has no row. */
  ghost predicate Anchored(rows: Rows, account: Account) {
    if account.id in rows then rows[account.id].customerId == account.customerId
    else !HasCustomer(rows, account.customerId)
  }

  ghost predicate SameCredits(pending: seq<Credited>, account: Account, credits: seq<(string, int, int)>) {
    |pending| == |credits| && forall i :: 0 <= i < |credits| ==> Matches(pending[i], account, credits[i])
  }

  /**
   * The table has at most one row per customer with the book's balance and its tier, the open
   * account has the book's balance and its tier, and the pending events are the book's credits.
   */
  ghost predicate Agrees(s: State, b: Book) {
    && WellKept(s.rows) && Anchored(s.rows, s.open.account)
    && (forall c :: BalanceOf(s.rows, c) == b.Stored(c))
    && s.open.account.customerId == b.owner
    && s.open.account.balance.value == b.held >= 0
    && s.open.account.tier == CalculateTier(s.open.account.balance)
    && SameCredits(s.open.pending, s.open.account, b.credits)
  }

  lemma OpenAgrees(s: State, b: Book, step: Step)
    requires Agrees(s, b) && step.Open? && step.freshId !in s.rows
    ensures Agrees(Perform(s, step), Entered(b, step))
  {
    assert BalanceOf(s.rows, step.customerId) == b.Stored(step.customerId);
  }

  lemma ChangeAgrees(s: State, b: Book, step: Step)
    requires Agrees(s, b) && step.Change? && ConstructibleOp(step.op) && Entered(b, step).held <= GoInt.MAX
    ensures Agrees(Perform(s, step), Entered(b, step))
  {
    var s' := Perform(s, step);
    assert s'.open.account.id == s.open.account.id && s'.open.account.customerId == s.open.account.customerId;
  }

  /** A save succeeds exactly when the database answers and the balance fits the column. */
  lemma SaveSucceedsIff(s: State, b: Book)
    requires Agrees(s, b)
    ensures Upsert(s.rows, s.open.account).Success? <==> b.held <= INTEGER_MAX
  {
  }

  lemma SaveAgrees(s: State, b: Book, step: Step)
    requires Agrees(s, b) && step.Save?
    ensures Agrees(Perform(s, step), Entered(b, step))
  {
    SaveSucceedsIff(s, b);
    if !step.unavailable && b.held <= INTEGER_MAX {
      SaveThenFind(s.rows, s.open.account);
      forall c ensures BalanceOf(Perform(s, step).rows, c) == Entered(b, step).Stored(c) {
        assert BalanceOf(s.rows, c) == b.Stored(c);
      }
    }
  }

  lemma StepAgrees(s: State, b: Book, step: Step)
    requires Agrees(s, b) && Entered(b, step).held <= GoInt.MAX
    requires (step.Open? ==> step.freshId !in s.rows) && (step.Change? ==> ConstructibleOp(step.op))
    ensures Agrees(Perform(s, step), Entered(b, step))
  {
    match step
    case Open(_, _, _) => OpenAgrees(s, b, step);
    case Change(_) => ChangeAgrees(s, b, step);
    case Save(_) => SaveAgrees(s, b, step);
  }

  ghost predicate AgreesThroughout(s: State, b: Book, steps: seq<Step>)
    decreases |steps|
  {
    Agrees(s, b) && (steps == [] || AgreesThroughout(Perform(s, steps[0]), Entered(b, steps[0]), steps[1..]))
  }

  /**
   * Over every history of opens, credits, debits, flushes and saves, with any rejected or failed
   * calls, table and aggregate agree with the book at every point if and only if no balance in
   * memory passes the largest `int`.
   */
  lemma {:induction false} HistoryAgreesIff(s: State, b: Book, steps: seq<Step>)
    requires Agrees(s, b) && FreshIds(s, steps) && Constructed(steps)
    ensures AgreesThroughout(s, b, steps) <==> NeverOverflows(b, steps)
    ensures NeverOverflows(b, steps) ==> Agrees(Run(s, steps), Kept(b, steps))
    decreases |steps|
  {
    if steps != [] {
      var s', b' := Perform(s, steps[0]), Entered(b, steps[0]);
      assert steps[0] in steps;
      if b'.held <= GoInt.MAX {
        StepAgrees(s, b, steps[0]);
        HistoryAgreesIff(s', b', steps[1..]);
      }
    }
  }

  /** The balance in memory is never negative. */
  ghost predicate NeverNegative(s: State, steps: seq<Step>)
    decreases |steps|
  {
    s.open.account.balance.value >= 0 && (steps == [] || NeverNegative(Perform(s, steps[0]), steps[1..]))
  }

  lemma OverflowIsNegative(s: State, b: Book, step: Step)
    requires Agrees(s, b) && (step.Change? ==> ConstructibleOp(step.op)) && Entered(b, step).held > GoInt.MAX
    ensures Perform(s, step).open.account.balance.value < 0
  {
    forall c ensures b.Stored(c) <= INTEGER_MAX {
      assert BalanceOf(s.rows, c) == b.Stored(c);
    }
  }

  /** The balance stays non-negative through a history if and only if no credit overflows. */
  lemma {:induction false} NonNegativeIffNoOverflow(s: State, b: Book, steps: seq<Step>)
    requires Agrees(s, b) && FreshIds(s, steps) && Constructed(steps)
    ensures NeverNegative(s, steps) <==> NeverOverflows(b, steps)
    decreases |steps|
  {
    if steps != [] {
      var s', b' := Perform(s, steps[0]), Entered(b, steps[0]);
      assert steps[0] in steps;
      if b'.held <= GoInt.MAX {
        StepAgrees(s, b, steps[0]);
        NonNegativeIffNoOverflow(s', b', steps[1..]);
      } else {
        OverflowIsNegative(s, b, steps[0]);
      }
    }
  }

  /** From the empty table and a new account, or from any table and an account just opened. */
  lemma OpenedAgrees(rows: Rows, stored: map<string, int>, customerId: string, freshId: string)
    requires WellKept(rows) && freshId !in rows
    requires forall c :: BalanceOf(rows, c) == if c in stored then stored[c] else 0
    ensures var found := Found(rows, customerId, freshId);
      && found.Some?
      && Agrees(State(rows, AggregateState(found.value, [])),
                Book(stored, customerId, BalanceOf(rows, customerId), []))
  {
  }

  /**
   * Saving and opening the account again recovers it, without pending events, if and only if its
   * balance fits the column; otherwise the balance is the one last saved.
   */
  lemma SaveThenOpen(s: State, b: Book, freshId: string)
    requires Agrees(s, b) && freshId !in s.rows
    ensures var reopened := Perform(Perform(s, Save(false)), Open(b.owner, freshId, false)).open;
      && (reopened == AggregateState(s.open.account, []) <==> b.held <= INTEGER_MAX)
      && (b.held > INTEGER_MAX ==> reopened.account.balance.value == b.Stored(b.owner))
  {
    SaveSucceedsIff(s, b);
    if b.held <= INTEGER_MAX {
      SaveThenFind(s.rows, s.open.account);
    } else {
      assert BalanceOf(s.rows, b.owner) == b.Stored(b.owner);
    }
  }
}
