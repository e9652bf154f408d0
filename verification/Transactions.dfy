/**
 * Credit commands as concurrent database transactions. Each transaction reads committed data in
 * its own steps, any number of them interleave, and its writes become visible together at its
 * commit, where the unique indexes and the column width are enforced. A transaction may abort
 * at any point (a failed call, a crash, a rejected command). Atomic commit is the contract
 * documented on the handler; nothing below assumes that transactions are serialised unless it
 * says so.
 */
module Transactions {
  import opened Results
  import opened ValueObjects
  import opened LoyaltyAggregates
  import opened LoyaltyStores
  import opened CreditHandlers
  import opened Events

  datatype Phase = Begun | Checked | Loaded(base: Option<Account>)

  datatype Tx = Tx(cmd: Command, phase: Phase)

  datatype Committed = Committed(tx: nat, cmd: Command)

  /** Committed data, transactions in flight, ids used so far, and the history of commits. */
  datatype State = State(db: Db, txs: map<nat, Tx>, started: set<nat>, commits: seq<Committed>)

  datatype Action =
    | Begin(t: nat, cmd: Command)
    | Check(t: nat)
    | Load(t: nat)
    | Commit(t: nat, ids: FreshIds)
    | Abort(t: nat)
    | PublishOther(env: Envelope)

  const EMPTY_DB := Db(map[], {}, [])

  const INITIAL := State(EMPTY_DB, map[], {}, [])

  /** Save, publish and mark all succeed against the committed data. A new account's id is fresh. */
  predicate CanCommit(db: Db, cmd: Command, base: Option<Account>, ids: FreshIds) {
    var prepared := Prepare(cmd, base, ids.accountId);
    && prepared.Success?
    && Upsert(db.rows, prepared.value).Success?
    && (base.None? ==> ids.accountId !in db.rows)
    && (cmd.causationId != "" ==> cmd.causationId !in db.keys)
  }

  ghost predicate Enabled(s: State, a: Action) {
    match a
    case Begin(t, _) => t !in s.started
    case Check(t) => t in s.txs && s.txs[t].phase.Begun?
    case Load(t) => t in s.txs && s.txs[t].phase.Checked?
    case Commit(t, ids) =>
      t in s.txs && s.txs[t].phase.Loaded? && CanCommit(s.db, s.txs[t].cmd, s.txs[t].phase.base, ids)
    case Abort(t) => t in s.txs
    case PublishOther(env) => env.topic != LoyaltyCredited
  }

  function Applied(db: Db, cmd: Command, base: Option<Account>, ids: FreshIds): Db
    requires CanCommit(db, cmd, base, ids)
  {
    var account := Prepare(cmd, base, ids.accountId).value;
    Finished(db.(rows := Upsert(db.rows, account).value), cmd, account, NO_FAULTS, ids).0
  }

  ghost function Step(s: State, a: Action): State
    requires Enabled(s, a)
  {
    match a
    case Begin(t, cmd) => s.(txs := s.txs[t := Tx(cmd, Begun)], started := s.started + {t})
    case Check(t) =>
      var cmd := s.txs[t].cmd;
      if cmd.causationId != "" && cmd.causationId in s.db.keys
      then s.(txs := s.txs - {t})
      else s.(txs := s.txs[t := Tx(cmd, Checked)])
    case Load(t) =>
      var cmd := s.txs[t].cmd;
      s.(txs := s.txs[t := Tx(cmd, Loaded(RowOf(s.db.rows, cmd.customerId)))])
    case Commit(t, ids) =>
      var Tx(cmd, Loaded(base)) := s.txs[t];
      s.(db := Applied(s.db, cmd, base, ids), txs := s.txs - {t}, commits := s.commits + [Committed(t, cmd)])
    case Abort(t) => s.(txs := s.txs - {t})
    case PublishOther(env) => s.(db := s.db.(outbox := s.db.outbox + [env]))
  }

  ghost predicate Runs(s: State, actions: seq<Action>)
    decreases |actions|
  {
    actions == [] || (Enabled(s, actions[0]) && Runs(Step(s, actions[0]), actions[1..]))
  }

  ghost function Run(s: State, actions: seq<Action>): State
    requires Runs(s, actions)
    decreases |actions|
  {
    if actions == [] then s else Run(Step(s, actions[0]), actions[1..])
  }

  // ---------- every event is credited at most once ----------

  predicate IsCreditFor(env: Envelope, eventId: string) {
    env.topic == LoyaltyCredited && env.causationId == eventId
  }

  /** How many credited envelopes name the event as their cause. */
  function CreditsFor(outbox: seq<Envelope>, eventId: string): nat {
    if outbox == [] then 0
    else CreditsFor(outbox[..|outbox| - 1], eventId) + if IsCreditFor(outbox[|outbox| - 1], eventId) then 1 else 0
  }

  /** How many committed commands name the event as their cause. */
  function CommitsFor(commits: seq<Committed>, eventId: string): nat {
    if commits == [] then 0
    else CommitsFor(commits[..|commits| - 1], eventId) +
         if commits[|commits| - 1].cmd.causationId == eventId then 1 else 0
  }

  ghost predicate ExactlyOnce(s: State, eventId: string) {
    CreditsFor(s.db.outbox, eventId) == CommitsFor(s.commits, eventId) == if eventId in s.db.keys then 1 else 0
  }

  lemma CreditsForAppend(outbox: seq<Envelope>, env: Envelope, eventId: string)
    ensures CreditsFor(outbox + [env], eventId) ==
            CreditsFor(outbox, eventId) + if IsCreditFor(env, eventId) then 1 else 0
  {
    assert (outbox + [env])[..|outbox|] == outbox;
  }

  lemma CommitsForAppend(commits: seq<Committed>, c: Committed, eventId: string)
    ensures CommitsFor(commits + [c], eventId) ==
            CommitsFor(commits, eventId) + if c.cmd.causationId == eventId then 1 else 0
  {
    assert (commits + [c])[..|commits|] == commits;
  }

  lemma CommitKeepsExactlyOnce(s: State, t: nat, ids: FreshIds, eventId: string)
    requires Enabled(s, Commit(t, ids)) && eventId != "" && ExactlyOnce(s, eventId)
    ensures ExactlyOnce(Step(s, Commit(t, ids)), eventId)
  {
    var Tx(cmd, Loaded(base)) := s.txs[t];
    var account := Prepare(cmd, base, ids.accountId).value;
    CreditsForAppend(s.db.outbox, CreditedEnvelope(cmd, account, ids.eventId), eventId);
    CommitsForAppend(s.commits, Committed(t, cmd), eventId);
  }

  lemma StepKeepsExactlyOnce(s: State, a: Action, eventId: string)
    requires Enabled(s, a) && eventId != "" && ExactlyOnce(s, eventId)
    ensures ExactlyOnce(Step(s, a), eventId)
  {
    match a
    case Commit(t, ids) => CommitKeepsExactlyOnce(s, t, ids, eventId);
    case PublishOther(env) => CreditsForAppend(s.db.outbox, env, eventId);
    case _ =>
  }

  /**
   * However transactions interleave, and even if several for one event passed the key check
   * before any of them marked the key: a marked key means exactly one committed credit and
   * exactly one credited envelope for that event; an unmarked key means none of either.
   */
  lemma {:induction false} EveryEventCreditedAtMostOnce(s: State, actions: seq<Action>, eventId: string)
    requires eventId != "" && ExactlyOnce(s, eventId)
    requires Runs(s, actions)
    ensures ExactlyOnce(Run(s, actions), eventId)
    decreases |actions|
  {
    if actions != [] {
      StepKeepsExactlyOnce(s, actions[0], eventId);
      EveryEventCreditedAtMostOnce(Step(s, actions[0]), actions[1..], eventId);
    }
  }

  ghost predicate WasCommitted(commits: seq<Committed>, env: Envelope) {
    exists c <- commits :: c.cmd.correlationId == env.correlationId && c.cmd.causationId == env.causationId
  }

  ghost predicate CreditsCommitted(s: State) {
    forall env <- s.db.outbox :: env.topic == LoyaltyCredited ==> WasCommitted(s.commits, env)
  }

  /** Every credited envelope belongs to a committed command with its correlation and causation. */
  lemma StepKeepsCreditsCommitted(s: State, a: Action)
    requires Enabled(s, a) && CreditsCommitted(s)
    ensures CreditsCommitted(Step(s, a))
  {
    var s' := Step(s, a);
    assert forall c <- s.commits :: c in s'.commits;
    if a.Commit? {
      assert Committed(a.t, s.txs[a.t].cmd) in s'.commits;
    }
  }

  // ---------- the tables stay well kept ----------

  ghost predicate BaseOf(rows: Rows, cmd: Command, b: Account) {
    && b.id in rows
    && rows[b.id].customerId == b.customerId == cmd.customerId
    && 0 <= b.balance.value <= INTEGER_MAX
    && b.tier == CalculateTier(b.balance)
  }

  /** Rows are well kept, and what a transaction loaded is a version of a row that still exists. */
  ghost predicate Kept(s: State) {
    && WellKept(s.db.rows)
    && forall t <- s.txs :: s.txs[t].phase.Loaded? && s.txs[t].phase.base.Some? ==>
         BaseOf(s.db.rows, s.txs[t].cmd, s.txs[t].phase.base.value)
  }

  lemma CommitPrepares(s: State, a: Action)
    requires Kept(s) && Enabled(s, a) && a.Commit?
    ensures var Tx(cmd, Loaded(base)) := s.txs[a.t];
      var account := Prepare(cmd, base, a.ids.accountId).value;
      && account.customerId == cmd.customerId && cmd.points >= 1
      && account.balance.value == (if base.Some? then base.value.balance.value else 0) + cmd.points
      && account.balance.value <= INTEGER_MAX && account.tier == CalculateTier(account.balance)
      && (account.id in s.db.rows ==> s.db.rows[account.id].customerId == account.customerId)
      && Upsert(s.db.rows, account).Success? && Step(s, a).db.rows == Upsert(s.db.rows, account).value
  {
  }

  lemma SavedRows(rows: Rows, account: Account)
    requires WellKept(rows) && 0 <= account.balance.value && account.tier == CalculateTier(account.balance)
    requires account.id in rows ==> rows[account.id].customerId == account.customerId
    requires Upsert(rows, account).Success?
    ensures var rows' := Upsert(rows, account).value;
      && WellKept(rows')
      && RowOf(rows', account.customerId) == Some(account)
      && (forall c :: c != account.customerId ==> RowOf(rows', c) == RowOf(rows, c))
      && (forall id <- rows :: id in rows' && rows'[id].customerId == rows[id].customerId)
  {
    SaveThenFind(rows, account);
  }

  lemma CommitSaves(s: State, a: Action)
    requires Kept(s) && Enabled(s, a) && a.Commit?
    ensures var Tx(cmd, Loaded(base)) := s.txs[a.t];
      var account := Prepare(cmd, base, a.ids.accountId).value;
      var rows' := Step(s, a).db.rows;
      && account.customerId == cmd.customerId && cmd.points >= 1
      && account.balance.value == (if base.Some? then base.value.balance.value else 0) + cmd.points
      && account.tier == CalculateTier(account.balance)
      && WellKept(rows')
      && RowOf(rows', cmd.customerId) == Some(account)
      && (forall c :: c != cmd.customerId ==> RowOf(rows', c) == RowOf(s.db.rows, c))
      && (forall id <- s.db.rows :: id in rows' && rows'[id].customerId == s.db.rows[id].customerId)
  {
    var Tx(cmd, Loaded(base)) := s.txs[a.t];
    CommitPrepares(s, a);
    SavedRows(s.db.rows, Prepare(cmd, base, a.ids.accountId).value);
  }

  lemma StepKeepsTables(s: State, a: Action)
    requires Kept(s) && Enabled(s, a)
    ensures Kept(Step(s, a))
  {
    if a.Commit? {
      CommitSaves(s, a);
    }
  }

  /**
   * In every run, serialised or not: at most one row per customer, every stored balance in
   * 0..2^31-1 although the additions are 64-bit, and every tier the tier of its balance.
   */
  lemma {:induction false} TablesStayWellKept(s: State, actions: seq<Action>)
    requires Kept(s) && Runs(s, actions)
    ensures Kept(Run(s, actions))
    decreases |actions|
  {
    if actions != [] {
      StepKeepsTables(s, actions[0]);
      TablesStayWellKept(Step(s, actions[0]), actions[1..]);
    }
  }

  // ---------- the outbox is a ledger of the balances ----------

  /** The credited events of one customer, in outbox order. */
  function CreditsOf(outbox: seq<Envelope>, customerId: string): seq<Credited> {
    if outbox == [] then [] else
    var last := outbox[|outbox| - 1];
    CreditsOf(outbox[..|outbox| - 1], customerId) +
    if last.topic == LoyaltyCredited && last.payload.CreditedPayload? && last.payload.credited.customerId == customerId
    then [last.payload.credited] else []
  }

  function LastBalance(events: seq<Credited>): int {
    if events == [] then 0 else events[|events| - 1].newBalance
  }

  /** Each event adds its points to the balance of the one before it, starting from zero. */
  predicate Chained(events: seq<Credited>) {
    events != [] ==>
      var before, last := events[..|events| - 1], events[|events| - 1];
      && Chained(before)
      && last.newBalance == LastBalance(before) + last.pointsEarned
      && last.newTier == CalculateTier(Points(last.newBalance))
  }

  function PointsEarned(events: seq<Credited>): int {
    if events == [] then 0 else PointsEarned(events[..|events| - 1]) + events[|events| - 1].pointsEarned
  }

  ghost predicate LedgerOf(db: Db, customerId: string) {
    var events := CreditsOf(db.outbox, customerId);
    var row := RowOf(db.rows, customerId);
    && Chained(events)
    && (row.Some? <==> events != [])
    && (events != [] ==>
        && row.value.balance.value == LastBalance(events)
        && row.value.tier == events[|events| - 1].newTier)
  }

  ghost predicate Ledger(db: Db) {
    forall customerId :: LedgerOf(db, customerId)
  }

  lemma {:induction false} ChainedBalanceIsSum(events: seq<Credited>)
    requires Chained(events)
    ensures LastBalance(events) == PointsEarned(events)
  {
    if events != [] {
      ChainedBalanceIsSum(events[..|events| - 1]);
    }
  }

  /** The transaction's loaded row is still the customer's row. */
  ghost predicate NotStale(s: State, a: Action) {
    a.Commit? && Enabled(s, a) ==> s.txs[a.t].phase.base == RowOf(s.db.rows, s.txs[a.t].cmd.customerId)
  }

  lemma CommitExtendsCredits(s: State, a: Action, customerId: string)
    requires Enabled(s, a) && a.Commit?
    ensures var Tx(cmd, Loaded(base)) := s.txs[a.t];
      var account := Prepare(cmd, base, a.ids.accountId).value;
      CreditsOf(Step(s, a).db.outbox, customerId) ==
        CreditsOf(s.db.outbox, customerId) +
        if account.customerId == customerId then [CreditedBy(account, cmd.orderId, Points(cmd.points))] else []
  {
    var s' := Step(s, a);
    assert s'.db.outbox[..|s.db.outbox|] == s.db.outbox;
  }

  /**
   * A commit keeps the ledger of balances if and only if the row it loaded is still current:
   * Save writes an absolute balance, so a stale commit always breaks the chain.
   */
  lemma CommitKeepsLedgerIff(s: State, a: Action)
    requires Kept(s) && Ledger(s.db) && Enabled(s, a) && a.Commit?
    ensures Ledger(Step(s, a).db) <==> NotStale(s, a)
  {
    var c := s.txs[a.t].cmd.customerId;
    assert LedgerOf(s.db, c);
    CommitKeepsCustomerLedgerIff(s, a);
    if NotStale(s, a) {
      forall c' ensures LedgerOf(Step(s, a).db, c') {
        if c' != c {
          assert LedgerOf(s.db, c');
          CommitKeepsOtherLedgers(s, a, c');
        }
      }
    }
  }

  lemma CommitKeepsOtherLedgers(s: State, a: Action, customerId: string)
    requires Kept(s) && LedgerOf(s.db, customerId) && Enabled(s, a) && a.Commit?
    requires customerId != s.txs[a.t].cmd.customerId
    ensures LedgerOf(Step(s, a).db, customerId)
  {
    CommitSaves(s, a);
    CommitExtendsCredits(s, a, customerId);
    assert CreditsOf(Step(s, a).db.outbox, customerId) == CreditsOf(s.db.outbox, customerId);
  }

  lemma ChainedAppend(events: seq<Credited>, e: Credited)
    requires Chained(events)
    ensures Chained(events + [e]) <==>
            e.newBalance == LastBalance(events) + e.pointsEarned && e.newTier == CalculateTier(Points(e.newBalance))
  {
    assert (events + [e])[..|events|] == events;
  }

  lemma CommitKeepsCustomerLedgerIff(s: State, a: Action)
    requires Kept(s) && Enabled(s, a) && a.Commit? && LedgerOf(s.db, s.txs[a.t].cmd.customerId)
    ensures LedgerOf(Step(s, a).db, s.txs[a.t].cmd.customerId) <==> NotStale(s, a)
  {
    var Tx(cmd, Loaded(base)) := s.txs[a.t];
    var account := Prepare(cmd, base, a.ids.accountId).value;
    CommitSaves(s, a);
    CommitExtendsCredits(s, a, cmd.customerId);
    ChainedAppend(CreditsOf(s.db.outbox, cmd.customerId), CreditedBy(account, cmd.orderId, Points(cmd.points)));
    LoadedBalanceIff(s, a);
  }

  /** What the transaction loaded has the current balance exactly when it is the current row. */
  lemma LoadedBalanceIff(s: State, a: Action)
    requires Kept(s) && Enabled(s, a) && a.Commit?
    ensures var Tx(cmd, Loaded(base)) := s.txs[a.t];
      var row := RowOf(s.db.rows, cmd.customerId);
      base == row <==> (if base.Some? then base.value.balance.value else 0) == BalanceOf(s.db.rows, cmd.customerId)
  {
  }

  // ---------- serialised schedules keep the ledger ----------

  /** The transaction works on the customer's row. */
  predicate Works(s: State, t: nat, customerId: string) {
    t in s.txs && s.txs[t].cmd.customerId == customerId && s.txs[t].phase.Loaded?
  }

  /** A transaction loads the customer's row only while no other one works on it. */
  predicate LoadsAlone(s: State, a: Action, customerId: string) {
    a.Load? && a.t in s.txs && s.txs[a.t].cmd.customerId == customerId ==>
      forall t <- s.txs :: !Works(s, t, customerId)
  }

  /** The schedule serialises the customer's transactions; those of other customers are free. */
  ghost predicate SerialisedFor(s: State, actions: seq<Action>, customerId: string)
    requires Runs(s, actions)
    decreases |actions|
  {
    actions == [] ||
    (LoadsAlone(s, actions[0], customerId) && SerialisedFor(Step(s, actions[0]), actions[1..], customerId))
  }

  /** At most one transaction works on the customer's row, and what it loaded is still the row. */
  ghost predicate Exclusive(s: State, customerId: string) {
    && (forall t, u | Works(s, t, customerId) && Works(s, u, customerId) :: t == u)
    && (forall t | Works(s, t, customerId) :: s.txs[t].phase.base == RowOf(s.db.rows, customerId))
  }

  lemma StepKeepsExclusive(s: State, a: Action, customerId: string)
    requires Kept(s) && Enabled(s, a) && LoadsAlone(s, a, customerId) && Exclusive(s, customerId)
    ensures Exclusive(Step(s, a), customerId)
  {
    var s' := Step(s, a);
    if a.Commit? {
      CommitSaves(s, a);
      assert s.txs[a.t].cmd.customerId == customerId ==> Works(s, a.t, customerId);
    }
    forall t | Works(s', t, customerId)
      ensures s'.txs[t].phase.base == RowOf(s'.db.rows, customerId)
      ensures Works(s, t, customerId) || (a.Load? && t == a.t)
    {
      if a.Commit? {
        assert Works(s, t, customerId) && t != a.t;
      }
    }
  }

  lemma StepKeepsLedger(s: State, a: Action, customerId: string)
    requires Kept(s) && Enabled(s, a) && Exclusive(s, customerId) && LedgerOf(s.db, customerId)
    ensures LedgerOf(Step(s, a).db, customerId)
  {
    var s' := Step(s, a);
    if a.Commit? {
      if s.txs[a.t].cmd.customerId == customerId {
        assert Works(s, a.t, customerId);
        CommitKeepsCustomerLedgerIff(s, a);
      } else {
        CommitKeepsOtherLedgers(s, a, customerId);
      }
    } else if a.PublishOther? {
      assert s'.db.outbox[..|s.db.outbox|] == s.db.outbox;
      assert CreditsOf(s'.db.outbox, customerId) == CreditsOf(s.db.outbox, customerId);
    }
  }

  /**
   * In every run whose schedule serialises one customer's transactions, whatever those of other
   * customers do: the customer's credited envelopes chain from zero in outbox order, the stored
   * balance and tier are those of the last one, and the balance is the sum of the points earned.
   */
  lemma {:induction false} OutboxIsLedger(s: State, actions: seq<Action>, customerId: string)
    requires Kept(s) && Exclusive(s, customerId) && LedgerOf(s.db, customerId)
    requires Runs(s, actions) && SerialisedFor(s, actions, customerId)
    ensures LedgerOf(Run(s, actions).db, customerId)
    ensures BalanceOf(Run(s, actions).db.rows, customerId) ==
            PointsEarned(CreditsOf(Run(s, actions).db.outbox, customerId))
    decreases |actions|
  {
    if actions != [] {
      StepKeepsTables(s, actions[0]);
      StepKeepsExclusive(s, actions[0], customerId);
      StepKeepsLedger(s, actions[0], customerId);
      OutboxIsLedger(Step(s, actions[0]), actions[1..], customerId);
    } else {
      ChainedBalanceIsSum(CreditsOf(s.db.outbox, customerId));
    }
  }

  /** Under such a schedule the stored tier is what the points earned are worth. */
  lemma TierIsEarned(s: State, actions: seq<Action>, customerId: string)
    requires Kept(s) && Exclusive(s, customerId) && LedgerOf(s.db, customerId)
    requires Runs(s, actions) && SerialisedFor(s, actions, customerId)
    ensures var row := RowOf(Run(s, actions).db.rows, customerId);
      var earned := PointsEarned(CreditsOf(Run(s, actions).db.outbox, customerId));
      row.Some? ==>
        && (row.value.tier == Gold <==> earned >= 2000)
        && (row.value.tier == Silver <==> 500 <= earned < 2000)
        && (row.value.tier == Bronze <==> earned < 500)
  {
    OutboxIsLedger(s, actions, customerId);
    TablesStayWellKept(s, actions);
    var row := RowOf(Run(s, actions).db.rows, customerId);
    if row.Some? {
      TierRule(row.value.balance, row.value.balance);
    }
  }

  lemma StepNeverTakesPoints(s: State, a: Action, customerId: string)
    requires Kept(s) && Enabled(s, a) && Exclusive(s, customerId)
    ensures BalanceOf(s.db.rows, customerId) <= BalanceOf(Step(s, a).db.rows, customerId)
    ensures RowOf(s.db.rows, customerId).Some? ==> RowOf(Step(s, a).db.rows, customerId).Some?
  {
    if a.Commit? {
      CommitSaves(s, a);
      assert s.txs[a.t].cmd.customerId == customerId ==> Works(s, a.t, customerId);
    }
  }

  lemma {:induction false} RunsNeverTakePoints(s: State, actions: seq<Action>, customerId: string)
    requires Kept(s) && Exclusive(s, customerId) && Runs(s, actions) && SerialisedFor(s, actions, customerId)
    ensures BalanceOf(s.db.rows, customerId) <= BalanceOf(Run(s, actions).db.rows, customerId)
    ensures RowOf(s.db.rows, customerId).Some? ==> RowOf(Run(s, actions).db.rows, customerId).Some?
    decreases |actions|
  {
    if actions != [] {
      StepNeverTakesPoints(s, actions[0], customerId);
      StepKeepsTables(s, actions[0]);
      StepKeepsExclusive(s, actions[0], customerId);
      RunsNeverTakePoints(Step(s, actions[0]), actions[1..], customerId);
    }
  }

  /** Under such a schedule credits never lower a customer's tier. */
  lemma TierNeverFalls(s: State, actions: seq<Action>, customerId: string)
    requires Kept(s) && Exclusive(s, customerId) && Runs(s, actions) && SerialisedFor(s, actions, customerId)
    requires RowOf(s.db.rows, customerId).Some?
    ensures var row := RowOf(Run(s, actions).db.rows, customerId);
      row.Some? && Rank(RowOf(s.db.rows, customerId).value.tier) <= Rank(row.value.tier)
  {
    RunsNeverTakePoints(s, actions, customerId);
    TablesStayWellKept(s, actions);
    TierRule(RowOf(s.db.rows, customerId).value.balance, RowOf(Run(s, actions).db.rows, customerId).value.balance);
  }

  /** The run theorems start from the empty database. */
  lemma InitialState()
    ensures Kept(INITIAL) && Ledger(INITIAL.db)
    ensures forall c :: Exclusive(INITIAL, c)
    ensures forall eventId :: ExactlyOnce(INITIAL, eventId)
  {
    forall c ensures LedgerOf(INITIAL.db, c) {
    }
  }

  /**
   * Two transactions that loaded the same row can both commit when nothing serialises them;
   * the second overwrites the first, whose points are lost although its envelope is published.
   */
  lemma StaleCommitLosesPoints(s: State, t: nat, u: nat, idsT: FreshIds, idsU: FreshIds, row: Account)
    requires Kept(s) && t != u
    requires Enabled(s, Commit(t, idsT)) && Enabled(s, Commit(u, idsU))
    requires s.txs[t].phase.base == s.txs[u].phase.base == Some(row) == RowOf(s.db.rows, row.customerId)
    requires s.txs[t].cmd.causationId != s.txs[u].cmd.causationId
    ensures var s1 := Step(s, Commit(t, idsT));
      && Enabled(s1, Commit(u, idsU))
      && var s2 := Step(s1, Commit(u, idsU));
         && BalanceOf(s2.db.rows, row.customerId) == row.balance.value + s.txs[u].cmd.points
         && |s2.db.outbox| == |s.db.outbox| + 2
  {
    CommitSaves(s, Commit(t, idsT));
    StepKeepsTables(s, Commit(t, idsT));
    StaysCommittable(s, t, u, idsT, idsU);
    CommitSaves(Step(s, Commit(t, idsT)), Commit(u, idsU));
  }

  /** A commit for another event does not stop a transaction that loaded a stored row. */
  lemma StaysCommittable(s: State, t: nat, u: nat, idsT: FreshIds, idsU: FreshIds)
    requires Kept(s) && t != u && Enabled(s, Commit(t, idsT)) && Enabled(s, Commit(u, idsU))
    requires s.txs[u].phase.base.Some? && s.txs[t].cmd.causationId != s.txs[u].cmd.causationId
    ensures Enabled(Step(s, Commit(t, idsT)), Commit(u, idsU))
  {
    CommitSaves(s, Commit(t, idsT));
    assert BaseOf(s.db.rows, s.txs[u].cmd, s.txs[u].phase.base.value);
  }

  lemma RunsFrom(s: State, a: Action, rest: seq<Action>)
    ensures Runs(s, [a] + rest) <==> Enabled(s, a) && Runs(Step(s, a), rest)
    ensures Runs(s, [a] + rest) ==> Run(s, [a] + rest) == Run(Step(s, a), rest)
  {
    assert ([a] + rest)[1..] == rest;
  }

  lemma {:induction false} RunsConcat(s: State, first: seq<Action>, second: seq<Action>)
    requires Runs(s, first) && Runs(Run(s, first), second)
    ensures Runs(s, first + second) && Run(s, first + second) == Run(Run(s, first), second)
    decreases |first|
  {
    if first == [] {
      assert first + second == second;
    } else {
      assert (first + second)[1..] == first[1..] + second;
      RunsConcat(Step(s, first[0]), first[1..], second);
    }
  }

  /** The steps of a transaction up to its load. */
  function LoadSteps(t: nat, cmd: Command): seq<Action> {
    [Begin(t, cmd), Check(t), Load(t)]
  }

  ghost function Loading(s: State, t: nat, cmd: Command): State {
    s.(txs := s.txs[t := Tx(cmd, Loaded(RowOf(s.db.rows, cmd.customerId)))], started := s.started + {t})
  }

  lemma LoadRuns(s: State, t: nat, cmd: Command)
    requires t !in s.started && cmd.causationId !in s.db.keys
    ensures Runs(s, LoadSteps(t, cmd)) && Run(s, LoadSteps(t, cmd)) == Loading(s, t, cmd)
  {
    var s1 := Step(s, Begin(t, cmd));
    var s2 := Step(s1, Check(t));
    RunsFrom(s2, Load(t), []);
    RunsFrom(s1, Check(t), [Load(t)]);
    RunsFrom(s, Begin(t, cmd), [Check(t), Load(t)]);
    assert Step(s2, Load(t)) == Loading(s, t, cmd);
  }

  /** A transaction whose loaded row is current can commit if its event is new and its balance fits. */
  lemma CurrentCommits(s: State, t: nat, ids: FreshIds)
    requires Kept(s) && t in s.txs && s.txs[t].phase.Loaded? && ids.accountId !in s.db.rows
    requires var Tx(cmd, Loaded(base)) := s.txs[t];
      && base == RowOf(s.db.rows, cmd.customerId) && cmd.points >= 1 && cmd.causationId !in s.db.keys
      && BalanceOf(s.db.rows, cmd.customerId) + cmd.points <= INTEGER_MAX
    ensures Enabled(s, Commit(t, ids))
  {
    PreparedAccountIsSaved(s.db.rows, s.txs[t].cmd, ids.accountId);
  }

  /** Two transactions that load the same row, one after the other, and then commit. */
  lemma StaleRun(s: State, t: nat, u: nat, cmdT: Command, cmdU: Command, idsT: FreshIds, idsU: FreshIds)
    requires Kept(s) && t != u && t !in s.started && u !in s.started
    requires cmdT.customerId == cmdU.customerId && HasCustomer(s.db.rows, cmdT.customerId)
    requires cmdT.points >= 1 && BalanceOf(s.db.rows, cmdT.customerId) + cmdT.points <= INTEGER_MAX
    requires cmdU.points >= 1 && BalanceOf(s.db.rows, cmdT.customerId) + cmdU.points <= INTEGER_MAX
    requires cmdT.causationId !in s.db.keys && cmdU.causationId !in s.db.keys
    requires cmdT.causationId != cmdU.causationId
    requires idsT.accountId !in s.db.rows && idsU.accountId !in s.db.rows
    ensures var steps := LoadSteps(t, cmdT) + (LoadSteps(u, cmdU) + [Commit(t, idsT), Commit(u, idsU)]);
      && Runs(s, steps)
      && BalanceOf(Run(s, steps).db.rows, cmdT.customerId) == BalanceOf(s.db.rows, cmdT.customerId) + cmdU.points
      && |Run(s, steps).db.outbox| == |s.db.outbox| + 2
  {
    var s1 := Loading(s, t, cmdT);
    var s2 := Loading(s1, u, cmdU);
    LoadRuns(s, t, cmdT);
    LoadRuns(s1, u, cmdU);
    TablesStayWellKept(s, LoadSteps(t, cmdT));
    TablesStayWellKept(s1, LoadSteps(u, cmdU));
    BothCommit(s2, t, u, idsT, idsU);
    RunsConcat(s1, LoadSteps(u, cmdU), [Commit(t, idsT), Commit(u, idsU)]);
    RunsConcat(s, LoadSteps(t, cmdT), LoadSteps(u, cmdU) + [Commit(t, idsT), Commit(u, idsU)]);
  }

  lemma BothCommit(s: State, t: nat, u: nat, idsT: FreshIds, idsU: FreshIds)
    requires Kept(s) && t in s.txs && u in s.txs && t != u && s.txs[t].phase.Loaded? && s.txs[u].phase.Loaded?
    requires idsT.accountId !in s.db.rows && idsU.accountId !in s.db.rows
    requires var c := s.txs[t].cmd.customerId;
      && s.txs[u].cmd.customerId == c && HasCustomer(s.db.rows, c)
      && s.txs[t].phase.base == s.txs[u].phase.base == RowOf(s.db.rows, c)
      && BalanceOf(s.db.rows, c) + s.txs[t].cmd.points <= INTEGER_MAX && s.txs[t].cmd.points >= 1
      && BalanceOf(s.db.rows, c) + s.txs[u].cmd.points <= INTEGER_MAX && s.txs[u].cmd.points >= 1
    requires s.txs[t].cmd.causationId !in s.db.keys && s.txs[u].cmd.causationId !in s.db.keys
    requires s.txs[t].cmd.causationId != s.txs[u].cmd.causationId
    ensures Runs(s, [Commit(t, idsT), Commit(u, idsU)])
    ensures var s' := Run(s, [Commit(t, idsT), Commit(u, idsU)]);
      && BalanceOf(s'.db.rows, s.txs[t].cmd.customerId) ==
           BalanceOf(s.db.rows, s.txs[t].cmd.customerId) + s.txs[u].cmd.points
      && |s'.db.outbox| == |s.db.outbox| + 2
  {
    CurrentCommits(s, t, idsT);
    CurrentCommits(s, u, idsU);
    StaleCommitLosesPoints(s, t, u, idsT, idsU, s.txs[t].phase.base.value);
    RunsFrom(Step(s, Commit(t, idsT)), Commit(u, idsU), []);
    RunsFrom(s, Commit(t, idsT), [Commit(u, idsU)]);
  }

  /** Three credits of one customer, the last two of them overlapping. */
  function OverlappingCredits(x: Command, y: Command, z: Command, ids: FreshIds, idsY: FreshIds, idsZ: FreshIds)
    : seq<Action>
  {
    LoadSteps(0, x) + ([Commit(0, ids)] + (LoadSteps(1, y) + (LoadSteps(2, z) + [Commit(1, idsY), Commit(2, idsZ)])))
  }

  /** It happens: of three credits that all commit, the points of the second are lost. */
  lemma PointsAreLost(x: Command, y: Command, z: Command, ids: FreshIds, idsY: FreshIds, idsZ: FreshIds)
    requires x.customerId == y.customerId == z.customerId
    requires x.points >= 1 && y.points >= 1 && z.points >= 1
    requires x.points + y.points <= INTEGER_MAX && x.points + z.points <= INTEGER_MAX
    requires x.causationId != y.causationId && y.causationId != z.causationId && x.causationId != z.causationId
    requires ids.accountId != idsY.accountId && ids.accountId != idsZ.accountId
    ensures Runs(INITIAL, OverlappingCredits(x, y, z, ids, idsY, idsZ))
    ensures var s := Run(INITIAL, OverlappingCredits(x, y, z, ids, idsY, idsZ));
      BalanceOf(s.db.rows, x.customerId) == x.points + z.points && |s.db.outbox| == 3
  {
    InitialState();
    FirstCreditRuns(x, ids);
    var s1 := Loading(INITIAL, 0, x);
    var s2 := Step(s1, Commit(0, ids));
    StaleRun(s2, 1, 2, y, z, idsY, idsZ);
    var rest := LoadSteps(1, y) + (LoadSteps(2, z) + [Commit(1, idsY), Commit(2, idsZ)]);
    RunsFrom(s1, Commit(0, ids), rest);
    RunsConcat(INITIAL, LoadSteps(0, x), [Commit(0, ids)] + rest);
  }

  lemma FirstCreditRuns(cmd: Command, ids: FreshIds)
    requires 1 <= cmd.points <= INTEGER_MAX
    ensures Runs(INITIAL, LoadSteps(0, cmd)) && Run(INITIAL, LoadSteps(0, cmd)) == Loading(INITIAL, 0, cmd)
    ensures Enabled(Loading(INITIAL, 0, cmd), Commit(0, ids))
    ensures var s := Step(Loading(INITIAL, 0, cmd), Commit(0, ids));
      && Kept(s) && s.started == {0} && |s.db.outbox| == 1
      && s.db.rows.Keys == {ids.accountId} && s.db.keys <= {cmd.causationId}
      && HasCustomer(s.db.rows, cmd.customerId) && BalanceOf(s.db.rows, cmd.customerId) == cmd.points
  {
    InitialState();
    LoadRuns(INITIAL, 0, cmd);
    TablesStayWellKept(INITIAL, LoadSteps(0, cmd));
    var s := Loading(INITIAL, 0, cmd);
    CurrentCommits(s, 0, ids);
    CommitSaves(s, Commit(0, ids));
    StepKeepsTables(s, Commit(0, ids));
  }

  /** A transaction that runs alone does what the handler does in a transaction without faults. */
  lemma AloneIsInTransaction(s: State, t: nat, cmd: Command, ids: FreshIds)
    requires Kept(s) && t !in s.started && ids.accountId !in s.db.rows
    ensures var actions := [Begin(t, cmd), Check(t), Load(t), Commit(t, ids)];
      var (db', r) := InTransaction(s.db, cmd, NO_FAULTS, ids);
      && (r.Success? <==> Runs(s, actions))
      && (r.Success? ==> Run(s, actions).db == db')
  {
    var s1 := Step(s, Begin(t, cmd));
    var s2 := Step(s1, Check(t));
    RunsFrom(s, Begin(t, cmd), [Check(t), Load(t), Commit(t, ids)]);
    RunsFrom(s1, Check(t), [Load(t), Commit(t, ids)]);
    RunsFrom(s2, Load(t), [Commit(t, ids)]);
    if t in s2.txs {
      RunsFrom(Step(s2, Load(t)), Commit(t, ids), []);
    }
  }
}
