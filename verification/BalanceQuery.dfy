/**
 * The balance query: answer from the cache if it holds an unexpired entry, otherwise read the row
 * and cache it for five minutes. The handler is the class; the machine interleaves many queries
 * of one customer with changes of the row and with time.
 */
module BalanceQuery {
  import opened Results
  import opened LoyaltyAggregates
  import opened LoyaltyStores

  /** Seconds a cached balance stays valid. */
  const TTL: nat := 5 * 60

  datatype QueryError = ReadFailed | AccountNotFound

  datatype Entry<T> = Entry(value: T, expires: nat)

  datatype Faults = Faults(get: bool, read: bool, set_: bool)

  class GetLoyaltyBalanceHandler {
    const repository: LoyaltyWriteRepository
    const hasCache: bool
    var cache: map<string, Entry<Account>>

    constructor (repository: LoyaltyWriteRepository, hasCache: bool)
      ensures this.repository == repository && this.hasCache == hasCache && cache == map[]
    {
      this.repository, this.hasCache := repository, hasCache;
      cache := map[];
    }

    /** An answer can come from the cache. */
    predicate Hit(customerId: string, now: nat, faults: Faults)
      reads this
    {
      hasCache && !faults.get && customerId in cache && now < cache[customerId].expires
    }

    /** The cache is looked up at one time and filled at a later one. */
    method Handle(customerId: string, lookupAt: nat, storeAt: nat, faults: Faults)
      returns (r: Result<Account, QueryError>)
      requires Indexed(repository.rows) && lookupAt <= storeAt
      modifies this
      ensures old(Hit(customerId, lookupAt, faults)) ==>
        r == Success(old(cache)[customerId].value) && cache == old(cache)
      ensures !old(Hit(customerId, lookupAt, faults)) ==>
        match RowOf(repository.rows, customerId)
        case None => r == Failure(if faults.read then ReadFailed else AccountNotFound) && cache == old(cache)
        case Some(row) =>
          && r == (if faults.read then Failure(ReadFailed) else Success(row))
          && cache == if faults.read || !hasCache || faults.set_ then old(cache)
                      else old(cache)[customerId := Entry(row, storeAt + 300)]
    {
      if hasCache && !faults.get && customerId in cache && lookupAt < cache[customerId].expires {
        return Success(cache[customerId].value);
      }
      if faults.read {
        return Failure(ReadFailed);
      }
      if !HasCustomer(repository.rows, customerId) {
        return Failure(AccountNotFound);
      }
      var id :| id in repository.rows && repository.rows[id].customerId == customerId;
      var row := repository.rows[id];
      assert RowOf(repository.rows, customerId) == Some(row);
      if hasCache && !faults.set_ {
        cache := cache[customerId := Entry(row, storeAt + TTL)];
      }
      return Success(row);
    }
  }

  // ---------- one customer over time ----------

  /** The stored balance at an instant; None before the account exists. */
  datatype Instant = Instant(time: nat, balance: Option<int>)

  /** A query between reading the row and returning it, after the cache was filled or skipped. */
  datatype Query = Query(balance: int, readAt: nat)

  datatype Answer = Answer(balance: int, time: nat)

  /** `history` ends with the present; `delay` bounds the time from a query's read to its answer. */
  datatype State = State(
    delay: nat, history: seq<Instant>, cache: Option<Entry<int>>, queries: map<nat, Query>, answers: seq<Answer>)
  {
    function Now(): Instant
      requires history != []
    {
      history[|history| - 1]
    }
  }

  function Initial(delay: nat): State {
    State(delay, [Instant(0, None)], None, map[], [])
  }

  datatype Action =
    | Tick(seconds: nat)
    | SetBalance(balance: int)
    | AnswerFromCache
    | ReadRow(q: nat)
    | Store(q: nat)
    | SkipStore(q: nat)
    | Evict

  predicate Enabled(s: State, a: Action) {
    s.history != [] &&
    match a
    case Tick(seconds) => forall q <- s.queries :: s.Now().time + seconds <= s.queries[q].readAt + s.delay
    case SetBalance(_) => true
    case AnswerFromCache => s.cache.Some? && s.Now().time < s.cache.value.expires
    case ReadRow(q) => q !in s.queries && s.Now().balance.Some?
    case Store(q) => q in s.queries
    case SkipStore(q) => q in s.queries
    case Evict => true
  }

  function Step(s: State, a: Action): State
    requires Enabled(s, a)
  {
    var now := s.Now();
    match a
    case Tick(seconds) => s.(history := s.history + [Instant(now.time + seconds, now.balance)])
    case SetBalance(balance) => s.(history := s.history + [Instant(now.time, Some(balance))])
    case AnswerFromCache => s.(answers := s.answers + [Answer(s.cache.value.value, now.time)])
    case ReadRow(q) => s.(queries := s.queries[q := Query(now.balance.value, now.time)])
    case Store(q) =>
      s.(cache := Some(Entry(s.queries[q].balance, now.time + TTL)), queries := s.queries - {q},
         answers := s.answers + [Answer(s.queries[q].balance, now.time)])
    case SkipStore(q) =>
      s.(queries := s.queries - {q}, answers := s.answers + [Answer(s.queries[q].balance, now.time)])
    case Evict => s.(cache := None)
  }

  predicate Runs(s: State, actions: seq<Action>)
    decreases |actions|
  {
    actions == [] || (Enabled(s, actions[0]) && Runs(Step(s, actions[0]), actions[1..]))
  }

  function Run(s: State, actions: seq<Action>): State
    requires Runs(s, actions)
    decreases |actions|
  {
    if actions == [] then s else Run(Step(s, actions[0]), actions[1..])
  }

  /** The balance was the stored one at some instant from `since` to `until`. */
  ghost predicate Stored(history: seq<Instant>, balance: int, since: int, until: int) {
    exists i :: 0 <= i < |history| && history[i].balance == Some(balance) && since <= history[i].time <= until
  }

  ghost predicate Traceable(s: State) {
    && s.history != []
    && (s.cache.Some? ==>
        Stored(s.history, s.cache.value.value, s.cache.value.expires - TTL - s.delay, s.Now().time))
    && (forall q <- s.queries ::
          && s.queries[q].readAt <= s.Now().time <= s.queries[q].readAt + s.delay
          && Stored(s.history, s.queries[q].balance, s.queries[q].readAt, s.queries[q].readAt))
    && (forall a <- s.answers :: Stored(s.history, a.balance, a.time - TTL - s.delay + 1, a.time))
  }

  lemma StoredStays(history: seq<Instant>, more: Instant, balance: int, since: int, until: int)
    requires Stored(history, balance, since, until)
    ensures Stored(history + [more], balance, since, until)
  {
    var i :| 0 <= i < |history| && history[i].balance == Some(balance) && since <= history[i].time <= until;
    assert (history + [more])[i] == history[i];
  }

  lemma StoredWidens(history: seq<Instant>, balance: int, since: int, until: int, since': int, until': int)
    requires Stored(history, balance, since, until) && since' <= since && until <= until'
    ensures Stored(history, balance, since', until')
  {
    var i :| 0 <= i < |history| && history[i].balance == Some(balance) && since <= history[i].time <= until;
    assert 0 <= i < |history|;
  }

  lemma TimeStepKeepsTraceable(s: State, a: Action)
    requires Enabled(s, a) && Traceable(s) && (a.Tick? || a.SetBalance?)
    ensures Traceable(Step(s, a))
  {
    var s' := Step(s, a);
    var more := s'.Now();
    if s.cache.Some? {
      var e := s.cache.value;
      StoredStays(s.history, more, e.value, e.expires - TTL - s.delay, s.Now().time);
      StoredWidens(s'.history, e.value, e.expires - TTL - s.delay, s.Now().time, e.expires - TTL - s.delay, more.time);
    }
    forall q | q in s.queries
      ensures Stored(s'.history, s.queries[q].balance, s.queries[q].readAt, s.queries[q].readAt)
    {
      StoredStays(s.history, more, s.queries[q].balance, s.queries[q].readAt, s.queries[q].readAt);
    }
    forall x | x in s.answers ensures Stored(s'.history, x.balance, x.time - TTL - s.delay + 1, x.time) {
      StoredStays(s.history, more, x.balance, x.time - TTL - s.delay + 1, x.time);
    }
  }

  lemma AnswerIsTraceable(s: State, q: nat)
    requires Traceable(s) && q in s.queries
    ensures Stored(s.history, s.queries[q].balance, s.Now().time - s.delay, s.Now().time)
    ensures Stored(s.history, s.queries[q].balance, s.Now().time - TTL - s.delay + 1, s.Now().time)
  {
    var query, now := s.queries[q], s.Now().time;
    StoredWidens(s.history, query.balance, query.readAt, query.readAt, now - s.delay, now);
    StoredWidens(s.history, query.balance, query.readAt, query.readAt, now - TTL - s.delay + 1, now);
  }

  /** Answering, and caching what is answered, keeps everything traceable. */
  lemma AnsweringKeepsTraceable(s: State, s': State, balance: int, cached: bool)
    requires Traceable(s) && s'.history == s.history && s'.delay == s.delay
    requires Stored(s.history, balance, s.Now().time - TTL - s.delay + 1, s.Now().time)
    requires cached ==> Stored(s.history, balance, s.Now().time - s.delay, s.Now().time)
    requires s'.answers == s.answers + [Answer(balance, s.Now().time)]
    requires s'.cache == if cached then Some(Entry(balance, s.Now().time + TTL)) else s.cache
    requires forall q <- s'.queries :: q in s.queries && s'.queries[q] == s.queries[q]
    ensures Traceable(s')
  {
  }

  lemma QueryStepKeepsTraceable(s: State, a: Action)
    requires Enabled(s, a) && Traceable(s) && !a.Tick? && !a.SetBalance?
    ensures Traceable(Step(s, a))
  {
    var now, s' := s.Now(), Step(s, a);
    match a
    case AnswerFromCache =>
      var e := s.cache.value;
      StoredWidens(s.history, e.value, e.expires - TTL - s.delay, now.time, now.time - TTL - s.delay + 1, now.time);
      AnsweringKeepsTraceable(s, s', e.value, false);
    case ReadRow(q) =>
      assert s.history[|s.history| - 1] == now;
    case Store(q) =>
      AnswerIsTraceable(s, q);
      AnsweringKeepsTraceable(s, s', s.queries[q].balance, true);
    case SkipStore(q) =>
      AnswerIsTraceable(s, q);
      AnsweringKeepsTraceable(s, s', s.queries[q].balance, false);
    case Evict =>
  }

  lemma {:induction false} RunsStayTraceable(s: State, actions: seq<Action>)
    requires Traceable(s) && Runs(s, actions)
    ensures Traceable(Run(s, actions))
    ensures Run(s, actions).delay == s.delay
    decreases |actions|
  {
    if actions != [] {
      if actions[0].Tick? || actions[0].SetBalance? {
        TimeStepKeepsTraceable(s, actions[0]);
      } else {
        QueryStepKeepsTraceable(s, actions[0]);
      }
      RunsStayTraceable(Step(s, actions[0]), actions[1..]);
    }
  }

  /** Every balance answered was the stored one less than 300 seconds plus the read-to-answer delay ago. */
  lemma AnswersAreRecent(delay: nat, actions: seq<Action>, a: Answer)
    requires Runs(Initial(delay), actions) && a in Run(Initial(delay), actions).answers
    ensures Stored(Run(Initial(delay), actions).history, a.balance, a.time - 300 - delay + 1, a.time)
  {
    RunsStayTraceable(Initial(delay), actions);
  }

  /** In every run, every balance answered was the stored one within the last five minutes. */
  ghost predicate NeverStale(delay: nat) {
    forall actions, a |
      Runs(Initial(delay), actions) && a in Run(Initial(delay), actions).answers ::
      Stored(Run(Initial(delay), actions).history, a.balance, a.time - 300 + 1, a.time)
  }

  /** A query that reads, waits, and then stores keeps the old balance alive past five minutes. */
  function StaleRun(delay: nat): seq<Action> {
    [SetBalance(1), ReadRow(0), SetBalance(2), Tick(delay), Store(0), Tick(TTL - 1), AnswerFromCache]
  }

  lemma RunsFrom(s: State, a: Action, rest: seq<Action>)
    ensures Runs(s, [a] + rest) <==> Enabled(s, a) && Runs(Step(s, a), rest)
    ensures Runs(s, [a] + rest) ==> Run(s, [a] + rest) == Run(Step(s, a), rest)
  {
    assert ([a] + rest)[1..] == rest;
  }

  /** After the first three steps: the row has changed, but a query holds the old balance. */
  function HalfWay(delay: nat): State {
    State(delay, [Instant(0, None), Instant(0, Some(1)), Instant(0, Some(2))], None,
          map[0 := Query(1, 0)], [])
  }

  function StaleEnd(delay: nat): State {
    State(delay, HalfWay(delay).history + [Instant(delay, Some(2)), Instant(delay + TTL - 1, Some(2))],
          Some(Entry(1, delay + TTL)), map[], [Answer(1, delay), Answer(1, delay + TTL - 1)])
  }

  lemma StaleRunStarts(delay: nat, rest: seq<Action>)
    requires Runs(HalfWay(delay), rest)
    ensures Runs(Initial(delay), [SetBalance(1), ReadRow(0), SetBalance(2)] + rest)
    ensures Run(Initial(delay), [SetBalance(1), ReadRow(0), SetBalance(2)] + rest) == Run(HalfWay(delay), rest)
  {
    var s1 := Step(Initial(delay), SetBalance(1));
    var s2 := Step(s1, ReadRow(0));
    assert Step(s2, SetBalance(2)) == HalfWay(delay);
    RunsFrom(s2, SetBalance(2), rest);
    RunsFrom(s1, ReadRow(0), [SetBalance(2)] + rest);
    assert [ReadRow(0)] + ([SetBalance(2)] + rest) == [ReadRow(0), SetBalance(2)] + rest;
    RunsFrom(Initial(delay), SetBalance(1), [ReadRow(0), SetBalance(2)] + rest);
    assert [SetBalance(1)] + ([ReadRow(0), SetBalance(2)] + rest) == [SetBalance(1), ReadRow(0), SetBalance(2)] + rest;
  }

  lemma StaleRunEnds(delay: nat)
    ensures var rest := [Tick(delay), Store(0), Tick(TTL - 1), AnswerFromCache];
      Runs(HalfWay(delay), rest) && Run(HalfWay(delay), rest) == StaleEnd(delay)
  {
    var s4 := Step(HalfWay(delay), Tick(delay));
    var s5 := Step(s4, Store(0));
    var s6 := Step(s5, Tick(TTL - 1));
    assert Step(s6, AnswerFromCache) == StaleEnd(delay);
    RunsFrom(s6, AnswerFromCache, []);
    RunsFrom(s5, Tick(TTL - 1), [AnswerFromCache]);
    RunsFrom(s4, Store(0), [Tick(TTL - 1), AnswerFromCache]);
    RunsFrom(HalfWay(delay), Tick(delay), [Store(0), Tick(TTL - 1), AnswerFromCache]);
  }

  /**
   * Answers are never older than five minutes if and only if no time passes between a query's read
   * and its store, because the entry's lifetime starts at the store.
   */
  lemma NeverStaleIffStoredAtOnce(delay: nat)
    ensures NeverStale(delay) <==> delay == 0
  {
    if delay == 0 {
      forall actions, a | Runs(Initial(delay), actions) && a in Run(Initial(delay), actions).answers
        ensures Stored(Run(Initial(delay), actions).history, a.balance, a.time - 300 + 1, a.time)
      {
        AnswersAreRecent(delay, actions, a);
      }
    } else {
      var rest := [Tick(delay), Store(0), Tick(TTL - 1), AnswerFromCache];
      StaleRunEnds(delay);
      StaleRunStarts(delay, rest);
      assert [SetBalance(1), ReadRow(0), SetBalance(2)] + rest == StaleRun(delay);
      var stale := Answer(1, delay + TTL - 1);
      assert stale == StaleEnd(delay).answers[1];
      assert !Stored(StaleEnd(delay).history, stale.balance, stale.time - TTL + 1, stale.time);
    }
  }

  // ---------- credit-only runs, and no cache ----------

  predicate OnlyCredits(s: State, a: Action) {
    a.SetBalance? && s.history != [] && s.Now().balance.Some? ==> s.Now().balance.value <= a.balance
  }

  predicate CreditOnly(s: State, actions: seq<Action>)
    requires Runs(s, actions)
    decreases |actions|
  {
    actions == [] || (OnlyCredits(s, actions[0]) && CreditOnly(Step(s, actions[0]), actions[1..]))
  }

  /** Nothing remembered exceeds the stored balance. */
  ghost predicate NotAhead(s: State) {
    && s.history != []
    && (s.cache.Some? ==> s.Now().balance.Some? && s.cache.value.value <= s.Now().balance.value)
    && (forall q <- s.queries :: s.Now().balance.Some? && s.queries[q].balance <= s.Now().balance.value)
    && (forall a <- s.answers :: s.Now().balance.Some? && a.balance <= s.Now().balance.value)
  }

  /** When balances only grow, no answer ever given exceeds the current balance. */
  lemma {:induction false} AnswersNeverExceedBalance(s: State, actions: seq<Action>)
    requires NotAhead(s) && Runs(s, actions) && CreditOnly(s, actions)
    ensures NotAhead(Run(s, actions))
    decreases |actions|
  {
    if actions != [] {
      AnswersNeverExceedBalance(Step(s, actions[0]), actions[1..]);
    }
  }

  predicate NoCache(actions: seq<Action>) {
    forall a <- actions :: !a.Store?
  }

  /** Everything answered, and everything read and about to be answered, was stored within the delay. */
  ghost predicate Fresh(s: State) {
    && s.history != [] && s.cache.None?
    && (forall a <- s.answers :: Stored(s.history, a.balance, a.time - s.delay, a.time))
    && (forall q <- s.queries ::
          && s.queries[q].readAt <= s.Now().time <= s.queries[q].readAt + s.delay
          && Stored(s.history, s.queries[q].balance, s.queries[q].readAt, s.queries[q].readAt))
  }

  lemma StepKeepsFresh(s: State, a: Action)
    requires Enabled(s, a) && !a.Store? && Fresh(s)
    ensures Fresh(Step(s, a))
  {
    var s' := Step(s, a);
    if a.Tick? || a.SetBalance? {
      forall x | x in s.answers ensures Stored(s'.history, x.balance, x.time - s.delay, x.time) {
        StoredStays(s.history, s'.Now(), x.balance, x.time - s.delay, x.time);
      }
      forall q | q in s.queries
        ensures Stored(s'.history, s.queries[q].balance, s.queries[q].readAt, s.queries[q].readAt)
      {
        StoredStays(s.history, s'.Now(), s.queries[q].balance, s.queries[q].readAt, s.queries[q].readAt);
      }
    } else if a.ReadRow? {
      assert s.history[|s.history| - 1] == s.Now();
    } else if a.SkipStore? {
      var query, now := s.queries[a.q], s.Now().time;
      StoredWidens(s.history, query.balance, query.readAt, query.readAt, now - s.delay, now);
    }
  }

  lemma {:induction false} RunsStayFresh(s: State, actions: seq<Action>)
    requires Fresh(s) && Runs(s, actions) && NoCache(actions)
    ensures Fresh(Run(s, actions)) && Run(s, actions).delay == s.delay
    decreases |actions|
  {
    if actions != [] {
      assert actions[0] in actions;
      StepKeepsFresh(s, actions[0]);
      RunsStayFresh(Step(s, actions[0]), actions[1..]);
    }
  }

  /** With the no-op cache every answer was the stored balance within the read-to-answer delay. */
  lemma WithoutCacheAnswersAreFresh(delay: nat, actions: seq<Action>, a: Answer)
    requires Runs(Initial(delay), actions) && NoCache(actions) && a in Run(Initial(delay), actions).answers
    ensures Stored(Run(Initial(delay), actions).history, a.balance, a.time - delay, a.time)
  {
    RunsStayFresh(Initial(delay), actions);
  }

  /** In every run with the no-op cache, every answer was stored at the very time it was given. */
  ghost predicate AlwaysCurrent(delay: nat) {
    forall actions, a |
      Runs(Initial(delay), actions) && NoCache(actions) && a in Run(Initial(delay), actions).answers ::
      Stored(Run(Initial(delay), actions).history, a.balance, a.time, a.time)
  }

  lemma LateAnswerRun(delay: nat)
    ensures var steps := [SetBalance(1), ReadRow(0), SetBalance(2), Tick(delay), SkipStore(0)];
      && Runs(Initial(delay), steps)
      && var s := Run(Initial(delay), steps);
         && s.history == HalfWay(delay).history + [Instant(delay, Some(2))] && s.answers == [Answer(1, delay)]
  {
    var s4 := Step(HalfWay(delay), Tick(delay));
    RunsFrom(s4, SkipStore(0), []);
    RunsFrom(HalfWay(delay), Tick(delay), [SkipStore(0)]);
    StaleRunStarts(delay, [Tick(delay), SkipStore(0)]);
    assert [SetBalance(1), ReadRow(0), SetBalance(2)] + [Tick(delay), SkipStore(0)] ==
           [SetBalance(1), ReadRow(0), SetBalance(2), Tick(delay), SkipStore(0)];
  }

  /** Without a cache, answers are current in every run if and only if reading and answering take no time. */
  lemma AlwaysCurrentIffAnsweredAtOnce(delay: nat)
    ensures AlwaysCurrent(delay) <==> delay == 0
  {
    if delay == 0 {
      forall actions, a |
        Runs(Initial(delay), actions) && NoCache(actions) && a in Run(Initial(delay), actions).answers
        ensures Stored(Run(Initial(delay), actions).history, a.balance, a.time, a.time)
      {
        WithoutCacheAnswersAreFresh(delay, actions, a);
      }
    } else {
      LateAnswerRun(delay);
      var steps := [SetBalance(1), ReadRow(0), SetBalance(2), Tick(delay), SkipStore(0)];
      var s := Run(Initial(delay), steps);
      assert Answer(1, delay) in s.answers;
      assert !Stored(s.history, 1, delay, delay);
      assert NoCache(steps);
    }
  }
}
