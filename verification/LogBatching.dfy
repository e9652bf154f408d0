/**
 * Threads logging through one handler: a thread appends under the lock, and if the batch is full
 * drains the buffer under the lock again, then hands the batch to the write function without it.
 */
module LogBatching {

  /** Where a thread is: about to drain, or holding the drained batch of that number. */
  datatype Thread = Draining | Holding(batch: nat)

  /** `accepted`, `drained` and `written` are histories: of logs, of batches, of batch numbers written. */
  datatype State<Log> = State(
    batchSize: int, pending: seq<Log>, threads: map<nat, Thread>,
    accepted: seq<Log>, drained: seq<seq<Log>>, written: seq<nat>)

  function Initial<Log>(batchSize: int): State<Log> {
    State(batchSize, [], map[], [], [], [])
  }

  /** Flush starts an explicit WriteAll. */
  datatype Action<Log> = Append(t: nat, log: Log) | Flush(t: nat) | Drain(t: nat) | Write(t: nat)

  predicate Enabled<Log>(s: State<Log>, a: Action<Log>) {
    match a
    case Append(t, _) => t !in s.threads
    case Flush(t) => t !in s.threads
    case Drain(t) => t in s.threads && s.threads[t].Draining?
    case Write(t) => t in s.threads && s.threads[t].Holding?
  }

  function Step<Log>(s: State<Log>, a: Action<Log>): State<Log>
    requires Enabled(s, a)
  {
    match a
    case Append(t, log) =>
      var s := s.(pending := s.pending + [log], accepted := s.accepted + [log]);
      if |s.pending| >= s.batchSize then s.(threads := s.threads[t := Draining]) else s
    case Flush(t) => s.(threads := s.threads[t := Draining])
    case Drain(t) =>
      if s.pending == [] then s.(threads := s.threads - {t})
      else s.(pending := [], drained := s.drained + [s.pending], threads := s.threads[t := Holding(|s.drained|)])
    case Write(t) => s.(written := s.written + [s.threads[t].batch], threads := s.threads - {t})
  }

  predicate Runs<Log>(s: State<Log>, actions: seq<Action<Log>>)
    decreases |actions|
  {
    actions == [] || (Enabled(s, actions[0]) && Runs(Step(s, actions[0]), actions[1..]))
  }

  function Run<Log>(s: State<Log>, actions: seq<Action<Log>>): State<Log>
    requires Runs(s, actions)
    decreases |actions|
  {
    if actions == [] then s else Run(Step(s, actions[0]), actions[1..])
  }

  lemma RunsFrom<Log>(s: State<Log>, a: Action<Log>, rest: seq<Action<Log>>)
    ensures Runs(s, [a] + rest) <==> Enabled(s, a) && Runs(Step(s, a), rest)
    ensures Runs(s, [a] + rest) ==> Run(s, [a] + rest) == Run(Step(s, a), rest)
  {
    assert ([a] + rest)[1..] == rest;
  }

  /** A call that nothing interleaves with does what the handler's sequential contract says. */
  lemma CallAlone<Log>(s: State<Log>, t: nat, log: Log)
    requires t !in s.threads
    ensures var all := s.pending + [log];
      var full := |all| >= s.batchSize;
      var steps := if full then [Append(t, log), Drain(t), Write(t)] else [Append(t, log)];
      && Runs(s, steps)
      && Run(s, steps).pending == (if full then [] else all)
      && Run(s, steps).drained == s.drained + (if full then [all] else [])
      && Run(s, steps).written == s.written + (if full then [|s.drained|] else [])
      && Run(s, steps).threads == s.threads
  {
    var s1 := Step(s, Append(t, log));
    RunsFrom(s, Append(t, log), []);
    if |s1.pending| >= s.batchSize {
      var s2 := Step(s1, Drain(t));
      RunsFrom(s2, Write(t), []);
      RunsFrom(s1, Drain(t), [Write(t)]);
      RunsFrom(s, Append(t, log), [Drain(t), Write(t)]);
    }
  }

  /** An explicit flush that nothing interleaves with writes everything pending, or nothing. */
  lemma FlushAlone<Log>(s: State<Log>, t: nat)
    requires t !in s.threads
    ensures var steps: seq<Action<Log>> :=
        if s.pending == [] then [Flush(t), Drain(t)] else [Flush(t), Drain(t), Write(t)];
      && Runs(s, steps)
      && Run(s, steps).pending == [] && Run(s, steps).threads == s.threads
      && Run(s, steps).drained == s.drained + (if s.pending == [] then [] else [s.pending])
      && Run(s, steps).written == s.written + (if s.pending == [] then [] else [|s.drained|])
  {
    var flush, drain, write: Action<Log> := Flush(t), Drain(t), Write(t);
    var s1 := Step(s, flush);
    var s2 := Step(s1, drain);
    if s.pending == [] {
      RunsFrom(s1, drain, []);
      RunsFrom(s, flush, [drain]);
    } else {
      RunsFrom(s2, write, []);
      RunsFrom(s1, drain, [write]);
      RunsFrom(s, flush, [drain, write]);
    }
  }

  function Concat<Log>(batches: seq<seq<Log>>): seq<Log> {
    if batches == [] then [] else Concat(batches[..|batches| - 1]) + batches[|batches| - 1]
  }

  /** The buffer only stays full while some thread is about to drain it. */
  ghost predicate Attended<Log>(s: State<Log>) {
    && Concat(s.drained) + s.pending == s.accepted
    && (s.pending != [] && |s.pending| >= s.batchSize ==> exists t <- s.threads :: s.threads[t].Draining?)
  }

  predicate Written<Log>(s: State<Log>, b: nat) {
    b in s.written
  }

  predicate Held<Log>(s: State<Log>, b: nat) {
    exists t <- s.threads :: s.threads[t] == Holding(b)
  }

  /** Every drained batch is either written, once, or held by one thread that will write it. */
  ghost predicate Delivered<Log>(s: State<Log>) {
    && (forall b: nat :: Written(s, b) || Held(s, b) <==> b < |s.drained|)
    && (forall b: nat :: !(Written(s, b) && Held(s, b)))
    && (forall i, j :: 0 <= i < j < |s.written| ==> s.written[i] != s.written[j])
    && (forall t, u | t in s.threads && u in s.threads ::
          s.threads[t].Holding? && s.threads[t] == s.threads[u] ==> t == u)
  }

  lemma StepKeepsAttended<Log>(s: State<Log>, a: Action<Log>)
    requires Enabled(s, a) && Attended(s)
    ensures Attended(Step(s, a))
  {
    var s' := Step(s, a);
    match a
    case Append(t, log) =>
      assert s'.accepted == Concat(s.drained) + s'.pending;
      if |s'.pending| >= s.batchSize {
        assert t in s'.threads && s'.threads[t].Draining?;
      }
    case Flush(t) =>
      assert t in s'.threads && s'.threads[t].Draining?;
    case Drain(t) =>
      if s.pending != [] {
        assert s'.drained[..|s.drained|] == s.drained;
      }
    case Write(t) =>
      if u :| u in s.threads && s.threads[u].Draining? {
        assert u in s'.threads && s'.threads[u].Draining?;
      }
  }

  lemma HeldAfter<Log>(s: State<Log>, a: Action<Log>, b: nat)
    requires Enabled(s, a)
    ensures var s' := Step(s, a);
      Held(s', b) <==>
        (a.Drain? && s.pending != [] && b == |s.drained|) ||
        exists t <- s.threads :: s.threads[t] == Holding(b) && !(a.Write? && a.t == t)
  {
    var s' := Step(s, a);
    if a.Drain? && s.pending != [] {
      assert s'.threads[a.t] == Holding(|s.drained|);
    }
    forall t | t in s.threads && s.threads[t] == Holding(b) && !(a.Write? && a.t == t)
      ensures t in s'.threads && s'.threads[t] == Holding(b)
    {
    }
  }

  lemma StepKeepsDelivered<Log>(s: State<Log>, a: Action<Log>)
    requires Enabled(s, a) && Delivered(s)
    ensures Delivered(Step(s, a))
  {
    var s' := Step(s, a);
    forall b: nat
      ensures Written(s', b) || Held(s', b) <==> b < |s'.drained|
      ensures !(Written(s', b) && Held(s', b))
    {
      HeldAfter(s, a, b);
      assert Written(s, b) || Held(s, b) <==> b < |s.drained|;
      assert !(Written(s, b) && Held(s, b));
    }
    if a.Write? {
      assert Held(s, s.threads[a.t].batch);
      assert !Written(s, s.threads[a.t].batch);
    } else if a.Drain? {
      assert forall t <- s.threads :: s.threads[t].Holding? ==> Held(s, s.threads[t].batch);
    }
  }

  lemma {:induction false} LogsFlowThrough<Log>(s: State<Log>, actions: seq<Action<Log>>)
    requires Attended(s) && Delivered(s) && Runs(s, actions)
    ensures Attended(Run(s, actions)) && Delivered(Run(s, actions))
    ensures Run(s, actions).batchSize == s.batchSize
    decreases |actions|
  {
    if actions != [] {
      StepKeepsAttended(s, actions[0]);
      StepKeepsDelivered(s, actions[0]);
      LogsFlowThrough(Step(s, actions[0]), actions[1..]);
    }
  }

  /**
   * Under any interleaving of threads, with any batch size: the batches in drain order followed
   * by the pending logs are exactly the accepted logs in append order, and no batch is written
   * twice. Whenever no call is in flight, every drained batch has been written exactly once and
   * fewer logs than a batch (fewer than one, if the size is not positive) are pending.
   */
  lemma BatchesPartitionLogs<Log>(batchSize: int, actions: seq<Action<Log>>)
    requires Runs(Initial(batchSize), actions)
    ensures var s := Run(Initial(batchSize), actions);
      && Concat(s.drained) + s.pending == s.accepted
      && (forall i, j :: 0 <= i < j < |s.written| ==> s.written[i] != s.written[j])
      && (forall b <- s.written :: b < |s.drained|)
      && (s.threads == map[] ==>
          && (forall b: nat :: b < |s.drained| ==> b in s.written)
          && |s.pending| < if batchSize >= 1 then batchSize else 1)
  {
    LogsFlowThrough(Initial(batchSize), actions);
    var s := Run(Initial(batchSize), actions);
    if s.threads == map[] {
      forall b: nat | b < |s.drained| ensures b in s.written {
        assert Written(s, b) || Held(s, b);
      }
    }
    forall b | b in s.written ensures b < |s.drained| {
      assert Written(s, b);
    }
  }
}
