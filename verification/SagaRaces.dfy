/**
 * Deliveries of one correlation that nothing keeps apart, any number of them. A delivery reads the
 * saved state once, when it starts, and its saves write the whole state, so a delivery that started
 * before the completion can undo it and complete the join again.
 */
module SagaRaces {
  import opened Events
  import opened Sagas
  import opened SagaFlow

  /** The delivery belongs to the correlation and is in progress. */
  predicate Working(s: State, r: nat, c: string) {
    r in s.active && s.active[r].env.correlationId == c
  }

  /** How many completions of the correlation the run saves. */
  function Completions(s: State, actions: seq<Action>, c: string): nat
    requires Runs(s, actions)
    decreases |actions|
  {
    if actions == [] then 0
    else (if Completes(s, actions[0], c) then 1 else 0) + Completions(Step(s, actions[0]), actions[1..], c)
  }

  predicate Completes(s: State, a: Action, c: string)
    requires Enabled(s, a)
  {
    a.SaveCompletion? && s.active[a.r].env.correlationId == c
  }

  lemma CompletionsFrom(s: State, a: Action, rest: seq<Action>, c: string)
    requires Runs(s, [a] + rest)
    ensures Enabled(s, a) && Runs(Step(s, a), rest)
    ensures Completions(s, [a] + rest, c) ==
            (if Completes(s, a, c) then 1 else 0) + Completions(Step(s, a), rest, c)
  {
    assert ([a] + rest)[1..] == rest;
  }

  // ---------- every completion is published, lost or about to be published ----------

  ghost function Publishers(s: State, c: string): set<nat> {
    set r <- s.active | s.active[r].env.correlationId == c && s.active[r].phase.Publishing?
  }

  /** Ready events published, lost, and about to be published. */
  ghost function Announcements(s: State, c: string): nat {
    ReadyCount(s.published, c) + LostCount(s.lost, c) + |Publishers(s, c)|
  }

  lemma StepCountsPublishers(s: State, a: Action, c: string)
    requires Enabled(s, a)
    ensures Publishers(Step(s, a), c) ==
      if Completes(s, a, c) then Publishers(s, c) + {a.r}
      else if a.Publish? || a.Drop? then Publishers(s, c) - {a.r}
      else Publishers(s, c)
    ensures Completes(s, a, c) ==> a.r !in Publishers(s, c)
    ensures a.Publish? || a.Drop? ==>
      (a.r in Publishers(s, c) <==> s.active[a.r].phase.Publishing? && Target(s, a) == c)
  {
  }

  lemma StepCountsAnnouncements(s: State, a: Action, c: string)
    requires Enabled(s, a)
    ensures Announcements(Step(s, a), c) == Announcements(s, c) + if Completes(s, a, c) then 1 else 0
  {
    StepCountsReady(s, a, c);
    StepCountsLost(s, a, c);
    StepCountsPublishers(s, a, c);
  }

  /**
   * In every run, with any overlaps and any faults, ready events published plus ready events lost
   * plus those about to be published count exactly the completions saved.
   */
  lemma {:induction false} CompletionsAreAnnounced(s: State, actions: seq<Action>, c: string)
    requires Runs(s, actions)
    ensures Announcements(Run(s, actions), c) == Announcements(s, c) + Completions(s, actions, c)
    decreases |actions|
  {
    if actions != [] {
      StepCountsAnnouncements(s, actions[0], c);
      CompletionsAreAnnounced(Step(s, actions[0]), actions[1..], c);
    }
  }

  // ---------- when a completed join is completed again, or undone ----------

  /**
   * Delivery numbers are used once, a delivery that still has to save its flags holds no
   * completion, and both flags stand behind a completion.
   */
  ghost predicate Consistent(s: State) {
    && (forall r <- s.active :: r in s.begun)
    && (forall r <- s.active :: if s.active[r].phase.SavingFlags? then !s.active[r].state.completed
                                else BothMet(s.active[r].state))
    && (forall c <- s.states :: s.states[c].completed ==> BothMet(s.states[c]))
  }

  lemma StepKeepsConsistent(s: State, a: Action)
    requires Enabled(s, a) && Consistent(s)
    ensures Consistent(Step(s, a))
  {
  }

  lemma {:induction false} RunsStayConsistent(s: State, actions: seq<Action>)
    requires Runs(s, actions) && Consistent(s) && FlagsBacked(s)
    ensures Consistent(Run(s, actions)) && FlagsBacked(Run(s, actions))
    decreases |actions|
  {
    if actions != [] {
      StepKeepsConsistent(s, actions[0]);
      StepKeepsFlagsBacked(s, actions[0]);
      RunsStayConsistent(Step(s, actions[0]), actions[1..]);
    }
  }

  /** Everything the run starts is a redelivery: its correlation and topic were delivered before. */
  predicate OnlyRedelivers(s: State, actions: seq<Action>) {
    forall a <- actions :: a.Start? ==> (a.env.correlationId, a.env.topic) in s.handled
  }

  /** Some continuation of redeliveries saves a completion of the correlation. */
  ghost predicate MayComplete(s: State, c: string) {
    exists actions :: Runs(s, actions) && OnlyRedelivers(s, actions) && Completions(s, actions, c) > 0
  }

  /** Some continuation ends with the completion undone. */
  ghost predicate MayRevert(s: State, c: string) {
    exists actions :: Runs(s, actions) && !Lookup(Run(s, actions).states, c).completed
  }

  /** No delivery of the correlation still has to save its completion. */
  predicate Closed(s: State, c: string) {
    Lookup(s.states, c).completed && forall r <- s.active :: Working(s, r, c) ==> s.active[r].phase.Publishing?
  }

  /** No delivery of the correlation still has to save its flags. */
  predicate Settled(s: State, c: string) {
    Lookup(s.states, c).completed && forall r <- s.active :: Working(s, r, c) ==> !s.active[r].phase.SavingFlags?
  }

  lemma StepStaysClosed(s: State, a: Action, c: string)
    requires Enabled(s, a) && Closed(s, c)
    ensures Closed(Step(s, a), c) && !Completes(s, a, c)
  {
    if !a.Start? {
      assert Working(s, a.r, c) ==> s.active[a.r].phase.Publishing?;
    }
    var s' := Step(s, a);
    forall r | r in s'.active && Working(s', r, c) ensures s'.active[r].phase.Publishing? {
      assert r in s.active && Working(s, r, c);
    }
  }

  lemma {:induction false} ClosedNeverCompletes(s: State, actions: seq<Action>, c: string)
    requires Runs(s, actions) && Closed(s, c)
    ensures Completions(s, actions, c) == 0
    decreases |actions|
  {
    if actions != [] {
      StepStaysClosed(s, actions[0], c);
      ClosedNeverCompletes(Step(s, actions[0]), actions[1..], c);
    }
  }

  lemma StepStaysSettled(s: State, a: Action, c: string)
    requires Enabled(s, a) && Settled(s, c)
    ensures Settled(Step(s, a), c)
  {
    if !a.Start? {
      assert Working(s, a.r, c) ==> !s.active[a.r].phase.SavingFlags?;
    }
    var s' := Step(s, a);
    forall r | r in s'.active && Working(s', r, c) ensures !s'.active[r].phase.SavingFlags? {
      assert r in s.active && Working(s, r, c);
    }
  }

  lemma {:induction false} SettledNeverReverts(s: State, actions: seq<Action>, c: string)
    requires Runs(s, actions) && Settled(s, c)
    ensures Lookup(Run(s, actions).states, c).completed
    decreases |actions|
  {
    if actions != [] {
      StepStaysSettled(s, actions[0], c);
      SettledNeverReverts(Step(s, actions[0]), actions[1..], c);
    }
  }

  // ---------- completing again ----------

  lemma CompletesNow(s: State, r: nat, c: string)
    requires Working(s, r, c) && s.active[r].phase.SavingCompletion?
    ensures Runs(s, [SaveCompletion(r)]) && Completions(s, [SaveCompletion(r)], c) == 1
  {
    RunsFrom(s, SaveCompletion(r), []);
    CompletionsFrom(s, SaveCompletion(r), [], c);
  }

  /** A delivery that holds both flags completes in two steps. */
  lemma SavesAndCompletes(s: State, r: nat, c: string)
    requires Working(s, r, c) && s.active[r].phase.SavingFlags? && BothMet(s.active[r].state)
    ensures var steps := [SaveFlags(r), SaveCompletion(r)];
      Runs(s, steps) && Completions(s, steps, c) == 1
  {
    var s1 := Step(s, SaveFlags(r));
    CompletesNow(s1, r, c);
    RunsFrom(s, SaveFlags(r), [SaveCompletion(r)]);
    CompletionsFrom(s, SaveFlags(r), [SaveCompletion(r)], c);
  }

  lemma NewNumber(s: State) returns (r: nat)
    requires Consistent(s)
    ensures r !in s.begun && r !in s.active
  {
    r := AboveAll(s.begun);
  }

  lemma AboveAll(numbers: set<nat>) returns (n: nat)
    ensures forall m <- numbers :: m < n
  {
    if numbers == {} {
      n := 0;
    } else {
      var m :| m in numbers;
      n := AboveAll(numbers - {m});
      assert numbers == (numbers - {m}) + {m};
      n := if n <= m then m + 1 else n;
    }
  }

  function Redelivery(c: string, topic: Topic): Envelope {
    Envelope("", c, "", topic, OtherPayload)
  }

  /** From a state that is not completed, two redeliveries complete the join. */
  lemma RedeliveriesComplete(s: State, c: string) returns (steps: seq<Action>)
    requires Consistent(s) && !Lookup(s.states, c).completed
    requires (c, LoyaltyCredited) in s.handled && (c, StockReserved) in s.handled
    ensures Runs(s, steps) && OnlyRedelivers(s, steps) && Completions(s, steps, c) > 0
  {
    var r := NewNumber(s);
    var credit := Start(r, Redelivery(c, LoyaltyCredited));
    var s1 := Step(s, credit);
    if BothMet(s1.active[r].state) {
      SavesAndCompletes(s1, r, c);
      steps := [credit] + [SaveFlags(r), SaveCompletion(r)];
      RunsFrom(s, credit, [SaveFlags(r), SaveCompletion(r)]);
      CompletionsFrom(s, credit, [SaveFlags(r), SaveCompletion(r)], c);
    } else {
      var s2 := Step(s1, SaveFlags(r));
      StepKeepsConsistent(s, credit);
      StepKeepsConsistent(s1, SaveFlags(r));
      var rest := ReservationCompletes(s2, c);
      steps := [credit] + ([SaveFlags(r)] + rest);
      RunsFrom(s1, SaveFlags(r), rest);
      RunsFrom(s, credit, [SaveFlags(r)] + rest);
      CompletionsFrom(s1, SaveFlags(r), rest, c);
      CompletionsFrom(s, credit, [SaveFlags(r)] + rest, c);
      assert s2.handled == s.handled;
    }
  }

  lemma ReservationCompletes(s: State, c: string) returns (steps: seq<Action>)
    requires Consistent(s) && !Lookup(s.states, c).completed && Lookup(s.states, c).loyaltyCredited
    requires (c, StockReserved) in s.handled
    ensures Runs(s, steps) && OnlyRedelivers(s, steps) && Completions(s, steps, c) > 0
  {
    var q := NewNumber(s);
    var reserve := Start(q, Redelivery(c, StockReserved));
    var s1 := Step(s, reserve);
    SavesAndCompletes(s1, q, c);
    var rest := [SaveFlags(q), SaveCompletion(q)];
    steps := [reserve] + rest;
    RunsFrom(s, reserve, rest);
    CompletionsFrom(s, reserve, rest, c);
  }

  lemma EarlyDeliveryCompletes(s: State, r: nat, c: string) returns (steps: seq<Action>)
    requires Consistent(s) && Working(s, r, c) && s.active[r].phase.SavingFlags?
    requires (c, LoyaltyCredited) in s.handled && (c, StockReserved) in s.handled
    ensures Runs(s, steps) && OnlyRedelivers(s, steps) && Completions(s, steps, c) > 0
  {
    if BothMet(s.active[r].state) {
      SavesAndCompletes(s, r, c);
      steps := [SaveFlags(r), SaveCompletion(r)];
    } else {
      var s1 := Step(s, SaveFlags(r));
      StepKeepsConsistent(s, SaveFlags(r));
      var rest := RedeliveriesComplete(s1, c);
      steps := [SaveFlags(r)] + rest;
      RunsFrom(s, SaveFlags(r), rest);
      CompletionsFrom(s, SaveFlags(r), rest, c);
      assert s1.handled == s.handled;
    }
  }

  /**
   * Whenever a join is completed, redeliveries can complete it again, and so announce it again, if
   * and only if some delivery of the correlation is in progress that has not saved its completion.
   */
  lemma CompletesAgainIff(before: seq<Action>, c: string)
    requires Runs(INITIAL, before) && Lookup(Run(INITIAL, before).states, c).completed
    ensures MayComplete(Run(INITIAL, before), c) <==> !Closed(Run(INITIAL, before), c)
  {
    var s := Run(INITIAL, before);
    RunsStayConsistent(INITIAL, before);
    if Closed(s, c) {
      forall actions | Runs(s, actions) ensures Completions(s, actions, c) == 0 {
        ClosedNeverCompletes(s, actions, c);
      }
    } else {
      var r :| r in s.active && Working(s, r, c) && !s.active[r].phase.Publishing?;
      CompletedIsBacked(s, c);
      if s.active[r].phase.SavingCompletion? {
        CompletesNow(s, r, c);
        assert OnlyRedelivers(s, [SaveCompletion(r)]);
      } else {
        var steps := EarlyDeliveryCompletes(s, r, c);
      }
    }
  }

  /** Both prerequisites of a completed join were delivered. */
  lemma CompletedIsBacked(s: State, c: string)
    requires FlagsBacked(s) && Consistent(s) && Lookup(s.states, c).completed
    ensures (c, LoyaltyCredited) in s.handled && (c, StockReserved) in s.handled
  {
  }

  /**
   * Whenever a join is completed, its completion can be undone if and only if some delivery of the
   * correlation is in progress that has not saved its flags.
   */
  lemma RevertsIff(before: seq<Action>, c: string)
    requires Runs(INITIAL, before) && Lookup(Run(INITIAL, before).states, c).completed
    ensures MayRevert(Run(INITIAL, before), c) <==> !Settled(Run(INITIAL, before), c)
  {
    var s := Run(INITIAL, before);
    RunsStayConsistent(INITIAL, before);
    if Settled(s, c) {
      forall actions | Runs(s, actions) ensures Lookup(Run(s, actions).states, c).completed {
        SettledNeverReverts(s, actions, c);
      }
    } else {
      var r :| r in s.active && Working(s, r, c) && s.active[r].phase.SavingFlags?;
      RunsFrom(s, SaveFlags(r), []);
      assert [SaveFlags(r)] + [] == [SaveFlags(r)];
      assert !Lookup(Run(s, [SaveFlags(r)]).states, c).completed;
    }
  }

  // ---------- both happen ----------

  lemma {:induction false} RunsConcat(s: State, first: seq<Action>, second: seq<Action>)
    requires Runs(s, first) && Runs(Run(s, first), second)
    ensures Runs(s, first + second) && Run(s, first + second) == Run(Run(s, first), second)
    decreases |first|
  {
    if first == [] {
      assert first + second == second;
    } else {
      assert (first + second)[1..] == first[1..] + second;
      RunsConcat(Step(s, first[0]), first[1..], second);
    }
  }

  /** Two deliveries that both hold both flags complete and announce the join twice. */
  lemma BothAnnounce(s: State, r: nat, q: nat, id: string, id': string)
    requires r != q && r in s.active && q in s.active
    requires s.active[r].phase.SavingFlags? && BothMet(s.active[r].state)
    requires s.active[q].phase.SavingFlags? && BothMet(s.active[q].state)
    ensures var saves := [SaveFlags(r), SaveFlags(q), SaveCompletion(r), SaveCompletion(q)];
      var publishes := [Publish(r, id), Publish(q, id')];
      && Runs(s, saves + publishes)
      && Run(s, saves + publishes).published ==
           s.published + [ReadyEnvelope(s.active[r].env, id), ReadyEnvelope(s.active[q].env, id')]
  {
    var saves := [SaveFlags(r), SaveFlags(q), SaveCompletion(r), SaveCompletion(q)];
    RunsFour(s, SaveFlags(r), SaveFlags(q), SaveCompletion(r), SaveCompletion(q));
    RunsTwo(Run(s, saves), Publish(r, id), Publish(q, id'));
    RunsConcat(s, saves, [Publish(r, id), Publish(q, id')]);
  }

  lemma TwoReservationsStart(credit: Envelope, reserve: Envelope)
    requires credit.correlationId == reserve.correlationId
    requires credit.topic == LoyaltyCredited && reserve.topic == StockReserved
    ensures var starts := [Start(0, credit), SaveFlags(0), Start(1, reserve), Start(2, reserve)];
      && Runs(INITIAL, starts)
      && var s := Run(INITIAL, starts);
         && s.published == [] && 1 in s.active && 2 in s.active
         && s.active[1] == s.active[2] == Delivery(reserve, JOINED, SavingFlags)
  {
    RunsFour(INITIAL, Start(0, credit), SaveFlags(0), Start(1, reserve), Start(2, reserve));
  }

  lemma TwoReady(first: Envelope, second: Envelope, c: string)
    requires first.correlationId == second.correlationId == c
    ensures ReadyCount([first, second], c) == 2
  {
    ReadyCountAppend([], first, c);
    ReadyCountAppend([first], second, c);
    assert [] + [first] == [first] && [first] + [second] == [first, second];
  }

  /** A fault-free run that announces one join twice: the reservation is delivered twice at once. */
  lemma JoinIsAnnouncedTwice(credit: Envelope, reserve: Envelope, id: string, id': string)
    requires credit.correlationId == reserve.correlationId
    requires credit.topic == LoyaltyCredited && reserve.topic == StockReserved
    ensures var starts := [Start(0, credit), SaveFlags(0), Start(1, reserve), Start(2, reserve)];
      var saves := [SaveFlags(1), SaveFlags(2), SaveCompletion(1), SaveCompletion(2)];
      var steps := starts + (saves + [Publish(1, id), Publish(2, id')]);
      && Runs(INITIAL, steps) && NoFaults(steps)
      && ReadyCount(Run(INITIAL, steps).published, credit.correlationId) == 2
  {
    var starts := [Start(0, credit), SaveFlags(0), Start(1, reserve), Start(2, reserve)];
    var saves := [SaveFlags(1), SaveFlags(2), SaveCompletion(1), SaveCompletion(2)];
    TwoReservationsStart(credit, reserve);
    BothAnnounce(Run(INITIAL, starts), 1, 2, id, id');
    RunsConcat(INITIAL, starts, saves + [Publish(1, id), Publish(2, id')]);
    TwoReady(ReadyEnvelope(reserve, id), ReadyEnvelope(reserve, id'), credit.correlationId);
  }

  /** A fault-free run that undoes a completion: a second delivery of the credit started before it. */
  lemma CompletionIsUndone(credit: Envelope, reserve: Envelope)
    requires credit.correlationId == reserve.correlationId
    requires credit.topic == LoyaltyCredited && reserve.topic == StockReserved
    ensures var starts := [Start(0, credit), Start(3, credit), SaveFlags(0), Start(1, reserve)];
      var saves := [SaveFlags(1), SaveCompletion(1)];
      && Runs(INITIAL, starts + saves)
      && Lookup(Run(INITIAL, starts + saves).states, credit.correlationId).completed
      && Runs(INITIAL, starts + saves + [SaveFlags(3)])
      && Lookup(Run(INITIAL, starts + saves + [SaveFlags(3)]).states, credit.correlationId) ==
           Flagged(FRESH, LoyaltyCredited)
  {
    var starts := [Start(0, credit), Start(3, credit), SaveFlags(0), Start(1, reserve)];
    RunsFour(INITIAL, Start(0, credit), Start(3, credit), SaveFlags(0), Start(1, reserve));
    var s := Run(INITIAL, starts);
    RunsTwo(s, SaveFlags(1), SaveCompletion(1));
    RunsConcat(INITIAL, starts, [SaveFlags(1), SaveCompletion(1)]);
    var s' := Run(INITIAL, starts + [SaveFlags(1), SaveCompletion(1)]);
    RunsFrom(s', SaveFlags(3), []);
    assert [SaveFlags(3)] + [] == [SaveFlags(3)];
    RunsConcat(INITIAL, starts + [SaveFlags(1), SaveCompletion(1)], [SaveFlags(3)]);
  }

  // ---------- when the join happens at all ----------

  /** A delivery of the correlation starts when the saved flags and its own make both. */
  predicate Crosses(s: State, a: Action, c: string) {
    a.Start? && a.env.correlationId == c && BothMet(Flagged(Lookup(s.states, c), a.env.topic))
  }

  predicate Crossed(s: State, actions: seq<Action>, c: string)
    requires Runs(s, actions)
    decreases |actions|
  {
    actions != [] && (Crosses(s, actions[0], c) || Crossed(Step(s, actions[0]), actions[1..], c))
  }

  /** No state of the correlation, saved or in memory, has both flags. */
  ghost predicate Apart(s: State, c: string) {
    && !BothMet(Lookup(s.states, c)) && !Lookup(s.states, c).completed
    && forall r <- s.active :: Working(s, r, c) ==> s.active[r].phase.SavingFlags? && !BothMet(s.active[r].state)
  }

  /** Some delivery of the correlation holds both flags and has not saved the completion. */
  predicate Pending(s: State, c: string) {
    exists r <- s.active :: Working(s, r, c) && BothMet(s.active[r].state) && !s.active[r].phase.Publishing?
  }

  lemma StepStaysApart(s: State, a: Action, c: string)
    requires Enabled(s, a) && Apart(s, c) && Consistent(s)
    ensures !Completes(s, a, c)
    ensures if Crosses(s, a, c) then Pending(Step(s, a), c) else Apart(Step(s, a), c)
  {
    var s' := Step(s, a);
    if Crosses(s, a, c) {
      assert Working(s', a.r, c);
    } else if a.Start? {
      forall r | r in s'.active && Working(s', r, c)
        ensures s'.active[r].phase.SavingFlags? && !BothMet(s'.active[r].state)
      {
        assert r == a.r || (r in s.active && Working(s, r, c));
      }
    } else {
      assert Working(s, a.r, c) ==> s.active[a.r].phase.SavingFlags?;
      forall r | r in s'.active && Working(s', r, c)
        ensures s'.active[r].phase.SavingFlags? && !BothMet(s'.active[r].state)
      {
        assert r in s.active && Working(s, r, c);
      }
    }
  }

  lemma StepKeepsPending(s: State, a: Action, c: string)
    requires Enabled(s, a) && !a.Drop? && Consistent(s) && Pending(s, c)
    ensures Completes(s, a, c) || Pending(Step(s, a), c)
  {
    var r :| r in s.active && Working(s, r, c) && BothMet(s.active[r].state) && !s.active[r].phase.Publishing?;
    if !Completes(s, a, c) {
      assert r in Step(s, a).active && Working(Step(s, a), r, c);
    }
  }

  lemma {:induction false} PendingCompletes(s: State, actions: seq<Action>, c: string)
    requires Runs(s, actions) && NoFaults(actions) && Consistent(s) && Pending(s, c)
    ensures Completions(s, actions, c) > 0 || Pending(Run(s, actions), c)
    decreases |actions|
  {
    if actions != [] {
      assert actions[0] in actions;
      StepKeepsPending(s, actions[0], c);
      StepKeepsConsistent(s, actions[0]);
      if !Completes(s, actions[0], c) {
        PendingCompletes(Step(s, actions[0]), actions[1..], c);
      }
    }
  }

  lemma {:induction false} ApartUntilCrossed(s: State, actions: seq<Action>, c: string)
    requires Runs(s, actions) && NoFaults(actions) && Consistent(s) && Apart(s, c)
    ensures !Crossed(s, actions, c) ==> Completions(s, actions, c) == 0
    ensures Crossed(s, actions, c) ==> Completions(s, actions, c) > 0 || Pending(Run(s, actions), c)
    decreases |actions|
  {
    if actions != [] {
      assert actions[0] in actions;
      StepStaysApart(s, actions[0], c);
      StepKeepsConsistent(s, actions[0]);
      if Crosses(s, actions[0], c) {
        PendingCompletes(Step(s, actions[0]), actions[1..], c);
      } else {
        ApartUntilCrossed(Step(s, actions[0]), actions[1..], c);
      }
    }
  }

  lemma {:induction false} NothingIsLost(s: State, actions: seq<Action>)
    requires Runs(s, actions) && NoFaults(actions)
    ensures Run(s, actions).lost == s.lost
    decreases |actions|
  {
    if actions != [] {
      assert actions[0] in actions;
      NothingIsLost(Step(s, actions[0]), actions[1..]);
    }
  }

  /**
   * Over all fault-free runs, with any number of overlapping deliveries and redeliveries of the
   * correlation: once they are all handled, the join was completed and announced at least once if
   * and only if some delivery started when the flags saved then and its own made both. What was
   * announced is exactly what was completed.
   */
  lemma JoinHappensIff(actions: seq<Action>, c: string)
    requires Runs(INITIAL, actions) && NoFaults(actions) && Idle(Run(INITIAL, actions), c)
    ensures Completions(INITIAL, actions, c) > 0 <==> Crossed(INITIAL, actions, c)
    ensures ReadyCount(Run(INITIAL, actions).published, c) == Completions(INITIAL, actions, c)
  {
    NothingIsLost(INITIAL, actions);
    ApartUntilCrossed(INITIAL, actions, c);
    CompletionsAreAnnounced(INITIAL, actions, c);
    assert Publishers(INITIAL, c) == {} && Publishers(Run(INITIAL, actions), c) == {};
  }
}
