/**
 * Deliveries to the saga as a machine: each delivery loads the state, sets its flag in memory,
 * saves, saves the completion when both flags are set, and publishes; deliveries interleave, and
 * any of them may be dropped between two steps by a failed call or a crash.
 */
module SagaFlow {
  import opened Events
  import opened Sagas

  datatype Phase = SavingFlags | SavingCompletion | Publishing

  /** One delivery in progress: the state it holds in memory and the call it makes next. */
  datatype Delivery = Delivery(env: Envelope, state: SagaState, phase: Phase)

  /**
   * Saved states, deliveries in progress, delivery numbers used so far, the (correlation, topic)
   * pairs delivered, the ready events published, and the correlations whose completion was saved
   * but whose ready event was lost.
   */
  datatype State = State(
    states: States, active: map<nat, Delivery>, begun: set<nat>,
    handled: set<(string, Topic)>, published: seq<Envelope>, lost: seq<string>)

  const INITIAL := State(map[], map[], {}, {}, [], [])

  datatype Action =
    | Start(r: nat, env: Envelope)
    | SaveFlags(r: nat)
    | SaveCompletion(r: nat)
    | Publish(r: nat, eventId: string)
    | Drop(r: nat)

  predicate Enabled(s: State, a: Action) {
    match a
    case Start(r, _) => r !in s.begun && r !in s.active
    case SaveFlags(r) => r in s.active && s.active[r].phase.SavingFlags?
    case SaveCompletion(r) => r in s.active && s.active[r].phase.SavingCompletion?
    case Publish(r, _) => r in s.active && s.active[r].phase.Publishing?
    case Drop(r) => r in s.active
  }

  function Step(s: State, a: Action): State
    requires Enabled(s, a)
  {
    match a
    case Start(r, env) =>
      var state := Lookup(s.states, env.correlationId);
      var s := s.(begun := s.begun + {r}, handled := s.handled + {(env.correlationId, env.topic)});
      if state.completed then s
      else s.(active := s.active[r := Delivery(env, Flagged(state, env.topic), SavingFlags)])
    case SaveFlags(r) =>
      var d := s.active[r];
      s.(states := s.states[d.env.correlationId := d.state],
         active := if BothMet(d.state) then s.active[r := d.(phase := SavingCompletion)] else s.active - {r})
    case SaveCompletion(r) =>
      var d := s.active[r].(state := s.active[r].state.(completed := true), phase := Publishing);
      s.(states := s.states[d.env.correlationId := d.state], active := s.active[r := d])
    case Publish(r, eventId) =>
      s.(active := s.active - {r}, published := s.published + [ReadyEnvelope(s.active[r].env, eventId)])
    case Drop(r) =>
      s.(active := s.active - {r},
         lost := if s.active[r].phase.Publishing? then s.lost + [s.active[r].env.correlationId] else s.lost)
  }

  predicate Runs(s: State, actions: seq<Action>)
    decreases |actions|
  {
    actions == [] || (Enabled(s, actions[0]) && Runs(Step(s, actions[0]), actions[1..]))
  }

  function Run(s: State, actions: seq<Action>): State
    requires Runs(s, actions)
    decreases |actions|
  {
    if actions == [] then s else Run(Step(s, actions[0]), actions[1..])
  }

  /** No delivery of the correlation is in progress. */
  predicate Idle(s: State, c: string) {
    forall r <- s.active :: s.active[r].env.correlationId != c
  }

  /** A delivery of the correlation starts only when no other one is in progress. */
  predicate OneAtATime(s: State, a: Action, c: string) {
    a.Start? && a.env.correlationId == c ==> Idle(s, c)
  }

  /** The run handles the correlation's deliveries one at a time; other correlations are free. */
  predicate Serial(s: State, actions: seq<Action>, c: string)
    requires Runs(s, actions)
    decreases |actions|
  {
    actions == [] || (OneAtATime(s, actions[0], c) && Serial(Step(s, actions[0]), actions[1..], c))
  }

  // ---------- the handler is one path through the machine ----------

  /** The steps one call of the handler takes, given the saved state it finds and the faults it meets. */
  function StepsOf(found: SagaState, env: Envelope, faults: SagaFaults, r: nat, readyId: string): seq<Action> {
    if faults.find then []
    else if found.completed then [Start(r, env)]
    else if faults.saveFlags then [Start(r, env), Drop(r)]
    else if !BothMet(Flagged(found, env.topic)) then [Start(r, env), SaveFlags(r)]
    else if faults.saveCompletion then [Start(r, env), SaveFlags(r), Drop(r)]
    else [Start(r, env), SaveFlags(r), SaveCompletion(r), if faults.publish then Drop(r) else Publish(r, readyId)]
  }

  lemma RunsFrom(s: State, a: Action, rest: seq<Action>)
    ensures Runs(s, [a] + rest) <==> Enabled(s, a) && Runs(Step(s, a), rest)
    ensures Runs(s, [a] + rest) ==> Run(s, [a] + rest) == Run(Step(s, a), rest)
  {
    assert ([a] + rest)[1..] == rest;
  }

  lemma RunsTwo(s: State, a: Action, b: Action)
    requires Enabled(s, a) && Enabled(Step(s, a), b)
    ensures Runs(s, [a, b]) && Run(s, [a, b]) == Step(Step(s, a), b)
  {
    RunsFrom(s, a, [b]);
    RunsFrom(Step(s, a), b, []);
  }

  lemma RunsFour(s: State, a: Action, b: Action, c: Action, d: Action)
    requires Enabled(s, a) && Enabled(Step(s, a), b) && Enabled(Step(Step(s, a), b), c)
    requires Enabled(Step(Step(Step(s, a), b), c), d)
    ensures Runs(s, [a, b, c, d]) && Run(s, [a, b, c, d]) == Step(Step(Step(Step(s, a), b), c), d)
  {
    RunsFrom(s, a, [b, c, d]);
    RunsFrom(Step(s, a), b, [c, d]);
    RunsTwo(Step(Step(s, a), b), c, d);
  }

  /** The machine run does what the handler call does. */
  ghost predicate SameEffect(s: State, steps: seq<Action>, h: Handling) {
    && Runs(s, steps)
    && (forall c :: Lookup(Run(s, steps).states, c) == Lookup(h.states, c))
    && Run(s, steps).published == s.published + h.published
    && Run(s, steps).active == s.active
  }

  lemma CompletingHandlerTakesItsSteps(s: State, env: Envelope, faults: SagaFaults, r: nat, readyId: string)
    requires r !in s.begun && r !in s.active
    requires !faults.find && !faults.saveFlags && !faults.saveCompletion
    requires !Lookup(s.states, env.correlationId).completed
    requires BothMet(Flagged(Lookup(s.states, env.correlationId), env.topic))
    ensures SameEffect(s, StepsOf(Lookup(s.states, env.correlationId), env, faults, r, readyId),
                       Handled(s.states, env, faults, readyId))
  {
    RunsFour(s, Start(r, env), SaveFlags(r), SaveCompletion(r),
             if faults.publish then Drop(r) else Publish(r, readyId));
  }

  /**
   * Calling the handler, with any faults, has exactly the effect of its steps in the machine:
   * the same saved state for every correlation and the same published events.
   */
  lemma HandlerTakesItsSteps(s: State, env: Envelope, faults: SagaFaults, r: nat, readyId: string)
    requires r !in s.begun && r !in s.active
    ensures SameEffect(s, StepsOf(Lookup(s.states, env.correlationId), env, faults, r, readyId),
                       Handled(s.states, env, faults, readyId))
  {
    var found := Lookup(s.states, env.correlationId);
    var start := Start(r, env);
    if faults.find {
    } else if found.completed {
      RunsFrom(s, start, []);
    } else if faults.saveFlags {
      RunsTwo(s, start, Drop(r));
    } else if !BothMet(Flagged(found, env.topic)) {
      RunsTwo(s, start, SaveFlags(r));
    } else if faults.saveCompletion {
      RunsFrom(s, start, [SaveFlags(r), Drop(r)]);
      RunsTwo(Step(s, start), SaveFlags(r), Drop(r));
    } else {
      CompletingHandlerTakesItsSteps(s, env, faults, r, readyId);
    }
  }

  /**
   * The handler reports success, so that the bus acknowledges, exactly when it could look the
   * state up and no later call of its path failed. It announces exactly on the path that ends in
   * a publication, with the given id and the delivery's correlation and id.
   */
  lemma HandlerReports(found: States, env: Envelope, faults: SagaFaults, r: nat, readyId: string)
    ensures var h := Handled(found, env, faults, readyId);
      var steps := StepsOf(Lookup(found, env.correlationId), env, faults, r, readyId);
      && (h.ok <==> !faults.find && Drop(r) !in steps)
      && h.published == if Publish(r, readyId) in steps
                        then [Envelope(readyId, env.correlationId, env.eventId, FulfillmentReady, OtherPayload)]
                        else []
  {
  }

  // ---------- flags come from deliveries ----------

  ghost predicate Backed(handled: set<(string, Topic)>, c: string, state: SagaState) {
    && (state.loyaltyCredited ==> (c, LoyaltyCredited) in handled)
    && (state.inventoryReserved ==> (c, StockReserved) in handled)
  }

  /** Flags, saved or in memory, come from deliveries; completion and ready events from both flags. */
  ghost predicate FlagsBacked(s: State) {
    && (forall c <- s.states :: Backed(s.handled, c, s.states[c]))
    && (forall r <- s.active :: Backed(s.handled, s.active[r].env.correlationId, s.active[r].state))
    && (forall r <- s.active :: !s.active[r].phase.SavingFlags? ==> BothMet(s.active[r].state))
    && (forall env <- s.published ::
          (env.correlationId, LoyaltyCredited) in s.handled && (env.correlationId, StockReserved) in s.handled)
  }

  /** This needs no serialisation: even overlapping deliveries never publish without both prerequisites. */
  lemma StepKeepsFlagsBacked(s: State, a: Action)
    requires Enabled(s, a) && FlagsBacked(s)
    ensures FlagsBacked(Step(s, a))
  {
    var s' := Step(s, a);
    assert s.handled <= s'.handled;
  }

  // ---------- conservation ----------

  function ReadyCount(published: seq<Envelope>, correlationId: string): nat {
    if published == [] then 0
    else ReadyCount(published[..|published| - 1], correlationId) +
         if published[|published| - 1].correlationId == correlationId then 1 else 0
  }

  function LostCount(lost: seq<string>, correlationId: string): nat {
    if lost == [] then 0
    else LostCount(lost[..|lost| - 1], correlationId) + if lost[|lost| - 1] == correlationId then 1 else 0
  }

  ghost function PendingCount(s: State, correlationId: string): nat {
    if exists r <- s.active :: s.active[r].env.correlationId == correlationId && s.active[r].phase.Publishing?
    then 1 else 0
  }

  /** What a delivery holds in memory agrees with the saved state of its correlation. */
  predicate InStep(s: State, r: nat)
    requires r in s.active
  {
    var d := s.active[r];
    var saved := Lookup(s.states, d.env.correlationId);
    match d.phase
    case SavingFlags => !saved.completed && d.state == Flagged(saved, d.env.topic)
    case SavingCompletion => saved == d.state && BothMet(saved) && !saved.completed
    case Publishing => saved == d.state && BothMet(saved) && saved.completed
  }

  /** The correlation has at most one delivery in progress, in step with its saved state. */
  ghost predicate Exclusive(s: State, c: string) {
    && (forall r, q | r in s.active && q in s.active ::
          s.active[r].env.correlationId == c && s.active[q].env.correlationId == c ==> r == q)
    && (forall r <- s.active :: s.active[r].env.correlationId == c ==> InStep(s, r))
    && (Lookup(s.states, c).completed ==> BothMet(Lookup(s.states, c)))
  }

  /** Completed exactly when its ready event is published, lost, or about to be published; never twice. */
  ghost predicate Conserved(s: State, c: string) {
    ReadyCount(s.published, c) + LostCount(s.lost, c) + PendingCount(s, c)
      == if Lookup(s.states, c).completed then 1 else 0
  }

  /** The correlation an action works on. */
  function Target(s: State, a: Action): string
    requires Enabled(s, a)
  {
    if a.Start? then a.env.correlationId else s.active[a.r].env.correlationId
  }

  /** Nothing about the correlation differs between the two states. */
  ghost predicate Untouched(s: State, s': State, c: string) {
    && Lookup(s'.states, c) == Lookup(s.states, c)
    && ReadyCount(s'.published, c) == ReadyCount(s.published, c)
    && LostCount(s'.lost, c) == LostCount(s.lost, c)
    && Joined(s'.handled, c) == Joined(s.handled, c)
    && (forall r <- s.active :: s.active[r].env.correlationId == c ==> r in s'.active && s'.active[r] == s.active[r])
    && (forall r <- s'.active :: s'.active[r].env.correlationId == c ==> r in s.active && s'.active[r] == s.active[r])
  }

  lemma ReadyCountAppend(published: seq<Envelope>, env: Envelope, c: string)
    ensures ReadyCount(published + [env], c) == ReadyCount(published, c) + if env.correlationId == c then 1 else 0
  {
    assert (published + [env])[..|published|] == published;
  }

  lemma LostCountAppend(lost: seq<string>, d: string, c: string)
    ensures LostCount(lost + [d], c) == LostCount(lost, c) + if d == c then 1 else 0
  {
    assert (lost + [d])[..|lost|] == lost;
  }

  lemma StepCountsReady(s: State, a: Action, c: string)
    requires Enabled(s, a)
    ensures ReadyCount(Step(s, a).published, c) == ReadyCount(s.published, c) +
      if a.Publish? && Target(s, a) == c then 1 else 0
  {
    if a.Publish? {
      ReadyCountAppend(s.published, ReadyEnvelope(s.active[a.r].env, a.eventId), c);
    }
  }

  lemma StepCountsLost(s: State, a: Action, c: string)
    requires Enabled(s, a)
    ensures LostCount(Step(s, a).lost, c) == LostCount(s.lost, c) +
      if a.Drop? && s.active[a.r].phase.Publishing? && Target(s, a) == c then 1 else 0
  {
    if a.Drop? {
      LostCountAppend(s.lost, s.active[a.r].env.correlationId, c);
    }
  }

  lemma OtherCorrelationsUntouched(s: State, a: Action, c: string)
    requires Enabled(s, a) && Target(s, a) != c
    ensures Untouched(s, Step(s, a), c)
  {
    StepCountsReady(s, a, c);
    StepCountsLost(s, a, c);
  }

  lemma UntouchedStaysExclusive(s: State, s': State, c: string)
    requires Untouched(s, s', c) && Exclusive(s, c)
    ensures Exclusive(s', c)
  {
    forall r | r in s'.active && s'.active[r].env.correlationId == c ensures InStep(s', r) {
      assert InStep(s, r);
    }
  }

  lemma StepKeepsExclusive(s: State, a: Action, c: string)
    requires Enabled(s, a) && OneAtATime(s, a, c) && Exclusive(s, c)
    ensures Exclusive(Step(s, a), c)
  {
    if Target(s, a) != c {
      OtherCorrelationsUntouched(s, a, c);
      UntouchedStaysExclusive(s, Step(s, a), c);
    } else if !a.Start? {
      assert InStep(s, a.r);
    }
  }

  lemma StepKeepsConserved(s: State, a: Action, c: string)
    requires Enabled(s, a) && OneAtATime(s, a, c) && Exclusive(s, c) && Conserved(s, c)
    ensures Conserved(Step(s, a), c)
  {
    var s' := Step(s, a);
    if Target(s, a) != c {
      OtherCorrelationsUntouched(s, a, c);
      assert PendingCount(s', c) == PendingCount(s, c);
    } else {
      StepCountsReady(s, a, c);
      StepCountsLost(s, a, c);
      if !a.Start? {
        assert InStep(s, a.r);
        assert PendingCount(s, c) == if s.active[a.r].phase.Publishing? then 1 else 0;
        assert a.SaveCompletion? ==> a.r in s'.active && s'.active[a.r].phase.Publishing?;
        assert PendingCount(s', c) == if a.SaveCompletion? then 1 else 0;
      }
    }
  }

  /** Flags and completion never revert. */
  predicate Grown(before: SagaState, after: SagaState) {
    && (before.loyaltyCredited ==> after.loyaltyCredited)
    && (before.inventoryReserved ==> after.inventoryReserved)
    && (before.completed ==> after.completed)
  }

  lemma StepGrows(s: State, a: Action, c: string)
    requires Enabled(s, a) && Exclusive(s, c)
    ensures Grown(Lookup(s.states, c), Lookup(Step(s, a).states, c))
  {
    if !a.Start? && Target(s, a) == c {
      assert InStep(s, a.r);
    }
  }

  /**
   * In every run that handles the correlation's deliveries one at a time, with duplicates, failed
   * saves, failed publishes and crashes: ready events published plus ready events lost plus those
   * about to be published is 1 if the saga is completed and 0 if not; a completed saga has both
   * flags; and neither flags nor completion ever revert.
   */
  lemma {:induction false} ReadyEventsAreConserved(s: State, actions: seq<Action>, c: string)
    requires Exclusive(s, c) && Conserved(s, c)
    requires Runs(s, actions) && Serial(s, actions, c)
    ensures var s' := Run(s, actions);
      && Exclusive(s', c) && Conserved(s', c)
      && Grown(Lookup(s.states, c), Lookup(s'.states, c))
      && (Lookup(s'.states, c).completed ==> BothMet(Lookup(s'.states, c)))
    decreases |actions|
  {
    if actions != [] {
      StepKeepsExclusive(s, actions[0], c);
      StepKeepsConserved(s, actions[0], c);
      StepGrows(s, actions[0], c);
      ReadyEventsAreConserved(Step(s, actions[0]), actions[1..], c);
    }
  }

  // ---------- confluence ----------

  /** The state a correlation should end in, as a function of what was delivered for it. */
  function Joined(handled: set<(string, Topic)>, c: string): SagaState {
    var credited := (c, LoyaltyCredited) in handled;
    var reserved := (c, StockReserved) in handled;
    SagaState(credited, reserved, credited && reserved)
  }

  lemma JoinedAfter(handled: set<(string, Topic)>, c: string, topic: Topic)
    ensures var before, after := Joined(handled, c), Joined(handled + {(c, topic)}, c);
      after == Flagged(before, topic).(completed := after.completed)
  {
  }

  /** Fault-free progress of the correlation: each phase is a known distance from the joined state. */
  ghost predicate OnCourse(s: State, c: string) {
    var goal := Joined(s.handled, c);
    && (forall r <- s.active :: s.active[r].env.correlationId == c ==>
          && ReadyCount(s.published, c) == 0
          && s.active[r].state.(completed := goal.completed) == goal
          && (!s.active[r].phase.SavingFlags? ==> goal.completed))
    && (Idle(s, c) ==>
          && Lookup(s.states, c) == goal
          && ReadyCount(s.published, c) == if goal.completed then 1 else 0)
  }

  lemma UntouchedStaysOnCourse(s: State, s': State, c: string)
    requires Untouched(s, s', c) && OnCourse(s, c)
    ensures OnCourse(s', c)
  {
  }

  lemma StartStaysOnCourse(s: State, a: Action, c: string)
    requires Enabled(s, a) && a.Start? && a.env.correlationId == c && Idle(s, c)
    requires Exclusive(s, c) && OnCourse(s, c)
    ensures OnCourse(Step(s, a), c)
  {
    JoinedAfter(s.handled, c, a.env.topic);
    var s' := Step(s, a);
    if !Lookup(s.states, c).completed {
      assert a.r in s'.active;
    }
  }

  lemma StepStaysOnCourse(s: State, a: Action, c: string)
    requires Enabled(s, a) && OneAtATime(s, a, c) && !a.Drop?
    requires Exclusive(s, c) && OnCourse(s, c)
    ensures OnCourse(Step(s, a), c)
  {
    if Target(s, a) != c {
      OtherCorrelationsUntouched(s, a, c);
      UntouchedStaysOnCourse(s, Step(s, a), c);
    } else if a.Start? {
      StartStaysOnCourse(s, a, c);
    } else {
      StepCountsReady(s, a, c);
      assert InStep(s, a.r);
      var d, s' := s.active[a.r], Step(s, a);
      assert (a.SaveFlags? && BothMet(d.state)) || a.SaveCompletion? ==> a.r in s'.active;
    }
  }

  predicate NoFaults(actions: seq<Action>) {
    forall a <- actions :: !a.Drop?
  }

  lemma {:induction false} RunsStayOnCourse(s: State, actions: seq<Action>, c: string)
    requires Exclusive(s, c) && OnCourse(s, c)
    requires Runs(s, actions) && Serial(s, actions, c) && NoFaults(actions)
    ensures OnCourse(Run(s, actions), c)
    decreases |actions|
  {
    if actions != [] {
      assert actions[0] in actions;
      StepKeepsExclusive(s, actions[0], c);
      StepStaysOnCourse(s, actions[0], c);
      RunsStayOnCourse(Step(s, actions[0]), actions[1..], c);
    }
  }

  /**
   * Any two fault-free runs that deliver the same (correlation, topic) pairs, in any order, with
   * any duplicates and any interleaving of the steps of different correlations, end with the same
   * saved state and the same number of ready events for each correlation handled one delivery at
   * a time: one ready event if both prerequisites were delivered for it, none otherwise.
   */
  lemma SameDeliveriesSameJoins(actions: seq<Action>, actions': seq<Action>, c: string)
    requires Runs(INITIAL, actions) && Serial(INITIAL, actions, c) && NoFaults(actions)
    requires Runs(INITIAL, actions') && Serial(INITIAL, actions', c) && NoFaults(actions')
    requires Idle(Run(INITIAL, actions), c) && Idle(Run(INITIAL, actions'), c)
    requires Run(INITIAL, actions).handled == Run(INITIAL, actions').handled
    ensures var s, s' := Run(INITIAL, actions), Run(INITIAL, actions');
      && Lookup(s.states, c) == Lookup(s'.states, c) == Joined(s.handled, c)
      && ReadyCount(s.published, c) == ReadyCount(s'.published, c)
      && (ReadyCount(s.published, c) == 1 <==> (c, LoyaltyCredited) in s.handled && (c, StockReserved) in s.handled)
  {
    RunsStayOnCourse(INITIAL, actions, c);
    RunsStayOnCourse(INITIAL, actions', c);
  }

  // ---------- two deliveries that nothing keeps apart ----------

  lemma {:induction false} RunsSnoc(s: State, actions: seq<Action>, a: Action)
    requires Runs(s, actions + [a])
    ensures Runs(s, actions) && Enabled(Run(s, actions), a)
    ensures Run(s, actions + [a]) == Step(Run(s, actions), a)
    decreases |actions|
  {
    var all := actions + [a];
    if actions == [] {
      assert all == [a] + [];
      RunsFrom(s, a, []);
    } else {
      assert all[0] == actions[0] && all[1..] == actions[1..] + [a];
      RunsSnoc(Step(s, actions[0]), actions[1..], a);
    }
  }

  /** One of the two prerequisites. */
  predicate IsPrerequisite(topic: Topic) {
    topic == LoyaltyCredited || topic == StockReserved
  }

  /** Delivery r brings one prerequisite of the correlation. */
  datatype Part = Part(r: nat, topic: Topic)

  /** Two deliveries bring the two prerequisites of the correlation. */
  predicate IsPair(x: Part, y: Part) {
    x.r != y.r && x.topic != y.topic && IsPrerequisite(x.topic) && IsPrerequisite(y.topic)
  }

  /** Of the deliveries that start, exactly x and y belong to the correlation. */
  predicate StartsPart(a: Action, c: string, x: Part, y: Part) {
    a.Start? ==>
      && (a.env.correlationId == c <==> a.r == x.r || a.r == y.r)
      && (a.r == x.r ==> a.env.topic == x.topic)
      && (a.r == y.r ==> a.env.topic == y.topic)
  }

  predicate OnlyPair(actions: seq<Action>, c: string, x: Part, y: Part) {
    forall a <- actions :: StartsPart(a, c, x, y)
  }

  /** The first delivery saves its flag before the second one starts. */
  predicate SavesBeforeStart(actions: seq<Action>, first: nat, second: nat) {
    exists i, j :: 0 <= i < j < |actions| &&
      actions[i] == SaveFlags(first) && actions[j].Start? && actions[j].r == second
  }

  lemma SavesBeforeStartSnoc(actions: seq<Action>, a: Action, first: nat, second: nat)
    ensures SavesBeforeStart(actions + [a], first, second) <==>
            SavesBeforeStart(actions, first, second) ||
            (a.Start? && a.r == second && SaveFlags(first) in actions)
  {
    var all := actions + [a];
    if a.Start? && a.r == second && SaveFlags(first) in actions {
      var i :| 0 <= i < |actions| && actions[i] == SaveFlags(first);
      assert all[i] == SaveFlags(first) && all[|actions|] == a;
    }
    if SavesBeforeStart(actions, first, second) {
      var i, j :| 0 <= i < j < |actions| &&
        actions[i] == SaveFlags(first) && actions[j].Start? && actions[j].r == second;
      assert all[i] == actions[i] && all[j] == actions[j];
    }
  }

  /** The delivery has saved its flag. */
  predicate Saved(s: State, r: nat) {
    r in s.begun && r !in s.active
  }

  /** In progress with nothing but its own flag, which it has not saved. */
  predicate Early(s: State, x: Part) {
    x.r in s.active ==> s.active[x.r].phase.SavingFlags? && s.active[x.r].state == Flagged(FRESH, x.topic)
  }

  /** The active deliveries of the correlation are x and y. */
  ghost predicate Members(s: State, c: string, x: Part, y: Part) {
    && (forall r <- s.active :: s.active[r].env.correlationId == c <==> r == x.r || r == y.r)
    && (forall r <- s.active :: r in s.begun)
  }

  /** Neither delivery started after the other saved: the saved state has at most one flag. */
  ghost predicate Overlapping(s: State, c: string, x: Part, y: Part) {
    var saved := Lookup(s.states, c);
    && Early(s, x) && Early(s, y) && ReadyCount(s.published, c) == 0
    && (!Saved(s, x.r) && !Saved(s, y.r) ==> saved == FRESH)
    && (Saved(s, x.r) && !Saved(s, y.r) ==> saved == Flagged(FRESH, x.topic))
    && (!Saved(s, x.r) && Saved(s, y.r) ==> saved == Flagged(FRESH, y.topic))
    && (Saved(s, x.r) && Saved(s, y.r) ==> saved == Flagged(FRESH, x.topic) || saved == Flagged(FRESH, y.topic))
  }

  const JOINED := SagaState(true, true, false)

  /** The second delivery started after the first saved, and completes the join. */
  ghost predicate InTurn(s: State, c: string, first: nat, second: nat) {
    var saved := Lookup(s.states, c);
    && Saved(s, first) && second in s.begun
    && (second in s.active ==>
        var d := s.active[second];
        && ReadyCount(s.published, c) == 0
        && match d.phase
           case SavingFlags => d.state == JOINED && !saved.completed
           case SavingCompletion => d.state == JOINED && saved == JOINED
           case Publishing => saved.completed)
    && (second !in s.active ==> saved.completed && ReadyCount(s.published, c) == 1)
  }

  /** The two deliveries and their correlation look the same in both states. */
  ghost predicate SamePair(s: State, s': State, c: string, x: Part, y: Part) {
    && Lookup(s'.states, c) == Lookup(s.states, c) && ReadyCount(s'.published, c) == ReadyCount(s.published, c)
    && (x.r in s'.begun <==> x.r in s.begun) && (y.r in s'.begun <==> y.r in s.begun)
    && (x.r in s'.active <==> x.r in s.active) && (x.r in s.active ==> s'.active[x.r] == s.active[x.r])
    && (y.r in s'.active <==> y.r in s.active) && (y.r in s.active ==> s'.active[y.r] == s.active[y.r])
  }

  lemma OtherStepKeepsMembers(s: State, a: Action, c: string, x: Part, y: Part)
    requires Enabled(s, a) && Target(s, a) != c && StartsPart(a, c, x, y) && Members(s, c, x, y)
    ensures Members(Step(s, a), c, x, y) && SamePair(s, Step(s, a), c, x, y)
  {
    StepCountsReady(s, a, c);
  }

  lemma OtherStepKeepsPair(s: State, a: Action, c: string, x: Part, y: Part)
    requires Enabled(s, a) && Target(s, a) != c && StartsPart(a, c, x, y) && Members(s, c, x, y)
    ensures Members(Step(s, a), c, x, y)
    ensures SamePair(s, Step(s, a), c, x, y)
    ensures Overlapping(s, c, x, y) ==> Overlapping(Step(s, a), c, x, y)
    ensures InTurn(s, c, x.r, y.r) ==> InTurn(Step(s, a), c, x.r, y.r)
  {
    OtherStepKeepsMembers(s, a, c, x, y);
  }

  lemma StartFromOverlap(s: State, a: Action, c: string, x: Part, y: Part)
    requires Enabled(s, a) && a.Start? && a.r == y.r && Target(s, a) == c && StartsPart(a, c, x, y)
    requires IsPair(x, y) && Members(s, c, x, y) && Overlapping(s, c, x, y)
    ensures Members(Step(s, a), c, x, y)
    ensures if Saved(s, x.r) then InTurn(Step(s, a), c, x.r, y.r) else Overlapping(Step(s, a), c, x, y)
  {
  }

  lemma SaveFromOverlap(s: State, a: Action, c: string, x: Part, y: Part)
    requires Enabled(s, a) && !a.Start? && !a.Drop? && a.r == y.r && Target(s, a) == c
    requires IsPair(x, y) && Members(s, c, x, y) && Overlapping(s, c, x, y)
    ensures a == SaveFlags(y.r)
    ensures Members(Step(s, a), c, x, y) && Overlapping(Step(s, a), c, x, y)
    ensures !Saved(s, y.r) && Saved(Step(s, a), y.r) && (Saved(Step(s, a), x.r) <==> Saved(s, x.r))
  {
  }

  lemma StepInTurn(s: State, a: Action, c: string, x: Part, y: Part)
    requires Enabled(s, a) && !a.Drop? && Target(s, a) == c && StartsPart(a, c, x, y)
    requires IsPair(x, y) && Members(s, c, x, y) && InTurn(s, c, x.r, y.r)
    ensures Members(Step(s, a), c, x, y) && InTurn(Step(s, a), c, x.r, y.r)
  {
    StepCountsReady(s, a, c);
  }

  /** What the run so far says about the two deliveries. */
  ghost predicate PairSoFar(s: State, actions: seq<Action>, c: string, x: Part, y: Part) {
    && Members(s, c, x, y)
    && (SavesBeforeStart(actions, x.r, y.r) ==> InTurn(s, c, x.r, y.r))
    && (SavesBeforeStart(actions, y.r, x.r) ==> InTurn(s, c, y.r, x.r))
    && (!SavesBeforeStart(actions, x.r, y.r) && !SavesBeforeStart(actions, y.r, x.r) ==>
        && Overlapping(s, c, x, y)
        && (SaveFlags(x.r) in actions <==> Saved(s, x.r))
        && (SaveFlags(y.r) in actions <==> Saved(s, y.r)))
  }

  lemma PairStep(s: State, actions: seq<Action>, a: Action, c: string, x: Part, y: Part)
    requires IsPair(x, y) && Enabled(s, a) && !a.Drop? && StartsPart(a, c, x, y)
    requires PairSoFar(s, actions, c, x, y)
    ensures PairSoFar(Step(s, a), actions + [a], c, x, y)
  {
    SavesBeforeStartSnoc(actions, a, x.r, y.r);
    SavesBeforeStartSnoc(actions, a, y.r, x.r);
    if Target(s, a) != c {
      OtherStepKeepsPair(s, a, c, x, y);
      OtherStepKeepsPair(s, a, c, y, x);
    } else if SavesBeforeStart(actions, x.r, y.r) {
      StepInTurn(s, a, c, x, y);
    } else if SavesBeforeStart(actions, y.r, x.r) {
      StepInTurn(s, a, c, y, x);
    } else if a.Start? {
      if a.r == y.r { StartFromOverlap(s, a, c, x, y); } else { StartFromOverlap(s, a, c, y, x); }
    } else {
      if a.r == y.r { SaveFromOverlap(s, a, c, x, y); } else { SaveFromOverlap(s, a, c, y, x); }
    }
  }

  lemma {:induction false} PairRuns(actions: seq<Action>, c: string, x: Part, y: Part)
    requires IsPair(x, y) && Runs(INITIAL, actions) && NoFaults(actions) && OnlyPair(actions, c, x, y)
    ensures PairSoFar(Run(INITIAL, actions), actions, c, x, y)
  {
    if actions != [] {
      var before, a := actions[..|actions| - 1], actions[|actions| - 1];
      assert actions == before + [a] && a in actions;
      RunsSnoc(INITIAL, before, a);
      PairRuns(before, c, x, y);
      PairStep(Run(INITIAL, before), before, a, c, x, y);
    }
  }

  /**
   * Over all fault-free interleavings of one credit and one reservation delivery of a correlation,
   * with any deliveries of other correlations between their steps: the join completes, and is
   * announced once, if and only if one delivery starts after the other has saved its flag.
   * Otherwise the later save overwrites the earlier flag.
   */
  lemma JoinCompletesIff(actions: seq<Action>, c: string, r: nat, q: nat)
    requires r != q && Runs(INITIAL, actions) && NoFaults(actions)
    requires OnlyPair(actions, c, Part(r, LoyaltyCredited), Part(q, StockReserved))
    requires var s := Run(INITIAL, actions); r in s.begun && q in s.begun && Idle(s, c)
    ensures var s := Run(INITIAL, actions);
      && (Lookup(s.states, c).completed <==> SavesBeforeStart(actions, r, q) || SavesBeforeStart(actions, q, r))
      && ReadyCount(s.published, c) == (if Lookup(s.states, c).completed then 1 else 0)
      && (!Lookup(s.states, c).completed ==>
          Lookup(s.states, c) in {Flagged(FRESH, LoyaltyCredited), Flagged(FRESH, StockReserved)})
  {
    PairRuns(actions, c, Part(r, LoyaltyCredited), Part(q, StockReserved));
  }

  /**
   * Such a run exists: both deliveries load the fresh state, and the credit's flag is lost. A
   * redelivery of the credit completes the join after all.
   */
  lemma OverlapLosesAFlag(credit: Envelope, reserve: Envelope, r: nat, q: nat, readyId: string)
    requires r != q && credit.correlationId == reserve.correlationId
    requires credit.topic == LoyaltyCredited && reserve.topic == StockReserved
    ensures var steps := [Start(r, credit), Start(q, reserve), SaveFlags(r), SaveFlags(q)];
      && Runs(INITIAL, steps)
      && var s := Run(INITIAL, steps);
         && s.active == map[] && s.published == []
         && Lookup(s.states, credit.correlationId) == Flagged(FRESH, StockReserved)
         && Handled(s.states, credit, SagaFaults(false, false, false, false), readyId).published ==
              [ReadyEnvelope(credit, readyId)]
  {
    RunsFour(INITIAL, Start(r, credit), Start(q, reserve), SaveFlags(r), SaveFlags(q));
  }
}
