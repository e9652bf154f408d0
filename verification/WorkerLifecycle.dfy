/**
 * Workers over whole runs of the master: handshakes, the registration loop, broadcasts to
 * snapshots of the registry, shutdowns and eliminations. A broadcast looks at a worker's status
 * and writes to it in two steps, and other goroutines may act in between.
 */
module WorkerLifecycle {
  import opened Registries

  /**
   * A worker client; `started` records that its Start succeeded, `sent` the visits that wrote to
   * it. Each disconnection queues a shutdown message, sent later by a goroutine of its own:
   * `queued` of them are waiting, `notices` were written.
   */
  datatype Client = Client(
    pid: int, status: ClientState, started: bool, sent: seq<nat>, queued: nat, notices: nat)
  {
    function Down(): Client {
      this.(status := Disconnected, queued := queued + 1)
    }
  }

  /** A broadcast's visit to one client. */
  datatype Visit = Visit(client: nat, msg: Message)

  /**
   * All clients ever connected, the registry by pid, whether the registration loop still runs, the
   * visits that have looked and will write, and the numbers of all visits so far.
   */
  datatype State = State(
    clients: map<nat, Client>, conns: map<int, nat>, registering: bool, looking: map<nat, Visit>, visits: set<nat>)

  const INITIAL := State(map[], map[], true, map[], {})

  datatype Action =
    | Connect(id: nat, pid: int)
    | Register(id: nat, ok: bool)
    | Look(v: nat, visit: Visit)
    | Write(v: nat, ok: bool)
    | Stop(id: nat)
    | Notify(id: nat, ok: bool)
    | Eliminate(pid: int)

  /** A broadcast may work on an old snapshot of the registry, so it may visit any started client. */
  predicate Enabled(s: State, a: Action) {
    match a
    case Connect(id, _) => id !in s.clients
    case Register(id, _) => s.registering && id in s.clients && s.clients[id].status == Connecting
    case Look(v, visit) => v !in s.visits && visit.client in s.clients && s.clients[visit.client].started
    case Write(v, _) => v in s.looking && s.looking[v].client in s.clients
    case Stop(id) => id in s.clients && s.clients[id].started
    case Notify(id, _) => id in s.clients && s.clients[id].queued > 0
    case Eliminate(pid) =>
      pid in s.conns && s.conns[pid] in s.clients && s.clients[s.conns[pid]].status == Disconnected
  }

  function Step(s: State, a: Action): State
    requires Enabled(s, a)
  {
    match a
    case Connect(id, pid) => s.(clients := s.clients[id := Client(pid, Connecting, false, [], 0, 0)])
    case Register(id, ok) =>
      var c := s.clients[id].(status := Connected);
      if ok
      then s.(clients := s.clients[id := c.(started := true)], conns := s.conns[c.pid := id])
      else s.(clients := s.clients[id := c], registering := false)
    case Look(v, visit) =>
      var s := s.(visits := s.visits + {v});
      if s.clients[visit.client].status == Disconnected then s else s.(looking := s.looking[v := visit])
    case Write(v, ok) =>
      var id := s.looking[v].client;
      var c := s.clients[id];
      var c := if ok then c.(sent := c.sent + [v]) else c.Down();
      s.(clients := s.clients[id := c], looking := s.looking - {v})
    case Stop(id) => s.(clients := s.clients[id := s.clients[id].Down()])
    case Notify(id, ok) =>
      var c := s.clients[id];
      s.(clients := s.clients[id := c.(queued := c.queued - 1, notices := c.notices + if ok then 1 else 0)])
    case Eliminate(pid) => s.(conns := s.conns - {pid})
  }

  predicate Runs(s: State, actions: seq<Action>)
    decreases |actions|
  {
    actions == [] || (Enabled(s, actions[0]) && Runs(Step(s, actions[0]), actions[1..]))
  }

  function Run(s: State, actions: seq<Action>): State
    requires Runs(s, actions)
    decreases |actions|
  {
    if actions == [] then s else Run(Step(s, actions[0]), actions[1..])
  }

  /**
   * Entries are keyed by the pid of a client whose start succeeded; only such clients disconnect,
   * and only disconnected clients are told to shut down.
   */
  ghost predicate Registered(s: State) {
    && (forall pid <- s.conns ::
          s.conns[pid] in s.clients && s.clients[s.conns[pid]].pid == pid && s.clients[s.conns[pid]].started)
    && (forall id <- s.clients :: Sane(s.clients[id]))
  }

  predicate Sane(c: Client) {
    && (c.started ==> c.status != Connecting)
    && (c.status == Disconnected ==> c.started)
    && (c.queued + c.notices > 0 ==> c.status == Disconnected)
  }

  predicate Wrote(s: State, id: nat, v: nat) {
    id in s.clients && v in s.clients[id].sent
  }

  /** A visit writes after it has looked, and once. */
  ghost predicate Visited(s: State) {
    && (forall v <- s.looking ::
          v in s.visits && s.looking[v].client in s.clients && s.clients[s.looking[v].client].started)
    && (forall id, v | Wrote(s, id, v) :: v in s.visits && v !in s.looking)
  }

  ghost predicate Sound(s: State) {
    Registered(s) && Visited(s)
  }

  predicate IsDown(s: State, id: nat) {
    id in s.clients && s.clients[id].status == Disconnected
  }

  /** The visit wrote to the client between the two states. */
  predicate SentSince(s: State, s': State, id: nat, v: nat) {
    Wrote(s', id, v) && !Wrote(s, id, v)
  }

  /** The visit has looked at the client and not yet written to it. */
  predicate HasLooked(s: State, id: nat, v: nat) {
    v in s.looking && s.looking[v].client == id
  }

  /**
   * A disconnected client stays so; besides the shutdown messages, only visits that had looked
   * before still write to it.
   */
  ghost predicate StaysDown(s: State, s': State, id: nat) {
    IsDown(s, id) ==> IsDown(s', id) && forall v :: SentSince(s, s', id, v) ==> HasLooked(s, id, v)
  }

  lemma ClientsStaySane(s: State, a: Action, id: nat)
    requires Enabled(s, a) && Sound(s) && id in Step(s, a).clients
    ensures Sane(Step(s, a).clients[id])
    ensures id in s.clients ==>
      Step(s, a).clients[id].pid == s.clients[id].pid && (s.clients[id].started ==> Step(s, a).clients[id].started)
  {
    if id in s.clients {
      assert Sane(s.clients[id]);
    }
  }

  lemma StepKeepsRegistered(s: State, a: Action)
    requires Enabled(s, a) && Sound(s)
    ensures Registered(Step(s, a))
  {
    forall id | id in Step(s, a).clients ensures Sane(Step(s, a).clients[id]) {
      ClientsStaySane(s, a, id);
    }
    forall id | id in s.clients
      ensures id in Step(s, a).clients && Step(s, a).clients[id].pid == s.clients[id].pid
      ensures s.clients[id].started ==> Step(s, a).clients[id].started
    {
      ClientsStaySane(s, a, id);
    }
  }

  lemma WroteAfter(s: State, a: Action, id: nat, v: nat)
    requires Enabled(s, a)
    ensures Wrote(Step(s, a), id, v) <==>
            Wrote(s, id, v) || (a.Write? && a.ok && a.v == v && s.looking[v].client == id)
  {
  }

  lemma StepKeepsVisited(s: State, a: Action)
    requires Enabled(s, a) && Visited(s)
    ensures Visited(Step(s, a))
  {
    var s' := Step(s, a);
    forall id, v | Wrote(s', id, v) ensures v in s'.visits && v !in s'.looking {
      WroteAfter(s, a, id, v);
    }
  }

  lemma StepIsSound(s: State, a: Action)
    requires Enabled(s, a) && Sound(s)
    ensures Sound(Step(s, a))
  {
    StepKeepsRegistered(s, a);
    StepKeepsVisited(s, a);
  }

  lemma StepStaysDown(s: State, a: Action, id: nat)
    requires Enabled(s, a) && Sound(s) && IsDown(s, id)
    ensures IsDown(Step(s, a), id)
    ensures forall v :: SentSince(s, Step(s, a), id, v) ==> HasLooked(s, id, v)
    ensures forall v :: HasLooked(Step(s, a), id, v) ==> HasLooked(s, id, v)
  {
    forall v | SentSince(s, Step(s, a), id, v) ensures HasLooked(s, id, v) {
      WroteAfter(s, a, id, v);
    }
  }

  lemma {:induction false} RunsStaySound(s: State, actions: seq<Action>)
    requires Sound(s) && Runs(s, actions)
    ensures Sound(Run(s, actions))
    decreases |actions|
  {
    if actions != [] {
      StepIsSound(s, actions[0]);
      RunsStaySound(Step(s, actions[0]), actions[1..]);
    }
  }

  lemma {:induction false} RunsStayDown(s: State, actions: seq<Action>, id: nat)
    requires Sound(s) && Runs(s, actions)
    ensures StaysDown(s, Run(s, actions), id)
    decreases |actions|
  {
    if actions != [] && IsDown(s, id) {
      var s1 := Step(s, actions[0]);
      StepIsSound(s, actions[0]);
      StepStaysDown(s, actions[0], id);
      RunsStayDown(s1, actions[1..], id);
      var s' := Run(s, actions);
      forall v | SentSince(s, s', id, v) ensures HasLooked(s, id, v) {
        if !Wrote(s1, id, v) {
          assert SentSince(s1, s', id, v);
        } else {
          assert SentSince(s, s1, id, v);
        }
      }
    }
  }

  /**
   * At every point of every run, each registry entry is keyed by its worker's pid and that
   * worker's Start succeeded, and only disconnected workers are sent a shutdown message. A worker
   * disconnected at that point never becomes alive again.
   */
  lemma WorkersStayDown(before: seq<Action>, after: seq<Action>, id: nat)
    requires Runs(INITIAL, before) && Runs(Run(INITIAL, before), after)
    ensures Sound(Run(INITIAL, before))
    ensures StaysDown(Run(INITIAL, before), Run(Run(INITIAL, before), after), id)
  {
    RunsStaySound(INITIAL, before);
    RunsStayDown(Run(INITIAL, before), after, id);
  }

  lemma OneStep(s: State, a: Action)
    requires Enabled(s, a)
    ensures Runs(s, [a]) && Run(s, [a]) == Step(s, a)
  {
    assert [a][1..] == [];
    assert Run(Step(s, a), []) == Step(s, a);
  }

  /** Some continuation of the run writes the visit's message to the client. */
  ghost predicate MayBeSent(s: State, id: nat, v: nat) {
    exists after :: Runs(s, after) && SentSince(s, Run(s, after), id, v)
  }

  /**
   * A disconnected worker can still be sent a broadcast if and only if that broadcast looked at
   * it before it was disconnected.
   */
  lemma LateBroadcastIff(before: seq<Action>, id: nat, v: nat)
    requires Runs(INITIAL, before) && IsDown(Run(INITIAL, before), id)
    ensures MayBeSent(Run(INITIAL, before), id, v) <==> HasLooked(Run(INITIAL, before), id, v)
  {
    var s := Run(INITIAL, before);
    RunsStaySound(INITIAL, before);
    forall after | Runs(s, after) && SentSince(s, Run(s, after), id, v) ensures HasLooked(s, id, v) {
      RunsStayDown(s, after, id);
    }
    if HasLooked(s, id, v) {
      OneStep(s, Write(v, true));
      WroteAfter(s, Write(v, true), id, v);
      assert SentSince(s, Run(s, [Write(v, true)]), id, v);
    }
  }

  lemma RunsFrom(s: State, a: Action, rest: seq<Action>)
    ensures Runs(s, [a] + rest) <==> Enabled(s, a) && Runs(Step(s, a), rest)
    ensures Runs(s, [a] + rest) ==> Run(s, [a] + rest) == Run(Step(s, a), rest)
  {
    assert ([a] + rest)[1..] == rest;
  }

  /** It happens: the worker is shut down between a broadcast's look and its write. */
  lemma BroadcastArrivesLate(pid: int, msg: Message)
    ensures var steps := [Connect(0, pid), Register(0, true), Look(0, Visit(0, msg)), Stop(0)];
      && Runs(INITIAL, steps)
      && var s := Run(INITIAL, steps);
         && IsDown(s, 0) && Enabled(s, Write(0, true)) && SentSince(s, Step(s, Write(0, true)), 0, 0)
  {
    var s1 := Step(INITIAL, Connect(0, pid));
    var s2 := Step(s1, Register(0, true));
    var s3 := Step(s2, Look(0, Visit(0, msg)));
    RunsFrom(s3, Stop(0), []);
    RunsFrom(s2, Look(0, Visit(0, msg)), [Stop(0)]);
    RunsFrom(s1, Register(0, true), [Look(0, Visit(0, msg)), Stop(0)]);
    RunsFrom(INITIAL, Connect(0, pid), [Register(0, true), Look(0, Visit(0, msg)), Stop(0)]);
    WroteAfter(Step(s3, Stop(0)), Write(0, true), 0, 0);
  }

  /** What each step does to the registry: a successful start enters the worker, elimination removes it. */
  lemma RegistryAfter(s: State, a: Action)
    requires Enabled(s, a)
    ensures var conns' := Step(s, a).conns;
      && (a.Register? && a.ok ==>
          var pid := s.clients[a.id].pid;
          && pid in conns' && conns'[pid] == a.id
          && forall p :: p != pid ==> (p in conns' <==> p in s.conns) && (p in conns' ==> conns'[p] == s.conns[p]))
      && (a.Eliminate? ==> conns' == s.conns - {a.pid})
      && (!(a.Register? && a.ok) && !a.Eliminate? ==> conns' == s.conns)
  {
  }

  /** A worker that is stopped is told so: the message it queues can be written next. */
  lemma StopNotifies(s: State, id: nat)
    requires Enabled(s, Stop(id))
    ensures Enabled(Step(s, Stop(id)), Notify(id, true))
    ensures Step(Step(s, Stop(id)), Notify(id, true)).clients[id] ==
            s.clients[id].(status := Disconnected, notices := s.clients[id].notices + 1)
  {
  }

  lemma {:induction false} ClosedStaysClosed(s: State, actions: seq<Action>)
    requires !s.registering && Runs(s, actions)
    ensures forall pid <- Run(s, actions).conns :: pid in s.conns && Run(s, actions).conns[pid] == s.conns[pid]
    decreases |actions|
  {
    if actions != [] {
      ClosedStaysClosed(Step(s, actions[0]), actions[1..]);
    }
  }

  /** A start that fails ends the registration loop: no run after it registers another worker. */
  lemma FailedStartEndsRegistration(s: State, id: nat, actions: seq<Action>)
    requires Enabled(s, Register(id, false)) && Runs(Step(s, Register(id, false)), actions)
    ensures var s' := Run(Step(s, Register(id, false)), actions);
      forall pid <- s'.conns :: pid in s.conns && s'.conns[pid] == s.conns[pid]
  {
    ClosedStaysClosed(Step(s, Register(id, false)), actions);
  }
}
