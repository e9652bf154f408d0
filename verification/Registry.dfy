/**
 * The master's view of its workers: the client of each connected worker, broadcasting, and the
 * registry whose health round pings every worker and then removes the disconnected ones.
 */
module Registries {
  datatype Message = Ping | Drain | Shutdown | Chat(payload: string)

  datatype ClientState = Disconnected | Connected | Connecting

  class WorkerClient {
    const pid: int
    const hasConnection: bool
    var status: ClientState
    /** Frames written to the worker, oldest first. */
    var wire: seq<Message>
    /** Shutdown was called; its message is sent later, by another goroutine. */
    var shutdownQueued: bool

    constructor (pid: int, hasConnection: bool)
      ensures this.pid == pid && this.hasConnection == hasConnection
      ensures status == Connecting && wire == [] && !shutdownQueued
    {
      this.pid, this.hasConnection := pid, hasConnection;
      status, wire, shutdownQueued := Connecting, [], false;
    }

    method Send(msg: Message, writeFails: bool) returns (ok: bool)
      modifies this`wire
      ensures ok <==> hasConnection && !writeFails
      ensures wire == old(wire) + if ok then [msg] else []
    {
      if !hasConnection || writeFails {
        return false;
      }
      wire := wire + [msg];
      return true;
    }

    method ShutDown()
      modifies this`status, this`shutdownQueued
      ensures status == Disconnected
      ensures shutdownQueued == (old(shutdownQueued) || hasConnection)
    {
      status := Disconnected;
      if hasConnection {
        shutdownQueued := true;
      }
    }

    /** The status is Connected even when the first ping fails; the caller then drops the client. */
    method Start(writeFails: bool) returns (ok: bool)
      modifies this`status, this`wire
      ensures status == Connected
      ensures ok <==> hasConnection && !writeFails
      ensures wire == old(wire) + if ok then [Ping] else []
    {
      status := Connected;
      ok := Send(Ping, writeFails);
    }
  }

  /** A message written to the worker gets through. */
  predicate Reaches(w: WorkerClient, failing: set<int>) {
    w.hasConnection && w.pid !in failing
  }

  /**
   * Sends to every worker that is not disconnected, once, and shuts down those it cannot reach.
   * `failing` are the pids whose connection rejects writes.
   */
  method Broadcast(msg: Message, workers: seq<WorkerClient>, failing: set<int>)
    requires forall i, j :: 0 <= i < j < |workers| ==> workers[i] != workers[j]
    modifies workers
    ensures forall w <- workers ::
      && w.status == (if Reaches(w, failing) then old(w.status) else Disconnected)
      && w.wire == old(w.wire) + (if old(w.status) != Disconnected && Reaches(w, failing) then [msg] else [])
      && w.shutdownQueued ==
         (old(w.shutdownQueued) || (old(w.status) != Disconnected && w.hasConnection && w.pid in failing))
  {
    for i := 0 to |workers|
      invariant forall j :: 0 <= j < i ==>
        && workers[j].status == (if Reaches(workers[j], failing) then old(workers[j].status) else Disconnected)
        && workers[j].wire == old(workers[j].wire) +
           (if old(workers[j].status) != Disconnected && Reaches(workers[j], failing) then [msg] else [])
        && workers[j].shutdownQueued ==
           (old(workers[j].shutdownQueued) ||
            (old(workers[j].status) != Disconnected && workers[j].hasConnection && workers[j].pid in failing))
      invariant forall j :: i <= j < |workers| ==>
        && workers[j].status == old(workers[j].status) && workers[j].wire == old(workers[j].wire)
        && workers[j].shutdownQueued == old(workers[j].shutdownQueued)
    {
      if workers[i].status == Disconnected {
        continue;
      }
      var ok := workers[i].Send(msg, workers[i].pid in failing);
      if !ok {
        workers[i].ShutDown();
      }
    }
  }

  lemma SomeMember(pids: set<int>)
    ensures pids == {} || exists pid :: pid in pids
  {
    if !exists pid :: pid in pids {
      assert pids <= {};
    }
  }

  class ConnectionRegistry {
    var conns: map<int, WorkerClient>

    /** Entries are keyed by pid. */
    ghost predicate Valid()
      reads this
    {
      forall pid <- conns :: conns[pid].pid == pid
    }

    /** The registered workers that are not disconnected and can be reached. */
    ghost function Healthy(failing: set<int>): (pids: set<int>)
      reads this, conns.Values
      ensures pids <= conns.Keys
    {
      set pid | pid in conns && conns[pid].status != Disconnected && Reaches(conns[pid], failing)
    }

    constructor ()
      ensures Valid() && conns == map[]
    {
      conns := map[];
    }

    method Add(worker: WorkerClient)
      requires Valid()
      modifies this
      ensures Valid() && conns == old(conns)[worker.pid := worker]
    {
      conns := conns[worker.pid := worker];
    }

    method Remove(pid: int)
      requires Valid()
      modifies this
      ensures Valid() && conns == old(conns) - {pid}
    {
      conns := conns - {pid};
    }

    /** Every registered worker exactly once, in no particular order. */
    method GetAll() returns (workers: seq<WorkerClient>)
      requires Valid()
      ensures forall w :: w in workers <==> w.pid in conns && conns[w.pid] == w
      ensures forall i, j :: 0 <= i < j < |workers| ==> workers[i].pid != workers[j].pid
    {
      workers := [];
      var left := conns.Keys;
      while left != {}
        invariant left <= conns.Keys
        invariant forall w :: w in workers <==> w.pid in conns && w.pid !in left && conns[w.pid] == w
        invariant forall i, j :: 0 <= i < j < |workers| ==> workers[i].pid != workers[j].pid
      {
        SomeMember(left);
        var pid :| pid in left;
        left := left - {pid};
        workers := workers + [conns[pid]];
      }
    }

    method PingWorkers(failing: set<int>)
      requires Valid()
      modifies conns.Values
      ensures forall pid <- conns ::
        var w := conns[pid];
        && w.status == (if Reaches(w, failing) then old(w.status) else Disconnected)
        && w.wire == old(w.wire) + (if old(w.status) != Disconnected && Reaches(w, failing) then [Ping] else [])
    {
      var workers := GetAll();
      forall w | w in workers ensures w in conns.Values {
        assert w.pid in conns && conns[w.pid] == w;
      }
      Broadcast(Ping, workers, failing);
      forall pid | pid in conns ensures conns[pid] in workers {
      }
    }

    /** Walks the map in any order while removing from it. */
    method EliminateWorkers()
      requires Valid()
      modifies this
      ensures Valid()
      ensures conns == map pid | pid in old(conns) && old(conns)[pid].status != Disconnected :: old(conns)[pid]
    {
      var left := conns.Keys;
      while left != {}
        invariant Valid()
        invariant left <= old(conns).Keys
        invariant conns == map pid |
          pid in old(conns) && (pid in left || old(conns)[pid].status != Disconnected) :: old(conns)[pid]
      {
        SomeMember(left);
        var pid :| pid in left;
        left := left - {pid};
        if conns[pid].status == Disconnected {
          Remove(pid);
        }
      }
    }

    /**
     * One health round: afterwards the registry holds exactly the workers that were not
     * disconnected and could be reached; each of those was sent exactly one ping, and no other
     * worker received anything.
     */
    method HealthRound(failing: set<int>)
      requires Valid()
      modifies this, conns.Values
      ensures Valid()
      ensures conns == map pid | pid in old(Healthy(failing)) :: old(conns)[pid]
      ensures forall pid <- old(conns) ::
        var w := old(conns)[pid];
        && w.wire == old(w.wire) + (if pid in conns then [Ping] else [])
        && (w.status == Disconnected <==> pid !in conns)
    {
      PingWorkers(failing);
      assert forall pid <- conns :: conns[pid].status != Disconnected <==> pid in old(Healthy(failing));
      EliminateWorkers();
    }
  }

  /** The registry after adding workers in order; a later worker replaces one with the same pid. */
  ghost function Added(conns: map<int, WorkerClient>, workers: seq<WorkerClient>): map<int, WorkerClient> {
    if workers == [] then conns
    else
      var last := workers[|workers| - 1];
      Added(conns, workers[..|workers| - 1])[last.pid := last]
  }

  /** The last worker of the sequence with that pid. */
  ghost predicate IsLatest(workers: seq<WorkerClient>, pid: int, w: WorkerClient) {
    exists i :: 0 <= i < |workers| && workers[i] == w && w.pid == pid &&
      forall j :: i < j < |workers| ==> workers[j].pid != pid
  }

  /** Each pid of the workers has its latest worker; every other pid is as before. */
  ghost predicate Holds(before: map<int, WorkerClient>, after: map<int, WorkerClient>, workers: seq<WorkerClient>) {
    && (forall w <- workers :: w.pid in after && IsLatest(workers, w.pid, after[w.pid]))
    && (forall pid :: (forall w <- workers :: w.pid != pid) ==>
          (pid in after <==> pid in before) && (pid in after ==> after[pid] == before[pid]))
  }

  lemma LatestAfter(workers: seq<WorkerClient>, last: WorkerClient, pid: int, w: WorkerClient)
    requires IsLatest(workers, pid, w) && last.pid != pid
    ensures IsLatest(workers + [last], pid, w)
  {
    var i :| 0 <= i < |workers| && workers[i] == w && w.pid == pid &&
      forall j :: i < j < |workers| ==> workers[j].pid != pid;
    assert (workers + [last])[i] == w;
  }

  lemma LastIsLatest(workers: seq<WorkerClient>, last: WorkerClient)
    ensures IsLatest(workers + [last], last.pid, last)
  {
    assert (workers + [last])[|workers|] == last;
  }

  lemma {:induction false} AddedHolds(conns: map<int, WorkerClient>, workers: seq<WorkerClient>)
    ensures Holds(conns, Added(conns, workers), workers)
  {
    if workers != [] {
      var before, last := workers[..|workers| - 1], workers[|workers| - 1];
      AddedHolds(conns, before);
      assert workers == before + [last];
      var after := Added(conns, workers);
      LastIsLatest(before, last);
      forall w | w in workers ensures w.pid in after && IsLatest(workers, w.pid, after[w.pid]) {
        if w.pid != last.pid {
          assert w in before;
          LatestAfter(before, last, w.pid, after[w.pid]);
        }
      }
    }
  }

  /**
   * The master's registration loop over the workers that completed the handshake: start each one
   * and add it. The first worker whose start fails ends the loop for good: it is not registered,
   * and neither is any worker after it.
   */
  method RegisterWorkers(registry: ConnectionRegistry, arriving: seq<WorkerClient>, failing: set<int>)
    returns (registered: nat)
    requires registry.Valid()
    requires forall i, j :: 0 <= i < j < |arriving| ==> arriving[i] != arriving[j]
    modifies registry, arriving
    ensures registry.Valid()
    ensures registered <= |arriving|
    ensures Holds(old(registry.conns), registry.conns, arriving[..registered])
    ensures forall i :: 0 <= i < registered ==>
      Reaches(arriving[i], failing) && arriving[i].status == Connected &&
      arriving[i].wire == old(arriving[i].wire) + [Ping]
    ensures registered < |arriving| ==> !Reaches(arriving[registered], failing)
    ensures forall i :: registered < i < |arriving| ==> arriving[i].status == old(arriving[i].status)
  {
    for i := 0 to |arriving|
      invariant registry.Valid()
      invariant registry.conns == Added(old(registry.conns), arriving[..i])
      invariant forall j :: 0 <= j < i ==>
        Reaches(arriving[j], failing) && arriving[j].status == Connected &&
        arriving[j].wire == old(arriving[j].wire) + [Ping]
      invariant forall j :: i <= j < |arriving| ==>
        arriving[j].status == old(arriving[j].status) && arriving[j].wire == old(arriving[j].wire)
    {
      var ok := arriving[i].Start(arriving[i].pid in failing);
      if !ok {
        AddedHolds(old(registry.conns), arriving[..i]);
        return i;
      }
      registry.Add(arriving[i]);
      assert arriving[..i + 1][..i] == arriving[..i];
    }
    AddedHolds(old(registry.conns), arriving[..|arriving|]);
    return |arriving|;
  }
}
