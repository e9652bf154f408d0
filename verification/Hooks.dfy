/** Named hooks, executed in sorted key order except for excluded keys, until one fails. */
module Hooks {
  import opened Results

  /** A registered handler, reduced to whether it succeeds on the given parameter. */
  datatype Handler = Succeeds | Fails

  type Handlers = map<string, Handler>

  datatype HookError = KeyAlreadyExists | KeyNotExists | HandlerNotRegistered | HookFailed(key: string)

  // ---------- string order ----------

  /** Lexicographic order, the order of sort.Strings. */
  predicate Below(a: string, b: string) {
    b != [] && (a == [] || a[0] < b[0] || (a[0] == b[0] && Below(a[1..], b[1..])))
  }

  lemma {:induction false} BelowTransitive(a: string, b: string, c: string)
    requires Below(a, b) && Below(b, c)
    ensures Below(a, c)
  {
    if a != [] && a[0] == b[0] == c[0] {
      BelowTransitive(a[1..], b[1..], c[1..]);
    }
  }

  lemma {:induction false} BelowConnected(a: string, b: string)
    ensures a == b || Below(a, b) || Below(b, a)
  {
    if a != [] && b != [] && a[0] == b[0] {
      BelowConnected(a[1..], b[1..]);
      assert a == [a[0]] + a[1..] && b == [b[0]] + b[1..];
    }
  }

  lemma {:induction false} BelowIrreflexive(a: string)
    ensures !Below(a, a)
  {
    if a != [] {
      BelowIrreflexive(a[1..]);
    }
  }

  /** A proper prefix comes first; otherwise the first different character decides. */
  lemma {:induction false} BelowIff(a: string, b: string)
    ensures Below(a, b) <==> a < b || exists i :: DiffersAt(a, b, i) && a[i] < b[i]
  {
    if a == [] || b == [] {
    } else if a[0] != b[0] {
      assert DiffersAt(a, b, 0);
    } else {
      BelowIff(a[1..], b[1..]);
      assert a == [a[0]] + a[1..] && b == [b[0]] + b[1..];
      forall i | DiffersAt(a, b, i) ensures i > 0 && DiffersAt(a[1..], b[1..], i - 1) {
        assert a[..i][1..] == a[1..][..i - 1] && b[..i][1..] == b[1..][..i - 1];
      }
      forall i | DiffersAt(a[1..], b[1..], i) ensures DiffersAt(a, b, i + 1) {
        assert a[..i + 1] == [a[0]] + a[1..][..i] && b[..i + 1] == [b[0]] + b[1..][..i];
      }
      if i :| DiffersAt(a[1..], b[1..], i) && a[1..][i] < b[1..][i] {
        assert DiffersAt(a, b, i + 1) && a[i + 1] < b[i + 1];
      }
      if i :| DiffersAt(a, b, i) && a[i] < b[i] {
        assert DiffersAt(a[1..], b[1..], i - 1) && a[1..][i - 1] < b[1..][i - 1];
      }
      assert a[1..] < b[1..] <==> a < b;
    }
  }

  /** The strings agree before position i and differ there. */
  predicate DiffersAt(a: string, b: string, i: int) {
    0 <= i < |a| && i < |b| && a[..i] == b[..i] && a[i] != b[i]
  }

  predicate Sorted(keys: seq<string>) {
    forall i, j :: 0 <= i < j < |keys| ==> Below(keys[i], keys[j])
  }

  function Elements(keys: seq<string>): set<string> {
    set k <- keys
  }

  lemma ElementsEmpty(keys: seq<string>)
    ensures Elements(keys) == {} <==> keys == []
  {
    if keys != [] {
      assert keys[0] in Elements(keys);
    }
  }

  function Insert(key: string, keys: seq<string>): seq<string> {
    if keys == [] || Below(key, keys[0]) then [key] + keys else [keys[0]] + Insert(key, keys[1..])
  }

  lemma {:induction false} InsertSorts(key: string, keys: seq<string>)
    requires Sorted(keys) && key !in keys
    ensures Sorted(Insert(key, keys)) && Elements(Insert(key, keys)) == Elements(keys) + {key}
  {
    if keys == [] {
    } else if Below(key, keys[0]) {
      forall j | 1 <= j < |keys| ensures Below(key, keys[j]) {
        BelowTransitive(key, keys[0], keys[j]);
      }
    } else {
      BelowConnected(key, keys[0]);
      var rest := Insert(key, keys[1..]);
      InsertSorts(key, keys[1..]);
      assert keys == [keys[0]] + keys[1..];
      forall k | k in rest ensures Below(keys[0], k) {
        assert k in Elements(rest);
      }
    }
  }

  /** A set of keys has only one sorted listing. */
  lemma {:induction false} SortedUnique(a: seq<string>, b: seq<string>)
    requires Sorted(a) && Sorted(b) && Elements(a) == Elements(b)
    ensures a == b
    decreases |a|
  {
    ElementsEmpty(a);
    ElementsEmpty(b);
    if a != [] {
      assert a[0] in Elements(b);
      var j :| 0 <= j < |b| && b[j] == a[0];
      assert b[0] in Elements(a);
      var i :| 0 <= i < |a| && a[i] == b[0];
      HeadsEqual(a, b, i, j);
      RestElements(a);
      RestElements(b);
      SortedUnique(a[1..], b[1..]);
    }
  }

  lemma HeadsEqual(a: seq<string>, b: seq<string>, i: nat, j: nat)
    requires Sorted(a) && Sorted(b) && i < |a| && j < |b| && b[j] == a[0] && a[i] == b[0]
    ensures a[0] == b[0]
  {
    if i > 0 && j > 0 {
      BelowTransitive(a[0], a[i], b[j]);
      BelowIrreflexive(a[0]);
    }
  }

  lemma RestElements(keys: seq<string>)
    requires keys != [] && Sorted(keys)
    ensures Elements(keys[1..]) == Elements(keys) - {keys[0]}
  {
    BelowIrreflexive(keys[0]);
    assert keys == [keys[0]] + keys[1..];
  }

  // ---------- the hook ----------

  /** The sorted listing of a set of keys. */
  ghost function Ordered(keys: set<string>): (r: seq<string>)
    ensures Sorted(r) && Elements(r) == keys
    ensures forall k :: k in r <==> k in keys
  {
    if keys == {} then [] else
    var key :| key in keys;
    var rest := Ordered(keys - {key});
    assert key !in Elements(rest);
    InsertSorts(key, rest);
    Insert(key, rest)
  }

  /** The keys that run: in order, up to and including the first that fails. */
  function UntilFailure(keys: seq<string>, handlers: Handlers): (run: seq<string>)
    requires forall k <- keys :: k in handlers
    ensures run <= keys
  {
    if keys == [] then []
    else if handlers[keys[0]].Fails? then [keys[0]]
    else [keys[0]] + UntilFailure(keys[1..], handlers)
  }

  /** The error of the last key that ran, if it failed. */
  function Outcome(run: seq<string>, handlers: Handlers): Result<(), HookError> {
    if run != [] && run[|run| - 1] in handlers && handlers[run[|run| - 1]].Fails?
    then Failure(HookFailed(run[|run| - 1])) else Success(())
  }

  /** A registration: an existing key is kept. */
  function Registered(handlers: Handlers, key: string, handler: Handler): Handlers {
    if key in handlers then handlers else handlers[key := handler]
  }

  class Hook {
    var handlers: Handlers
    /** The keys whose handlers have run, oldest first. */
    var ran: seq<string>

    constructor ()
      ensures handlers == map[] && ran == []
    {
      handlers, ran := map[], [];
    }

    method Add(key: string, handler: Handler) returns (r: Result<(), HookError>)
      modifies this`handlers
      ensures handlers == if key in old(handlers) then old(handlers) else old(handlers)[key := handler]
      ensures r == if key in old(handlers) then Failure(KeyAlreadyExists) else Success(())
    {
      if key in handlers {
        return Failure(KeyAlreadyExists);
      }
      handlers := handlers[key := handler];
      return Success(());
    }

    method ExecuteOnly(key: string) returns (r: Result<(), HookError>)
      modifies this`ran
      ensures key !in handlers ==> r == Failure(KeyNotExists) && ran == old(ran)
      ensures key in handlers ==>
        ran == old(ran) + [key] && r == if handlers[key].Fails? then Failure(HookFailed(key)) else Success(())
    {
      if key !in handlers {
        return Failure(KeyNotExists);
      }
      ran := ran + [key];
      return if handlers[key].Fails? then Failure(HookFailed(key)) else Success(());
    }

    /** The keys of the map, visited in any order, then sorted. */
    method OrderedLoop() returns (keys: seq<string>)
      ensures keys == Ordered(handlers.Keys)
    {
      keys := [];
      var left := handlers.Keys;
      while left != {}
        invariant left <= handlers.Keys
        invariant Sorted(keys) && Elements(keys) == handlers.Keys - left
      {
        var key :| key in left;
        left := left - {key};
        assert key !in Elements(keys);
        InsertSorts(key, keys);
        keys := Insert(key, keys);
      }
      SortedUnique(keys, Ordered(handlers.Keys));
    }

    /**
     * Fails exactly when some key that is not excluded fails, with the least such key.
     *
     * Runs the sorted keys that are not excluded, each once, up to and including the first that
     * fails, whose error is returned; nothing to run is a success, no handlers at all an error.
     */
    method ExecuteWithExclude(excluded: seq<string>) returns (r: Result<(), HookError>)
      modifies this`ran
      ensures handlers == map[] ==> r == Failure(HandlerNotRegistered) && ran == old(ran)
      ensures handlers != map[] ==>
        var order := Ordered(handlers.Keys - Elements(excluded));
        var run := UntilFailure(order, handlers);
        ran == old(ran) + run && r == Outcome(run, handlers)
      ensures handlers != map[] ==>
        if exists key <- handlers :: key !in excluded && handlers[key].Fails?
        then r.Failure? && r.error.HookFailed? && IsLeastFailing(handlers, excluded, r.error.key)
        else r == Success(())
    {
      if handlers == map[] {
        return Failure(HandlerNotRegistered);
      }
      var keys := OrderedLoop();
      var filtered := Filter(keys, excluded);
      KeepOrdered(handlers.Keys, Elements(excluded));
      r := ExecuteInOrder(filtered);
      LeastFailureDecides(filtered, handlers, excluded);
    }

    method Filter(keys: seq<string>, excluded: seq<string>) returns (kept: seq<string>)
      ensures kept == Keep(keys, Elements(excluded))
    {
      kept := [];
      for i := 0 to |keys|
        invariant kept == Keep(keys[..i], Elements(excluded))
      {
        assert keys[..i + 1][..i] == keys[..i];
        if keys[i] !in excluded {
          kept := kept + [keys[i]];
        }
      }
      assert keys[..|keys|] == keys;
    }

    method ExecuteInOrder(keys: seq<string>) returns (r: Result<(), HookError>)
      requires forall k <- keys :: k in handlers
      modifies this`ran
      ensures var run := UntilFailure(keys, handlers);
        ran == old(ran) + run && r == Outcome(run, handlers)
    {
      for i := 0 to |keys|
        invariant ran == old(ran) + keys[..i]
        invariant forall k <- keys[..i] :: handlers[k].Succeeds?
      {
        r := ExecuteOnly(keys[i]);
        assert keys[..i + 1] == keys[..i] + [keys[i]];
        if r.Failure? {
          RunsUpTo(keys, handlers, i);
          return;
        }
      }
      assert keys[..|keys|] == keys;
      RunsAll(keys, handlers);
      return Success(());
    }
  }

  /** The keys outside a set, in their order. */
  function Keep(keys: seq<string>, excluded: set<string>): seq<string> {
    if keys == [] then []
    else Keep(keys[..|keys| - 1], excluded) + if keys[|keys| - 1] in excluded then [] else [keys[|keys| - 1]]
  }

  lemma {:induction false} KeepElements(keys: seq<string>, excluded: set<string>)
    ensures forall k :: k in Keep(keys, excluded) <==> k in keys && k !in excluded
  {
    if keys != [] {
      KeepElements(keys[..|keys| - 1], excluded);
      assert keys == keys[..|keys| - 1] + [keys[|keys| - 1]];
    }
  }

  lemma SortedAppend(keys: seq<string>, key: string)
    requires Sorted(keys) && forall k <- keys :: Below(k, key)
    ensures Sorted(keys + [key])
  {
    var all := keys + [key];
    forall i, j | 0 <= i < j < |all| ensures Below(all[i], all[j]) {
      assert all[i] == keys[i];
    }
  }

  lemma {:induction false} KeepSorted(keys: seq<string>, excluded: set<string>)
    requires Sorted(keys)
    ensures Sorted(Keep(keys, excluded))
  {
    if keys != [] {
      var before := keys[..|keys| - 1];
      KeepSorted(before, excluded);
      KeepElements(before, excluded);
      forall k | k in Keep(before, excluded) ensures Below(k, keys[|keys| - 1]) {
        assert k in before;
      }
      SortedAppend(Keep(before, excluded), keys[|keys| - 1]);
    }
  }

  lemma KeepOrdered(keys: set<string>, excluded: set<string>)
    ensures Keep(Ordered(keys), excluded) == Ordered(keys - excluded)
  {
    KeepSorted(Ordered(keys), excluded);
    KeepElements(Ordered(keys), excluded);
    assert Elements(Keep(Ordered(keys), excluded)) == keys - excluded;
    SortedUnique(Keep(Ordered(keys), excluded), Ordered(keys - excluded));
  }

  lemma {:induction false} RunsUpTo(keys: seq<string>, handlers: Handlers, i: nat)
    requires forall k <- keys :: k in handlers
    requires i < |keys| && handlers[keys[i]].Fails? && forall k <- keys[..i] :: handlers[k].Succeeds?
    ensures UntilFailure(keys, handlers) == keys[..i + 1]
    decreases i
  {
    if i > 0 {
      assert keys[0] in keys[..i];
      assert forall k <- keys[1..][..i - 1] :: k in keys[..i];
      RunsUpTo(keys[1..], handlers, i - 1);
      assert keys[..i + 1] == [keys[0]] + keys[1..][..i];
    } else {
      assert keys[..1] == [keys[0]];
    }
  }

  lemma {:induction false} RunsAll(keys: seq<string>, handlers: Handlers)
    requires forall k <- keys :: k in handlers
    ensures (forall k <- keys :: handlers[k].Succeeds?) ==> UntilFailure(keys, handlers) == keys
  {
    if keys != [] {
      RunsAll(keys[1..], handlers);
      assert keys == [keys[0]] + keys[1..];
    }
  }

  /** The key fails, is not excluded, and no such key is below it. */
  ghost predicate IsLeastFailing(handlers: Handlers, excluded: seq<string>, key: string) {
    && key in handlers && key !in excluded && handlers[key].Fails?
    && forall k <- handlers :: k !in excluded && handlers[k].Fails? ==> k == key || Below(key, k)
  }

  lemma {:induction false} FirstFailing(keys: seq<string>, handlers: Handlers) returns (i: nat)
    requires (forall k <- keys :: k in handlers) && exists k <- keys :: handlers[k].Fails?
    ensures i < |keys| && handlers[keys[i]].Fails? && forall k <- keys[..i] :: handlers[k].Succeeds?
  {
    if handlers[keys[0]].Fails? {
      i := 0;
    } else {
      assert keys == [keys[0]] + keys[1..];
      i := FirstFailing(keys[1..], handlers);
      i := i + 1;
      assert keys[..i] == [keys[0]] + keys[1..][..i - 1];
    }
  }

  lemma OutcomeOfSorted(keys: seq<string>, handlers: Handlers)
    requires Sorted(keys) && forall k <- keys :: k in handlers
    ensures var r := Outcome(UntilFailure(keys, handlers), handlers);
      if exists k <- keys :: handlers[k].Fails?
      then r.Failure? && r.error.HookFailed? && r.error.key in keys && handlers[r.error.key].Fails? &&
           forall k <- keys :: handlers[k].Fails? ==> k == r.error.key || Below(r.error.key, k)
      else r == Success(())
  {
    if exists k <- keys :: handlers[k].Fails? {
      var i := FirstFailing(keys, handlers);
      RunsUpTo(keys, handlers, i);
      forall j | 0 <= j < i ensures handlers[keys[j]].Succeeds? {
        assert keys[j] in keys[..i];
      }
      forall k | k in keys && handlers[k].Fails? ensures k == keys[i] || Below(keys[i], k) {
        var j :| 0 <= j < |keys| && keys[j] == k;
      }
    } else {
      RunsAll(keys, handlers);
    }
  }

  lemma LeastFailureDecides(keys: seq<string>, handlers: Handlers, excluded: seq<string>)
    requires keys == Ordered(handlers.Keys - Elements(excluded))
    ensures var r := Outcome(UntilFailure(keys, handlers), handlers);
      if exists key <- handlers :: key !in excluded && handlers[key].Fails?
      then r.Failure? && r.error.HookFailed? && IsLeastFailing(handlers, excluded, r.error.key)
      else r == Success(())
  {
    assert forall k :: k in keys <==> k in handlers && k !in excluded;
    OutcomeOfSorted(keys, handlers);
  }

  // ---------- the order of registrations does not matter ----------

  function RegisterAll(calls: seq<(string, Handler)>): Handlers {
    if calls == [] then map[]
    else Registered(RegisterAll(calls[..|calls| - 1]), calls[|calls| - 1].0, calls[|calls| - 1].1)
  }

  predicate DistinctCalls(calls: seq<(string, Handler)>) {
    forall i, j :: 0 <= i < j < |calls| ==> calls[i].0 != calls[j].0
  }

  lemma FirstRegistrationStays(handlers: Handlers, key: string, handler: Handler)
    ensures Registered(handlers, key, handler).Keys == handlers.Keys + {key}
    ensures key !in handlers ==> Registered(handlers, key, handler)[key] == handler
    ensures forall k <- handlers :: Registered(handlers, key, handler)[k] == handlers[k]
  {
  }

  lemma {:induction false} RegisterAllItems(calls: seq<(string, Handler)>)
    requires DistinctCalls(calls)
    ensures forall key, handler ::
      (key, handler) in calls <==> key in RegisterAll(calls) && RegisterAll(calls)[key] == handler
  {
    if calls != [] {
      var before, last := calls[..|calls| - 1], calls[|calls| - 1];
      RegisterAllItems(before);
      assert calls == before + [last];
      if last.0 in RegisterAll(before) {
        assert (last.0, RegisterAll(before)[last.0]) in before;
      }
    }
  }

  /** Registering the same hooks in another order gives the same hook, so it executes the same way. */
  lemma RegistrationOrderIrrelevant(calls: seq<(string, Handler)>, calls': seq<(string, Handler)>)
    requires DistinctCalls(calls) && DistinctCalls(calls')
    requires forall call :: call in calls <==> call in calls'
    ensures RegisterAll(calls) == RegisterAll(calls')
  {
    RegisterAllItems(calls);
    RegisterAllItems(calls');
    var h, h' := RegisterAll(calls), RegisterAll(calls');
    forall key | key in h ensures key in h' && h'[key] == h[key] {
      assert (key, h[key]) in calls;
    }
    forall key | key in h' ensures key in h {
      assert (key, h'[key]) in calls';
    }
  }
}
