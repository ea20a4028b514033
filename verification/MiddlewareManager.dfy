/** The middleware registry: a red-black tree keyed by priority, run by traversal. */
module MiddlewareManager {
  import opened Wrappers
  import opened RedBlackShape
  import opened RedBlackRepair
  import opened RedBlackTraversal
  import opened RedBlackTree

  datatype Middleware = Middleware(id: int, priority: int)

  /** Statuses above `Processing` are terminal. */
  const PROCESSING := 1

  // ----- Comparing priorities in 64-bit arithmetic -----

  const TWO_63 := 0x8000_0000_0000_0000

  predicate IsInt64(x: int) {
    -TWO_63 <= x < TWO_63
  }

  function Wrap64(x: int): int {
    (x + TWO_63) % (2 * TWO_63) - TWO_63
  }

  /** `m.priority - t.Priority()` on machine integers. */
  function ComparePriorities(a: Middleware, b: Middleware): int {
    Wrap64(a.priority - b.priority)
  }

  predicate SameSign(x: int, y: int) {
    (x < 0 <==> y < 0) && (x == 0 <==> y == 0)
  }

  /** The subtraction orders two middlewares correctly exactly when it does not overflow. */
  lemma CompareExact(a: Middleware, b: Middleware)
    requires IsInt64(a.priority) && IsInt64(b.priority)
    ensures SameSign(ComparePriorities(a, b), a.priority - b.priority) <==> IsInt64(a.priority - b.priority)
  {
    var d := a.priority - b.priority;
    if d >= TWO_63 {
      assert (d + TWO_63) % (2 * TWO_63) == d - TWO_63;
    } else if d < -TWO_63 {
      assert (d + TWO_63) % (2 * TWO_63) == d + 3 * TWO_63;
    }
  }

  // ----- What is registered, and the order in which it runs -----

  function KeyOf(md: Middleware): Key {
    Key(md.priority, md.id)
  }

  /** The last-registered middleware of each priority. */
  ghost function Registry(log: seq<Middleware>): map<int, (Key, Middleware)> {
    if log == [] then map[]
    else
      var md := log[|log| - 1];
      Registry(log[..|log| - 1])[md.priority := (KeyOf(md), md)]
  }

  /** `mds` lists a registry in ascending order of priority. */
  ghost predicate Lists(mds: seq<Middleware>, m: map<int, (Key, Middleware)>) {
    && (forall i, j :: 0 <= i < j < |mds| ==> mds[i].priority < mds[j].priority)
    && (forall i :: 0 <= i < |mds| ==> mds[i].priority in m && m[mds[i].priority].1 == mds[i])
    && (forall p :: p in m ==> exists i :: 0 <= i < |mds| && mds[i].priority == p)
  }

  /** The request after `mds` ran on it from left to right. */
  function RunAll<R>(mds: seq<Middleware>, run: (Middleware, R) -> R, request: R): R {
    if mds == [] then request else run(mds[|mds| - 1], RunAll(mds[..|mds| - 1], run, request))
  }

  ghost predicate NeverTerminal<R>(mds: seq<Middleware>, run: (Middleware, R) -> R, status: R -> int, request: R) {
    forall i :: 0 < i <= |mds| ==> status(RunAll(mds[..i], run, request)) <= PROCESSING
  }

  /** The closure passed to the traversal. */
  function Callback<R>(run: (Middleware, R) -> R, status: R -> int): (R, Middleware) -> (R, bool) {
    (request: R, md: Middleware) =>
      var r := run(md, request);
      (r, !(status(r) > PROCESSING))
  }

  ghost predicate SameValues<N>(s: seq<Entry<N, Middleware>>, mds: seq<Middleware>) {
    |s| == |mds| && forall i :: 0 <= i < |s| ==> s[i].value == mds[i]
  }

  predicate AscendingInts(a: seq<int>) {
    forall i, j :: 0 <= i < j < |a| ==> a[i] < a[j]
  }

  /** The last element is the greatest, and is nowhere else. */
  lemma LastIsGreatest(a: seq<int>)
    requires AscendingInts(a) && a != []
    ensures AscendingInts(a[..|a| - 1]) && forall x :: x in a ==> x <= a[|a| - 1]
    ensures forall x :: x in a[..|a| - 1] <==> x in a && x != a[|a| - 1]
  {
    assert a == a[..|a| - 1] + [a[|a| - 1]];
  }

  lemma {:induction false} AscendingIntsUnique(a: seq<int>, b: seq<int>)
    requires AscendingInts(a) && AscendingInts(b)
    requires forall x :: x in a <==> x in b
    ensures a == b
  {
    assert b != [] ==> b[0] in b;
    if a != [] {
      var x := a[|a| - 1];
      assert x in a && b[|b| - 1] in b;
      LastIsGreatest(a);
      LastIsGreatest(b);
      assert x <= b[|b| - 1] <= x;
      var a', b' := a[..|a| - 1], b[..|b| - 1];
      forall y
        ensures y in a' <==> y in b'
      {
        assert y in a <==> y in b;
      }
      AscendingIntsUnique(a', b');
      assert a == a[..|a| - 1] + [x] && b == b[..|b| - 1] + [x];
    }
  }

  /** There is only one way to list a map in ascending order. */
  lemma ListsUnique<N>(s: seq<Entry<N, Middleware>>, mds: seq<Middleware>)
    requires Ascending(s) && Lists(mds, MapOf(s))
    ensures SameValues(s, mds)
  {
    MapOfAt(s);
    var a := seq(|s|, i requires 0 <= i < |s| => s[i].key.rank);
    var b := seq(|mds|, i requires 0 <= i < |mds| => mds[i].priority);
    forall x ensures x in a <==> x in b {
      if x in a {
        var i :| 0 <= i < |a| && a[i] == x;
        assert s[i].key.rank in MapOf(s);
        var j :| 0 <= j < |mds| && mds[j].priority == x;
        assert b[j] == x;
      }
      if x in b {
        var j :| 0 <= j < |b| && b[j] == x;
        assert mds[j].priority in MapOf(s);
        var i :| 0 <= i < |s| && s[i].key.rank == x;
        assert a[i] == x;
      }
    }
    AscendingIntsUnique(a, b);
    forall i | 0 <= i < |s| ensures s[i].value == mds[i] {
      assert a[i] == b[i];
    }
  }

  lemma {:induction false} FoldIsRunAll<N, R>(s: seq<Entry<N, Middleware>>, mds: seq<Middleware>, run: (Middleware, R) -> R, status: R -> int, request: R)
    requires SameValues(s, mds)
    ensures Fold(s, Callback(run, status), request) == RunAll(mds, run, request)
  {
    if s != [] {
      FoldIsRunAll(s[..|s| - 1], mds[..|mds| - 1], run, status, request);
    }
  }

  lemma NonTerminalContinues<N, R>(s: seq<Entry<N, Middleware>>, mds: seq<Middleware>, run: (Middleware, R) -> R, status: R -> int, request: R, i: nat)
    requires SameValues(s, mds) && NeverTerminal(mds, run, status, request) && i < |s|
    ensures Continues(s, Callback(run, status), request, i)
  {
    FoldIsRunAll(s[..i], mds[..i], run, status, request);
    assert mds[..i + 1][..i] == mds[..i];
    assert status(RunAll(mds[..i + 1], run, request)) <= PROCESSING;
  }

  /** When no request turns terminal, the traversal is the left fold of the middlewares in
      ascending order of priority. */
  lemma TraversalRunsAll<N, R>(t: Shape<N, Middleware>, log: seq<Middleware>, mds: seq<Middleware>, run: (Middleware, R) -> R, status: R -> int, request: R)
    requires SearchTree(t) && Contents(t) == Registry(log)
    requires Lists(mds, Registry(log)) && NeverTerminal(mds, run, status, request)
    ensures Traverse(t, Callback(run, status), request).0 == RunAll(mds, run, request)
  {
    var s, cb := InOrder(t), Callback(run, status);
    ListsUnique(s, mds);
    forall i | 0 <= i < |s| ensures Continues(s, cb, request, i) {
      NonTerminalContinues(s, mds, run, status, request, i);
    }
    FirstStop(t, cb, request, |s|);
    FoldIsRunAll(s, mds, run, status, request);
    var _ := TraversePicks(t, cb, request);
  }

  // ----- A request turns terminal -----

  /** The first middleware after which the request is terminal is the one at `k`. */
  ghost predicate FirstTerminal<R>(mds: seq<Middleware>, run: (Middleware, R) -> R, status: R -> int, request: R, k: nat) {
    && k < |mds|
    && (forall i :: 0 < i <= k ==> status(RunAll(mds[..i], run, request)) <= PROCESSING)
    && status(RunAll(mds[..k + 1], run, request)) > PROCESSING
  }

  lemma StopsAtFirstTerminal<N, R>(s: seq<Entry<N, Middleware>>, mds: seq<Middleware>, run: (Middleware, R) -> R, status: R -> int, request: R, k: nat, i: nat)
    requires SameValues(s, mds) && FirstTerminal(mds, run, status, request, k) && i <= k
    ensures Continues(s, Callback(run, status), request, i) == (i < k)
  {
    FoldIsRunAll(s[..i], mds[..i], run, status, request);
    assert mds[..i + 1][..i] == mds[..i];
    assert RunAll(mds[..i + 1], run, request) == run(mds[i], RunAll(mds[..i], run, request));
  }

  /** `ran` goes on after the middleware at `k`, still in ascending order of priority. */
  ghost predicate GoesOn(ran: seq<Middleware>, mds: seq<Middleware>, k: nat) {
    && k + 1 < |ran| && k < |mds| && ran[..k + 1] == mds[..k + 1]
    && (forall i :: 0 <= i < |ran| ==> ran[i] in mds)
    && (forall i, j :: 0 <= i < j < |ran| ==> ran[i].priority < ran[j].priority)
  }

  function ValuesOf<N>(s: seq<Entry<N, Middleware>>): seq<Middleware> {
    seq(|s|, i requires 0 <= i < |s| => s[i].value)
  }

  /** What was seen, as middlewares: the first `k + 1` of the list and, off the right spine,
      at least one more. */
  lemma SeenGoesOn<N>(t: Shape<N, Middleware>, seen: seq<Entry<N, Middleware>>, at: seq<nat>, mds: seq<Middleware>, k: nat)
    requires k < |mds| && SameValues(InOrder(t), mds) && SawUpTo(t, seen, k) && Picks(seen, InOrder(t), at)
    requires forall i, j :: 0 <= i < j < |mds| ==> mds[i].priority < mds[j].priority
    ensures if OnRightSpine(t, k) then ValuesOf(seen) == mds[..k + 1] else GoesOn(ValuesOf(seen), mds, k)
  {
    hide OnRightSpine, InOrder;
    var ran := ValuesOf(seen);
    assert forall i :: 0 <= i <= k ==> seen[i] == seen[..k + 1][i] == InOrder(t)[..k + 1][i];
    assert forall i :: 0 <= i < |ran| ==> ran[i] == mds[at[i]];
    assert ran[..k + 1] == mds[..k + 1];
  }

  /** `ran` are the middlewares that run if the one at `k` is the first to end the request: it
      is the last one if it is on the right spine of the tree, and not the last otherwise. */
  ghost predicate EndsAt<N>(t: Shape<N, Middleware>, ran: seq<Middleware>, mds: seq<Middleware>, k: nat) {
    k < |mds| && if OnRightSpine(t, k) then ran == mds[..k + 1] else GoesOn(ran, mds, k)
  }

  /** When a request turns terminal, the chain ends there if and only if the middleware is on
      the right spine of the tree; otherwise later ones run on the terminal request. */
  lemma TraversalStops<N, R>(t: Shape<N, Middleware>, mds: seq<Middleware>, run: (Middleware, R) -> R, status: R -> int, request: R, k: nat) returns (ran: seq<Middleware>)
    requires SearchTree(t) && Lists(mds, Contents(t)) && FirstTerminal(mds, run, status, request, k)
    ensures Traverse(t, Callback(run, status), request).0 == RunAll(ran, run, request)
    ensures EndsAt(t, ran, mds, k)
  {
    hide OnRightSpine, Traverse, Callback, RunAll, SawUpTo, Picks, Fold, Continues;
    var s, cb := InOrder(t), Callback(run, status);
    ListsUnique(s, mds);
    forall i: nat | i <= k
      ensures Continues(s, cb, request, i) == (i < k)
    {
      StopsAtFirstTerminal(s, mds, run, status, request, k, i);
    }
    FirstStop(t, cb, request, k);
    var at := TraversePicks(t, cb, request);
    var seen := Traverse(t, cb, request).1;
    SeenGoesOn(t, seen, at, mds, k);
    ran := ValuesOf(seen);
    FoldIsRunAll(seen, ran, run, status, request);
  }

  class Manager {
    const middlewares: Tree<Middleware>
    ghost var log: seq<Middleware>

    ghost predicate Valid()
      reads this, middlewares, middlewares.nodes
    {
      middlewares.Valid() && Contents(middlewares.shape) == Registry(log)
    }

    constructor ()
      ensures Valid() && log == [] && fresh(middlewares) && middlewares.nodes == {}
    {
      middlewares := new Tree<Middleware>();
      log := [];
    }

    /** A middleware whose own initialisation fails is not registered. */
    method RegisterMiddleware(md: Middleware, initFails: bool) returns (err: bool)
      requires Valid()
      modifies this, middlewares, middlewares.nodes
      ensures Valid() && fresh(middlewares.nodes - old(middlewares.nodes))
      ensures err == initFails
      ensures log == if err then old(log) else old(log) + [md]
    {
      err := initFails;
      if !initFails {
        middlewares.Put(KeyOf(md), md);
        log := log + [md];
        assert log[..|log| - 1] == old(log);
      }
    }

    /** What a run returns for the registry `mds`.  If no request turns terminal, all middlewares
        run in ascending order of priority.  If one does, the chain ends there if its middleware
        is on the right spine of the tree, and goes on with at least one more otherwise. */
    ghost predicate Outcome<R>(run: (Middleware, R) -> R, status: R -> int, request: R, mds: seq<Middleware>, r: Option<R>)
      reads middlewares
    {
      && (NeverTerminal(mds, run, status, request) ==> r == Some(RunAll(mds, run, request)))
      && (forall k: nat :: FirstTerminal(mds, run, status, request, k) ==>
            exists ran :: EndsAt(middlewares.shape, ran, mds, k) && r == Some(RunAll(ran, run, request)))
    }

    lemma OutcomeOf<R>(run: (Middleware, R) -> R, status: R -> int, request: R, mds: seq<Middleware>)
      requires Valid() && Lists(mds, Registry(log)) && mds != []
      ensures Outcome(run, status, request, mds, Some(Traverse(middlewares.shape, Callback(run, status), request).0))
    {
      hide Traverse, Callback, RunAll, SearchTree, Lists, EndsAt, FirstTerminal, NeverTerminal;
      var shape := middlewares.shape;
      if NeverTerminal(mds, run, status, request) {
        TraversalRunsAll(shape, log, mds, run, status, request);
      }
      forall k: nat | FirstTerminal(mds, run, status, request, k)
        ensures exists ran :: EndsAt(shape, ran, mds, k) && Traverse(shape, Callback(run, status), request).0 == RunAll(ran, run, request)
      {
        var ran := TraversalStops(shape, mds, run, status, request, k);
      }
    }

    /** `None` is the crash of a run with nothing registered. */
    method RunMiddlewares<R>(run: (Middleware, R) -> R, status: R -> int, request: R) returns (r: Option<R>)
      requires Valid()
      ensures r.None? <==> Registry(log) == map[]
      ensures r.Some? ==> r.value == Traverse(middlewares.shape, Callback(run, status), request).0
      ensures forall mds: seq<Middleware> :: Lists(mds, Registry(log)) && mds != [] ==> Outcome(run, status, request, mds, r)
    {
      hide Outcome, Callback;
      r := middlewares.ForEach(Callback(run, status), request);
      forall mds: seq<Middleware> | Lists(mds, Registry(log)) && mds != []
        ensures Outcome(run, status, request, mds, r)
      {
        assert mds[0].priority in Registry(log);
        OutcomeOf(run, status, request, mds);
      }
    }
  }
}
