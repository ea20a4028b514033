/** Relaying a request to a provider that may be reached over several connections. */
module RelayExecutor {
  import opened Wrappers

  type Message = string

  /** An entry of the connection slice, which may be nil. */
  datatype Slot = Nil | Connection(address: string)

  const ALL_DOWN := "all service connection is down"

  predicate DistinctAddresses(s: seq<Slot>) {
    && (forall i :: 0 <= i < |s| ==> s[i].Connection?)
    && (forall i, j :: 0 <= i < j < |s| ==> s[i].address != s[j].address)
  }

  // ----- Dropping dead connections -----

  /** The entries that are kept, in their order. */
  function Kept(s: seq<Slot>, live: set<Slot>): seq<Slot> {
    if s == [] then []
    else
      var front, c := Kept(s[..|s| - 1], live), s[|s| - 1];
      if c.Nil? || c !in live then front else front + [c]
  }

  /** The places of the live entries, in ascending order. */
  function Places(s: seq<Slot>, live: set<Slot>): seq<nat> {
    if s == [] then []
    else
      var front, c := Places(s[..|s| - 1], live), s[|s| - 1];
      if c.Nil? || c !in live then front else front + [|s| - 1]
  }

  predicate AscendingBelow(p: seq<nat>, n: nat) {
    && (forall k :: 0 <= k < |p| ==> p[k] < n)
    && (forall j, k :: 0 <= j < k < |p| ==> p[j] < p[k])
  }

  lemma OneMoreAscends(p: seq<nat>, n: nat)
    requires AscendingBelow(p, n)
    ensures AscendingBelow(p, n + 1) && AscendingBelow(p + [n], n + 1)
  {
    var r := p + [n];
    forall k | 0 <= k < |r|
      ensures r[k] < n + 1
    {
      assert k < |p| ==> r[k] == p[k];
    }
    forall j, k | 0 <= j < k < |r|
      ensures r[j] < r[k]
    {
      assert r[j] == p[j] && (k < |p| ==> r[k] == p[k]);
    }
  }

  lemma {:induction false} PlacesAscend(s: seq<Slot>, live: set<Slot>)
    ensures AscendingBelow(Places(s, live), |s|)
  {
    hide AscendingBelow;
    if s == [] {
      NoneAscend();
    } else {
      var front := s[..|s| - 1];
      PlacesAscend(front, live);
      OneMoreAscends(Places(front, live), |front|);
    }
  }

  lemma NoneAscend()
    ensures AscendingBelow([], 0)
  {
  }

  lemma {:induction false} PlacesExact(s: seq<Slot>, live: set<Slot>, i: nat)
    ensures i in Places(s, live) <==> i < |s| && s[i].Connection? && s[i] in live
  {
    if s != [] {
      PlacesExact(s[..|s| - 1], live, i);
    }
  }

  lemma {:induction false} KeptAtPlaces(s: seq<Slot>, live: set<Slot>)
    ensures |Places(s, live)| == |Kept(s, live)|
    ensures forall k :: 0 <= k < |Kept(s, live)| ==> Places(s, live)[k] < |s| && Kept(s, live)[k] == s[Places(s, live)[k]]
  {
    if s != [] {
      KeptAtPlaces(s[..|s| - 1], live);
    }
  }

  /** Dropping dead connections keeps exactly the live ones, in their order, so addresses that
      were distinct stay so. */
  lemma KeptExactly(s: seq<Slot>, live: set<Slot>)
    ensures forall c :: c in Kept(s, live) <==> c in s && c.Connection? && c in live
    ensures DistinctAddresses(s) ==> DistinctAddresses(Kept(s, live))
  {
    PlacesAscend(s, live);
    KeptAtPlaces(s, live);
    forall c
      ensures c in Kept(s, live) <==> c in s && c.Connection? && c in live
    {
      if c in s && c.Connection? && c in live {
        var i: nat :| i < |s| && s[i] == c;
        PlacesExact(s, live, i);
        var k: nat :| k < |Places(s, live)| && Places(s, live)[k] == i;
        assert Kept(s, live)[k] == c;
      }
      if c in Kept(s, live) {
        var k: nat :| k < |Kept(s, live)| && Kept(s, live)[k] == c;
        PlacesExact(s, live, Places(s, live)[k]);
      }
    }
  }

  // ----- Trying the connections in turn -----

  /** The index tried `k` attempts after the counter stood at `last`. */
  function Turn(last: nat, k: nat, n: nat): nat
    requires n > 0
  {
    (last + 1 + k) % n
  }

  /** The indices of `count` attempts in a row. */
  function Turns(last: nat, count: nat, n: nat): seq<nat>
    requires n > 0
  {
    if count == 0 then [] else Turns(last, count - 1, n) + [Turn(last, count - 1, n)]
  }

  lemma {:induction false} TurnsAppend(last: nat, a: nat, b: nat, n: nat)
    requires n > 0
    ensures Turns(last, a + b, n) == Turns(last, a, n) + Turns(last + a, b, n)
  {
    if b > 0 {
      TurnsAppend(last, a, b - 1, n);
    }
  }

  lemma {:induction false} TurnsAt(last: nat, count: nat, n: nat)
    requires n > 0
    ensures |Turns(last, count, n)| == count
    ensures forall k :: 0 <= k < count ==> Turns(last, count, n)[k] == Turn(last, k, n)
  {
    if count > 0 {
      TurnsAt(last, count - 1, n);
    }
  }

  function Count(s: seq<nat>, i: nat): nat {
    multiset(s)[i]
  }

  lemma MulLess(a: int, b: int, n: int)
    requires n > 0
    ensures a < b ==> a * n + n <= b * n
  {
    var d := b - a - 1;
    assert a < b ==> d * n >= 0;
    assert b * n == (a + 1 + d) * n == a * n + n + d * n;
  }

  lemma QuotientUnique(n: int, q: int, r: int, q': int, r': int)
    requires 0 <= r < n && 0 <= r' < n && q * n + r == q' * n + r'
    ensures q == q' && r == r'
  {
    MulLess(q, q', n);
    MulLess(q', q, n);
  }

  lemma NextRemainder(x: nat, n: nat)
    requires n > 0
    ensures (x + 1) % n == if x % n == n - 1 then 0 else x % n + 1
  {
    var y := x + 1;
    var q, r, q', r' := x / n, x % n, y / n, y % n;
    assert x == q * n + r && y == q' * n + r';
    if r == n - 1 {
      QuotientUnique(n, q + 1, 0, q', r');
    } else {
      QuotientUnique(n, q, r + 1, q', r');
    }
  }

  /** How far the index `at` has gone past `i` on the circle of `n`. */
  function Past(at: nat, i: nat, n: nat): int {
    if at >= i then at - i else at + n - i
  }

  lemma CountNone(last: nat, n: nat, i: nat)
    requires n > 0
    ensures Count(Turns(last, 0, n), i) == 0
  {
  }

  lemma CountNext(last: nat, count: nat, n: nat, i: nat)
    requires i < n && count > 0
    ensures Count(Turns(last, count, n), i) == Count(Turns(last, count - 1, n), i) + if (last + count) % n == i then 1 else 0
  {
  }

  lemma PastNext(x: nat, i: nat, n: nat)
    requires i < n
    ensures Past((x + 1) % n, i, n) == if (x + 1) % n == i then Past(x % n, i, n) + 1 - n else Past(x % n, i, n) + 1
  {
    NextRemainder(x, n);
  }

  lemma MulNext(c: int, n: int)
    ensures (c + 1) * n == c * n + n
  {
  }

  lemma {:induction false} TurnsAreShared(last: nat, count: nat, n: nat, i: nat)
    requires i < n
    ensures Count(Turns(last, count, n), i) * n + Past((last + count) % n, i, n) == Past(last % n, i, n) + count
  {
    hide Count, Past, Turns;
    if count == 0 {
      CountNone(last, n, i);
    } else {
      TurnsAreShared(last, count - 1, n, i);
      CountNext(last, count, n, i);
      PastNext(last + count - 1, i, n);
      var before, after := Count(Turns(last, count - 1, n), i), Count(Turns(last, count, n), i);
      MulNext(before, n);
      assert after == before || after == before + 1;
    }
  }

  /** Attempts in a row are spread evenly: in `rounds * n + rest` of them every index has its
      turn `rounds` times, or once more, and exactly `rounds` times if there is no rest. */
  lemma TurnsSpread(last: nat, rounds: nat, rest: nat, n: nat, i: nat)
    requires i < n && rest < n
    ensures rounds <= Count(Turns(last, rounds * n + rest, n), i) <= rounds + 1
    ensures rest == 0 ==> Count(Turns(last, rounds * n + rest, n), i) == rounds
  {
    hide Count;
    var count := rounds * n + rest;
    var c := Count(Turns(last, count, n), i);
    TurnsAreShared(last, count, n, i);
    MulLess(c, rounds, n);
    MulLess(rounds, c, n);
    MulLess(rounds + 1, c, n);
    MulNext(rounds, n);
  }

  lemma RoundOnce(last: nat, n: nat, i: nat)
    requires i < n
    ensures Count(Turns(last, n, n), i) == 1
  {
    hide Turns;
    TurnsSpread(last, 1, 0, n, i);
  }

  /** In one round every index has its turn exactly once. */
  lemma RoundVisitsAll(last: nat, n: nat, i: nat) returns (k: nat)
    requires i < n
    ensures k < n && Turn(last, k, n) == i
    ensures forall j: nat :: j < n && Turn(last, j, n) == i ==> j == k
  {
    hide Turn, Turns;
    RoundOnce(last, n, i);
    var t := Turns(last, n, n);
    TurnsAt(last, n, n);
    assert i in multiset(t);
    k :| k < |t| && t[k] == i;
    forall j: nat | j < n && Turn(last, j, n) == i
      ensures j == k
    {
      OnlyPlace(t, i, j, k);
    }
  }

  lemma OnlyPlace(s: seq<nat>, x: nat, j: nat, k: nat)
    requires j < |s| && k < |s| && s[j] == s[k] == x && Count(s, x) == 1
    ensures j == k
  {
    if j < k {
      TwoPlaces(s, x, j, k);
    } else if k < j {
      TwoPlaces(s, x, k, j);
    }
  }

  lemma TwoPlaces(s: seq<nat>, x: nat, j: nat, k: nat)
    requires j < k < |s| && s[j] == s[k] == x
    ensures Count(s, x) >= 2
  {
    var a, b := s[..k], s[k..];
    assert s == a + b && a[j] == x && b[0] == x;
    assert x in multiset(a) && x in multiset(b);
  }

  /** What each connection would answer to a request. */
  type Answers = seq<Result<Message>>

  predicate SomeOk(answers: Answers) {
    exists i :: 0 <= i < |answers| && answers[i].Ok?
  }

  /** How many connections are tried if `left` of them may be. */
  function Attempts(last: nat, answers: Answers, left: nat): nat
    requires answers != []
    decreases left
  {
    if left == 0 then 0
    else if answers[Turn(last, 0, |answers|)].Ok? then 1
    else 1 + Attempts(last + 1, answers, left - 1)
  }

  /** The first that answers in cyclic order, or all of them. */
  lemma {:induction false} AttemptsExact(last: nat, answers: Answers, left: nat)
    requires answers != [] && left > 0
    decreases left
    ensures var k := Attempts(last, answers, left);
            && 1 <= k <= left
            && (forall j: nat :: j < k - 1 ==> answers[Turn(last, j, |answers|)].Err?)
            && (answers[Turn(last, k - 1, |answers|)].Err? ==> k == left)
  {
    if answers[Turn(last, 0, |answers|)].Err? && left > 1 {
      AttemptsExact(last + 1, answers, left - 1);
      assert forall j: nat :: j > 0 ==> Turn(last, j, |answers|) == Turn(last + 1, j - 1, |answers|);
    }
  }

  /** A request is answered if and only if some connection would answer it. */
  lemma AnsweredExactly(last: nat, answers: Answers)
    requires answers != []
    ensures var k := Attempts(last, answers, |answers|);
            k > 0 && (answers[Turn(last, k - 1, |answers|)].Ok? <==> SomeOk(answers))
  {
    var n := |answers|;
    var k := Attempts(last, answers, n);
    AttemptsExact(last, answers, n);
    if answers[Turn(last, k - 1, n)].Err? {
      forall i: nat | i < n
        ensures answers[i].Err?
      {
        var j := RoundVisitsAll(last, n, i);
        assert j < n - 1 || j == k - 1;
      }
    }
  }

  lemma TurnsNext(last: nat, a: nat, n: nat)
    requires n > 0
    ensures Turns(last, a + 1, n) == Turns(last, a, n) + [Turn(last + a, 0, n)]
  {
  }

  /** The first `i` connections in turn were tried in vain. */
  predicate InVain(start: nat, answers: Answers, i: nat) {
    answers != [] && i <= |answers| &&
    Attempts(start, answers, |answers|) == i + Attempts(start + i, answers, |answers| - i)
  }

  /** What the whole request comes to: `k` connections were tried in cyclic order, none twice;
      the last of them gave the result, all before it failed, and it failed too only if none
      was left; it is an answer if and only if some connection would give one. */
  predicate Concluded(start: nat, answers: Answers, k: nat, r: Result<Message>) {
    && 0 < k <= |answers|
    && k == Attempts(start, answers, |answers|)
    && r == answers[Turn(start, k - 1, |answers|)]
    && (forall j: nat :: j < k - 1 ==> answers[Turn(start, j, |answers|)].Err?)
    && (r.Err? ==> k == |answers|)
    && (r.Ok? <==> SomeOk(answers))
  }

  lemma NoneInVain(start: nat, answers: Answers)
    requires answers != []
    ensures InVain(start, answers, 0)
  {
  }

  lemma NextAttempt(start: nat, answers: Answers, i: nat)
    requires InVain(start, answers, i) && i < |answers|
    ensures var r := answers[Turn(start + i, 0, |answers|)];
            if r.Ok? || i + 1 == |answers| then Concluded(start, answers, i + 1, r) else InVain(start, answers, i + 1)
  {
    hide SomeOk;
    AttemptsExact(start, answers, |answers|);
    AnsweredExactly(start, answers);
    assert Turn(start + i, 0, |answers|) == Turn(start, i, |answers|);
  }

  lemma {:induction false} KeptConcat(a: seq<Slot>, b: seq<Slot>, live: set<Slot>)
    ensures Kept(a + b, live) == Kept(a, live) + Kept(b, live)
  {
    if b == [] {
      assert a + b == a;
    } else {
      assert (a + b)[..|a + b| - 1] == a + b[..|b| - 1];
      KeptConcat(a, b[..|b| - 1], live);
    }
  }

  /** Taking a dead entry out changes nothing of what is kept. */
  lemma KeptWithout(s: seq<Slot>, i: nat, live: set<Slot>)
    requires i < |s| && (s[i].Nil? || s[i] !in live)
    ensures Kept(s[..i] + s[i + 1..], live) == Kept(s, live)
  {
    assert s == s[..i + 1] + s[i + 1..] && s[..i + 1][..i] == s[..i];
    KeptConcat(s[..i], s[i + 1..], live);
    KeptConcat(s[..i + 1], s[i + 1..], live);
  }

  lemma {:induction false} KeptAll(s: seq<Slot>, live: set<Slot>)
    requires forall k :: 0 <= k < |s| ==> s[k].Connection? && s[k] in live
    ensures Kept(s, live) == s
  {
    if s != [] {
      KeptAll(s[..|s| - 1], live);
    }
  }

  class RelayServiceRequestExecutor {
    var connections: seq<Slot>
    var lastSucceededConn: nat

    /** Since the connections last changed: where the counter stood, and the indices tried. */
    ghost var base: nat
    ghost var tried: seq<nat>

    ghost predicate Valid()
      reads this
    {
      && DistinctAddresses(connections)
      && base <= lastSucceededConn
      && tried == if connections == [] then [] else Turns(base, lastSucceededConn - base, |connections|)
    }

    constructor ()
      ensures Valid() && connections == []
    {
      connections, lastSucceededConn := [], 0;
      base, tried := 0, [];
    }

    /** One attempt, at the connection after the last one tried. */
    method TryNext(answers: Answers) returns (r: Result<Message>)
      requires Valid() && connections != [] && |answers| == |connections|
      modifies this`lastSucceededConn, this`tried
      ensures Valid() && lastSucceededConn == old(lastSucceededConn) + 1
      ensures r == answers[Turn(old(lastSucceededConn), 0, |connections|)]
    {
      hide Turns, DistinctAddresses;
      TurnsNext(base, lastSucceededConn - base, |connections|);
      tried := tried + [Turn(lastSucceededConn, 0, |connections|)];
      lastSucceededConn := lastSucceededConn + 1;
      r := answers[lastSucceededConn % |connections|];
    }

    /** Tries the connections in cyclic order after the last one tried, each at most once, until
        one answers; it is answered if and only if some connection would. */
    method DoRequest(answers: Answers) returns (r: Result<Message>)
      requires Valid() && |answers| == |connections|
      modifies this`lastSucceededConn, this`tried
      ensures Valid()
      ensures connections == [] ==> r == Err(ALL_DOWN) && lastSucceededConn == old(lastSucceededConn)
      ensures connections != [] ==>
                old(lastSucceededConn) <= lastSucceededConn &&
                Concluded(old(lastSucceededConn), answers, lastSucceededConn - old(lastSucceededConn), r)
    {
      hide Turns, Turn, InVain, Concluded, Valid;
      if |connections| == 0 {
        return Err(ALL_DOWN);
      }
      var size := |connections|;
      ghost var start := lastSucceededConn;
      NoneInVain(start, answers);
      var i := 0;
      r := Err("");
      while i < size
        invariant 0 <= i <= size && Valid()
        invariant lastSucceededConn == start + i
        invariant if i < size then InVain(start, answers, i) else Concluded(start, answers, i, r)
      {
        NextAttempt(start, answers, i);
        r := TryNext(answers);
        if r.Ok? {
          return;
        }
        i := i + 1;
      }
    }

    /** Removes dead entries one by one in place, which amounts to keeping the live ones. */
    method UpdateConnections(live: set<Slot>)
      modifies this`connections, this`base, this`tried
      ensures connections == Kept(old(connections), live)
      ensures lastSucceededConn == old(lastSucceededConn)
      ensures old(Valid()) ==> Valid()
    {
      hide Kept, DistinctAddresses, Turns;
      ghost var was := connections;
      var i := 0;
      while i < |connections|
        invariant 0 <= i <= |connections|
        invariant forall k :: 0 <= k < i ==> connections[k].Connection? && connections[k] in live
        invariant Kept(connections, live) == Kept(was, live)
        decreases |connections| - i
      {
        var conn := connections[i];
        if conn.Nil? || conn !in live {
          KeptWithout(connections, i, live);
          connections := connections[..i] + connections[i + 1..];
          i := i - 1;
        }
        i := i + 1;
      }
      KeptAll(connections, live);
      KeptExactly(was, live);
      base := lastSucceededConn;
      tried := [];
      if connections != [] {
        TurnsAt(base, 0, |connections|);
      }
    }

    /** Adds the connection unless its address is there already or not known to the manager. */
    method UpdateProviderConnection(connAddr: string, found: Result<Slot>) returns (ok: bool)
      requires Valid()
      requires found.Ok? ==> found.value == Connection(connAddr)
      modifies this`connections, this`base, this`tried
      ensures Valid()
      ensures ok <==> found.Ok? && Connection(connAddr) !in old(connections)
      ensures connections == if ok then old(connections) + [Connection(connAddr)] else old(connections)
    {
      var i := 0;
      while i < |connections|
        invariant 0 <= i <= |connections|
        invariant Connection(connAddr) !in connections[..i]
      {
        if connections[i].address == connAddr {
          return false;
        }
        i := i + 1;
      }
      if found.Err? {
        return false;
      }
      connections := connections + [found.value];
      base := lastSucceededConn;
      tried := [];
      return true;
    }
  }

  predicate Fits(requests: seq<Answers>, n: nat) {
    forall q :: 0 <= q < |requests| ==> |requests[q]| == n
  }

  /** The index that each of a series of requests ended at. */
  ghost function Served(n: nat, last: nat, requests: seq<Answers>): seq<nat>
    requires n > 0 && Fits(requests, n)
    decreases |requests|
  {
    if requests == [] then []
    else
      var k := Attempts(last, requests[0], n);
      AttemptsExact(last, requests[0], n);
      [Turn(last, k - 1, n)] + Served(n, last + k, requests[1..])
  }

  predicate AllOk(answers: Answers) {
    forall i :: 0 <= i < |answers| ==> answers[i].Ok?
  }

  lemma FirstAnswers(last: nat, answers: Answers)
    requires answers != [] && AllOk(answers)
    ensures Attempts(last, answers, |answers|) == 1
  {
  }

  lemma TurnsFirst(last: nat, count: nat, n: nat)
    requires n > 0 && count > 0
    ensures Turns(last, count, n) == [Turn(last, 0, n)] + Turns(last + 1, count - 1, n)
  {
    TurnsAppend(last, 1, count - 1, n);
    assert Turns(last, 1, n) == Turns(last, 0, n) + [Turn(last, 0, n)];
  }

  lemma {:induction false} HealthyServed(n: nat, last: nat, requests: seq<Answers>)
    requires n > 0 && Fits(requests, n)
    requires forall q :: 0 <= q < |requests| ==> AllOk(requests[q])
    decreases |requests|
    ensures Served(n, last, requests) == Turns(last, |requests|, n)
  {
    hide Turns, Turn, Attempts, AllOk;
    if requests == [] {
      TurnsAt(last, 0, n);
    } else {
      HealthyServed(n, last + 1, requests[1..]);
      FirstAnswers(last, requests[0]);
      TurnsFirst(last, |requests|, n);
    }
  }

  /** With `n` connections that all answer, `m * n` requests go to each of them `m` times. */
  lemma HealthySpread(n: nat, last: nat, requests: seq<Answers>, m: nat, i: nat)
    requires i < n && Fits(requests, n) && |requests| == m * n
    requires forall q :: 0 <= q < |requests| ==> AllOk(requests[q])
    ensures Count(Served(n, last, requests), i) == m
  {
    hide Turns, Served, AllOk, Fits;
    HealthyServed(n, last, requests);
    TurnsSpread(last, m, 0, n, i);
  }
}
