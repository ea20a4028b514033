/** Searching and traversing red-black shapes, and the trees that runs of `Put` reach. */
module RedBlackTraversal {
  import opened RedBlackShape
  import opened RedBlackRepair

  // ----- Searching -----

  /** The search ends at a branch exactly when the key's class is in the map, and then at
      the entry the map holds. */
  lemma LocateContents<N, V>(t: Shape<N, V>, key: Key)
    requires Ascending(InOrder(t))
    ensures var found := Locate(Top, t, key).1;
            && (found.Branch? <==> key.rank in Contents(t))
            && (found.Branch? ==> Contents(t)[key.rank] == (found.entry.key, found.entry.value))
  {
    LocateAscending(t, key);
    hide Locate, MapOf, Before, After;
    var (c, found) := Locate(Top, t, key);
    MapOfAt(InOrder(t));
    if found.Branch? {
      InTheMiddle(Before(c), InOrder(found.left), found.entry, InOrder(found.right), After(c));
    } else {
      AllAround(Before(c), After(c), key.rank);
    }
  }

  lemma InTheMiddle<T>(a: seq<T>, l: seq<T>, e: T, r: seq<T>, z: seq<T>)
    ensures var s := a + (l + [e] + r) + z; s[|a| + |l|] == e
  {
  }

  lemma AllAround<N, V>(a: seq<Entry<N, V>>, z: seq<Entry<N, V>>, rank: int)
    requires forall i :: 0 <= i < |a| ==> a[i].key.rank < rank
    requires forall i :: 0 <= i < |z| ==> rank < z[i].key.rank
    ensures forall i :: 0 <= i < |a + [] + z| ==> (a + [] + z)[i].key.rank != rank
  {
    var s := a + [] + z;
    forall i | 0 <= i < |s|
      ensures s[i].key.rank != rank
    {
      assert s[i] == if i < |a| then a[i] else z[i - |a|];
    }
  }

  lemma {:induction false} MapOfSize<N, V>(s: seq<Entry<N, V>>)
    requires Ascending(s)
    ensures |MapOf(s)| == |s|
  {
    if s != [] {
      var s', e := s[..|s| - 1], s[|s| - 1];
      MapOfSize(s');
      MapOfAbsent(s', e.key.rank);
      assert MapOf(s).Keys == MapOf(s').Keys + {e.key.rank};
    }
  }

  // ----- Runs of Put -----

  datatype PutCall<N, V> = PutCall(id: N, key: Key, value: V)

  /** The tree after a run of calls; a call that breaks the invariant would end the run. */
  ghost function Run<N, V>(calls: seq<PutCall<N, V>>): (t: Shape<N, V>)
    ensures SearchTree(t)
    ensures Contents(t) == Log(calls)
  {
    if calls == [] then
      assert BlackHeight<N, V>(Leaf, 0);
      Leaf
    else
      var last := calls[|calls| - 1];
      PutCorrect(Run(calls[..|calls| - 1]), last.id, last.key, last.value);
      RedBlackRepair.Put(Run(calls[..|calls| - 1]), last.id, last.key, last.value)
  }

  /** What a plain finite map remembers of the same calls. */
  ghost function Log<N, V>(calls: seq<PutCall<N, V>>): map<int, (Key, V)> {
    if calls == [] then map[]
    else
      var last := calls[|calls| - 1];
      Log(calls[..|calls| - 1])[last.key.rank := (last.key, last.value)]
  }

  /** Every reachable tree of `n` keys has height at most `2 * log2(n + 1)`. */
  lemma ReachableHeight<N, V>(calls: seq<PutCall<N, V>>)
    ensures Pow2(Height(Run(calls))) <= (|Log(calls)| + 1) * (|Log(calls)| + 1)
  {
    HeightBound(Run(calls));
    MapOfSize(InOrder(Run(calls)));
  }

  // ----- Traversing with a callback -----

  /** In-order traversal as coded: a callback that answers false cuts off the right subtree
      of its own node only.  Returns the callback's final state and the entries it saw. */
  function Traverse<N, V, S>(t: Shape<N, V>, cb: (S, V) -> (S, bool), s: S): (S, seq<Entry<N, V>>) {
    match t
    case Leaf => (s, [])
    case Branch(left, _, e, right) =>
      var (s1, seen) := Traverse(left, cb, s);
      var (s2, more) := cb(s1, e.value);
      if !more then (s2, seen + [e])
      else
        var (s3, rest) := Traverse(right, cb, s2);
        (s3, seen + [e] + rest)
  }

  /** The callback's state after it was given `es` one by one, its answers ignored. */
  function Fold<N, V, S>(es: seq<Entry<N, V>>, cb: (S, V) -> (S, bool), s: S): S {
    if es == [] then s else cb(Fold(es[..|es| - 1], cb, s), es[|es| - 1].value).0
  }

  /** What the callback answers at position `i` when it is given `es` one by one. */
  predicate Continues<N, V, S>(es: seq<Entry<N, V>>, cb: (S, V) -> (S, bool), s: S, i: nat)
    requires i < |es|
  {
    cb(Fold(es[..i], cb, s), es[i].value).1
  }

  lemma {:induction false} FoldConcat<N, V, S>(a: seq<Entry<N, V>>, b: seq<Entry<N, V>>, cb: (S, V) -> (S, bool), s: S)
    ensures Fold(a + b, cb, s) == Fold(b, cb, Fold(a, cb, s))
    decreases |b|
  {
    if b == [] {
      assert a + b == a;
    } else {
      FoldConcat(a, b[..|b| - 1], cb, s);
      assert (a + b)[..|a + b| - 1] == a + b[..|b| - 1];
    }
  }

  lemma ContinuesConcat<N, V, S>(a: seq<Entry<N, V>>, b: seq<Entry<N, V>>, cb: (S, V) -> (S, bool), s: S, i: nat)
    requires i < |a| + |b|
    ensures Continues(a + b, cb, s, i) ==
            if i < |a| then Continues(a, cb, s, i) else Continues(b, cb, Fold(a, cb, s), i - |a|)
  {
    if i < |a| {
      assert (a + b)[..i] == a[..i];
    } else {
      assert (a + b)[..i] == a + b[..i - |a|];
      FoldConcat(a, b[..i - |a|], cb, s);
    }
  }

  /** `at` lists, in ascending order, the positions in `all` of the elements of `seen`. */
  ghost predicate Picks<T>(seen: seq<T>, all: seq<T>, at: seq<nat>) {
    && |at| == |seen|
    && (forall i :: 0 <= i < |at| ==> at[i] < |all| && seen[i] == all[at[i]])
    && (forall i, j :: 0 <= i < j < |at| ==> at[i] < at[j])
  }

  lemma PicksConcat<T>(a: seq<T>, all: seq<T>, at: seq<nat>, a': seq<T>, all': seq<T>, at': seq<nat>) returns (both: seq<nat>)
    requires Picks(a, all, at) && Picks(a', all', at')
    ensures Picks(a + a', all + all', both)
  {
    both := at + seq(|at'|, i requires 0 <= i < |at'| => |all| + at'[i]);
  }

  /** Whatever the callback answers, it sees a subsequence of the in-order entries, and its
      final state is its fold over what it saw. */
  lemma {:induction false} TraversePicks<N, V, S>(t: Shape<N, V>, cb: (S, V) -> (S, bool), s: S) returns (at: seq<nat>)
    ensures Picks(Traverse(t, cb, s).1, InOrder(t), at)
    ensures Traverse(t, cb, s).0 == Fold(Traverse(t, cb, s).1, cb, s)
    decreases t
  {
    if t.Leaf? {
      at := [];
      return;
    }
    var left := TraversePicks(t.left, cb, s);
    var (s1, seen) := Traverse(t.left, cb, s);
    var upTo := PicksConcat(seen, InOrder(t.left), left, [t.entry], [t.entry], [0]);
    var (s2, more) := cb(s1, t.entry.value);
    FoldConcat(seen, [t.entry], cb, s);
    assert Fold([t.entry], cb, s1) == s2 by { assert [t.entry][..0] == []; }
    if more {
      var right := TraversePicks(t.right, cb, s2);
      at := PicksConcat(seen + [t.entry], InOrder(t.left) + [t.entry], upTo, Traverse(t.right, cb, s2).1, InOrder(t.right), right);
      FoldConcat(seen + [t.entry], Traverse(t.right, cb, s2).1, cb, s);
    } else {
      at := PicksConcat(seen + [t.entry], InOrder(t.left) + [t.entry], upTo, [], InOrder(t.right), []);
      assert seen + [t.entry] + [] == seen + [t.entry];
    }
  }

  /** In a search tree the keys seen are strictly ascending. */
  lemma TraverseAscending<N, V, S>(t: Shape<N, V>, cb: (S, V) -> (S, bool), s: S)
    requires Ascending(InOrder(t))
    ensures Ascending(Traverse(t, cb, s).1)
  {
    var at := TraversePicks(t, cb, s);
  }

  ghost predicate AllContinue<N, V, S>(es: seq<Entry<N, V>>, cb: (S, V) -> (S, bool), s: S) {
    forall i :: 0 <= i < |es| ==> Continues(es, cb, s, i)
  }

  /** A node on the right spine, given by its in-order position. */
  predicate OnRightSpine<N, V>(t: Shape<N, V>, i: int) {
    t.Branch? && (i == |InOrder(t.left)| || OnRightSpine(t.right, i - |InOrder(t.left)| - 1))
  }

  ghost predicate SawUpTo<N, V>(t: Shape<N, V>, seen: seq<Entry<N, V>>, k: nat) {
    if k >= |InOrder(t)| then seen == InOrder(t)
    else |seen| > k && seen[..k + 1] == InOrder(t)[..k + 1] && (|seen| == k + 1 <==> OnRightSpine(t, k))
  }

  /** The callback first answers false at position `k` of the in-order sequence (at its end,
      never).  It has then seen exactly the entries up to there, and it is not called again
      if and only if that entry lies on the right spine. */
  lemma {:induction false} FirstStop<N, V, S>(t: Shape<N, V>, cb: (S, V) -> (S, bool), s: S, k: nat)
    requires k <= |InOrder(t)|
    requires forall i :: 0 <= i < k ==> Continues(InOrder(t), cb, s, i)
    requires k < |InOrder(t)| ==> !Continues(InOrder(t), cb, s, k)
    ensures SawUpTo(t, Traverse(t, cb, s).1, k)
    decreases t
  {
    hide Continues, Fold, OnRightSpine;
    if t.Leaf? {
      return;
    }
    var l := InOrder(t.left);
    var tail := [t.entry] + InOrder(t.right);
    assert InOrder(t) == l + tail;
    forall i | 0 <= i <= k && i < |InOrder(t)|
      ensures Continues(InOrder(t), cb, s, i) ==
              if i < |l| then Continues(l, cb, s, i) else Continues(tail, cb, Fold(l, cb, s), i - |l|)
    {
      ContinuesConcat(l, tail, cb, s, i);
    }
    FirstStop(t.left, cb, s, if k < |l| then k else |l|);
    if k < |l| {
      SawLeft(t, cb, s, k);
    } else {
      forall i | 0 <= i <= k - |l| && i < |tail|
        ensures Continues(tail, cb, Fold(l, cb, s), i) == (i < k - |l|)
      {
        assert Continues(InOrder(t), cb, s, i + |l|) == Continues(tail, cb, Fold(l, cb, s), i);
      }
      FirstStopTail(t, cb, s, k - |l|);
    }
  }

  lemma {:induction false} NotOnSpine<N, V>(t: Shape<N, V>, i: int)
    requires i < 0
    ensures !OnRightSpine(t, i)
    decreases t
  {
    if t.Branch? {
      NotOnSpine(t.right, i - |InOrder(t.left)| - 1);
    }
  }

  lemma SawLeft<N, V, S>(t: Shape<N, V>, cb: (S, V) -> (S, bool), s: S, k: nat)
    requires t.Branch? && k < |InOrder(t.left)| && SawUpTo(t.left, Traverse(t.left, cb, s).1, k)
    ensures SawUpTo(t, Traverse(t, cb, s).1, k)
  {
    hide Continues, Fold;
    NotOnSpine(t.right, k - |InOrder(t.left)| - 1);
    var seen, all := Traverse(t, cb, s).1, InOrder(t);
    assert |seen| > k + 1 && seen[..k + 1] == Traverse(t.left, cb, s).1[..k + 1];
    assert all[..k + 1] == InOrder(t.left)[..k + 1];
  }

  /** The part of `FirstStop` after a left subtree that was seen in full. */
  lemma FirstStopTail<N, V, S>(t: Shape<N, V>, cb: (S, V) -> (S, bool), s: S, k: nat)
    requires t.Branch? && Traverse(t.left, cb, s).1 == InOrder(t.left)
    requires k <= 1 + |InOrder(t.right)|
    requires var tail := [t.entry] + InOrder(t.right);
             forall i :: 0 <= i <= k && i < |tail| ==> Continues(tail, cb, Fold(InOrder(t.left), cb, s), i) == (i < k)
    ensures SawUpTo(t, Traverse(t, cb, s).1, |InOrder(t.left)| + k)
    decreases t, 0
  {
    var l, r := InOrder(t.left), InOrder(t.right);
    var _ := TraversePicks(t.left, cb, s);
    var s1 := Traverse(t.left, cb, s).0;
    var tail := [t.entry] + r;
    assert tail[..0] == [] && Continues(tail, cb, s1, 0) == cb(s1, t.entry.value).1;
    if k == 0 {
      SawRoot(t);
    } else {
      var s2 := cb(s1, t.entry.value).0;
      ShiftVerdicts(t.entry, r, cb, s1, k);
      FirstStop(t.right, cb, s2, k - 1);
      var rest := Traverse(t.right, cb, s2).1;
      SawRight(t, rest, k);
      assert Traverse(t, cb, s).1 == l + [t.entry] + rest;
    }
  }

  lemma SawRoot<N, V>(t: Shape<N, V>)
    requires t.Branch?
    ensures SawUpTo(t, InOrder(t.left) + [t.entry], |InOrder(t.left)|)
  {
    TakeJoined(InOrder(t.left), t.entry, InOrder(t.right), 0);
    assert InOrder(t)[..|InOrder(t.left)| + 1] == InOrder(t.left) + [t.entry];
  }

  lemma ShiftVerdicts<N, V, S>(e: Entry<N, V>, r: seq<Entry<N, V>>, cb: (S, V) -> (S, bool), s: S, k: nat)
    requires forall i :: 0 <= i <= k && i < |[e] + r| ==> Continues([e] + r, cb, s, i) == (i < k)
    ensures forall i :: 0 <= i < k && i < |r| ==> Continues(r, cb, cb(s, e.value).0, i) == (i < k - 1)
  {
    forall i | 0 <= i < k && i < |r| ensures Continues(r, cb, cb(s, e.value).0, i) == (i < k - 1) {
      assert Fold([e], cb, s) == cb(s, e.value).0 by { assert [e][..0] == []; }
      ContinuesConcat([e], r, cb, s, i + 1);
    }
  }

  lemma SawRight<N, V>(t: Shape<N, V>, rest: seq<Entry<N, V>>, k: nat)
    requires t.Branch? && 0 < k <= 1 + |InOrder(t.right)| && SawUpTo(t.right, rest, k - 1)
    ensures SawUpTo(t, InOrder(t.left) + [t.entry] + rest, |InOrder(t.left)| + k)
  {
    if k <= |InOrder(t.right)| {
      TakeJoined(InOrder(t.left), t.entry, rest, k);
      TakeJoined(InOrder(t.left), t.entry, InOrder(t.right), k);
    }
  }

  lemma TakeJoined<T>(l: seq<T>, e: T, r: seq<T>, k: nat)
    requires k <= |r|
    ensures (l + [e] + r)[..|l| + k + 1] == l + [e] + r[..k]
  {
  }

  /** No left child anywhere: all nodes are on the right spine. */
  predicate NoLeftChild<N, V>(t: Shape<N, V>) {
    t.Branch? ==> t.left.Leaf? && NoLeftChild(t.right)
  }

  /** "Stop when the callback returns false" is what the traversal does for every callback on
      exactly the trees without left children. */
  lemma {:induction false} StopHonoured<N, V, S>(t: Shape<N, V>, cb: (S, V) -> (S, bool), s: S, i: nat)
    requires NoLeftChild(t)
    requires i + 1 < |Traverse(t, cb, s).1|
    ensures Continues(Traverse(t, cb, s).1, cb, s, i)
    decreases t
  {
    var (s2, more) := cb(s, t.entry.value);
    var rest := Traverse(t.right, cb, s2).1;
    assert Traverse(t, cb, s).1 == [t.entry] + rest;
    assert more && [t.entry][..0] == [] && Fold([t.entry], cb, s) == s2;
    ContinuesConcat([t.entry], rest, cb, s, i);
    if i > 0 {
      StopHonoured(t.right, cb, s2, i - 1);
    }
  }

  /** On every other tree some callback answers false and is called again. */
  lemma StopIgnored<N, V>(t: Shape<N, V>) returns (cb: (int, V) -> (int, bool), s: int, i: nat)
    requires !NoLeftChild(t)
    ensures i + 1 < |Traverse(t, cb, s).1| && !Continues(Traverse(t, cb, s).1, cb, s, i)
  {
    i := OffSpine(t);
    cb := Countdown;
    s := i;
    forall j | 0 <= j <= i ensures Continues(InOrder(t), cb, s, j) == (j < i) {
      CountdownFold(InOrder(t)[..j], s);
    }
    FirstStop(t, cb, s, i);
    var seen := Traverse(t, cb, s).1;
    assert seen[..i] == seen[..i + 1][..i] == InOrder(t)[..i];
    assert seen[i] == seen[..i + 1][i];
  }

  /** A callback that answers true as often as its state says, and then false. */
  function Countdown<V>(left: int, v: V): (int, bool) {
    (left - 1, left != 0)
  }

  lemma {:induction false} CountdownFold<N, V>(es: seq<Entry<N, V>>, s: int)
    ensures Fold(es, Countdown, s) == s - |es|
  {
    if es != [] {
      CountdownFold(es[..|es| - 1], s);
    }
  }

  lemma {:induction false} OffSpine<N, V>(t: Shape<N, V>) returns (k: nat)
    requires !NoLeftChild(t)
    ensures k < |InOrder(t)| && !OnRightSpine(t, k)
  {
    if t.left.Branch? {
      k := 0;
      NotOnSpine(t.right, 0 - |InOrder(t.left)| - 1);
    } else {
      k := OffSpine(t.right);
      k := k + 1;
    }
  }

  /** Among red-black trees only those of at most two nodes have no left child. */
  lemma NoLeftChildIsSmall<N, V>(t: Shape<N, V>)
    requires RedBlack(t) && NoLeftChild(t)
    ensures |InOrder(t)| <= 2
  {
    if t.Branch? && t.right.Branch? {
      var h :| BlackHeight(t, h);
      var r := t.right;
      assert BlackHeight(t.left, h - 1) && BlackHeight(r, h - 1) && NoLeftChild(r) && NoRedRed(r);
      assert BlackHeight(r.left, if r.color == Black then h - 2 else h - 1);
      assert r.color == Red && BlackHeight(r.right, 0) && RootColor(r.right) == Black && NoLeftChild(r.right);
      HeightOfColors(r.right, 0);
    }
  }

  lemma CompareBound<N, V>(t: Shape<N, V>)
    requires SearchTree(t)
    ensures Pow2(Height(t)) <= (|Contents(t)| + 1) * (|Contents(t)| + 1)
  {
    HeightBound(t);
    MapOfSize(InOrder(t));
  }

  lemma EmptyContents<N, V>(t: Shape<N, V>)
    requires SearchTree(t)
    ensures Contents(t) == map[] <==> t.Leaf?
  {
    MapOfSize(InOrder(t));
  }

  /** The ends of the in-order sequence hold the least and the greatest key. */
  lemma ExtremeKeys<N, V>(t: Shape<N, V>)
    requires SearchTree(t)
    ensures InOrder(t) == [] <==> Contents(t) == map[]
    ensures InOrder(t) != [] ==>
              var s := InOrder(t);
              && (forall e :: e in [s[0], s[|s| - 1]] ==> e.key.rank in Contents(t) && Contents(t)[e.key.rank] == (e.key, e.value))
              && (forall k :: k in Contents(t) ==> s[0].key.rank <= k <= s[|s| - 1].key.rank)
  {
    MapOfSize(InOrder(t));
    MapOfAt(InOrder(t));
  }

  /** The entry reached by going left as far as possible, `last` being the one before. */
  function Leftmost<N, V>(t: Shape<N, V>, last: seq<Entry<N, V>>): seq<Entry<N, V>> {
    if t.Leaf? then last else Leftmost(t.left, [t.entry])
  }

  function Rightmost<N, V>(t: Shape<N, V>, last: seq<Entry<N, V>>): seq<Entry<N, V>> {
    if t.Leaf? then last else Rightmost(t.right, [t.entry])
  }

  lemma {:induction false} LeftmostIsFirst<N, V>(t: Shape<N, V>, last: seq<Entry<N, V>>)
    ensures Leftmost(t, last) == if t.Leaf? then last else [InOrder(t)[0]]
    decreases t
  {
    if t.Branch? {
      LeftmostIsFirst(t.left, [t.entry]);
    }
  }

  lemma {:induction false} RightmostIsLast<N, V>(t: Shape<N, V>, last: seq<Entry<N, V>>)
    ensures Rightmost(t, last) == if t.Leaf? then last else [InOrder(t)[|InOrder(t)| - 1]]
    decreases t
  {
    if t.Branch? {
      RightmostIsLast(t.right, [t.entry]);
    }
  }
}
