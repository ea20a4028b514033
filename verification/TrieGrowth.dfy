/** What the loop of `addPath` has done to the trie after some of its steps. */
module TrieGrowth {
  import opened Wrappers
  import opened UriTokens
  import opened RouteTable
  import opened RouteAdding
  import opened TrieStore

  ghost predicate ValueAt<V>(c: Cell<V>, table: Table<V>, q: Position) {
    if q in table then c.value == table[q].value && c.path == table[q].path else c.value == None
  }

  /** Every node holds the value and pattern that the table has for its position. */
  ghost predicate Valued<V>(at: Places<V>, s: Store<V>, table: Table<V>) {
    forall q :: q in at ==> at[q] in s && ValueAt(s[at[q]], table, q)
  }

  /** One step of `addPath`: either the child was there already, or it is a new empty node. */
  ghost predicate Moved<V>(at: Places<V>, s: Store<V>, at': Places<V>, s': Store<V>, q: Position, t: Token, n: TrieNode<V>) {
    || (Child(q, t) in at && !t.Wild? && at' == at && s' == s && n == at[Child(q, t)])
    || (Free(at.Keys, q, t) && Grown(at, s, at', s', q, t, n))
  }

  predicate EndsWild(r: Position, k: nat)
    requires k <= |r|
  {
    k > 0 && r[k - 1].Wild?
  }

  /** The place at the end of a wildcard was replaced; all others of the old places stand. */
  ghost predicate Kept<V>(at0: Places<V>, s0: Store<V>, at: Places<V>, s: Store<V>, p: Position) {
    && p in at0 && p in at && at[p] == at0[p] && at0[p] in s0 && at[p] in s
    && s[at[p]].value == s0[at0[p]].value && s[at[p]].path == s0[at0[p]].path
  }

  ghost predicate KeepsOld<V>(at0: Places<V>, s0: Store<V>, at: Places<V>, s: Store<V>, replaced: set<Position>) {
    forall p :: p in at0 && p !in replaced ==> Kept(at0, s0, at, s, p)
  }

  ghost predicate AddsEmpty<V>(at0: Places<V>, at: Places<V>, s: Store<V>, replaced: set<Position>) {
    forall p :: p in at && (p !in at0 || p in replaced) ==> at[p] in s && s[at[p]].value == None
  }

  /** The place whose node a wildcard step put anew. */
  ghost function Replaced(r: Position, k: nat): set<Position>
    requires k <= |r|
  {
    if EndsWild(r, k) then {r[..k]} else {}
  }

  /** After `k` steps along `r`: new places only along `r`, new nodes without values, and
      nothing has changed at all as long as the walk is on old ground. */
  ghost predicate Extends<V>(at0: Places<V>, s0: Store<V>, at: Places<V>, s: Store<V>, r: Position, k: nat) {
    && k <= |r|
    && at.Keys == at0.Keys + Prefixes(r, k)
    && KeepsOld(at0, s0, at, s, Replaced(r, k))
    && AddsEmpty(at0, at, s, Replaced(r, k))
    && (r[..k] in at0 && !EndsWild(r, k) ==> at == at0 && s == s0)
  }

  lemma ExtendsStart<V>(at: Places<V>, s: Store<V>, root: TrieNode<V>, r: Position)
    requires Wired(at, s, root)
    ensures Extends(at, s, at, s, r, 0)
  {
    assert Prefixes(r, 0) == {[]} by { assert r[..0] == []; }
    assert at.Keys == at.Keys + Prefixes(r, 0);
  }

  lemma TakeChild(r: Position, k: nat)
    requires k < |r|
    ensures r[..k + 1] == Child(r[..k], r[k])
  {
  }

  lemma PrefixesStep(r: Position, k: nat)
    requires k < |r|
    ensures Prefixes(r, k + 1) == Prefixes(r, k) + {Child(r[..k], r[k])}
  {
    TakeChild(r, k);
    var longer, both := Prefixes(r, k + 1), Prefixes(r, k) + {r[..k + 1]};
    forall q | q in longer ensures q in both {
      var i: nat :| i <= k + 1 && q == r[..i];
    }
    assert r[..k + 1] in longer;
  }

  /** A step that exists below a place on the way was there from the beginning. */
  lemma OldGround<V>(at0: Places<V>, s0: Store<V>, at: Places<V>, s: Store<V>, root: TrieNode<V>, r: Position, k: nat, t: Token)
    requires Wired(at0, s0, root) && Extends(at0, s0, at, s, r, k) && Child(r[..k], t) in at
    ensures Child(r[..k], t) in at0 && r[..k] in at0
  {
    if Child(r[..k], t) in Prefixes(r, k) {
      PrefixStep(r, k, r[..k], t);
    }
  }

  lemma StepOnOldGround<V>(at0: Places<V>, s0: Store<V>, at: Places<V>, s: Store<V>, root: TrieNode<V>, r: Position, k: nat)
    requires Wired(at0, s0, root) && Extends(at0, s0, at, s, r, k) && k < |r| && !EndsWild(r, k)
    requires Child(r[..k], r[k]) in at && !r[k].Wild?
    ensures Extends(at0, s0, at, s, r, k + 1)
  {
    OldGround(at0, s0, at, s, root, r, k, r[k]);
    PrefixesStep(r, k);
    TakeChild(r, k);
  }

  lemma GrownKept<V>(at0: Places<V>, s0: Store<V>, at: Places<V>, s: Store<V>, at': Places<V>, s': Store<V>, root: TrieNode<V>, q: Position, t: Token, n: TrieNode<V>, p: Position)
    requires Wired(at, s, root) && Grown(at, s, at', s', q, t, n) && Kept(at0, s0, at, s, p) && p != Child(q, t)
    ensures Kept(at0, s0, at', s', p)
  {
    GrownElsewhere(at, s, at', s', root, q, t, n, p);
  }

  lemma GrownKeepsOld<V>(at0: Places<V>, s0: Store<V>, at: Places<V>, s: Store<V>, at': Places<V>, s': Store<V>, root: TrieNode<V>, q: Position, t: Token, n: TrieNode<V>)
    requires Wired(at, s, root) && KeepsOld(at0, s0, at, s, {}) && Free(at.Keys, q, t) && Grown(at, s, at', s', q, t, n)
    ensures KeepsOld(at0, s0, at', s', if t.Wild? then {Child(q, t)} else {})
  {
    forall p | p in at0 && !(t.Wild? && p == Child(q, t)) ensures Kept(at0, s0, at', s', p) {
      assert Kept(at0, s0, at, s, p);
      GrownKept(at0, s0, at, s, at', s', root, q, t, n, p);
    }
  }

  lemma GrownAddsEmpty<V>(at0: Places<V>, at: Places<V>, s: Store<V>, at': Places<V>, s': Store<V>, root: TrieNode<V>, q: Position, t: Token, n: TrieNode<V>)
    requires Wired(at, s, root) && AddsEmpty(at0, at, s, {}) && Grown(at, s, at', s', q, t, n)
    ensures AddsEmpty(at0, at', s', if t.Wild? then {Child(q, t)} else {})
  {
    forall p | p in at' && (p !in at0 || (t.Wild? && p == Child(q, t))) ensures at'[p] in s' && s'[at'[p]].value == None {
      if p != Child(q, t) {
        GrownElsewhere(at, s, at', s', root, q, t, n, p);
        assert s[at[p]].value == None;
      }
    }
  }

  lemma StepOnNewGround<V>(at0: Places<V>, s0: Store<V>, at: Places<V>, s: Store<V>, at': Places<V>, s': Store<V>, root: TrieNode<V>, r: Position, k: nat, n: TrieNode<V>)
    requires Wired(at, s, root) && Extends(at0, s0, at, s, r, k) && k < |r| && !EndsWild(r, k)
    requires Free(at.Keys, r[..k], r[k]) && Grown(at, s, at', s', r[..k], r[k], n)
    ensures Extends(at0, s0, at', s', r, k + 1)
  {
    hide Wired, KeepsOld, AddsEmpty, Prefixes;
    TakeChild(r, k);
    PrefixesStep(r, k);
    assert Child(r[..k], r[k]) in at ==> r[k].Wild?;
    GrownKeepsOld(at0, s0, at, s, at', s', root, r[..k], r[k], n);
    GrownAddsEmpty(at0, at, s, at', s', root, r[..k], r[k], n);
  }

  /** The invariant of the loop of `addPath`. */
  lemma ExtendsStep<V>(at0: Places<V>, s0: Store<V>, at: Places<V>, s: Store<V>, at': Places<V>, s': Store<V>, root: TrieNode<V>, r: Position, k: nat, n: TrieNode<V>)
    requires Wired(at0, s0, root) && Wired(at, s, root) && Extends(at0, s0, at, s, r, k) && k < |r| && !EndsWild(r, k)
    requires Moved(at, s, at', s', r[..k], r[k], n)
    ensures Extends(at0, s0, at', s', r, k + 1)
    ensures r[..k + 1] in at' && at'[r[..k + 1]] == n && n in s'
  {
    TakeChild(r, k);
    if Child(r[..k], r[k]) in at && !r[k].Wild? {
      assert !Free(at.Keys, r[..k], r[k]);
      StepOnOldGround(at0, s0, at, s, root, r, k);
    } else {
      StepOnNewGround(at0, s0, at, s, at', s', root, r, k, n);
    }
  }

  /** A rival is met on old ground only, so nothing has been changed by then. */
  lemma RivalOnOldGround<V>(at0: Places<V>, s0: Store<V>, at: Places<V>, s: Store<V>, root: TrieNode<V>, r: Position, k: nat)
    requires Wired(at0, s0, root) && Extends(at0, s0, at, s, r, k) && k < |r| && !EndsWild(r, k)
    ensures Competes(at.Keys, r[..k], r[k]) <==> Competes(at0.Keys, r[..k], r[k])
    ensures Competes(at.Keys, r[..k], r[k]) ==> at == at0 && s == s0
  {
    forall t | Child(r[..k], t) in at ensures Child(r[..k], t) in at0 && r[..k] in at0 {
      OldGround(at0, s0, at, s, root, r, k, t);
    }
  }

  /** The store after value and pattern of one node were overwritten. */
  ghost predicate Written<V>(s: Store<V>, s': Store<V>, n: TrieNode<V>, e: Entry<V>) {
    && n in s && s'.Keys == s.Keys && s'[n] == s[n].(value := e.value, path := e.path)
    && forall m :: m in s && m != n ==> s'[m] == s[m]
  }

  lemma WrittenWired<V>(at: Places<V>, s: Store<V>, s': Store<V>, root: TrieNode<V>, n: TrieNode<V>, e: Entry<V>)
    requires Wired(at, s, root) && Written(s, s', n, e)
    ensures Wired(at, s', root) && Injective(at)
  {
    forall p | p in at ensures at[p] in s' && Linked(at, s', p) {
      assert Linked(at, s, p);
    }
  }

  /** Writing value and pattern into the last node files the route in the table. */
  lemma Filed<V>(at0: Places<V>, s0: Store<V>, at: Places<V>, s: Store<V>, s': Store<V>, table: Table<V>, r: Position, e: Entry<V>)
    requires Extends(at0, s0, at, s, r, |r|) && Valued(at0, s0, table) && Injective(at)
    requires at0.Keys == Index(table) && r in at && Written(s, s', at[r], e)
    ensures Valued(at, s', table[r := e]) && at.Keys == Index(table[r := e])
  {
    IndexAdded(table, r, e);
    assert r[..|r|] == r;
    TableInIndex(table);
    forall p | p in at ensures at[p] in s' && ValueAt(s'[at[p]], table[r := e], p) {
      if p != r {
        assert at[p] != at[r];
        assert p in at0 ==> Kept(at0, s0, at, s, p) && ValueAt(s0[at0[p]], table, p);
      }
    }
  }

  /** A node that already has a value at the end of the walk was there before, and is not
      the end of a wildcard: nothing has been changed. */
  lemma TakenOnOldGround<V>(at0: Places<V>, s0: Store<V>, at: Places<V>, s: Store<V>, table: Table<V>, r: Position)
    requires Extends(at0, s0, at, s, r, |r|) && Valued(at0, s0, table) && r in at && at[r] in s && r != []
    ensures s[at[r]].value.Some? <==> Taken(table, r) && r in at0
    ensures s[at[r]].value.Some? ==> at == at0 && s == s0
  {
    assert r[..|r|] == r;
    assert r in at0 ==> ValueAt(s0[at0[r]], table, r);
    assert r in at0 && !r[|r| - 1].Wild? ==> Kept(at0, s0, at, s, r);
  }

  lemma TableInIndex<V>(table: Table<V>)
    ensures table.Keys <= Index(table)
  {
    forall r | r in table ensures r in Index(table) {
      assert r[..|r|] == r;
    }
  }
}
