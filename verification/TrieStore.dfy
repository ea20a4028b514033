/** When a store of linked trie cells indexes a set of positions, and what adding a child
    does to it.  Stores are snapshots of node fields, so this module is about values. */
module TrieStore {
  import opened Wrappers
  import opened UriTokens
  import opened RouteTable

  class TrieNode<V> {
    var parent: TrieNode?<V>
    var wildcardChild: TrieNode?<V>
    var paramChild: TrieNode?<V>
    var constChildren: map<string, TrieNode<V>>
    var param: string
    var value: Option<V>
    var path: string

    constructor (parent: TrieNode?<V>, param: string)
      ensures Fields() == EmptyCell(param)
    {
      this.parent, this.param := parent, param;
      wildcardChild, paramChild, constChildren := null, null, map[];
      value, path := None, "";
    }

    ghost function Fields(): Cell<V>
      reads this
    {
      Cell(wildcardChild, paramChild, constChildren, param, value, path)
    }
  }

  datatype Cell<V> = Cell(
    wild: TrieNode?<V>, param: TrieNode?<V>, consts: map<string, TrieNode<V>>,
    name: string, value: Option<V>, path: string)

  function EmptyCell<V>(name: string): Cell<V> {
    Cell(null, null, map[], name, None, "")
  }

  type Store<V> = map<TrieNode<V>, Cell<V>>

  /** Which node stands at which position. */
  type Places<V> = map<Position, TrieNode<V>>

  /** The links of a cell at `q` lead to exactly the places one step further. */
  ghost predicate LinkedConsts<V>(at: Places<V>, c: Cell<V>, q: Position) {
    && (forall x :: x != "" ==> (Key(x) in c.consts <==> Child(q, Const(x)) in at))
    && (forall x :: x != "" && Child(q, Const(x)) in at ==> c.consts[Key(x)] == at[Child(q, Const(x))])
  }

  ghost predicate LinkedParam<V>(at: Places<V>, s: Store<V>, c: Cell<V>, q: Position) {
    && (forall p :: Child(q, Param(p)) in at ==> c.param == at[Child(q, Param(p))])
    && (c.param != null ==> c.param in s && Child(q, Param(s[c.param].name)) in at)
  }

  ghost predicate LinkedWild<V>(at: Places<V>, s: Store<V>, c: Cell<V>, q: Position) {
    && (forall w :: Child(q, Wild(w)) in at ==> c.wild == at[Child(q, Wild(w))])
    && (c.wild != null ==> c.wild in s && Child(q, Wild(s[c.wild].name)) in at)
  }

  /** A node below a parameter or wildcard step carries that step's name. */
  ghost predicate Named<V>(c: Cell<V>, q: Position) {
    q != [] && !q[|q| - 1].Const? ==> c.name == q[|q| - 1].name
  }

  ghost predicate Linked<V>(at: Places<V>, s: Store<V>, q: Position)
    requires q in at && at[q] in s
  {
    var c := s[at[q]];
    && LinkedConsts(at, c, q) && LinkedParam(at, s, c, q) && LinkedWild(at, s, c, q)
    && Named(c, q) && (c.param == null || c.wild == null)
  }

  /** Positions closed under prefixes, with wildcards last and no empty constants. */
  ghost predicate TreeLike(index: set<Position>) {
    && [] in index
    && (forall q, t :: Child(q, t) in index ==> q in index)
    && (forall q: Position, t :: Child(q, t) in index && q != [] ==> !q[|q| - 1].Wild?)
    && (forall q, x :: Child(q, Const(x)) in index ==> x != "")
  }

  ghost predicate Injective<V>(at: Places<V>) {
    forall q, q' :: q in at && q' in at && at[q] == at[q'] ==> q == q'
  }

  ghost predicate Wired<V>(at: Places<V>, s: Store<V>, root: TrieNode<V>) {
    && TreeLike(at.Keys) && Injective(at) && at[[]] == root
    && (forall q :: q in at ==> at[q] in s && Linked(at, s, q))
  }

  lemma OneName<V>(at: Places<V>, s: Store<V>, root: TrieNode<V>, q: Position, t: Token, t': Token)
    requires Wired(at, s, root) && Child(q, t) in at && Child(q, t') in at && !t.Const? && !t'.Const?
    ensures t == t'
  {
    assert Linked(at, s, q) && Linked(at, s, Child(q, t)) && Linked(at, s, Child(q, t'));
    var c := s[at[q]];
    assert t.Param? ==> LinkedParam(at, s, c, q) && c.param == at[Child(q, Param(t.name))];
    assert t.Wild? ==> LinkedWild(at, s, c, q) && c.wild == at[Child(q, Wild(t.name))];
    assert t'.Param? ==> LinkedParam(at, s, c, q) && c.param == at[Child(q, Param(t'.name))];
    assert t'.Wild? ==> LinkedWild(at, s, c, q) && c.wild == at[Child(q, Wild(t'.name))];
  }

  lemma WiredConflictFree<V>(at: Places<V>, s: Store<V>, root: TrieNode<V>)
    requires Wired(at, s, root)
    ensures ConflictFree(at.Keys)
  {
    forall q, t, t' | Child(q, t) in at.Keys && Child(q, t') in at.Keys && !t.Const? && !t'.Const? ensures t == t' {
      OneName(at, s, root, q, t, t');
    }
  }

  // ----- Adding a child -----

  ghost function WithChild<V>(c: Cell<V>, t: Token, n: TrieNode<V>): Cell<V> {
    match t
    case Const(x) => c.(consts := c.consts[Key(x) := n])
    case Param(_) => c.(param := n)
    case Wild(_) => c.(wild := n)
  }

  /** A fresh node is hung below the node at `q` as step `t`. */
  ghost predicate Grown<V>(at: Places<V>, s: Store<V>, at': Places<V>, s': Store<V>, q: Position, t: Token, n: TrieNode<V>) {
    && q in at && at[q] in s && n !in s
    && at' == at[Child(q, t) := n]
    && s'.Keys == s.Keys + {n} && s'[n] == EmptyCell(if t.Const? then "" else t.name)
    && s'[at[q]] == WithChild(s[at[q]], t, n)
    && (forall m :: m in s && m != at[q] ==> s'[m] == s[m])
  }

  /** The step is not there yet and does not compete with one that is; a wildcard may
      replace the wildcard of the same name. */
  ghost predicate Free(index: set<Position>, q: Position, t: Token) {
    && q in index && (q != [] ==> !q[|q| - 1].Wild?)
    && (t.Const? ==> t.text != "" && Child(q, t) !in index)
    && (t.Param? ==> forall t' :: Child(q, t') in index ==> t'.Const?)
    && (t.Wild? ==> forall t' :: Child(q, t') in index ==> t'.Const? || t' == t)
  }

  lemma GrowIndex(index: set<Position>, q: Position, t: Token)
    requires TreeLike(index) && Free(index, q, t)
    ensures TreeLike(index + {Child(q, t)})
    ensures forall t' :: Child(Child(q, t), t') !in index + {Child(q, t)}
  {
    forall p, t' | Child(p, t') == Child(q, t) ensures p == q && t' == t {
      ChildInjective(p, t', q, t);
    }
    var c := Child(q, t);
    assert c != [] && c[|c| - 1] == t;
    forall t' ensures Child(Child(q, t), t') !in index + {Child(q, t)} {
      assert Child(Child(q, t), t') in index ==> Child(q, t) in index && !t.Wild?;
    }
  }

  /** Nodes other than the new one and its parent are where and as they were. */
  lemma GrownElsewhere<V>(at: Places<V>, s: Store<V>, at': Places<V>, s': Store<V>, root: TrieNode<V>, q: Position, t: Token, n: TrieNode<V>, p: Position)
    requires Wired(at, s, root) && Grown(at, s, at', s', q, t, n)
    requires p in at' && p != Child(q, t)
    ensures p in at && at'[p] == at[p] && at[p] in s' && at[p] in s
    ensures p != q ==> s'[at[p]] == s[at[p]]
  {
  }

  lemma GrownInjective<V>(at: Places<V>, s: Store<V>, at': Places<V>, s': Store<V>, root: TrieNode<V>, q: Position, t: Token, n: TrieNode<V>)
    requires Wired(at, s, root) && Grown(at, s, at', s', q, t, n)
    ensures Injective(at')
  {
    forall p, p' | p in at' && p' in at' && at'[p] == at'[p'] ensures p == p' {
      assert p != Child(q, t) ==> at[p] in s;
      assert p' != Child(q, t) ==> at[p'] in s;
    }
  }

  /** The steps from `p` lead where they did, if `p` is not the grown place. */
  lemma GrownSteps<V>(at: Places<V>, s: Store<V>, at': Places<V>, s': Store<V>, q: Position, t: Token, n: TrieNode<V>, p: Position, t': Token)
    requires Grown(at, s, at', s', q, t, n) && (p != q || t' != t)
    ensures Child(p, t') in at' <==> Child(p, t') in at
    ensures Child(p, t') in at ==> at'[Child(p, t')] == at[Child(p, t')]
  {
    if Child(p, t') == Child(q, t) {
      ChildInjective(p, t', q, t);
    }
  }

  lemma GrownConsts<V>(at: Places<V>, s: Store<V>, at': Places<V>, s': Store<V>, root: TrieNode<V>, q: Position, t: Token, n: TrieNode<V>, p: Position)
    requires Wired(at, s, root) && Grown(at, s, at', s', q, t, n) && Free(at.Keys, q, t)
    requires p in at' && p != Child(q, t) && at'[p] in s'
    ensures LinkedConsts(at', s'[at'[p]], p)
  {
    GrownElsewhere(at, s, at', s', root, q, t, n, p);
    assert Linked(at, s, p);
    var c, c' := s[at[p]], s'[at[p]];
    assert LinkedConsts(at, c, p);
    forall x | x != ""
      ensures Key(x) in c'.consts <==> Child(p, Const(x)) in at'
      ensures Child(p, Const(x)) in at' ==> c'.consts[Key(x)] == at'[Child(p, Const(x))]
    {
      if p != q || Const(x) != t {
        GrownSteps(at, s, at', s', q, t, n, p, Const(x));
        if t.Const? && Key(x) == Key(t.text) {
          KeyInjective(x, t.text);
        }
      }
    }
  }

  lemma GrownParam<V>(at: Places<V>, s: Store<V>, at': Places<V>, s': Store<V>, root: TrieNode<V>, q: Position, t: Token, n: TrieNode<V>, p: Position)
    requires Wired(at, s, root) && Grown(at, s, at', s', q, t, n) && Free(at.Keys, q, t)
    requires p in at' && p != Child(q, t) && at'[p] in s'
    ensures LinkedParam(at', s', s'[at'[p]], p)
  {
    GrownElsewhere(at, s, at', s', root, q, t, n, p);
    assert Linked(at, s, p);
    var c, c' := s[at[p]], s'[at[p]];
    assert LinkedParam(at, s, c, p);
    if p == q && t.Param? {
      forall x | Child(q, Param(x)) in at' ensures Param(x) == t {
        if Param(x) != t {
          GrownSteps(at, s, at', s', q, t, n, q, Param(x));
        }
      }
      return;
    }
    assert c'.param == c.param;
    forall x | Child(p, Param(x)) in at' ensures c.param == at'[Child(p, Param(x))] {
      GrownSteps(at, s, at', s', q, t, n, p, Param(x));
    }
    if c.param != null {
      var t' := Param(s[c.param].name);
      assert at[Child(p, t')] == c.param;
      GrownSteps(at, s, at', s', q, t, n, p, t');
      GrownElsewhere(at, s, at', s', root, q, t, n, Child(p, t'));
      assert s'[c.param].name == s[c.param].name;
    }
  }

  lemma GrownWild<V>(at: Places<V>, s: Store<V>, at': Places<V>, s': Store<V>, root: TrieNode<V>, q: Position, t: Token, n: TrieNode<V>, p: Position)
    requires Wired(at, s, root) && Grown(at, s, at', s', q, t, n) && Free(at.Keys, q, t)
    requires p in at' && p != Child(q, t) && at'[p] in s'
    ensures LinkedWild(at', s', s'[at'[p]], p)
  {
    GrownElsewhere(at, s, at', s', root, q, t, n, p);
    assert Linked(at, s, p);
    var c, c' := s[at[p]], s'[at[p]];
    assert LinkedWild(at, s, c, p);
    forall x | Child(p, Wild(x)) in at' ensures c'.wild == at'[Child(p, Wild(x))] {
      if p != q || Wild(x) != t {
        GrownSteps(at, s, at', s', q, t, n, p, Wild(x));
      }
    }
    if c'.wild != null && c'.wild == c.wild {
      var t' := Wild(s[c.wild].name);
      assert at[Child(p, t')] == c.wild;
      assert p != q || t' != t;
      GrownSteps(at, s, at', s', q, t, n, p, t');
      GrownElsewhere(at, s, at', s', root, q, t, n, Child(p, t'));
      assert s'[c.wild].name == s[c.wild].name;
    }
  }

  lemma GrownLinked<V>(at: Places<V>, s: Store<V>, at': Places<V>, s': Store<V>, root: TrieNode<V>, q: Position, t: Token, n: TrieNode<V>, p: Position)
    requires Wired(at, s, root) && Grown(at, s, at', s', q, t, n) && Free(at.Keys, q, t)
    requires p in at' && p != Child(q, t)
    ensures at'[p] in s' && Linked(at', s', p)
  {
    GrownElsewhere(at, s, at', s', root, q, t, n, p);
    assert Linked(at, s, p);
    GrownConsts(at, s, at', s', root, q, t, n, p);
    GrownParam(at, s, at', s', root, q, t, n, p);
    GrownWild(at, s, at', s', root, q, t, n, p);
    var c := s[at[p]];
    assert c.param != null ==> Child(p, Param(s[c.param].name)) in at;
    assert c.wild != null ==> Child(p, Wild(s[c.wild].name)) in at;
  }

  lemma GrownFresh<V>(at: Places<V>, s: Store<V>, at': Places<V>, s': Store<V>, root: TrieNode<V>, q: Position, t: Token, n: TrieNode<V>)
    requires Wired(at, s, root) && Grown(at, s, at', s', q, t, n) && Free(at.Keys, q, t)
    ensures Linked(at', s', Child(q, t))
  {
    GrowIndex(at.Keys, q, t);
    assert at'.Keys == at.Keys + {Child(q, t)};
  }

  /** Adding a child where it is free keeps the trie wired. */
  lemma GrownWired<V>(at: Places<V>, s: Store<V>, at': Places<V>, s': Store<V>, root: TrieNode<V>, q: Position, t: Token, n: TrieNode<V>)
    requires Wired(at, s, root) && Grown(at, s, at', s', q, t, n) && Free(at.Keys, q, t)
    ensures Wired(at', s', root)
  {
    GrowIndex(at.Keys, q, t);
    assert at'.Keys == at.Keys + {Child(q, t)};
    GrownInjective(at, s, at', s', root, q, t, n);
    forall p | p in at' ensures at'[p] in s' && Linked(at', s', p) {
      if p == Child(q, t) {
        GrownFresh(at, s, at', s', root, q, t, n);
      } else {
        GrownLinked(at, s, at', s', root, q, t, n, p);
      }
    }
  }
}
