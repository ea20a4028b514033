/** The routing trie as linked nodes, proved to index the plain route table. */
module UriTrie {
  import opened Wrappers
  import opened UriTokens
  import opened QueryString
  import opened RouteTable
  import opened RouteSelection
  import opened RouteAdding
  import opened RouteMatching
  import opened TrieStore
  import opened TrieGrowth

  /** The scanning loop behind `SplitRemaining`. */
  method ScanRemaining(s: string) returns (head: string, rest: string)
    ensures (head, rest) == SplitRemaining(s)
  {
    if |s| == 0 {
      return "", "";
    }
    var i := 0;
    while i < |s| && s[i] != '/'
      invariant i <= |s| && '/' !in s[..i]
    {
      i := i + 1;
    }
    SplitRemainingAt(s, i);
    assert s[..|s|] == s && s[|s|..] == "";
    if i == |s| {
      return s, "";
    }
    return s[..i], s[i..];
  }

  lemma EmptyTrie<V>(root: TrieNode<V>)
    ensures Wired(map[[] := root], map[root := EmptyCell("")], root)
    ensures (map[[] := root]).Keys == Index<V>(map[])
    ensures Valued(map[[] := root], map[root := EmptyCell("")], map[])
    ensures Consistent<V>(map[])
  {
    var at: Places<V> := map[[] := root];
    assert at.Keys == {[]} == Index<V>(map[]);
    assert forall q, t :: |Child(q, t)| > 0 && Child(q, t) !in at;
  }

  /** The switch on the first byte of what remains of a pattern. */
  method ScanToken(remaining: string) returns (t: Token, rest: string)
    requires remaining != ""
    ensures (t, rest) == NextToken(remaining)
  {
    var token := remaining[0];
    if token == ':' {
      var param, rest' := ScanRemaining(remaining[1..]);
      return Param(param), rest';
    } else if token == '*' {
      return Wild(remaining[1..]), "";
    } else if token == '/' {
      return Const("/"), remaining[1..];
    } else {
      var subPath, rest' := ScanRemaining(remaining[1..]);
      return Const([token] + subPath), rest';
    }
  }

  class TrieTree<V> {
    var root: TrieNode<V>
    var size: int
    ghost var at: Places<V>
    ghost var nodes: set<TrieNode<V>>
    ghost var table: Table<V>

    ghost function View(): Store<V>
      reads this`nodes, nodes
    {
      map n | n in nodes :: n.Fields()
    }

    ghost predicate Shaped()
      reads this`at, this`root, this`nodes, nodes
    {
      Wired(at, View(), root)
    }

    ghost predicate Valid()
      reads this`root, this`at, this`nodes, this`table, nodes
    {
      Shaped() && at.Keys == Index(table) && Valued(at, View(), table) && Consistent(table)
    }

    constructor ()
      ensures Valid() && table == map[] && size == 0 && fresh(nodes)
    {
      hide Wired, Index, Valued, Consistent;
      var r := new TrieNode<V>(null, "");
      root, size, at, nodes, table := r, 0, map[[] := r], {r}, map[];
      new;
      EmptyTrie(r);
      assert View() == map[r := EmptyCell("")];
    }

    /** What the links of a node say about the places one step further. */
    lemma LinksOf(q: Position)
      requires Shaped() && q in at
      ensures var n := at[q];
        && n in nodes
        && (forall x :: x != "" ==> (Key(x) in n.constChildren <==> Child(q, Const(x)) in at))
        && (forall x :: x != "" && Key(x) in n.constChildren ==> n.constChildren[Key(x)] == at[Child(q, Const(x))])
        && (n.paramChild != null ==> n.paramChild in nodes && Child(q, Param(n.paramChild.param)) in at)
        && (n.wildcardChild != null ==> n.wildcardChild in nodes && Child(q, Wild(n.wildcardChild.param)) in at)
        && (forall p :: Child(q, Param(p)) in at ==> n.paramChild == at[Child(q, Param(p))] && n.paramChild.param == p)
        && (forall w :: Child(q, Wild(w)) in at ==> n.wildcardChild == at[Child(q, Wild(w))] && n.wildcardChild.param == w)
        && (n.paramChild == null || n.wildcardChild == null)
    {
      var s := View();
      assert Linked(at, s, q);
      assert s[at[q]] == at[q].Fields();
      forall p | Child(q, Param(p)) in at ensures at[Child(q, Param(p))].param == p {
        assert Linked(at, s, Child(q, Param(p)));
      }
      forall w | Child(q, Wild(w)) in at ensures at[Child(q, Wild(w))].param == w {
        assert Linked(at, s, Child(q, Wild(w)));
      }
    }

    /** The places after a fresh child `c` was linked below `n`. */
    lemma LinkedIn(at0: Places<V>, s: Store<V>, q: Position, t: Token, n: TrieNode<V>, c: TrieNode<V>)
      requires Wired(at0, s, root) && Free(at0.Keys, q, t) && at0[q] == n && c !in s
      requires at == at0[Child(q, t) := c] && nodes == s.Keys + {c}
      requires n.Fields() == WithChild(s[n], t, c) && c.Fields() == EmptyCell(if t.Const? then "" else t.name)
      requires forall m :: m in s && m != n ==> m.Fields() == s[m]
      ensures Grown(at0, s, at, View(), q, t, c) && Shaped()
    {
      assert Child(q, t) in at && q in at;
      GrownWired(at0, s, at, View(), root, q, t, c);
    }

    /** What the links at `q` say about step `t`: whether a rival is in the way, and whether
        the step is there already. */
    lemma StepAt(q: Position, t: Token)
      requires Shaped() && q in at && Open(q) && (t.Const? ==> t.text != "")
      ensures var n := at[q];
        && n in nodes
        && (Competes(at.Keys, q, t) <==>
            || (t.Param? && (n.wildcardChild != null || (n.paramChild != null && n.paramChild.param != t.name)))
            || (t.Wild? && (n.paramChild != null || (n.wildcardChild != null && n.wildcardChild.param != t.name))))
        && (!Competes(at.Keys, q, t) && (t.Wild? || Child(q, t) !in at) ==> Free(at.Keys, q, t))
        && (t.Const? ==> (Key(t.text) in n.constChildren <==> Child(q, t) in at))
        && (t.Const? && Child(q, t) in at ==> n.constChildren[Key(t.text)] == at[Child(q, t)])
        && (t.Param? && !Competes(at.Keys, q, t) ==> (n.paramChild != null <==> Child(q, t) in at))
        && (t.Param? && Child(q, t) in at ==> n.paramChild == at[Child(q, t)])
    {
      hide Wired;
      LinksOf(q);
      var n := at[q];
      if n.wildcardChild != null && t != Wild(n.wildcardChild.param) && !t.Const? {
        assert Competes(at.Keys, q, t);
      }
      if n.paramChild != null && t != Param(n.paramChild.param) && !t.Const? {
        assert Competes(at.Keys, q, t);
      }
    }

    /** Another parameter below this node must have the same name, and there must be no
        wildcard. */
    method AddParam(n: TrieNode<V>, param: string, ghost q: Position) returns (child: TrieNode?<V>)
      requires Shaped() && q in at && n == at[q] && Open(q)
      modifies this`at, this`nodes, n`paramChild
      ensures child == null <==> Competes(old(at.Keys), q, Param(param))
      ensures fresh(nodes - old(nodes))
      ensures child == null ==> at == old(at) && View() == old(View())
      ensures child != null ==> Shaped() && Moved(old(at), old(View()), at, View(), q, Param(param), child)
    {
      hide Wired, Free, Grown, Competes;
      StepAt(q, Param(param));
      if n.wildcardChild != null || (n.paramChild != null && n.paramChild.param != param) {
        return null;
      }
      if n.paramChild == null {
        ghost var t, s := Param(param), View();
        var c := new TrieNode<V>(n, param);
        n.paramChild := c;
        at, nodes := at[Child(q, t) := c], nodes + {c};
        LinkedIn(old(at), s, q, t, n, c);
      }
      child := n.paramChild;
    }

    /** Another wildcard below this node must have the same name, and there must be no
        parameter.  An existing wildcard node is replaced by a new one. */
    method AddWildcard(n: TrieNode<V>, param: string, ghost q: Position) returns (child: TrieNode?<V>)
      requires Shaped() && q in at && n == at[q] && Open(q)
      modifies this`at, this`nodes, n`wildcardChild
      ensures child == null <==> Competes(old(at.Keys), q, Wild(param))
      ensures fresh(nodes - old(nodes))
      ensures child == null ==> at == old(at) && View() == old(View())
      ensures child != null ==> Shaped() && Moved(old(at), old(View()), at, View(), q, Wild(param), child)
    {
      hide Wired, Free, Grown, Competes;
      StepAt(q, Wild(param));
      if (n.wildcardChild != null && n.wildcardChild.param != param) || n.paramChild != null {
        return null;
      }
      ghost var t, s := Wild(param), View();
      child := new TrieNode<V>(n, param);
      n.wildcardChild := child;
      at, nodes := at[Child(q, t) := child], nodes + {child};
      LinkedIn(old(at), s, q, t, n, child);
    }

    /** Constants never conflict. */
    method AddConst(n: TrieNode<V>, text: string, ghost q: Position) returns (child: TrieNode<V>)
      requires Shaped() && q in at && n == at[q] && Open(q) && text != ""
      modifies this`at, this`nodes, n`constChildren
      ensures fresh(nodes - old(nodes))
      ensures Shaped() && Moved(old(at), old(View()), at, View(), q, Const(text), child)
    {
      hide Wired, Free, Grown, Competes;
      StepAt(q, Const(text));
      var subPath := Key(text);
      if subPath !in n.constChildren {
        ghost var t, s := Const(text), View();
        var c := new TrieNode<V>(n, "");
        n.constChildren := n.constChildren[subPath := c];
        at, nodes := at[Child(q, t) := c], nodes + {c};
        LinkedIn(old(at), s, q, t, n, c);
      }
      child := n.constChildren[subPath];
    }

    method AddToken(n: TrieNode<V>, t: Token, ghost q: Position) returns (child: TrieNode?<V>)
      requires Shaped() && q in at && n == at[q] && Open(q) && (t.Const? ==> t.text != "")
      modifies this`at, this`nodes, n
      ensures child == null <==> Competes(old(at.Keys), q, t)
      ensures fresh(nodes - old(nodes))
      ensures child == null ==> at == old(at) && View() == old(View())
      ensures child != null ==> Shaped() && Moved(old(at), old(View()), at, View(), q, t, child)
    {
      match t
      case Param(name) => child := AddParam(n, name, q);
      case Wild(name) => child := AddWildcard(n, name, q);
      case Const(text) => child := AddConst(n, text, q);
    }

    /** The invariant of the loop of `addPath`: `k` steps of `r` are done. */
    ghost predicate Growing(at0: Places<V>, s0: Store<V>, r: Position, k: nat, node: TrieNode<V>)
      reads this`at, this`root, this`nodes, nodes
    {
      && Shaped() && Extends(at0, s0, at, View(), r, k)
      && r[..k] in at && node == at[r[..k]] && node in nodes
    }

    lemma GrowingStart(r: Position)
      requires Shaped()
      ensures Growing(at, View(), r, 0, root)
    {
      ExtendsStart(at, View(), root, r);
      assert r[..0] == [];
    }

    method GrowStep(n: TrieNode<V>, remaining: string, ghost at0: Places<V>, ghost s0: Store<V>, ghost r: Position, ghost k: nat) returns (child: TrieNode?<V>, rest: string)
      requires Wired(at0, s0, root) && Growing(at0, s0, r, k, n) && ProperRoute(r)
      requires remaining != "" && k < |r| && r[k] == NextToken(remaining).0
      modifies this`at, this`nodes, n
      ensures rest == NextToken(remaining).1
      ensures child == null <==> Competes(at0.Keys, r[..k], r[k])
      ensures child == null ==> at == at0 && View() == s0
      ensures child != null ==> Growing(at0, s0, r, k + 1, child)
      ensures fresh(nodes - old(nodes))
    {
      hide Wired, Extends;
      RivalOnOldGround(at0, s0, at, View(), root, r, k);
      ghost var at1, s1 := at, View();
      var t, rest' := ScanToken(remaining);
      rest := rest';
      child := AddToken(n, t, r[..k]);
      if child != null {
        ExtendsStep(at0, s0, at1, s1, at, View(), root, r, k, child);
      }
    }

    /** The loop of `addPath`.  It fails on a conflict, and then it has changed nothing. */
    method Grow(path: string) returns (node: TrieNode?<V>)
      requires Shaped() && path != ""
      modifies this`at, this`nodes, nodes
      ensures fresh(nodes - old(nodes))
      ensures var r := RouteTokens(path);
        && (node == null <==> Conflicts(old(at.Keys), r))
        && (node == null ==> at == old(at) && View() == old(View()))
        && (node != null ==> Growing(old(at), old(View()), r, |r|, node))
    {
      hide Wired, Extends;
      RouteIsProper(path);
      ghost var r, k := RouteTokens(path), 0;
      GrowingStart(r);
      var n: TrieNode<V>, remaining := root, path;
      while |remaining| > 0
        invariant Growing(old(at), old(View()), r, k, n) && k <= |r| && r[k..] == RouteTokens(remaining)
        invariant fresh(nodes - old(nodes))
        invariant forall i :: 0 <= i < k ==> !Competes(old(at.Keys), r[..i], r[i])
        decreases |remaining|
      {
        NextRest(r, k, remaining);
        var child, rest := GrowStep(n, remaining, old(at), old(View()), r, k);
        if child == null {
          return null;
        }
        n, remaining, k := child, rest, k + 1;
      }
      node := n;
    }

    /** The end of `addPath`: a value that is there is kept unless it may be overridden. */
    method File(node: TrieNode<V>, path: string, value: Option<V>, override: bool, ghost at0: Places<V>, ghost s0: Store<V>) returns (err: bool)
      requires path != "" && Growing(at0, s0, RouteTokens(path), |RouteTokens(path)|, node)
      requires at0.Keys == Index(table) && Valued(at0, s0, table) && Consistent(table)
      requires !Conflicts(at0.Keys, RouteTokens(path))
      modifies this`table, node
      ensures Valid()
      ensures err == Fails(old(table), path, override)
      ensures table == Added(old(table), path, value, override)
      ensures err ==> at == at0 && View() == s0
    {
      hide Wired, Extends, Valued, Consistent, Conflicts, Injective, RouteTokens, Index;
      ghost var r, s, e := RouteTokens(path), View(), Entry(value, path);
      RouteIsProper(path);
      assert r[..|r|] == r;
      TableInIndex(table);
      TakenOnOldGround(at0, s0, at, s, table, r);
      AddedConsistent(table, path, value, override);
      if node.value.Some? && !override {
        return true;
      }
      node.value := value;
      node.path := path;
      assert Written(s, View(), node, e);
      WrittenWired(at, s, View(), root, node, e);
      Filed(at0, s0, at, s, View(), table, r, e);
      table := table[r := e];
      return false;
    }

    /** Fails on a conflict or a taken route, and then it has changed nothing; otherwise it
        files the route. */
    method AddPath(path: string, value: Option<V>, override: bool) returns (err: bool)
      requires Valid()
      modifies this`at, this`nodes, this`table, nodes
      ensures Valid() && fresh(nodes - old(nodes))
      ensures err == (path != "" && Fails(old(table), path, override))
      ensures table == Added(old(table), path, value, override)
      ensures err || path == "" ==> at == old(at) && View() == old(View())
    {
      hide Wired, Extends, Valued, Consistent, Conflicts;
      if |path| == 0 {
        return false;
      }
      var node := Grow(path);
      if node == null {
        return true;
      }
      err := File(node, path, value, override, old(at), old(View()));
    }

    /** The size counts every attempt. */
    method Add(path: string, value: Option<V>, override: bool) returns (err: bool)
      requires Valid()
      modifies this, nodes
      ensures Valid() && fresh(nodes - old(nodes)) && size == old(size) + 1
      ensures err == (path != "" && Fails(old(table), path, override))
      ensures table == Added(old(table), path, value, override)
      ensures err ==> at == old(at) && View() == old(View())
      ensures err ==> forall p :: Matched(table, p) == Matched(old(table), p)
    {
      hide Valid, Fails, Matched;
      err := AddPath(path, value, override);
      size := size + 1;
    }

    // ----- Looking up -----

    /** What the links of a node tell a walk that stands there with segment `x`. */
    lemma ChoicesAt(q: Position, x: string)
      requires Shaped() && q in at && x != ""
      ensures var n := at[q];
        && n in nodes
        && (Key(x) in n.constChildren <==> Child(q, Const(x)) in at.Keys)
        && (Key(x) in n.constChildren ==> n.constChildren[Key(x)] == at[Child(q, Const(x))])
        && (n.wildcardChild != null <==> HasWild(at.Keys, q))
        && (n.wildcardChild != null ==> n.wildcardChild in nodes && n.wildcardChild.param == WildName(at.Keys, q))
        && (n.wildcardChild != null ==> n.wildcardChild == at[Child(q, Wild(n.wildcardChild.param))])
        && (n.paramChild != null <==> HasParam(at.Keys, q))
        && (n.paramChild != null ==> n.paramChild in nodes && n.paramChild.param == ParamName(at.Keys, q))
        && (n.paramChild != null ==> n.paramChild == at[Child(q, Param(n.paramChild.param))])
    {
      hide Wired;
      LinksOf(q);
    }

    /** The walk behind `Match`. */
    method MatchNode(path: string) returns (node: TrieNode?<V>, params: map<string, string>)
      requires Shaped() && path != ""
      ensures var o := Walk(at.Keys, [], Segments(path), map[]);
        && (node == null <==> o.Lost?)
        && (node != null ==> o.pos in at && node == at[o.pos] && params == o.params)
    {
      hide Wired, Walk, Segments;
      var curr: TrieNode?<V> := root;
      var remaining := path;
      params := map[];
      ghost var q, o := [], Walk(at.Keys, [], Segments(path), map[]);
      RootPlace();
      while |remaining| > 0
        invariant curr == null ==> o == Lost
        invariant curr != null ==> q in at && curr == at[q] && o == Walk(at.Keys, q, Segments(remaining), params)
        decreases |remaining|
      {
        if curr == null {
          break;
        }
        var x, rest := ScanSegment(remaining);
        ChoicesAt(q, x);
        WalkUnfold(at.Keys, q, remaining, params);
        remaining := rest;
        if x == "/" {
          assert Key("/") == "/";
          curr := if "/" in curr.constChildren then curr.constChildren["/"] else null;
          q := Child(q, Const("/"));
        } else if Key(x) in curr.constChildren {
          curr := curr.constChildren[Key(x)];
          q := Child(q, Const(x));
        } else if curr.wildcardChild != null {
          params := params[curr.wildcardChild.param := Key(x) + remaining];
          q := Child(q, Wild(curr.wildcardChild.param));
          curr := curr.wildcardChild;
        } else if curr.paramChild != null {
          params := params[curr.paramChild.param := Key(x)];
          q := Child(q, Param(curr.paramChild.param));
          curr := curr.paramChild;
        }
      }
      WalkEnds(at.Keys, q, params);
      node := curr;
    }

    /** The walk behind `SupportsUri`, written separately and without bindings. */
    method FindByPath(path: string) returns (curr: TrieNode?<V>)
      requires Shaped()
      ensures path == "" ==> curr == null
      ensures path != "" ==>
        var o := Walk(at.Keys, [], Segments(path), map[]);
        && (curr == null <==> o.Lost?)
        && (curr != null ==> o.pos in at && curr == at[o.pos])
    {
      hide Wired, Walk, Segments;
      if |path| == 0 {
        return null;
      }
      curr := root;
      var remaining := path;
      ghost var q, o := [], Walk(at.Keys, [], Segments(path), map[]);
      ghost var params: map<string, string> := map[];
      RootPlace();
      while |remaining| > 0
        invariant curr == null ==> o == Lost
        invariant curr != null ==> q in at && curr == at[q] && o == Walk(at.Keys, q, Segments(remaining), params)
        decreases |remaining|
      {
        if curr == null {
          break;
        }
        var x, rest := ScanSegment(remaining);
        ChoicesAt(q, x);
        WalkUnfold(at.Keys, q, remaining, params);
        remaining := rest;
        if x == "/" {
          assert Key("/") == "/";
          curr := if "/" in curr.constChildren then curr.constChildren["/"] else null;
          q := Child(q, Const("/"));
        } else if Key(x) in curr.constChildren {
          curr := curr.constChildren[Key(x)];
          q := Child(q, Const(x));
        } else if curr.wildcardChild != null {
          params := params[curr.wildcardChild.param := Key(x) + remaining];
          q := Child(q, Wild(curr.wildcardChild.param));
          curr := curr.wildcardChild;
        } else if curr.paramChild != null {
          params := params[curr.paramChild.param := Key(x)];
          q := Child(q, Param(curr.paramChild.param));
          curr := curr.paramChild;
        }
      }
      WalkEnds(at.Keys, q, params);
    }

    /** What a node holds is what the table holds for its position. */
    lemma ValueOf(q: Position)
      requires Valid() && q in at
      ensures at[q] in nodes
      ensures at[q].value.Some? ==> q in table && table[q].value == at[q].value && table[q].path == at[q].path
      ensures at[q].value.None? ==> q !in table || table[q].value.None?
    {
      assert View()[at[q]] == at[q].Fields();
    }

    /** The trie answers what the plain route table answers. */
    method Match(path: string) returns (r: Option<MatchContext<V>>)
      requires Valid()
      ensures r == Matched(table, path)
    {
      hide Wired, Valued, Consistent, Walk, Segments;
      if path == "" {
        return None;
      }
      var (paramStr, remaining) := SplitQueryParams(SanitizePath(path));
      var queryParams := ParseQueryParams(paramStr);
      if queryParams.None? || remaining == "" {
        return None;
      }
      var node, params := MatchNode(remaining);
      if node == null {
        return None;
      }
      ValueOf(Walk(at.Keys, [], Segments(remaining), map[]).pos);
      if node.value.None? {
        return None;
      }
      return Some(MatchContext(node.path, queryParams.value, params, node.value.value));
    }

    /** True exactly when `Match` succeeds. */
    method SupportsUri(path: string) returns (r: bool)
      requires Valid()
      ensures r <==> Matched(table, path).Some?
    {
      hide Wired, Valued, Consistent, Walk, Segments;
      if path == "" {
        return false;
      }
      var (paramStr, remaining) := SplitQueryParams(SanitizePath(path));
      var queryParams := ParseQueryParams(paramStr);
      if queryParams.None? {
        return false;
      }
      var n := FindByPath(remaining);
      if n == null {
        return false;
      }
      ValueOf(Walk(at.Keys, [], Segments(remaining), map[]).pos);
      return n.value.Some?;
    }

    lemma RootPlace()
      requires Shaped()
      ensures [] in at && at[[]] == root
    {
    }
  }

  method ScanSegment(remaining: string) returns (x: string, rest: string)
    requires remaining != ""
    ensures (x, rest) == NextSegment(remaining)
  {
    if remaining[0] == '/' {
      return "/", remaining[1..];
    }
    var subPath, rest' := ScanRemaining(remaining[1..]);
    return [remaining[0]] + subPath, rest';
  }

  lemma WalkEnds(index: set<Position>, q: Position, params: map<string, string>)
    ensures Walk(index, q, Segments(""), params) == Landed(q, params)
  {
  }

  /** One step of the walk, in terms of the text that remains. */
  lemma WalkUnfold(index: set<Position>, q: Position, remaining: string, params: map<string, string>)
    requires remaining != ""
    ensures var (x, rest) := NextSegment(remaining);
      Walk(index, q, Segments(remaining), params) ==
        if Child(q, Const(x)) in index then Walk(index, Child(q, Const(x)), Segments(rest), params)
        else if x == "/" then Lost
        else if HasWild(index, q) then
          Walk(index, Child(q, Wild(WildName(index, q))), Segments(rest), params[WildName(index, q) := Key(x) + rest])
        else if HasParam(index, q) then
          Walk(index, Child(q, Param(ParamName(index, q))), Segments(rest), params[ParamName(index, q) := Key(x)])
        else Walk(index, q, Segments(rest), params)
  {
    var (x, rest) := NextSegment(remaining);
    assert Segments(remaining)[0] == x && Segments(remaining)[1..] == Segments(rest);
    JoinSegments(rest);
  }

  lemma NextRest(r: Position, k: nat, remaining: string)
    requires k <= |r| && r[k..] == RouteTokens(remaining) && remaining != ""
    ensures k < |r| && r[k] == NextToken(remaining).0 && r[k + 1..] == RouteTokens(NextToken(remaining).1)
  {
    assert r[k + 1..] == r[k..][1..];
  }

  /** A step can follow this position: wildcards end a route. */
  predicate Open(q: Position) {
    q != [] ==> !q[|q| - 1].Wild?
  }
}
