/** Adding routes to the plain table: when it fails, and what every run of additions keeps. */
module RouteAdding {
  import opened Wrappers
  import opened UriTokens
  import opened RouteTable
  import opened RouteSelection
  import opened RouteRebuild
  import opened QueryString

  // ----- The rule for adding -----

  /** At `q` another parameter or wildcard is in the way of step `t`. */
  ghost predicate Competes(index: set<Position>, q: Position, t: Token) {
    !t.Const? && exists t' :: Child(q, t') in index && !t'.Const? && t' != t
  }

  ghost predicate Conflicts(index: set<Position>, r: Position) {
    exists i :: 0 <= i < |r| && Competes(index, r[..i], r[i])
  }

  /** The route has a value that must not be overwritten.  A wildcard never counts as
      taken: adding it again silently replaces the old one. */
  ghost predicate Taken<V>(table: Table<V>, r: Position) {
    r != [] && r in table && table[r].value.Some? && !r[|r| - 1].Wild?
  }

  ghost predicate Fails<V>(table: Table<V>, path: string, override: bool) {
    Conflicts(Index(table), RouteTokens(path)) || (Taken(table, RouteTokens(path)) && !override)
  }

  /** The table after an addition; the empty path adds nothing and is not an error. */
  ghost function Added<V>(table: Table<V>, path: string, value: Option<V>, override: bool): Table<V> {
    if path == "" || Fails(table, path, override) then table else table[RouteTokens(path) := Entry(value, path)]
  }

  // ----- What tokens of a pattern look like -----

  predicate ProperRoute(r: Position) {
    && (forall i :: 0 <= i < |r| && r[i].Const? ==> r[i].text != "")
    && (forall i :: 0 <= i < |r| - 1 ==> !r[i].Wild?)
  }

  lemma RouteIsProper(path: string)
    ensures ProperRoute(RouteTokens(path))
    ensures path != "" ==> RouteTokens(path) != []
  {
    TokensArePattern(path);
  }

  // ----- The index of a table -----

  ghost function Prefixes(r: Position, k: nat): set<Position>
    requires k <= |r|
  {
    set i: nat | i <= k :: r[..i]
  }

  lemma IndexAdded<V>(table: Table<V>, r: Position, e: Entry<V>)
    ensures Index(table[r := e]) == Index(table) + Prefixes(r, |r|)
  {
    var table' := table[r := e];
    forall q | q in Index(table') ensures q in Index(table) + Prefixes(r, |r|) {
      if q != [] {
        var r', i: nat :| r' in table' && i <= |r'| && q == r'[..i];
        assert r' == r ==> q in Prefixes(r, |r|);
      }
    }
    forall q | q in Prefixes(r, |r|) ensures q in Index(table') {
      var i: nat :| i <= |r| && q == r[..i];
      assert r in table';
    }
    forall q | q in Index(table) ensures q in Index(table') {
      if q != [] {
        var r', i: nat :| r' in table && i <= |r'| && q == r'[..i];
        assert r' in table';
      }
    }
  }

  /** A step inside a prefix of `r` is the step of `r` there. */
  lemma PrefixStep(r: Position, k: nat, q: Position, t: Token)
    requires k <= |r| && Child(q, t) in Prefixes(r, k)
    ensures |q| < k && q == r[..|q|] && t == r[|q|] && q in Prefixes(r, k)
  {
    var i: nat :| i <= k && Child(q, t) == r[..i];
    assert q == Child(q, t)[..|q|] == r[..|q|];
    assert t == Child(q, t)[|q|];
  }

  lemma AddedConflictFree(index: set<Position>, r: Position)
    requires ConflictFree(index) && !Conflicts(index, r)
    ensures ConflictFree(index + Prefixes(r, |r|))
  {
    var index' := index + Prefixes(r, |r|);
    forall q, t, t' | Child(q, t) in index' && Child(q, t') in index' && !t.Const? && !t'.Const? ensures t == t' {
      if Child(q, t) in Prefixes(r, |r|) {
        PrefixStep(r, |r|, q, t);
        assert !Competes(index, r[..|q|], r[|q|]);
      }
      if Child(q, t') in Prefixes(r, |r|) {
        PrefixStep(r, |r|, q, t');
        assert !Competes(index, r[..|q|], r[|q|]);
      }
    }
  }

  // ----- Runs -----

  datatype AddCall<+V> = AddCall(path: string, value: Option<V>, override: bool)

  ghost function Run<V>(calls: seq<AddCall<V>>): Table<V> {
    if calls == [] then map[]
    else
      var c := calls[|calls| - 1];
      Added(Run(calls[..|calls| - 1]), c.path, c.value, c.override)
  }

  /** What every run keeps: routes are filed under the tokens of their own pattern, and the
      index is free of conflicts. */
  ghost predicate Consistent<V>(table: Table<V>) {
    && (forall r :: r in table ==> table[r].path != "" && r == RouteTokens(table[r].path))
    && ConflictFree(Index(table))
  }

  lemma AddedConsistent<V>(table: Table<V>, path: string, value: Option<V>, override: bool)
    requires Consistent(table)
    ensures Consistent(Added(table, path, value, override))
  {
    if path != "" && !Fails(table, path, override) {
      IndexAdded(table, RouteTokens(path), Entry(value, path));
      AddedConflictFree(Index(table), RouteTokens(path));
    }
  }

  lemma {:induction false} RunConsistent<V>(calls: seq<AddCall<V>>)
    ensures Consistent(Run(calls))
  {
    if calls == [] {
      assert Index<V>(map[]) == {[]};
    } else {
      var c := calls[|calls| - 1];
      RunConsistent(calls[..|calls| - 1]);
      AddedConsistent(Run(calls[..|calls| - 1]), c.path, c.value, c.override);
    }
  }
}
