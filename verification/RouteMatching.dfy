/** What `Match` returns on a table, and what that means for well-formed routes. */
module RouteMatching {
  import opened Wrappers
  import opened UriTokens
  import opened QueryString
  import opened RouteTable
  import opened RouteSelection
  import opened RouteRebuild
  import opened RouteAdding

  datatype MatchContext<+V> = MatchContext(
    uriPattern: string, queryParams: map<string, string>, pathParams: map<string, string>, value: V)

  /** The path the router looks up: one trailing slash and the query string removed. */
  function LookupPath(path: string): string
    requires path != ""
  {
    SplitQueryParams(SanitizePath(path)).1
  }

  function QueryParams(path: string): Option<map<string, string>>
    requires path != ""
  {
    ParsedQuery(SplitQueryParams(SanitizePath(path)).0)
  }

  /** The result of `Match`; `None` stands for an error. */
  ghost function Matched<V>(table: Table<V>, path: string): Option<MatchContext<V>> {
    if path == "" || QueryParams(path).None? || LookupPath(path) == "" then None
    else
      var o := Walk(Index(table), [], Segments(LookupPath(path)), map[]);
      if o.Lost? || o.pos !in table || table[o.pos].value.None? then None
      else Some(MatchContext(table[o.pos].path, QueryParams(path).value, o.params, table[o.pos].value.value))
  }

  // ----- Trailing slashes and query strings -----

  /** One trailing slash makes no difference to what is looked up. */
  lemma SlashDropped(p: string)
    requires p != ""
    ensures LookupPath(p + "/") == SplitQueryParams(p).1 && QueryParams(p + "/") == ParsedQuery(SplitQueryParams(p).0)
    ensures p[|p| - 1] != '/' ==> LookupPath(p) == SplitQueryParams(p).1 && QueryParams(p) == ParsedQuery(SplitQueryParams(p).0)
  {
    hide SplitQueryParams, ParsedQuery;
    var s := p + "/";
    assert s[|s| - 1] == '/' && s[..|s| - 1] == p;
  }

  /** Hence a path matches with a slash at its end as it does without, on every table. */
  lemma SlashMatchesAlike<V>(table: Table<V>, p: string)
    requires p != "" && p[|p| - 1] != '/'
    ensures Matched(table, p + "/") == Matched(table, p)
  {
    SlashDropped(p);
  }

  lemma MarkedLookup(p: string, q: string)
    requires q != "" && '?' !in q
    ensures LookupPath(p + "?" + q) == p
    ensures QueryParams(p + "?" + q) == ParsedQuery(if EndsInSlash(q) then q[..|q| - 1] else q)
  {
    hide ParsedQuery, SplitQueryParams;
    var url := p + "?" + q;
    assert url[|url| - 1] == q[|q| - 1];
    if EndsInSlash(q) {
      CutLast(p + "?", q);
      assert '?' !in q[..|q| - 1];
      SplitAtMark(p, q[..|q| - 1]);
    } else {
      SplitAtMark(p, q);
    }
  }

  /** What a match of a printed URL gets: always the base path, and the printed parameters if
      and only if the last of them does not end in a slash, which would be dropped. */
  lemma PrintedQueryMatched(p: string, params: map<string, string>, order: seq<string>)
    requires p != "" && order != [] && Iterates(order, params) && CleanMap(params)
    ensures var url := p + Suffix(order, params);
            && LookupPath(url) == p
            && (QueryParams(url) == Some(params) <==> !EndsInSlash(params[order[|order| - 1]]))
  {
    hide Suffix, Query, PrintPairs, ParsedQuery, LookupPath, QueryParams, CleanMap;
    var q := Query(order, params);
    SuffixIsQuery(order, params);
    Reassociate(p, q);
    QueryNotEmpty(order, params);
    MarkedLookup(p, q);
    QueryEnd(order, params);
    ParsedQueryPrinted(order, params);
    ParsedQueryPrinted(order, CutValue(order, params));
    CutDiffers(order, params);
  }

  lemma CutDiffers(order: seq<string>, params: map<string, string>)
    requires order != [] && forall k :: k in order ==> k in params
    ensures EndsInSlash(params[order[|order| - 1]]) ==> CutValue(order, params) != params
  {
    var k := order[|order| - 1];
    assert CutValue(order, params)[k] == if params[k] == "" then "" else params[k][..|params[k]| - 1];
  }

  lemma QueryNotEmpty(order: seq<string>, params: map<string, string>)
    requires order != [] && forall k :: k in order ==> k in params
    ensures Query(order, params) != ""
  {
  }

  // ----- Tables on which the walk can be trusted -----

  ghost function WithValue<V>(table: Table<V>): set<Position> {
    set r | r in table && table[r].value.Some?
  }

  /** Routes are filed under their tokens without conflict, and no walk gets stuck. */
  ghost predicate Sound<V>(table: Table<V>) {
    Consistent(table) && NoTrap(Index(table), WithValue(table))
  }

  lemma IndexStep<V>(table: Table<V>, q: Position, t: Token) returns (r: Position)
    requires Child(q, t) in Index(table)
    ensures r in table && |q| < |r| && q == r[..|q|] && t == r[|q|]
  {
    assert Child(q, t) != [];
    var r', i: nat :| r' in table && i <= |r'| && Child(q, t) == r'[..i];
    r := r';
    assert q == Child(q, t)[..|q|];
    assert t == Child(q, t)[|q|];
  }

  lemma ConsistentIndex<V>(table: Table<V>)
    requires Consistent(table)
    ensures GoodIndex(Index(table))
  {
    var index := Index(table);
    forall q: Position, t | Child(q, t) in index ensures q in index && (q != [] ==> !q[|q| - 1].Wild?) {
      var r := IndexStep(table, q, t);
      RouteIsProper(table[r].path);
    }
  }

  /** Routes that begin with a slash, have no empty segment and do not end in a slash make
      no traps. */
  lemma WellFormedIsSound<V>(table: Table<V>)
    requires Consistent(table) && forall r :: r in table ==> WellFormed(r)
    ensures Sound(table)
  {
    forall q ensures !Trap(Index(table), WithValue(table), q) {
      SlashesAtEvenPlaces(table, q);
    }
  }

  lemma SlashesAtEvenPlaces<V>(table: Table<V>, q: Position)
    requires forall r :: r in table ==> WellFormed(r)
    ensures q in Index(table) && q != [] && q[|q| - 1] == Const("/") ==> |q| % 2 == 1
    ensures q in table ==> |q| % 2 == 0
    ensures Child(q, Const("/")) in Index(table) ==> |q| % 2 == 0
  {
    if q in table {
      assert WellFormed(q);
    }
    if Child(q, Const("/")) in Index(table) {
      var r := IndexStep(table, q, Const("/"));
      assert WellFormed(r) && r[|q|] == Const("/");
    }
    if q in Index(table) && q != [] && q[|q| - 1] == Const("/") {
      assert q == Child(q[..|q| - 1], Const("/"));
      var r := IndexStep(table, q[..|q| - 1], Const("/"));
      assert WellFormed(r) && r[|q| - 1] == Const("/");
    }
  }

  lemma LookupStartsWithSlash(path: string)
    requires path != "" && path[0] == '/' && LookupPath(path) != ""
    ensures LookupPath(path)[0] == '/'
  {
  }

  /** The answer a query deserves: the registered route that it selects, with that route's
      value and bindings. */
  ghost predicate Answers<V>(table: Table<V>, path: string, ctx: MatchContext<V>)
    requires path != ""
  {
    var r, segs := RouteTokens(ctx.uriPattern), Segments(LookupPath(path));
    && QueryParams(path) == Some(ctx.queryParams) && LookupPath(path) != ""
    && Selects(Index(table), segs, r)
    && r in table && table[r] == Entry(Some(ctx.value), ctx.uriPattern)
    && ctx.pathParams == Bind(r, segs)
  }

  /** The walk along a query that starts with a slash. */
  lemma WalkSelectsRoute<V>(table: Table<V>, path: string, r: Position)
    requires Sound(table) && path != "" && path[0] == '/' && LookupPath(path) != "" && r in WithValue(table)
    ensures var segs, index := Segments(LookupPath(path)), Index(table);
            var o := Walk(index, [], segs, map[]);
            && (Selects(index, segs, r) <==> o.Landed? && o.pos == r)
            && (Selects(index, segs, r) ==> o.params == Bind(r, segs))
  {
    ConsistentIndex(table);
    LookupStartsWithSlash(path);
    SegmentsAlternate(LookupPath(path));
    WalkExact(Index(table), WithValue(table), Segments(LookupPath(path)), r);
  }

  lemma MatchSound<V>(table: Table<V>, path: string)
    requires Sound(table) && path != "" && path[0] == '/' && Matched(table, path).Some?
    ensures Answers(table, path, Matched(table, path).value)
  {
    var o := Walk(Index(table), [], Segments(LookupPath(path)), map[]);
    var e, r := table[o.pos], o.pos;
    assert RouteTokens(e.path) == r;
    WalkSelectsRoute(table, path, r);
    assert Matched(table, path).value == MatchContext(e.path, QueryParams(path).value, Bind(r, Segments(LookupPath(path))), e.value.value);
  }

  /** On such a table and a query that starts with a slash, `Match` answers with the
      one registered route that the query selects, and fails when there is none. */
  lemma MatchExact<V>(table: Table<V>, path: string, ctx: MatchContext<V>)
    requires Sound(table) && path != "" && path[0] == '/'
    ensures Matched(table, path) == Some(ctx) <==> Answers(table, path, ctx)
  {
    if Matched(table, path) == Some(ctx) {
      MatchSound(table, path);
    }
    if Answers(table, path, ctx) {
      WalkSelectsRoute(table, path, RouteTokens(ctx.uriPattern));
    }
  }

  /** Whenever `Match` succeeds on a route with distinct parameter names, the bindings are
      exactly for the names of the pattern, and substituting them rebuilds the path looked
      up, exactly when every bound segment starts with an ASCII byte. */
  lemma MatchRebuilds<V>(table: Table<V>, path: string)
    requires Sound(table) && path != "" && path[0] == '/'
    requires Matched(table, path).Some? && DistinctNames(RouteTokens(Matched(table, path).value.uriPattern))
    ensures var ctx := Matched(table, path).value;
            var r, segs := RouteTokens(ctx.uriPattern), Segments(LookupPath(path));
            && ctx.pathParams.Keys == Names(r)
            && |r| == |segs|
            && (Substitute(r, ctx.pathParams) == LookupPath(path) <==>
                forall i :: 0 <= i < |r| && !r[i].Const? ==> Ascii(segs[i]))
  {
    var ctx := Matched(table, path).value;
    MatchExact(table, path, ctx);
    RebuildExact(Index(table), LookupPath(path), RouteTokens(ctx.uriPattern));
  }

  /** Over every run of additions: a failed addition leaves every later answer as it was. */
  lemma FailedAddKeepsMatches<V>(calls: seq<AddCall<V>>, c: AddCall<V>, path: string)
    requires Fails(Run(calls), c.path, c.override)
    ensures Matched(Run(calls + [c]), path) == Matched(Run(calls), path)
  {
    assert (calls + [c])[..|calls|] == calls;
  }

  /** Two routes are rivals: where they first part, they do so by different parameters or
      wildcards. */
  predicate Rivals(r: Position, r': Position, i: nat) {
    i < |r| && i < |r'| && r[..i] == r'[..i] && !r[i].Const? && !r'[i].Const? && r[i] != r'[i]
  }

  /** An addition meets a conflict exactly if one of the routes of the table is a rival. */
  lemma ConflictsExactly<V>(table: Table<V>, r: Position)
    ensures Conflicts(Index(table), r) <==> exists r', i: nat :: r' in table && Rivals(r, r', i)
  {
    if Conflicts(Index(table), r) {
      var i: nat :| i < |r| && Competes(Index(table), r[..i], r[i]);
      var t :| Child(r[..i], t) in Index(table) && !t.Const? && t != r[i];
      var r' := IndexStep(table, r[..i], t);
      assert Rivals(r, r', i);
    }
    if r', i: nat :| r' in table && Rivals(r, r', i) {
      assert r'[..i + 1] == Child(r[..i], r'[i]);
      assert r'[..i + 1] in Index(table);
      assert Competes(Index(table), r[..i], r[i]);
    }
  }

  /** A route that is there has no rival on its way. */
  lemma OldRouteIsFree<V>(table: Table<V>, r: Position)
    requires Consistent(table) && r in table
    ensures !Conflicts(Index(table), r) && Index(table) + Prefixes(r, |r|) == Index(table)
  {
    assert forall i :: 0 <= i <= |r| ==> r[..i] in Index(table);
    forall i | 0 <= i < |r|
      ensures !Competes(Index(table), r[..i], r[i])
    {
      assert r[..i + 1] == Child(r[..i], r[i]);
    }
  }

  /** Adding a route again that has a value fails exactly without `override`, unless it ends in a
      wildcard, which is replaced in any case.  If it does not fail, every query that was
      answered with that route is answered with the new value, and every other answer stays. */
  lemma OverrideExact<V>(table: Table<V>, path: string, v: V, override: bool, query: string)
    requires var r := RouteTokens(path);
             Consistent(table) && path != "" && r != [] && r in table && table[r].value.Some?
    ensures var r := RouteTokens(path); Fails(table, path, override) <==> !override && !r[|r| - 1].Wild?
    ensures var old_, new_ := Matched(table, query), Matched(Added(table, path, Some(v), override), query);
            new_ == if old_.Some? && old_.value.uriPattern == path && !Fails(table, path, override)
                    then Some(old_.value.(value := v)) else old_
  {
    hide Walk, Segments, LookupPath, QueryParams, Prefixes, Conflicts, RouteTokens;
    var r := RouteTokens(path);
    OldRouteIsFree(table, r);
    IndexAdded(table, r, Entry(Some(v), path));
    assert RouteTokens(table[r].path) == r;
    PrintRoute(path);
    PrintRoute(table[r].path);
    if Matched(table, query).Some? {
      var pos := Walk(Index(table), [], Segments(LookupPath(query)), map[]).pos;
      assert RouteTokens(table[pos].path) == pos;
    }
  }

  /** After an addition that did not fail, the new route is answered with its value to every query
      that selects it, and all other routes have what they had. */
  lemma AddedAnswers<V>(table: Table<V>, path: string, v: V, override: bool, query: string)
    requires Consistent(table) && path != "" && !Fails(table, path, override) && query != "" && query[0] == '/'
    requires Sound(Added(table, path, Some(v), override)) && QueryParams(query).Some? && LookupPath(query) != ""
    requires Selects(Index(Added(table, path, Some(v), override)), Segments(LookupPath(query)), RouteTokens(path))
    ensures Matched(Added(table, path, Some(v), override), query) ==
            Some(MatchContext(path, QueryParams(query).value, Bind(RouteTokens(path), Segments(LookupPath(query))), v))
    ensures forall r :: r in table && r != RouteTokens(path) ==>
              r in Added(table, path, Some(v), override) && Added(table, path, Some(v), override)[r] == table[r]
  {
    hide Matched, Index, Segments, LookupPath, QueryParams, RouteTokens, Sound, Prefers;
    var ctx := MatchContext(path, QueryParams(query).value, Bind(RouteTokens(path), Segments(LookupPath(query))), v);
    MatchExact(Added(table, path, Some(v), override), query, ctx);
  }

  lemma {:induction false} RunRoutes<V>(calls: seq<AddCall<V>>, r: Position)
    requires r in Run(calls)
    ensures exists i :: 0 <= i < |calls| && calls[i].path != "" && r == RouteTokens(calls[i].path)
  {
    if r in Run(calls[..|calls| - 1]) {
      RunRoutes(calls[..|calls| - 1], r);
      var i :| 0 <= i < |calls| - 1 && calls[..|calls| - 1][i].path != "" && r == RouteTokens(calls[..|calls| - 1][i].path);
      assert calls[i] == calls[..|calls| - 1][i];
    } else {
      assert r == RouteTokens(calls[|calls| - 1].path);
    }
  }

  /** For every sequence of additions of well-formed routes, whatever their values, and every
      query that starts with a slash. */
  lemma RunMatchExact<V>(calls: seq<AddCall<V>>, path: string, ctx: MatchContext<V>)
    requires forall i :: 0 <= i < |calls| ==> calls[i].path == "" || WellFormed(RouteTokens(calls[i].path))
    requires path != "" && path[0] == '/'
    ensures Matched(Run(calls), path) == Some(ctx) <==> Answers(Run(calls), path, ctx)
  {
    RunConsistent(calls);
    forall r | r in Run(calls) ensures WellFormed(r) {
      RunRoutes(calls, r);
    }
    WellFormedIsSound(Run(calls));
    MatchExact(Run(calls), path, ctx);
  }
}
