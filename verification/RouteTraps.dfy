/** A trap is not only enough to mislead `Match`, it always does: on every table with a trap
    some query is answered with a route that does not match it. */
module RouteTraps {
  import opened Wrappers
  import opened UriTokens
  import opened QueryString
  import opened RouteTable
  import opened RouteSelection
  import opened RouteAdding
  import opened RouteMatching

  // ----- Query texts from segments -----

  predicate IsSegment(x: string) {
    x == "/" || (x != "" && '/' !in x)
  }

  predicate Spelled(segs: seq<string>) {
    && (forall i :: 0 <= i < |segs| ==> IsSegment(segs[i]))
    && (forall i :: 0 <= i && i + 1 < |segs| ==> segs[i] == "/" || segs[i + 1] == "/")
  }

  lemma {:induction false} SegmentsJoin(segs: seq<string>)
    requires Spelled(segs)
    ensures Segments(Join(segs)) == segs
  {
    if segs != [] {
      hide NextSegment;
      var x, tail := segs[0], segs[1..];
      SegmentsJoin(tail);
      if x != "/" && tail != [] {
        assert segs[0] == "/" || segs[0 + 1] == "/";
        assert tail[0] == "/";
      }
      FirstSegment(x, Join(tail));
      assert segs == [x] + tail;
    }
  }

  lemma FirstSegment(x: string, rest: string)
    requires IsSegment(x) && (x != "/" ==> rest == "" || rest[0] == '/')
    ensures NextSegment(x + rest) == (x, rest)
  {
    hide SplitRemaining;
    var s, name := x + rest, x[1..];
    assert s[0] == x[0] && s[1..] == name + rest && x == [x[0]] + name;
    if x == "/" {
      assert s[1..] == rest;
    } else {
      assert x[0] in x && '/' !in name;
      SplitJoined(name, rest);
    }
  }

  // ----- A segment that no route knows -----

  lemma {:induction false} TextBound(rs: set<Position>) returns (n: nat)
    ensures forall r: Position, i :: r in rs && 0 <= i < |r| && r[i].Const? ==> |r[i].text| < n
    decreases |rs|
  {
    if rs == {} {
      n := 0;
    } else {
      var r :| r in rs;
      var m := TextBound(rs - {r});
      n := RouteBound(r, m);
    }
  }

  lemma {:induction false} RouteBound(r: Position, m: nat) returns (n: nat)
    ensures n >= m && forall i :: 0 <= i < |r| && r[i].Const? ==> |r[i].text| < n
  {
    if r == [] {
      n := m;
    } else {
      var last := r[|r| - 1];
      n := RouteBound(r[..|r| - 1], m);
      if last.Const? && |last.text| >= n {
        n := |last.text| + 1;
      }
      assert forall i :: 0 <= i < |r| - 1 ==> r[i] == r[..|r| - 1][i];
    }
  }

  ghost predicate Unknown(index: set<Position>, x: string) {
    x != "" && '/' !in x && forall q :: Child(q, Const(x)) !in index
  }

  lemma SomeUnknown<V>(table: Table<V>) returns (x: string)
    ensures Unknown(Index(table), x)
  {
    var n := TextBound(table.Keys);
    x := seq(n + 1, _ => 'x');
    forall q ensures Child(q, Const(x)) !in Index(table) {
      if Child(q, Const(x)) in Index(table) {
        var r := IndexStep(table, q, Const(x));
      }
    }
  }

  // ----- Walking along a route -----

  /** The query that follows `r`, with an unknown segment for every parameter. */
  function StandIns(r: Position, x: string): seq<string> {
    if r == [] then [] else [StandIn(r[0], x)] + StandIns(r[1..], x)
  }

  lemma {:induction false} StandInsAt(r: Position, x: string)
    ensures |StandIns(r, x)| == |r|
    ensures forall i :: 0 <= i < |r| ==> StandIns(r, x)[i] == StandIn(r[i], x)
  {
    if r != [] {
      StandInsAt(r[1..], x);
    }
  }

  lemma {:induction false} PrefixInIndex(index: set<Position>, r: Position, k: nat, m: nat)
    requires GoodIndex(index) && k <= m <= |r| && r[..m] in index
    ensures r[..k] in index
    decreases m - k
  {
    if k < m {
      PrefixInIndex(index, r, k + 1, m);
      assert r[..k + 1] == Child(r[..k], r[k]);
    }
  }

  function StandIn(t: Token, x: string): string {
    if t.Const? then t.text else x
  }

  lemma StepAlong(index: set<Position>, q: Position, t: Token, x: string, segs: seq<string>, params: map<string, string>)
    returns (params': map<string, string>)
    requires GoodIndex(index) && Unknown(index, x) && Child(q, t) in index && segs != [] && segs[0] == StandIn(t, x)
    ensures Walk(index, q, segs, params) == Walk(index, Child(q, t), segs[1..], params')
  {
    match t
    case Const(_) =>
      params' := params;
    case Wild(w) =>
      assert HasWild(index, q) && WildName(index, q) == w;
      params' := params[w := Key(x) + Join(segs[1..])];
    case Param(p) =>
      assert HasParam(index, q) && ParamName(index, q) == p;
      assert forall w :: Child(q, Wild(w)) in index ==> Wild(w) == t;
      params' := params[p := Key(x)];
  }

  /** A walk that is given the segments of `r[k..m]` goes from `r[..k]` to `r[..m]`. */
  lemma {:induction false} WalkAlong(index: set<Position>, r: Position, k: nat, m: nat, x: string, rest: seq<string>, params: map<string, string>)
    returns (params': map<string, string>)
    requires GoodIndex(index) && Unknown(index, x) && k <= m <= |r| && r[..m] in index
    ensures Walk(index, r[..k], StandIns(r[k..m], x) + rest, params) == Walk(index, r[..m], rest, params')
    decreases m - k
  {
    if k == m {
      assert StandIns(r[k..m], x) + rest == rest;
      return params;
    }
    hide GoodIndex, Walk, Unknown;
    PrefixInIndex(index, r, k + 1, m);
    assert r[..k + 1] == Child(r[..k], r[k]);
    var segs := StandIns(r[k..m], x) + rest;
    StandInsStep(r, k, m, x, rest);
    params' := StepAlong(index, r[..k], r[k], x, segs, params);
    params' := WalkAlong(index, r, k + 1, m, x, rest, params');
  }

  lemma StandInsStep(r: Position, k: nat, m: nat, x: string, rest: seq<string>)
    requires k < m <= |r|
    ensures var segs := StandIns(r[k..m], x) + rest;
            segs != [] && segs[0] == StandIn(r[k], x) && segs[1..] == StandIns(r[k + 1..m], x) + rest
  {
    assert r[k..m][1..] == r[k + 1..m];
  }

  // ----- Patterns alternate, too -----

  predicate Alternating(r: Position) {
    && (forall i :: 0 <= i < |r| && r[i].Const? ==> IsSegment(r[i].text))
    && (forall i :: 0 <= i && i + 1 < |r| ==> r[i] == Const("/") || r[i + 1] == Const("/"))
  }

  lemma RouteAlternates(path: string)
    ensures Alternating(RouteTokens(path))
  {
    TokensArePattern(path);
  }

  // ----- The misleading query -----

  /** The query that follows `r`, with a stray segment after its first `k` steps. */
  function Stray(r: Position, k: nat, x: string): seq<string>
    requires k <= |r|
  {
    StandIns(r[..k], x) + ([x] + StandIns(r[k..], x))
  }

  lemma StrayAt(r: Position, k: nat, x: string, i: nat)
    requires k <= |r| && i <= |r|
    ensures |Stray(r, k, x)| == |r| + 1
    ensures Stray(r, k, x)[i] == if i < k then StandIn(r[i], x) else if i == k then x else StandIn(r[i - 1], x)
  {
    StandInsAt(r[..k], x);
    StandInsAt(r[k..], x);
  }

  lemma StrayIsSpelled(r: Position, k: nat, x: string)
    requires Alternating(r) && IsSegment(x) && 0 < k <= |r| && r[k - 1] == Const("/") && (k < |r| ==> r[k] == Const("/"))
    ensures Spelled(Stray(r, k, x)) && |Stray(r, k, x)| == |r| + 1
    ensures Stray(r, k, x)[0] == StandIn(r[0], x)
  {
    var segs := Stray(r, k, x);
    StrayAt(r, k, x, 0);
    hide Stray;
    forall i | 0 <= i < |segs| ensures IsSegment(segs[i]) {
      StrayAt(r, k, x, i);
    }
    forall i | 0 <= i && i + 1 < |segs| ensures segs[i] == "/" || segs[i + 1] == "/" {
      StrayAt(r, k, x, i);
      StrayAt(r, k, x, i + 1);
      assert i + 1 < k ==> r[i] == Const("/") || r[i + 1] == Const("/");
      assert i > k ==> r[i - 1] == Const("/") || r[(i - 1) + 1] == Const("/");
    }
  }

  /** The walk cannot move on the stray segment and then goes on to the end of `r`. */
  lemma StrayLands(index: set<Position>, r: Position, k: nat, x: string)
    requires GoodIndex(index) && Unknown(index, x) && r in index && 0 < k <= |r|
    requires !HasWild(index, r[..k]) && !HasParam(index, r[..k])
    ensures Walk(index, [], Stray(r, k, x), map[]).Landed? && Walk(index, [], Stray(r, k, x), map[]).pos == r
  {
    assert r[..|r|] == r && r[..0] == [] && r[0..k] == r[..k] && r[k..|r|] == r[k..];
    PrefixInIndex(index, r, k, |r|);
    var rest := StandIns(r[k..], x);
    var p1 := WalkAlong(index, r, 0, k, x, [x] + rest, map[]);
    assert ([x] + rest)[1..] == rest && rest + [] == rest;
    assert Walk(index, r[..k], [x] + rest, p1) == Walk(index, r[..k], rest, p1);
    var p2 := WalkAlong(index, r, k, |r|, x, [], p1);
  }

  lemma LookupOf(text: string)
    ensures LookupPath(text + "?") == text && QueryParams(text + "?") == Some(map[])
  {
    SplitAtMark(text, "");
    assert text + "?" + "" == text + "?";
  }

  /** Every trap misleads: some query is answered with a route longer or shorter than it. */
  lemma TrapMisleads<V>(table: Table<V>, q: Position) returns (path: string)
    requires Consistent(table) && WithValue(table) == table.Keys && Trap(Index(table), WithValue(table), q)
    ensures path != "" && path[0] == '/'
    ensures Matched(table, path).Some? && !Answers(table, path, Matched(table, path).value)
  {
    var index, k := Index(table), |q|;
    ConsistentIndex(table);
    var r := q;
    if q !in table {
      r := IndexStep(table, q, Const("/"));
    }
    assert r[..k] == q && r[..|r|] == r && r in index;
    RouteAlternates(table[r].path);
    var x := SomeUnknown(table);
    var segs := Stray(r, k, x);
    StrayIsSpelled(r, k, x);
    StrayLands(index, r, k, x);
    SegmentsJoin(segs);
    var text := Join(segs);
    LookupOf(text);
    path := text + "?";
    assert text == segs[0] + Join(segs[1..]);
  }

  /** For tables whose routes all have values: `Match` answers every query that starts with
      a slash as it should, if and only if there is no trap. */
  lemma SoundIsExact<V(!new)>(table: Table<V>)
    requires Consistent(table) && WithValue(table) == table.Keys
    ensures Sound(table) <==>
            forall path, ctx :: path != "" && path[0] == '/' ==> (Matched(table, path) == Some(ctx) <==> Answers(table, path, ctx))
  {
    if Sound(table) {
      forall path, ctx | path != "" && path[0] == '/' ensures Matched(table, path) == Some(ctx) <==> Answers(table, path, ctx) {
        MatchExact(table, path, ctx);
      }
    } else {
      var q :| Trap(Index(table), WithValue(table), q);
      var path := TrapMisleads(table, q);
      assert Matched(table, path) == Some(Matched(table, path).value);
    }
  }
}
