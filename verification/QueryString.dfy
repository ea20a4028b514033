/** Query strings: the parser used by the router and the printer used by the HTTP client
    service, and that they undo each other. */
module QueryString {
  import opened Wrappers
  import opened UriTokens

  // ----- Splitting -----

  /** `strings.Split` with a one-byte separator. */
  function Split(s: string, sep: char): (r: seq<string>)
    ensures |r| >= 1
  {
    if s == "" then [""]
    else
      var r := Split(s[1..], sep);
      if s[0] == sep then [""] + r else [[s[0]] + r[0]] + r[1..]
  }

  lemma {:induction false} SplitNone(s: string, sep: char)
    requires sep !in s
    ensures Split(s, sep) == [s]
  {
    if s != "" {
      SplitNone(s[1..], sep);
      assert [s[0]] + s[1..] == s;
    }
  }

  lemma {:induction false} SplitFirst(a: string, sep: char, b: string)
    requires sep !in a
    ensures Split(a + [sep] + b, sep) == [a] + Split(b, sep)
  {
    var s := a + [sep] + b;
    if a == "" {
      assert s[1..] == b;
    } else {
      assert s[1..] == a[1..] + [sep] + b && s[0] == a[0];
      SplitFirst(a[1..], sep, b);
      var rest := Split(s[1..], sep);
      assert rest[0] == a[1..] && rest[1..] == Split(b, sep);
      assert [a[0]] + a[1..] == a;
    }
  }

  /** `strings.LastIndex` of a byte, -1 when it is absent. */
  function LastIndex(s: string, c: char): (i: int)
    ensures -1 <= i < |s|
    ensures i == -1 <==> c !in s
    ensures i >= 0 ==> s[i] == c && c !in s[i + 1..]
  {
    if s == "" then -1
    else if s[|s| - 1] == c then |s| - 1
    else
      var i := LastIndex(s[..|s| - 1], c);
      assert s == s[..|s| - 1] + [s[|s| - 1]];
      assert i >= 0 ==> s[i + 1..] == s[..|s| - 1][i + 1..] + [s[|s| - 1]];
      i
  }

  /** The query string after the last question mark, and what stands before it. */
  function SplitQueryParams(path: string): (string, string) {
    var i := LastIndex(path, '?');
    if i == -1 then ("", path) else (path[i + 1..], path[..i])
  }

  /** One trailing slash is dropped. */
  function SanitizePath(path: string): string
    requires path != ""
  {
    if path[|path| - 1] == '/' then path[..|path| - 1] else path
  }

  // ----- Parsing -----

  /** The bindings of `key=value` expressions, or nothing if one is malformed. */
  function ParseExpressions(exps: seq<string>): Option<map<string, string>> {
    if exps == [] then Some(map[])
    else
      var before, kv := ParseExpressions(exps[..|exps| - 1]), Split(exps[|exps| - 1], '=');
      if before.None? || |kv| != 2 then None else Some(before.value[kv[0] := kv[1]])
  }

  function ParsedQuery(s: string): Option<map<string, string>> {
    if s == "" then Some(map[]) else ParseExpressions(Split(s, '&'))
  }

  lemma {:induction false} ParseFails(exps: seq<string>, i: nat)
    requires i < |exps| && |Split(exps[i], '=')| != 2
    ensures ParseExpressions(exps) == None
  {
    if i < |exps| - 1 {
      ParseFails(exps[..|exps| - 1], i);
    }
  }

  /** The key of the `i`th expression, if that is well formed. */
  predicate Binds(exps: seq<string>, i: int, k: string) {
    0 <= i < |exps| && |Split(exps[i], '=')| == 2 && Split(exps[i], '=')[0] == k
  }

  /** A list of expressions parses if and only if each is a key and a value. */
  lemma {:induction false} ParsesExactly(exps: seq<string>)
    ensures ParseExpressions(exps).Some? <==> forall i :: 0 <= i < |exps| ==> |Split(exps[i], '=')| == 2
  {
    if exps != [] {
      ParsesExactly(exps[..|exps| - 1]);
    }
  }

  /** The keys are those that occur. */
  lemma {:induction false} ParsedKeys(exps: seq<string>, k: string)
    requires ParseExpressions(exps).Some?
    ensures k in ParseExpressions(exps).value <==> exists i :: Binds(exps, i, k)
  {
    hide Split;
    if exps != [] {
      var n := |exps| - 1;
      var front := exps[..n];
      ParsedKeys(front, k);
      assert forall i :: 0 <= i < n ==> front[i] == exps[i];
      assert forall i :: Binds(front, i, k) ==> Binds(exps, i, k);
      assert forall i :: Binds(exps, i, k) ==> i == n || Binds(front, i, k);
      assert Split(exps[n], '=')[0] == k ==> Binds(exps, n, k);
    }
  }

  /** Of several expressions of one key the last gives its value. */
  lemma {:induction false} LastExpressionWins(exps: seq<string>, i: nat, k: string)
    requires ParseExpressions(exps).Some? && Binds(exps, i, k)
    requires forall j :: i < j ==> !Binds(exps, j, k)
    ensures k in ParseExpressions(exps).value && ParseExpressions(exps).value[k] == Split(exps[i], '=')[1]
  {
    hide Split;
    var n := |exps| - 1;
    if i < n {
      var front := exps[..n];
      assert !Binds(exps, n, k);
      assert forall j :: Binds(front, j, k) ==> Binds(exps, j, k);
      LastExpressionWins(front, i, k);
    }
  }

  /** The loop of the parser, which gives up at the first malformed expression. */
  method ParseQueryParams(s: string) returns (params: Option<map<string, string>>)
    ensures params == ParsedQuery(s)
  {
    if s == "" {
      return Some(map[]);
    }
    var exps := Split(s, '&');
    var m: map<string, string> := map[];
    for i := 0 to |exps|
      invariant ParseExpressions(exps[..i]) == Some(m)
    {
      var split := Split(exps[i], '=');
      assert exps[..i + 1][..i] == exps[..i];
      if |split| != 2 {
        ParseFails(exps, i);
        return None;
      }
      m := m[split[0] := split[1]];
    }
    assert exps[..|exps|] == exps;
    return Some(m);
  }

  // ----- Printing -----

  const BASE_URL := "http://localhost:8888/"

  /** One binding as an expression. */
  function Pair(k: string, v: string): string {
    k + "=" + v
  }

  function PrintPairs(order: seq<string>, params: map<string, string>): string
    requires forall k :: k in order ==> k in params
  {
    if order == [] then ""
    else PrintPairs(order[..|order| - 1], params) + (Pair(order[|order| - 1], params[order[|order| - 1]]) + "&")
  }

  /** `order` is the order in which the map happens to be iterated. */
  ghost predicate Iterates(order: seq<string>, params: map<string, string>) {
    && (forall k :: k in order <==> k in params)
    && (forall i, j :: 0 <= i < j < |order| ==> order[i] != order[j])
  }

  /** The string builder loop, with the trailing ampersand cut off. */
  method AppendParams(base: string, params: map<string, string>, order: seq<string>) returns (url: string)
    requires Iterates(order, params)
    ensures url == base + Suffix(order, params)
  {
    hide PrintPairs, Pair;
    EmptyOrder(order, params);
    url := base;
    if |params| == 0 {
      return;
    }
    url := url + "?";
    ghost var marked := url;
    PrintNone(params);
    for i := 0 to |order|
      invariant url == marked + PrintPairs(order[..i], params)
    {
      PrintOneMore(order, i, params);
      url := url + (Pair(order[i], params[order[i]]) + "&");
    }
    assert order[..|order|] == order;
    PrintOneMore(order, |order| - 1, params);
    CutLast(marked, PrintPairs(order, params));
    url := url[..|url| - 1];
    Shift(base, PrintPairs(order, params));
  }

  lemma EmptyOrder(order: seq<string>, params: map<string, string>)
    requires Iterates(order, params)
    ensures order == [] <==> |params| == 0
  {
    assert params.Keys == set k | k in order;
    assert order != [] ==> order[0] in order;
  }

  lemma PrintNone(params: map<string, string>)
    ensures PrintPairs([], params) == ""
  {
  }

  lemma PrintOneMore(order: seq<string>, i: nat, params: map<string, string>)
    requires i < |order| && forall k :: k in order ==> k in params
    ensures PrintPairs(order[..i + 1], params) == PrintPairs(order[..i], params) + (Pair(order[i], params[order[i]]) + "&")
    ensures PrintPairs(order[..i + 1], params) != ""
  {
    assert order[..i + 1][..i] == order[..i];
  }

  lemma Shift(base: string, pairs: string)
    requires pairs != ""
    ensures base + "?" + pairs[..|pairs| - 1] == base + ("?" + pairs[..|pairs| - 1])
  {
  }

  lemma CutLast(a: string, b: string)
    requires b != ""
    ensures (a + b)[..|a + b| - 1] == a + b[..|b| - 1]
  {
  }

  method AssembleRequestUrl(path: string, params: map<string, string>, order: seq<string>) returns (url: string)
    requires Iterates(order, params)
    ensures url == BASE_URL + path + Suffix(order, params)
  {
    url := AppendParams(BASE_URL + path, params, order);
  }

  function Suffix(order: seq<string>, params: map<string, string>): string
    requires forall k :: k in order ==> k in params
  {
    var pairs := PrintPairs(order, params);
    if order == [] then "" else "?" + pairs[..|pairs| - 1]
  }

  // ----- Round trip -----

  predicate Clean(s: string) {
    '&' !in s && '=' !in s && '?' !in s
  }

  ghost predicate CleanMap(params: map<string, string>) {
    forall k :: k in params ==> Clean(k) && Clean(params[k])
  }

  function Expressions(order: seq<string>, params: map<string, string>): seq<string>
    requires forall k :: k in order ==> k in params
  {
    if order == [] then []
    else Expressions(order[..|order| - 1], params) + [Pair(order[|order| - 1], params[order[|order| - 1]])]
  }

  ghost function Restrict(order: seq<string>, params: map<string, string>): map<string, string>
    requires forall k :: k in order ==> k in params
  {
    map k | k in order :: params[k]
  }

  lemma {:induction false} ParsePrinted(order: seq<string>, params: map<string, string>)
    requires (forall k :: k in order ==> k in params) && CleanMap(params)
    ensures ParseExpressions(Expressions(order, params)) == Some(Restrict(order, params))
  {
    if order != [] {
      hide Split, Pair, Clean, Restrict;
      var front, k := order[..|order| - 1], order[|order| - 1];
      ParsePrinted(front, params);
      var es := Expressions(order, params);
      assert es[..|es| - 1] == Expressions(front, params);
      SplitPair(k, params[k]);
      RestrictNext(order, params);
    } else {
      RestrictNone(params);
    }
  }

  lemma SplitPair(k: string, v: string)
    requires Clean(k) && Clean(v)
    ensures Split(Pair(k, v), '=') == [k, v]
  {
    SplitFirst(k, '=', v);
    SplitNone(v, '=');
  }

  lemma RestrictNone(params: map<string, string>)
    ensures Restrict([], params) == map[]
  {
  }

  lemma RestrictNext(order: seq<string>, params: map<string, string>)
    requires order != [] && forall k :: k in order ==> k in params
    ensures var front, k := order[..|order| - 1], order[|order| - 1];
            Restrict(order, params) == Restrict(front, params)[k := params[k]]
  {
    assert order == order[..|order| - 1] + [order[|order| - 1]];
  }

  lemma {:induction false} SplitPrinted(order: seq<string>, params: map<string, string>, last: string)
    requires (forall k :: k in order ==> k in params) && CleanMap(params)
    ensures Split(PrintPairs(order, params) + last, '&') == Expressions(order, params) + Split(last, '&')
    decreases |order|
  {
    if order == [] {
      assert PrintPairs(order, params) + last == last;
    } else {
      var front, k := order[..|order| - 1], order[|order| - 1];
      var e := Pair(k, params[k]);
      assert PrintPairs(order, params) + last == PrintPairs(front, params) + (e + ['&'] + last);
      SplitPrinted(front, params, e + ['&'] + last);
      SplitFirst(e, '&', last);
    }
  }

  lemma {:induction false} PrintedNoMark(order: seq<string>, params: map<string, string>)
    requires (forall k :: k in order ==> k in params) && CleanMap(params)
    ensures '?' !in PrintPairs(order, params)
  {
    if order != [] {
      PrintedNoMark(order[..|order| - 1], params);
    }
  }

  lemma {:induction false} LastIndexUnique(s: string, c: char, j: nat)
    requires j < |s| && s[j] == c && c !in s[j + 1..]
    ensures LastIndex(s, c) == j
  {
    if j < |s| - 1 {
      assert s[|s| - 1] == s[j + 1..][|s| - j - 2];
      assert s[j + 1..] == s[..|s| - 1][j + 1..] + [s[|s| - 1]];
      LastIndexUnique(s[..|s| - 1], c, j);
    }
  }

  lemma SplitAtMark(a: string, b: string)
    requires '?' !in b
    ensures SplitQueryParams(a + "?" + b) == (b, a)
  {
    var s := a + "?" + b;
    assert s[|a|] == '?' && s[|a| + 1..] == b && s[..|a|] == a;
    LastIndexUnique(s, '?', |a|);
  }

  /** The printed query: what follows the question mark. */
  function Query(order: seq<string>, params: map<string, string>): string
    requires order != [] && forall k :: k in order ==> k in params
  {
    var k := order[|order| - 1];
    PrintPairs(order[..|order| - 1], params) + Pair(k, params[k])
  }

  lemma SuffixIsQuery(order: seq<string>, params: map<string, string>)
    requires order != [] && (forall k :: k in order ==> k in params) && CleanMap(params)
    ensures Suffix(order, params) == "?" + Query(order, params)
    ensures '?' !in Query(order, params)
  {
    PrintedNoMark(order[..|order| - 1], params);
    var k := order[|order| - 1];
    assert k in order && Clean(k) && Clean(params[k]);
    assert '?' !in Pair(k, params[k]);
    var pairs := PrintPairs(order, params);
    assert pairs == Query(order, params) + "&";
    assert pairs[..|pairs| - 1] == Query(order, params);
  }

  lemma ParsedQueryPrinted(order: seq<string>, params: map<string, string>)
    requires Iterates(order, params) && CleanMap(params) && order != []
    ensures ParsedQuery(Query(order, params)) == Some(params)
  {
    var front, k := order[..|order| - 1], order[|order| - 1];
    var e := Pair(k, params[k]);
    SplitPrinted(front, params, e);
    SplitNone(e, '&');
    assert Split(Query(order, params), '&') == Expressions(order, params);
    ParsePrinted(order, params);
    assert Restrict(order, params) == params;
  }

  lemma RoundTripFrom(base: string, params: map<string, string>, order: seq<string>)
    requires Iterates(order, params) && CleanMap(params)
    requires params == map[] ==> '?' !in base
    ensures var (query, base') := SplitQueryParams(base + Suffix(order, params));
            base' == base && ParsedQuery(query) == Some(params)
  {
    assert params.Keys == set k | k in order;
    if order == [] {
      assert base + Suffix(order, params) == base;
    } else {
      var query := Query(order, params);
      SuffixIsQuery(order, params);
      Reassociate(base, query);
      SplitAtMark(base, query);
      ParsedQueryPrinted(order, params);
    }
  }

  lemma Reassociate(a: string, b: string)
    ensures a + ("?" + b) == a + "?" + b
  {
  }

  /** Whatever order the map is iterated in, parsing the printed URL returns the map and the
      base path.  A question mark in the path only matters when there is nothing to print. */
  lemma RoundTrip(path: string, params: map<string, string>, order: seq<string>)
    requires Iterates(order, params) && CleanMap(params)
    requires params == map[] ==> '?' !in path
    ensures var (query, base) := SplitQueryParams(BASE_URL + path + Suffix(order, params));
            base == BASE_URL + path && ParsedQuery(query) == Some(params)
  {
    RoundTripFrom(BASE_URL + path, params, order);
  }

  // ----- A trailing slash in the last value -----

  predicate EndsInSlash(s: string) {
    s != "" && s[|s| - 1] == '/'
  }

  lemma {:induction false} SamePairs(order: seq<string>, params: map<string, string>, params': map<string, string>)
    requires forall k :: k in order ==> k in params && k in params' && params[k] == params'[k]
    ensures PrintPairs(order, params) == PrintPairs(order, params')
  {
    if order != [] {
      SamePairs(order[..|order| - 1], params, params');
    }
  }

  /** The map with the last character of the last value cut off. */
  function CutValue(order: seq<string>, params: map<string, string>): map<string, string>
    requires order != [] && forall k :: k in order ==> k in params
  {
    var k := order[|order| - 1];
    var v := params[k];
    params[k := if v == "" then "" else v[..|v| - 1]]
  }

  /** The printed query ends in a slash if its last value does, and is then, without it, the
      printed query of the map with that value cut. */
  lemma QueryEnd(order: seq<string>, params: map<string, string>)
    requires Iterates(order, params) && CleanMap(params) && order != []
    ensures var k, q := order[|order| - 1], Query(order, params);
            && (EndsInSlash(q) <==> EndsInSlash(params[k]))
            && (EndsInSlash(q) ==> q[..|q| - 1] == Query(order, CutValue(order, params)))
    ensures Iterates(order, CutValue(order, params)) && CleanMap(CutValue(order, params))
  {
    hide PrintPairs;
    var k, front := order[|order| - 1], order[..|order| - 1];
    var cut, v := CutValue(order, params), params[order[|order| - 1]];
    var q := Query(order, params);
    assert k in order && Clean(v) && forall c :: c in cut[k] ==> c in v;
    SamePairs(front, params, cut);
    assert q[|q| - 1] == if v == "" then '=' else v[|v| - 1];
    if EndsInSlash(q) {
      CutLast(PrintPairs(front, params) + (k + "="), v);
      assert q == PrintPairs(front, params) + (k + "=") + v;
    }
  }
}
