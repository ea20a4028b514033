/** The plain route table that the trie indexes, and what it means for a query to match it. */
module RouteTable {
  import opened Wrappers
  import opened UriTokens

  datatype Entry<+V> = Entry(value: Option<V>, path: string)

  type Position = seq<Token>

  type Table<V> = map<Position, Entry<V>>

  function Child(q: Position, t: Token): (c: Position)
    ensures |c| == |q| + 1 && c[..|q|] == q && c[|q|] == t
  {
    q + [t]
  }

  lemma ChildInjective(q: Position, t: Token, q': Position, t': Token)
    requires Child(q, t) == Child(q', t')
    ensures q == q' && t == t'
  {
    assert q == Child(q, t)[..|q|];
  }

  /** All prefixes of routes: the positions at which the trie has nodes. */
  ghost function Index<V>(table: Table<V>): set<Position> {
    {[]} + set r, i: nat | r in table && i <= |r| :: r[..i]
  }

  /** At no position do two different parameter or wildcard tokens compete. */
  ghost predicate ConflictFree(index: set<Position>) {
    forall q, t, t' :: Child(q, t) in index && Child(q, t') in index && !t.Const? && !t'.Const? ==> t == t'
  }

  /** A route that begins with a slash, has no empty segment and does not end in a slash. */
  predicate WellFormed(r: Position) {
    && |r| > 0 && |r| % 2 == 0
    && forall i :: 0 <= i < |r| ==> (r[i] == Const("/") <==> i % 2 == 0)
  }

  // ----- Matching, declaratively -----

  /** One step of a pattern accepts one segment of a query. */
  predicate Accepts(t: Token, seg: string) {
    if t.Const? then t.text == seg else seg != "/"
  }

  /** At this position the walk prefers the step `t` for the segment: the step accepts it,
      and a parameter or wildcard does not stand where a constant fits. */
  ghost predicate Prefers(index: set<Position>, q: Position, t: Token, seg: string) {
    Accepts(t, seg) && (!t.Const? ==> Child(q, Const(seg)) !in index)
  }

  /** The route the query selects: it accepts the query segment by segment, and no
      parameter or wildcard of it stands where a constant of another route fits. */
  ghost predicate Selects(index: set<Position>, segs: seq<string>, r: Position) {
    && r in index && |r| == |segs|
    && forall i :: 0 <= i < |r| ==> Prefers(index, r[..i], r[i], segs[i])
  }

  /** The bindings of a route's parameters, later ones of the same name prevailing. */
  function Bind(r: Position, segs: seq<string>): map<string, string>
    requires |r| == |segs|
  {
    if r == [] then map[]
    else
      var m := Bind(r[..|r| - 1], segs[..|segs| - 1]);
      if r[|r| - 1].Const? then m else m[r[|r| - 1].name := Key(segs[|segs| - 1])]
  }

  // ----- Matching, as the walk does it -----

  datatype Outcome = Lost | Landed(pos: Position, params: map<string, string>)

  ghost predicate HasWild(index: set<Position>, q: Position) {
    exists w :: Child(q, Wild(w)) in index
  }

  ghost predicate HasParam(index: set<Position>, q: Position) {
    exists p :: Child(q, Param(p)) in index
  }

  ghost function WildName(index: set<Position>, q: Position): (w: string)
    requires HasWild(index, q)
    ensures Child(q, Wild(w)) in index
  {
    var w :| Child(q, Wild(w)) in index;
    w
  }

  ghost function ParamName(index: set<Position>, q: Position): (p: string)
    requires HasParam(index, q)
    ensures Child(q, Param(p)) in index
  {
    var p :| Child(q, Param(p)) in index;
    p
  }

  /** Where the walk ends that starts at `q`.  A segment without a matching child leaves it
      where it is, and a wildcard consumes one segment and lets the walk go on. */
  ghost function Walk(index: set<Position>, q: Position, segs: seq<string>, params: map<string, string>): Outcome
    decreases |segs|
  {
    if segs == [] then Landed(q, params)
    else if Child(q, Const(segs[0])) in index then Walk(index, Child(q, Const(segs[0])), segs[1..], params)
    else if segs[0] == "/" then Lost
    else if HasWild(index, q) then
      var w := WildName(index, q);
      Walk(index, Child(q, Wild(w)), segs[1..], params[w := Key(segs[0]) + Join(segs[1..])])
    else if HasParam(index, q) then
      var p := ParamName(index, q);
      Walk(index, Child(q, Param(p)), segs[1..], params[p := Key(segs[0])])
    else Walk(index, q, segs[1..], params)
  }
}
