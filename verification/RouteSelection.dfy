/** The trie's walk lands on exactly the route that the query selects. */
module RouteSelection {
  import opened UriTokens
  import opened RouteTable

  /** What the index of every table looks like. */
  ghost predicate GoodIndex(index: set<Position>) {
    && ConflictFree(index)
    && (forall q: Position, t :: Child(q, t) in index ==> q in index)
    && (forall q: Position, t :: Child(q, t) in index && q != [] ==> !q[|q| - 1].Wild?)
  }

  /** A position at which a walk can get stuck without being lost: it ends in a slash, takes
      no arbitrary segment, and yet has a value or goes on with another slash. */
  ghost predicate Trap(index: set<Position>, valued: set<Position>, q: Position) {
    && q in index && q != [] && q[0] == Const("/") && q[|q| - 1] == Const("/")
    && !HasWild(index, q) && !HasParam(index, q)
    && (q in valued || Child(q, Const("/")) in index)
  }

  ghost predicate NoTrap(index: set<Position>, valued: set<Position>) {
    forall q :: !Trap(index, valued, q)
  }

  /** Before a name there was a slash. */
  lemma AfterSlash(index: set<Position>, segs: seq<string>, q: Position)
    requires Alternates(segs) && |q| < |segs| && segs[0] == "/" && segs[|q|] != "/"
    requires Selects(index, segs[..|q|], q)
    ensures q != [] && q[0] == Const("/") && q[|q| - 1] == Const("/")
  {
    assert |q| > 0;
    var k := |q| - 1;
    assert segs[k + 1] != "/" && segs[k] == "/";
    assert Prefers(index, q[..|q| - 1], q[|q| - 1], segs[..|q|][|q| - 1]);
    assert Prefers(index, q[..0], q[0], segs[..|q|][0]);
  }

  lemma ExtendSelection(index: set<Position>, segs: seq<string>, q: Position, t: Token)
    requires |q| < |segs| && Selects(index, segs[..|q|], q) && Child(q, t) in index
    requires Prefers(index, q, t, segs[|q|])
    ensures Selects(index, segs[..|q| + 1], Child(q, t))
  {
    var r, ss := Child(q, t), segs[..|q| + 1];
    forall i | 0 <= i < |r| ensures Prefers(index, r[..i], r[i], ss[i]) {
      if i < |q| {
        assert r[..i] == q[..i] && r[i] == q[i] && ss[i] == segs[..|q|][i];
        assert Prefers(index, q[..i], q[i], segs[..|q|][i]);
      } else {
        assert r[..i] == q;
      }
    }
  }

  lemma ExtendBind(segs: seq<string>, q: Position, t: Token)
    requires |q| < |segs|
    ensures Bind(Child(q, t), segs[..|q| + 1]) ==
            if t.Const? then Bind(q, segs[..|q|]) else Bind(q, segs[..|q|])[t.name := Key(segs[|q|])]
  {
    var r, ss := Child(q, t), segs[..|q| + 1];
    assert ss[..|ss| - 1] == segs[..|q|] && r[..|r| - 1] == q;
  }

  /** The rest of the query as seen from a position reached in step. */
  ghost function WalkOn(index: set<Position>, q: Position, segs: seq<string>): Outcome
    requires |q| <= |segs|
  {
    Walk(index, q, segs[|q|..], Bind(q, segs[..|q|]))
  }

  /** The walk ended on the selected route, or where there is no value. */
  ghost predicate EndsWell(index: set<Position>, valued: set<Position>, segs: seq<string>, o: Outcome) {
    o.Landed? && o.pos in valued ==> Selects(index, segs, o.pos) && o.params == Bind(o.pos, segs)
  }

  lemma {:induction false} WalkSound(index: set<Position>, valued: set<Position>, q: Position, segs: seq<string>)
    requires GoodIndex(index) && NoTrap(index, valued) && Alternates(segs) && segs != [] && segs[0] == "/"
    requires |q| <= |segs| && Selects(index, segs[..|q|], q)
    ensures EndsWell(index, valued, segs, WalkOn(index, q, segs))
    decreases |segs| - |q|
  {
    var k, rest := |q|, segs[|q|..];
    if k == |segs| {
      assert segs[..k] == segs;
      return;
    }
    assert rest[1..] == segs[k + 1..];
    if Child(q, Const(segs[k])) in index {
      ExtendSelection(index, segs, q, Const(segs[k]));
      ExtendBind(segs, q, Const(segs[k]));
      assert WalkOn(index, q, segs) == WalkOn(index, Child(q, Const(segs[k])), segs);
      WalkSound(index, valued, Child(q, Const(segs[k])), segs);
    } else if segs[k] == "/" {
    } else if HasWild(index, q) {
      var w := WildName(index, q);
      WildEnds(index, q, segs, w);
    } else if HasParam(index, q) {
      var p := ParamName(index, q);
      ExtendSelection(index, segs, q, Param(p));
      ExtendBind(segs, q, Param(p));
      assert WalkOn(index, q, segs) == WalkOn(index, Child(q, Param(p)), segs);
      WalkSound(index, valued, Child(q, Param(p)), segs);
    } else {
      AfterSlash(index, segs, q);
      assert !Trap(index, valued, q);
      StaysLost(index, q, rest, Bind(q, segs[..k]));
    }
  }

  /** A wildcard succeeds on the last segment only. */
  lemma WildEnds(index: set<Position>, q: Position, segs: seq<string>, w: string)
    requires GoodIndex(index) && Alternates(segs)
    requires |q| < |segs| && Selects(index, segs[..|q|], q) && segs[|q|] != "/"
    requires Child(q, Const(segs[|q|])) !in index && Child(q, Wild(w)) in index
    ensures var rest := segs[|q| + 1..];
            var o := Walk(index, Child(q, Wild(w)), rest, Bind(q, segs[..|q|])[w := Key(segs[|q|]) + Join(rest)]);
            if rest != [] then o == Lost
            else Selects(index, segs, Child(q, Wild(w))) && o == Landed(Child(q, Wild(w)), Bind(Child(q, Wild(w)), segs))
  {
    var rest := segs[|q| + 1..];
    if rest == [] {
      ExtendSelection(index, segs, q, Wild(w));
      ExtendBind(segs, q, Wild(w));
      assert segs[..|q| + 1] == segs;
      assert Key(segs[|q|]) + Join(rest) == Key(segs[|q|]);
    } else {
      assert rest[0] == segs[|q| + 1] == "/";
      assert Child(Child(q, Wild(w)), Const("/")) !in index;
    }
  }

  /** A walk that could not move and does not find another slash ends where it stands. */
  lemma StaysLost(index: set<Position>, q: Position, rest: seq<string>, params: map<string, string>)
    requires Child(q, Const("/")) !in index
    requires rest != [] && rest[0] != "/" && (|rest| > 1 ==> rest[1] == "/")
    requires Child(q, Const(rest[0])) !in index && !HasWild(index, q) && !HasParam(index, q)
    ensures Walk(index, q, rest, params) in [Lost, Landed(q, params)]
  {
    if |rest| > 1 {
      assert rest[1..][0] == "/";
    }
  }

  lemma {:induction false} SelectsPrefix(index: set<Position>, segs: seq<string>, r: Position, k: nat)
    requires GoodIndex(index) && Selects(index, segs, r) && k <= |r|
    ensures Selects(index, segs[..k], r[..k])
    decreases |r| - k
  {
    if k == |r| {
      assert segs[..k] == segs && r[..k] == r;
    } else {
      SelectsPrefix(index, segs, r, k + 1);
      assert r[..k + 1] == Child(r[..k], r[k]);
      forall i | 0 <= i < k ensures Prefers(index, r[..k][..i], r[..k][i], segs[..k][i]) {
        assert r[..k][..i] == r[..i] && Prefers(index, r[..i], r[i], segs[i]);
      }
    }
  }

  lemma WildIsLast(index: set<Position>, segs: seq<string>, r: Position, k: nat)
    requires GoodIndex(index) && Selects(index, segs, r) && k < |r|
    ensures r[k].Wild? ==> k == |r| - 1
  {
    if k + 1 < |r| {
      SelectsPrefix(index, segs, r, k + 2);
      assert r[..k + 2] == Child(r[..k + 1], r[k + 1]);
      assert !r[..k + 1][k].Wild?;
    }
  }

  lemma {:induction false} WalkComplete(index: set<Position>, segs: seq<string>, r: Position, k: nat)
    requires GoodIndex(index) && Alternates(segs) && Selects(index, segs, r) && k <= |r|
    ensures WalkOn(index, r[..k], segs) == Landed(r, Bind(r, segs))
    decreases |r| - k
  {
    hide Alternates;
    var q := r[..k];
    if k == |r| {
      assert q == r && segs[..k] == segs;
      return;
    }
    SelectsPrefix(index, segs, r, k);
    assert r[..k + 1] == Child(q, r[k]);
    SelectsPrefix(index, segs, r, k + 1);
    assert Prefers(index, q, r[k], segs[k]);
    assert segs[k..][1..] == segs[k + 1..];
    if r[k].Const? {
      ExtendSelection(index, segs, q, r[k]);
      ExtendBind(segs, q, r[k]);
      WalkComplete(index, segs, r, k + 1);
    } else {
      assert Child(q, Const(segs[k])) !in index;
      if r[k].Wild? {
        assert WildName(index, q) == r[k].name;
        WildIsLast(index, segs, r, k);
        assert Child(q, r[k]) == r && segs[k + 1..] == [];
        WildEnds(index, q, segs, r[k].name);
      } else {
        assert ParamName(index, q) == r[k].name;
        ExtendSelection(index, segs, q, r[k]);
        ExtendBind(segs, q, r[k]);
        WalkComplete(index, segs, r, k + 1);
      }
    }
  }

  /** Without traps, the walk lands on a route that has a value exactly when the query
      selects that route, and then with that route's bindings. */
  lemma WalkExact(index: set<Position>, valued: set<Position>, segs: seq<string>, r: Position)
    requires GoodIndex(index) && NoTrap(index, valued) && Alternates(segs) && segs != [] && segs[0] == "/"
    requires [] in index && r in valued
    ensures Selects(index, segs, r) <==>
            Walk(index, [], segs, map[]).Landed? && Walk(index, [], segs, map[]).pos == r
    ensures Selects(index, segs, r) ==> Walk(index, [], segs, map[]).params == Bind(r, segs)
  {
    assert segs[..0] == [] && segs[0..] == segs;
    WalkSound(index, valued, [], segs);
    if Selects(index, segs, r) {
      WalkComplete(index, segs, r, 0);
      assert r[..0] == [];
    }
  }
}
