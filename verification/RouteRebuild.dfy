/** Substituting the bindings of a match into its pattern rebuilds the query path. */
module RouteRebuild {
  import opened UriTokens
  import opened RouteTable

  ghost function Names(r: Position): set<string> {
    set i | 0 <= i < |r| && !r[i].Const? :: r[i].name
  }

  predicate DistinctNames(r: Position) {
    forall i, j :: 0 <= i < j < |r| && !r[i].Const? && !r[j].Const? ==> r[i].name != r[j].name
  }

  lemma {:induction false} BindKeys(r: Position, segs: seq<string>)
    requires |r| == |segs|
    ensures Bind(r, segs).Keys == Names(r)
  {
    if r != [] {
      var r', last := r[..|r| - 1], r[|r| - 1];
      BindKeys(r', segs[..|segs| - 1]);
      assert forall i :: 0 <= i < |r'| ==> r'[i] == r[i];
      assert Names(r) == Names(r') + if last.Const? then {} else {last.name};
    }
  }

  lemma {:induction false} BindAt(r: Position, segs: seq<string>, i: nat)
    requires |r| == |segs| && i < |r| && !r[i].Const? && DistinctNames(r)
    ensures r[i].name in Bind(r, segs) && Bind(r, segs)[r[i].name] == Key(segs[i])
  {
    var r', ss := r[..|r| - 1], segs[..|segs| - 1];
    if i < |r| - 1 {
      BindAt(r', ss, i);
    }
  }

  /** What stands in a pattern for a step, given bindings. */
  function Fill(t: Token, m: map<string, string>): string {
    if t.Const? then t.text else if t.name in m then m[t.name] else ""
  }

  function Substitute(r: Position, m: map<string, string>): string {
    if r == [] then "" else Fill(r[0], m) + Substitute(r[1..], m)
  }

  /** What the bindings make of one segment. */
  function Bound(t: Token, seg: string): string {
    if t.Const? then seg else Key(seg)
  }

  function JoinBound(r: Position, segs: seq<string>): string
    requires |r| == |segs|
  {
    if r == [] then "" else Bound(r[0], segs[0]) + JoinBound(r[1..], segs[1..])
  }

  lemma {:induction false} SubstituteIsBound(r: Position, segs: seq<string>, m: map<string, string>)
    requires |r| == |segs| && forall i :: 0 <= i < |r| ==> Fill(r[i], m) == Bound(r[i], segs[i])
    ensures Substitute(r, m) == JoinBound(r, segs)
  {
    if r != [] {
      SubstituteIsBound(r[1..], segs[1..], m);
    }
  }

  /** How many bound segments start with a byte outside ASCII. */
  function Mangled(r: Position, segs: seq<string>): nat
    requires |r| == |segs|
  {
    if r == [] then 0
    else (if r[0].Const? || Ascii(segs[0]) then 0 else 1) + Mangled(r[1..], segs[1..])
  }

  lemma {:induction false} JoinBoundLength(r: Position, segs: seq<string>)
    requires |r| == |segs| && forall i :: 0 <= i < |r| ==> segs[i] != ""
    ensures |JoinBound(r, segs)| == |Join(segs)| + Mangled(r, segs)
    ensures Mangled(r, segs) == 0 ==> JoinBound(r, segs) == Join(segs)
  {
    if r != [] {
      KeyLength(segs[0]);
      JoinBoundLength(r[1..], segs[1..]);
    }
  }

  lemma {:induction false} MangledNone(r: Position, segs: seq<string>)
    requires |r| == |segs|
    ensures Mangled(r, segs) == 0 <==> forall i :: 0 <= i < |r| && !r[i].Const? ==> Ascii(segs[i])
  {
    if r != [] {
      MangledNone(r[1..], segs[1..]);
      if forall i :: 0 <= i < |r| && !r[i].Const? ==> Ascii(segs[i]) {
        forall i | 0 <= i < |r[1..]| && !r[1..][i].Const? ensures Ascii(segs[1..][i]) {
          assert r[i + 1] == r[1..][i];
        }
      } else {
        var i :| 0 <= i < |r| && !r[i].Const? && !Ascii(segs[i]);
        assert i > 0 ==> r[1..][i - 1] == r[i] && segs[1..][i - 1] == segs[i];
      }
    }
  }

  /** With distinct parameter names, substitution rebuilds the path exactly when every
      segment bound to a parameter or wildcard starts with an ASCII byte. */
  lemma RebuildExact(index: set<Position>, path: string, r: Position)
    requires Selects(index, Segments(path), r) && DistinctNames(r)
    ensures Bind(r, Segments(path)).Keys == Names(r)
    ensures Substitute(r, Bind(r, Segments(path))) == path <==>
            forall i :: 0 <= i < |r| && !r[i].Const? ==> Ascii(Segments(path)[i])
  {
    var segs := Segments(path);
    var m := Bind(r, segs);
    BindKeys(r, segs);
    SegmentsAlternate(path);
    JoinSegments(path);
    forall i | 0 <= i < |r| ensures Fill(r[i], m) == Bound(r[i], segs[i]) {
      assert Prefers(index, r[..i], r[i], segs[i]);
      if !r[i].Const? {
        BindAt(r, segs, i);
      }
    }
    SubstituteIsBound(r, segs, m);
    JoinBoundLength(r, segs);
    MangledNone(r, segs);
  }
}
