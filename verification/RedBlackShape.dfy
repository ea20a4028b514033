/** Red-black trees as values.

    A `Shape` is the tree that a heap of linked nodes spells out; `N` is the type of
    node identities.  A `Context` is a tree with one subtree missing (a zipper), so a
    node somewhere inside the tree is a pair of a context and a shape.  The five
    insertion cases are defined here on such pairs; module `RedBlackTree` proves that
    the pointer code computes exactly these functions. */
module RedBlackShape {

  datatype Color = Black | Red

  /** A key and its comparison class.  Two keys with the same rank compare as equal,
      although they may still be different objects (their tags differ). */
  datatype Key = Key(rank: int, tag: int)

  function Compare(a: Key, b: Key): int {
    a.rank - b.rank
  }

  datatype Entry<N, V> = Entry(id: N, key: Key, value: V)

  datatype Shape<N, V> =
    | Leaf
    | Branch(left: Shape<N, V>, color: Color, entry: Entry<N, V>, right: Shape<N, V>)

  /** `OnLeft` is a context whose hole is the left child of `entry`, `OnRight` one whose
      hole is its right child. */
  datatype Context<N, V> =
    | Top
    | OnLeft(up: Context<N, V>, color: Color, entry: Entry<N, V>, other: Shape<N, V>)
    | OnRight(up: Context<N, V>, color: Color, entry: Entry<N, V>, other: Shape<N, V>)

  function Plug<N, V>(c: Context<N, V>, t: Shape<N, V>): Shape<N, V> {
    match c
    case Top => t
    case OnLeft(up, color, e, right) => Plug(up, Branch(t, color, e, right))
    case OnRight(up, color, e, left) => Plug(up, Branch(left, color, e, t))
  }

  function Depth<N, V>(c: Context<N, V>): nat {
    if c.Top? then 0 else 1 + Depth(c.up)
  }

  // ----- What a tree holds -----

  function InOrder<N, V>(t: Shape<N, V>): seq<Entry<N, V>> {
    match t
    case Leaf => []
    case Branch(l, _, e, r) => InOrder(l) + [e] + InOrder(r)
  }

  /** Entries that come before the hole in the in-order sequence. */
  function Before<N, V>(c: Context<N, V>): seq<Entry<N, V>> {
    match c
    case Top => []
    case OnLeft(up, _, _, _) => Before(up)
    case OnRight(up, _, e, left) => Before(up) + (InOrder(left) + [e])
  }

  /** Entries that come after the hole in the in-order sequence. */
  function After<N, V>(c: Context<N, V>): seq<Entry<N, V>> {
    match c
    case Top => []
    case OnLeft(up, _, e, right) => ([e] + InOrder(right)) + After(up)
    case OnRight(up, _, _, _) => After(up)
  }

  lemma {:induction false} InOrderPlug<N, V>(c: Context<N, V>, t: Shape<N, V>)
    ensures InOrder(Plug(c, t)) == Before(c) + InOrder(t) + After(c)
    decreases c
  {
    match c
    case Top =>
    case OnLeft(up, color, e, right) => InOrderPlug(up, Branch(t, color, e, right));
    case OnRight(up, color, e, left) => InOrderPlug(up, Branch(left, color, e, t));
  }

  predicate Ascending<N, V>(s: seq<Entry<N, V>>) {
    forall i, j :: 0 <= i < j < |s| ==> s[i].key.rank < s[j].key.rank
  }

  /** The finite map a sequence of entries stands for, keyed by comparison class. */
  function MapOf<N, V>(s: seq<Entry<N, V>>): map<int, (Key, V)> {
    if s == [] then map[] else MapOf(s[..|s| - 1])[s[|s| - 1].key.rank := (s[|s| - 1].key, s[|s| - 1].value)]
  }

  function Contents<N, V>(t: Shape<N, V>): map<int, (Key, V)> {
    MapOf(InOrder(t))
  }

  lemma {:induction false} MapOfAt<N, V>(s: seq<Entry<N, V>>)
    requires Ascending(s)
    ensures forall k :: k in MapOf(s) <==> exists i :: 0 <= i < |s| && s[i].key.rank == k
    ensures forall i :: 0 <= i < |s| ==>
              s[i].key.rank in MapOf(s) && MapOf(s)[s[i].key.rank] == (s[i].key, s[i].value)
  {
    if s != [] {
      var s' := s[..|s| - 1];
      MapOfAt(s');
      assert forall i :: 0 <= i < |s'| ==> s[i] == s'[i];
      forall k ensures k in MapOf(s) <==> exists i :: 0 <= i < |s| && s[i].key.rank == k {
        if k in MapOf(s') {
          var i :| 0 <= i < |s'| && s'[i].key.rank == k;
          assert s[i].key.rank == k;
        }
      }
    }
  }

  lemma {:induction false} MapOfConcat<N, V>(a: seq<Entry<N, V>>, b: seq<Entry<N, V>>)
    ensures MapOf(a + b) == MapOf(a) + MapOf(b)
    decreases |b|
  {
    if b == [] {
      assert a + b == a;
    } else {
      var b' := b[..|b| - 1];
      MapOfConcat(a, b');
      assert (a + b)[..|a + b| - 1] == a + b';
    }
  }

  /** Putting `e` at its place in an ascending sequence updates the map at its rank. */
  lemma MapOfInsert<N, V>(pre: seq<Entry<N, V>>, mid: seq<Entry<N, V>>, e: Entry<N, V>, post: seq<Entry<N, V>>)
    requires |mid| <= 1 && (mid != [] ==> mid[0].key.rank == e.key.rank)
    requires Ascending(pre) && Ascending(post)
    requires forall i :: 0 <= i < |pre| ==> pre[i].key.rank < e.key.rank
    requires forall i :: 0 <= i < |post| ==> e.key.rank < post[i].key.rank
    ensures MapOf(pre + [e] + post) == MapOf(pre + mid + post)[e.key.rank := (e.key, e.value)]
  {
    MapOfConcat(pre + [e], post);
    MapOfConcat(pre, [e]);
    MapOfConcat(pre + mid, post);
    MapOfConcat(pre, mid);
    MapOfAbsent(post, e.key.rank);
    MapOfSingle([e]);
    MapOfSingle(mid);
    UpdateMiddle(MapOf(pre), MapOf(mid), MapOf(post), e.key.rank, (e.key, e.value));
  }

  lemma {:induction false} MapOfAbsent<N, V>(s: seq<Entry<N, V>>, k: int)
    requires forall i :: 0 <= i < |s| ==> s[i].key.rank != k
    ensures k !in MapOf(s)
  {
    if s != [] {
      MapOfAbsent(s[..|s| - 1], k);
    }
  }

  lemma MapOfSingle<N, V>(s: seq<Entry<N, V>>)
    requires |s| <= 1
    ensures MapOf(s) == if s == [] then map[] else map[s[0].key.rank := (s[0].key, s[0].value)]
  {
  }

  lemma UpdateMiddle<T>(pre: map<int, T>, mid: map<int, T>, post: map<int, T>, k: int, x: T)
    requires mid.Keys <= {k} && k !in post
    ensures pre + map[k := x] + post == (pre + mid + post)[k := x]
  {
  }

  lemma AscendingJoin<N, V>(pre: seq<Entry<N, V>>, mid: seq<Entry<N, V>>, post: seq<Entry<N, V>>)
    requires Ascending(pre) && Ascending(mid) && Ascending(post)
    requires forall i, j :: 0 <= i < |pre| && 0 <= j < |mid| ==> pre[i].key.rank < mid[j].key.rank
    requires forall i, j :: 0 <= i < |mid| && 0 <= j < |post| ==> mid[i].key.rank < post[j].key.rank
    requires forall i, j :: 0 <= i < |pre| && 0 <= j < |post| ==> pre[i].key.rank < post[j].key.rank
    ensures Ascending(pre + mid + post)
  {
  }
}
