/** The five insertion cases on values, and why they restore the red-black invariant. */
module RedBlackRepair {
  import opened RedBlackShape

  // ----- Colour invariants -----

  function RootColor<N, V>(t: Shape<N, V>): Color {
    if t.Leaf? then Black else t.color
  }

  /** Every path from the root to a leaf passes `h` black nodes. */
  predicate BlackHeight<N, V>(t: Shape<N, V>, h: int) {
    match t
    case Leaf => h == 0
    case Branch(l, c, _, r) =>
      var below := if c == Black then h - 1 else h;
      BlackHeight(l, below) && BlackHeight(r, below)
  }

  /** No red node has a red child. */
  predicate NoRedRed<N, V>(t: Shape<N, V>) {
    t.Branch? ==>
      && (t.color == Red ==> RootColor(t.left) == Black && RootColor(t.right) == Black)
      && NoRedRed(t.left) && NoRedRed(t.right)
  }

  ghost predicate RedBlack<N, V>(t: Shape<N, V>) {
    && RootColor(t) == Black
    && NoRedRed(t)
    && exists h :: BlackHeight(t, h)
  }

  /** Filling the hole with a tree of black height `h` gives equal black heights everywhere. */
  predicate ContextBlackHeight<N, V>(c: Context<N, V>, h: int) {
    if c.Top? then true
    else BlackHeight(c.other, h) && ContextBlackHeight(c.up, if c.color == Black then h + 1 else h)
  }

  /** No red node has a red child, and the root is black, the hole left out of account. */
  predicate ContextColors<N, V>(c: Context<N, V>) {
    !c.Top? ==>
      && NoRedRed(c.other)
      && ContextColors(c.up)
      && (c.color == Red ==> RootColor(c.other) == Black && !c.up.Top? && c.up.color == Black)
  }

  lemma {:induction false} PlugRedBlack<N, V>(c: Context<N, V>, t: Shape<N, V>, h: int)
    requires NoRedRed(t) && BlackHeight(t, h)
    requires ContextColors(c) && ContextBlackHeight(c, h)
    requires RootColor(t) == Red ==> !c.Top? && c.color == Black
    ensures RedBlack(Plug(c, t))
    decreases c
  {
    match c
    case Top => assert BlackHeight(t, h);
    case OnLeft(up, color, e, right) =>
      PlugRedBlack(up, Branch(t, color, e, right), if color == Black then h + 1 else h);
    case OnRight(up, color, e, left) =>
      PlugRedBlack(up, Branch(left, color, e, t), if color == Black then h + 1 else h);
  }

  lemma {:induction false} UnplugRedBlack<N, V>(c: Context<N, V>, t: Shape<N, V>) returns (h: int)
    requires RedBlack(Plug(c, t))
    ensures NoRedRed(t) && BlackHeight(t, h)
    ensures ContextColors(c) && ContextBlackHeight(c, h)
    ensures RootColor(t) == Red ==> !c.Top? && c.color == Black
    decreases c
  {
    match c
    case Top => h :| BlackHeight(t, h);
    case OnLeft(up, color, e, right) =>
      h := UnplugRedBlack(up, Branch(t, color, e, right));
      h := if color == Black then h - 1 else h;
    case OnRight(up, color, e, left) =>
      h := UnplugRedBlack(up, Branch(left, color, e, t));
      h := if color == Black then h - 1 else h;
  }

  // ----- The insertion cases -----

  /** The state in which repair is entered: the tree is red-black except that the red
      root of `t` may hang below a red parent. */
  predicate OneRedPair<N, V>(c: Context<N, V>, t: Shape<N, V>, h: int) {
    && t.Branch? && t.color == Red && NoRedRed(t) && BlackHeight(t, h)
    && ContextColors(c) && ContextBlackHeight(c, h)
  }

  /** Where the current node has a red parent, it also has a grandparent: the second
      half of "never dereferences a missing parent or grandparent". */
  predicate HasGrandparent<N, V>(c: Context<N, V>) {
    !c.Top? && !c.up.Top?
  }

  function Uncle<N, V>(c: Context<N, V>): Shape<N, V>
    requires HasGrandparent(c)
  {
    c.up.other
  }

  /** The tree rooted at the parent, given the current node's tree. */
  function WithParent<N, V>(c: Context<N, V>, color: Color, t: Shape<N, V>): Shape<N, V>
    requires !c.Top?
  {
    if c.OnLeft? then Branch(t, color, c.entry, c.other) else Branch(c.other, color, c.entry, t)
  }

  function Blacken<N, V>(t: Shape<N, V>): Shape<N, V> {
    if t.Leaf? then t else t.(color := Black)
  }

  function RotateLeft<N, V>(t: Shape<N, V>): Shape<N, V>
    requires t.Branch? && t.right.Branch?
  {
    Branch(Branch(t.left, t.color, t.entry, t.right.left), t.right.color, t.right.entry, t.right.right)
  }

  function RotateRight<N, V>(t: Shape<N, V>): Shape<N, V>
    requires t.Branch? && t.left.Branch?
  {
    Branch(t.left.left, t.left.color, t.left.entry, Branch(t.left.right, t.color, t.entry, t.right))
  }

  function Case1<N, V>(c: Context<N, V>, t: Shape<N, V>): Shape<N, V>
    requires t.Branch? && ContextColors(c)
    decreases Depth(c), 2
  {
    if c.Top? then Blacken(t) else Case2(c, t)
  }

  function Case2<N, V>(c: Context<N, V>, t: Shape<N, V>): Shape<N, V>
    requires t.Branch? && ContextColors(c) && !c.Top?
    decreases Depth(c), 1
  {
    if c.color == Black then Plug(c, t) else Case3(c, t)
  }

  /** A red uncle: recolour and climb two levels. */
  function Case3<N, V>(c: Context<N, V>, t: Shape<N, V>): Shape<N, V>
    requires t.Branch? && ContextColors(c) && HasGrandparent(c)
    decreases Depth(c), 0
  {
    assert ContextColors(c.up) && Depth(c.up) == 1 + Depth(c.up.up);
    if RootColor(Uncle(c)) == Red then Case1(c.up.up, Recolored(c, t)) else Case4(c, t)
  }

  function Recolored<N, V>(c: Context<N, V>, t: Shape<N, V>): Shape<N, V>
    requires HasGrandparent(c)
  {
    WithParent(c.up.(other := Blacken(Uncle(c))), Red, WithParent(c, Black, t))
  }

  /** An inner grandchild is first rotated to the outside. */
  function Case4<N, V>(c: Context<N, V>, t: Shape<N, V>): Shape<N, V>
    requires t.Branch? && HasGrandparent(c)
  {
    if c.OnRight? && c.up.OnLeft? then
      Case5(OnLeft(c.up, t.color, t.entry, t.right), Branch(c.other, c.color, c.entry, t.left))
    else if c.OnLeft? && c.up.OnRight? then
      Case5(OnRight(c.up, t.color, t.entry, t.left), Branch(t.right, c.color, c.entry, c.other))
    else
      Case5(c, t)
  }

  function Case5<N, V>(c: Context<N, V>, t: Shape<N, V>): Shape<N, V>
    requires t.Branch? && HasGrandparent(c)
  {
    var g := WithParent(c.up, Red, WithParent(c, Black, t));
    if c.OnLeft? && c.up.OnLeft? then Plug(c.up.up, RotateRight(g))
    else if c.OnRight? && c.up.OnRight? then Plug(c.up.up, RotateLeft(g))
    else Plug(c.up.up, g)
  }

  // ----- What the cases keep and restore -----

  lemma RotateLeftKeepsInOrder<N, V>(t: Shape<N, V>)
    requires t.Branch? && t.right.Branch?
    ensures InOrder(RotateLeft(t)) == InOrder(t)
  {
    var a, b, c := InOrder(t.left), InOrder(t.right.left), InOrder(t.right.right);
    assert InOrder(t.right) == b + [t.right.entry] + c;
    assert InOrder(RotateLeft(t).left) == a + [t.entry] + b;
    assert a + [t.entry] + (b + [t.right.entry] + c) == (a + [t.entry] + b) + [t.right.entry] + c;
  }

  lemma RotateRightKeepsInOrder<N, V>(t: Shape<N, V>)
    requires t.Branch? && t.left.Branch?
    ensures InOrder(RotateRight(t)) == InOrder(t)
  {
    var u := RotateRight(t);
    RotateLeftKeepsInOrder(u);
    assert RotateLeft(u) == t;
  }

  /** Equal in-order sequences below equal contexts give equal in-order sequences. */
  lemma SameInOrder<N, V>(c: Context<N, V>, t: Shape<N, V>, t': Shape<N, V>)
    requires InOrder(t) == InOrder(t')
    ensures InOrder(Plug(c, t)) == InOrder(Plug(c, t'))
  {
    InOrderPlug(c, t);
    InOrderPlug(c, t');
  }

  lemma Case5KeepsInOrder<N, V>(c: Context<N, V>, t: Shape<N, V>)
    requires t.Branch? && HasGrandparent(c)
    ensures InOrder(Case5(c, t)) == InOrder(Plug(c, t))
  {
    var p := WithParent(c, Black, t);
    var g := WithParent(c.up, Red, p);
    assert InOrder(p) == InOrder(WithParent(c, c.color, t));
    assert InOrder(g) == InOrder(WithParent(c.up, c.up.color, WithParent(c, c.color, t)));
    SameInOrder(c.up.up, g, WithParent(c.up, c.up.color, WithParent(c, c.color, t)));
    if c.OnLeft? && c.up.OnLeft? {
      RotateRightKeepsInOrder(g);
      SameInOrder(c.up.up, g, RotateRight(g));
    } else if c.OnRight? && c.up.OnRight? {
      RotateLeftKeepsInOrder(g);
      SameInOrder(c.up.up, g, RotateLeft(g));
    }
  }

  lemma Case4KeepsInOrder<N, V>(c: Context<N, V>, t: Shape<N, V>)
    requires t.Branch? && HasGrandparent(c)
    ensures InOrder(Case4(c, t)) == InOrder(Plug(c, t))
  {
    var p := WithParent(c, c.color, t);
    if c.OnRight? && c.up.OnLeft? {
      Case5KeepsInOrder(OnLeft(c.up, t.color, t.entry, t.right), Branch(c.other, c.color, c.entry, t.left));
      RotateLeftKeepsInOrder(p);
      SameInOrder(c.up, p, RotateLeft(p));
    } else if c.OnLeft? && c.up.OnRight? {
      Case5KeepsInOrder(OnRight(c.up, t.color, t.entry, t.left), Branch(t.right, c.color, c.entry, c.other));
      RotateRightKeepsInOrder(p);
      SameInOrder(c.up, p, RotateRight(p));
    } else {
      Case5KeepsInOrder(c, t);
    }
  }

  /** Repair never changes the in-order sequence, whatever the colours are. */
  lemma {:induction false} RepairKeepsInOrder<N, V>(c: Context<N, V>, t: Shape<N, V>)
    requires t.Branch? && ContextColors(c)
    ensures InOrder(Case1(c, t)) == InOrder(Plug(c, t))
    decreases Depth(c)
  {
    if c.Top? || c.color == Black {
      return;
    }
    assert Case1(c, t) == Case2(c, t) == Case3(c, t);
    if RootColor(Uncle(c)) == Red {
      assert ContextColors(c.up) && Depth(c.up) == 1 + Depth(c.up.up);
      var g := WithParent(c.up, c.up.color, WithParent(c, c.color, t));
      assert InOrder(WithParent(c, Black, t)) == InOrder(WithParent(c, c.color, t));
      assert InOrder(Recolored(c, t)) == InOrder(g);
      RepairKeepsInOrder(c.up.up, Recolored(c, t));
      SameInOrder(c.up.up, g, Recolored(c, t));
    } else {
      Case4KeepsInOrder(c, t);
    }
  }

  /** What a red parent implies about its surroundings. */
  lemma Surroundings<N, V>(c: Context<N, V>, h: int)
    requires !c.Top? && c.color == Red && ContextColors(c) && ContextBlackHeight(c, h)
    ensures HasGrandparent(c) && c.up.color == Black
    ensures NoRedRed(c.other) && RootColor(c.other) == Black && NoRedRed(Uncle(c))
    ensures BlackHeight(c.other, h) && BlackHeight(Uncle(c), h)
    ensures ContextColors(c.up.up) && ContextBlackHeight(c.up.up, h + 1)
  {
    assert ContextColors(c.up) && ContextBlackHeight(c.up, h);
  }

  lemma Case5Restores<N, V>(c: Context<N, V>, t: Shape<N, V>, h: int)
    requires OneRedPair(c, t, h) && HasGrandparent(c)
    requires c.color == Red && RootColor(Uncle(c)) == Black
    requires c.OnLeft? == c.up.OnLeft?
    ensures RedBlack(Case5(c, t))
  {
    Surroundings(c, h);
    var g := WithParent(c.up, Red, WithParent(c, Black, t));
    PlugRedBlack(c.up.up, if c.OnLeft? then RotateRight(g) else RotateLeft(g), h + 1);
  }

  lemma Case4Restores<N, V>(c: Context<N, V>, t: Shape<N, V>, h: int)
    requires OneRedPair(c, t, h) && HasGrandparent(c)
    requires c.color == Red && RootColor(Uncle(c)) == Black
    ensures RedBlack(Case4(c, t))
  {
    Surroundings(c, h);
    if c.OnRight? && c.up.OnLeft? {
      Case5Restores(OnLeft(c.up, t.color, t.entry, t.right), Branch(c.other, c.color, c.entry, t.left), h);
    } else if c.OnLeft? && c.up.OnRight? {
      Case5Restores(OnRight(c.up, t.color, t.entry, t.left), Branch(t.right, c.color, c.entry, c.other), h);
    } else {
      Case5Restores(c, t, h);
    }
  }

  /** Recolouring leaves at most one red-red pair, now two levels up. */
  lemma Case3Climbs<N, V>(c: Context<N, V>, t: Shape<N, V>, h: int)
    requires OneRedPair(c, t, h) && HasGrandparent(c)
    requires c.color == Red && RootColor(Uncle(c)) == Red
    ensures OneRedPair(c.up.up, Recolored(c, t), h + 1)
    ensures Depth(c.up.up) == Depth(c) - 2
  {
    Surroundings(c, h);
    assert Depth(c.up) == 1 + Depth(c.up.up);
    assert BlackHeight(WithParent(c, Black, t), h + 1);
    assert BlackHeight(Blacken(Uncle(c)), h + 1);
  }

  /** Repair turns a tree with at most one red-red pair into a red-black tree. */
  lemma {:induction false} RepairRestores<N, V>(c: Context<N, V>, t: Shape<N, V>, h: int)
    requires OneRedPair(c, t, h)
    ensures RedBlack(Case1(c, t))
    decreases Depth(c)
  {
    if c.Top? {
      assert BlackHeight(Blacken(t), h + 1);
    } else if c.color == Black {
      PlugRedBlack(c, t, h);
    } else {
      Surroundings(c, h);
      assert Case1(c, t) == Case2(c, t) == Case3(c, t);
      if RootColor(Uncle(c)) == Red {
        Case3Climbs(c, t, h);
        RepairRestores(c.up.up, Recolored(c, t), h + 1);
      } else {
        Case4Restores(c, t, h);
      }
    }
  }

  // ----- Insertion -----

  /** Where a key belongs: the context reached by the descent and the subtree found
      there, which is a leaf exactly when the key is absent. */
  function Locate<N, V>(c: Context<N, V>, t: Shape<N, V>, key: Key): (Context<N, V>, Shape<N, V>)
    decreases t
  {
    if t.Leaf? || Compare(key, t.entry.key) == 0 then (c, t)
    else if Compare(key, t.entry.key) < 0 then Locate(OnLeft(c, t.color, t.entry, t.right), t.left, key)
    else Locate(OnRight(c, t.color, t.entry, t.left), t.right, key)
  }

  lemma {:induction false} LocatePlugs<N, V>(c: Context<N, V>, t: Shape<N, V>, key: Key)
    ensures var (c', t') := Locate(c, t, key); Plug(c', t') == Plug(c, t)
    decreases t
  {
    if t.Leaf? || Compare(key, t.entry.key) == 0 {
    } else if Compare(key, t.entry.key) < 0 {
      LocatePlugs(OnLeft(c, t.color, t.entry, t.right), t.left, key);
    } else {
      LocatePlugs(OnRight(c, t.color, t.entry, t.left), t.right, key);
    }
  }

  /** Everything before the place found is smaller than the key, everything after it is
      larger, and an entry found there compares as equal. */
  predicate Splits<N, V>(c: Context<N, V>, key: Key) {
    && (forall i :: 0 <= i < |Before(c)| ==> Before(c)[i].key.rank < key.rank)
    && (forall i :: 0 <= i < |After(c)| ==> key.rank < After(c)[i].key.rank)
  }

  lemma {:induction false} LocateSplits<N, V>(c: Context<N, V>, t: Shape<N, V>, key: Key)
    requires Ascending(InOrder(t)) && Splits(c, key)
    ensures var (c', t') := Locate(c, t, key);
            Splits(c', key) && (t'.Branch? ==> t'.entry.key.rank == key.rank)
    decreases t
  {
    if t.Leaf? || Compare(key, t.entry.key) == 0 {
    } else {
      BranchAscending(t);
      if Compare(key, t.entry.key) < 0 {
        LocateSplits(OnLeft(c, t.color, t.entry, t.right), t.left, key);
      } else {
        LocateSplits(OnRight(c, t.color, t.entry, t.left), t.right, key);
      }
    }
  }

  lemma BranchAscending<N, V>(t: Shape<N, V>)
    requires t.Branch? && Ascending(InOrder(t))
    ensures Ascending(InOrder(t.left)) && Ascending(InOrder(t.right))
    ensures forall i :: 0 <= i < |InOrder(t.left)| ==> InOrder(t.left)[i].key.rank < t.entry.key.rank
    ensures forall i :: 0 <= i < |InOrder(t.right)| ==> t.entry.key.rank < InOrder(t.right)[i].key.rank
  {
    SplitAscending(InOrder(t), InOrder(t.left), t.entry, InOrder(t.right));
  }

  lemma LocateColors<N, V>(t: Shape<N, V>, key: Key)
    requires RedBlack(t)
    ensures ContextColors(Locate(Top, t, key).0)
  {
    LocatePlugs(Top, t, key);
    var (c, found) := Locate(Top, t, key);
    var _ := UnplugRedBlack(c, found);
  }

  /** `id` is the identity of the node made for an absent key; an entry whose key compares
      as equal keeps its node and colour and takes over the new key and value. */
  function Put<N, V>(t: Shape<N, V>, id: N, key: Key, value: V): Shape<N, V>
    requires RedBlack(t)
  {
    LocateColors(t, key);
    var (c, found) := Locate(Top, t, key);
    if found.Leaf? then Case1(c, Branch(Leaf, Red, Entry(id, key, value), Leaf))
    else Plug(c, found.(entry := found.entry.(key := key, value := value)))
  }

  /** Search trees in red-black balance, the class every operation stays in. */
  ghost predicate SearchTree<N, V>(t: Shape<N, V>) {
    RedBlack(t) && Ascending(InOrder(t))
  }

  lemma LocateAscending<N, V>(t: Shape<N, V>, key: Key)
    requires Ascending(InOrder(t))
    ensures var (c, found) := Locate(Top, t, key);
            && InOrder(t) == Before(c) + InOrder(found) + After(c)
            && Ascending(Before(c)) && Ascending(After(c)) && Splits(c, key)
            && (found.Branch? ==> found.entry.key.rank == key.rank)
  {
    LocatePlugs(Top, t, key);
    LocateSplits(Top, t, key);
    var (c, found) := Locate(Top, t, key);
    InOrderPlug(c, found);
    EndsAscending(Before(c), InOrder(found), After(c));
  }

  lemma EndsAscending<N, V>(a: seq<Entry<N, V>>, m: seq<Entry<N, V>>, z: seq<Entry<N, V>>)
    requires Ascending(a + m + z)
    ensures Ascending(a) && Ascending(z)
  {
    var s := a + m + z;
    assert forall i :: 0 <= i < |a| ==> a[i] == s[i];
    assert forall i :: 0 <= i < |z| ==> z[i] == s[|a| + |m| + i];
  }

  /** The law of `Put`: balance and search order survive, and the contents are the old
      map updated at the key. */
  lemma PutCorrect<N, V>(t: Shape<N, V>, id: N, key: Key, value: V)
    requires SearchTree(t)
    ensures SearchTree(Put(t, id, key, value))
    ensures Contents(Put(t, id, key, value)) == Contents(t)[key.rank := (key, value)]
  {
    LocateColors(t, key);
    LocatePlugs(Top, t, key);
    LocateAscending(t, key);
    var (c, found) := Locate(Top, t, key);
    var h := UnplugRedBlack(c, found);
    if found.Leaf? {
      PutAbsent(t, c, h, Entry(id, key, value));
    } else {
      PutPresent(t, c, found, h, found.entry.(key := key, value := value));
    }
  }

  lemma PutAbsent<N, V>(t: Shape<N, V>, c: Context<N, V>, h: int, e: Entry<N, V>)
    requires ContextColors(c) && ContextBlackHeight(c, h) && h == 0
    requires InOrder(t) == Before(c) + [] + After(c)
    requires Ascending(Before(c)) && Ascending(After(c)) && Splits(c, e.key)
    ensures SearchTree(Case1(c, Branch(Leaf, Red, e, Leaf)))
    ensures Contents(Case1(c, Branch(Leaf, Red, e, Leaf))) == Contents(t)[e.key.rank := (e.key, e.value)]
  {
    var n: Shape<N, V> := Branch(Leaf, Red, e, Leaf);
    RepairRestores(c, n, h);
    RepairKeepsInOrder(c, n);
    InOrderPlug(c, n);
    assert InOrder(n) == [e];
    AscendingJoin(Before(c), [e], After(c));
    MapOfInsert(Before(c), [], e, After(c));
  }

  lemma PutPresent<N, V>(t: Shape<N, V>, c: Context<N, V>, found: Shape<N, V>, h: int, e: Entry<N, V>)
    requires found.Branch? && Ascending(InOrder(t)) && InOrder(t) == Before(c) + InOrder(found) + After(c)
    requires NoRedRed(found) && BlackHeight(found, h) && ContextColors(c) && ContextBlackHeight(c, h)
    requires RootColor(found) == Red ==> !c.Top? && c.color == Black
    requires e.key.rank == found.entry.key.rank
    ensures SearchTree(Plug(c, found.(entry := e)))
    ensures Contents(Plug(c, found.(entry := e))) == Contents(t)[e.key.rank := (e.key, e.value)]
  {
    PlugRedBlack(c, found.(entry := e), h);
    var pre, post := Before(c) + InOrder(found.left), InOrder(found.right) + After(c);
    InOrderAround(c, found);
    InOrderAround(c, found.(entry := e));
    InOrderPlug(c, found);
    ReplaceMiddle(InOrder(t), pre, found.entry, e, post);
  }

  lemma ReplaceMiddle<N, V>(s: seq<Entry<N, V>>, pre: seq<Entry<N, V>>, d: Entry<N, V>, e: Entry<N, V>, post: seq<Entry<N, V>>)
    requires Ascending(s) && s == pre + [d] + post && d.key.rank == e.key.rank
    ensures Ascending(pre + [e] + post)
    ensures MapOf(pre + [e] + post) == MapOf(s)[e.key.rank := (e.key, e.value)]
  {
    SplitAscending(s, pre, d, post);
    AscendingJoin(pre, [e], post);
    MapOfInsert(pre, [d], e, post);
  }

  lemma InOrderAround<N, V>(c: Context<N, V>, t: Shape<N, V>)
    requires t.Branch?
    ensures InOrder(Plug(c, t)) == (Before(c) + InOrder(t.left)) + [t.entry] + (InOrder(t.right) + After(c))
  {
    InOrderPlug(c, t);
    Regroup(Before(c), InOrder(t.left), [t.entry], InOrder(t.right), After(c));
  }

  lemma Regroup<T>(a: seq<T>, l: seq<T>, e: seq<T>, r: seq<T>, b: seq<T>)
    ensures a + (l + e + r) + b == (a + l) + e + (r + b)
  {
  }

  lemma SplitAscending<N, V>(s: seq<Entry<N, V>>, pre: seq<Entry<N, V>>, e: Entry<N, V>, post: seq<Entry<N, V>>)
    requires Ascending(s) && s == pre + [e] + post
    ensures Ascending(pre) && Ascending(post)
    ensures forall i :: 0 <= i < |pre| ==> pre[i].key.rank < e.key.rank
    ensures forall i :: 0 <= i < |post| ==> e.key.rank < post[i].key.rank
  {
    assert s[|pre|] == e;
    assert forall i :: 0 <= i < |pre| ==> pre[i] == s[i];
    assert forall i :: 0 <= i < |post| ==> post[i] == s[|pre| + 1 + i];
  }

  // ----- Height -----

  function Height<N, V>(t: Shape<N, V>): nat {
    if t.Leaf? then 0
    else 1 + if Height(t.left) > Height(t.right) then Height(t.left) else Height(t.right)
  }

  function Pow2(n: nat): nat {
    if n == 0 then 1 else 2 * Pow2(n - 1)
  }

  lemma {:induction false} HeightOfColors<N, V>(t: Shape<N, V>, h: int)
    requires NoRedRed(t) && BlackHeight(t, h)
    ensures 0 <= h && Height(t) <= 2 * h + (if RootColor(t) == Red then 1 else 0)
    ensures Pow2(h) <= |InOrder(t)| + 1
  {
    if t.Branch? {
      var below := if t.color == Black then h - 1 else h;
      HeightOfColors(t.left, below);
      HeightOfColors(t.right, below);
    }
  }

  lemma {:induction false} Pow2Double(n: nat)
    ensures Pow2(2 * n) == Pow2(n) * Pow2(n)
  {
    if n > 0 {
      Pow2Double(n - 1);
      assert Pow2(2 * n) == 4 * Pow2(2 * (n - 1));
    }
  }

  lemma {:induction false} Pow2Monotone(m: nat, n: nat)
    requires m <= n
    ensures Pow2(m) <= Pow2(n)
    decreases n
  {
    if m < n {
      Pow2Monotone(m, n - 1);
    }
  }

  /** The height is at most `2 * log2(n + 1)`, in the form `2^height <= (n + 1)^2`. */
  lemma HeightBound<N, V>(t: Shape<N, V>)
    requires RedBlack(t)
    ensures Pow2(Height(t)) <= (|InOrder(t)| + 1) * (|InOrder(t)| + 1)
  {
    var h :| BlackHeight(t, h);
    HeightOfColors(t, h);
    Pow2Monotone(Height(t), 2 * h);
    Pow2Double(h);
    SquareMonotone(Pow2(h), |InOrder(t)| + 1);
  }

  lemma SquareMonotone(a: nat, b: nat)
    requires a <= b
    ensures a * a <= b * b
  {
    assert a * a <= a * b <= b * b;
  }
}
