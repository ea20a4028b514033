/** When a store of linked cells spells out a shape, and what pointer updates do to it.

    A store is a snapshot of the fields of a set of nodes, so everything in this module is
    about values; `RedBlackTree` takes the snapshots. */
module RedBlackStore {
  import opened RedBlackShape
  import opened RedBlackRepair

  class Node<V> {
    var key: Key
    var value: V
    var color: Color
    var left: Node?<V>
    var right: Node?<V>
    var parent: Node?<V>

    constructor (key: Key, value: V, color: Color)
      ensures this.key == key && this.value == value && this.color == color
      ensures left == null && right == null && parent == null
    {
      this.key, this.value, this.color := key, value, color;
      left, right, parent := null, null, null;
    }

    function Sibling(): Node?<V>
      reads this, parent
    {
      if parent == null then null else if this == parent.left then parent.right else parent.left
    }

    function Grandparent(): Node?<V>
      reads this, parent
    {
      if parent == null then null else parent.parent
    }

    function Uncle(): Node?<V>
      reads this, parent, Grandparent()
    {
      if parent == null || parent.parent == null then null else parent.Sibling()
    }

    ghost function Fields(): Cell<V>
      reads this
    {
      Cell(key, value, color, left, right, parent)
    }
  }

  datatype Cell<V> = Cell(key: Key, value: V, color: Color, left: Node?<V>, right: Node?<V>, parent: Node?<V>)

  type Store<V> = map<Node<V>, Cell<V>>

  // ----- The nodes of a shape -----

  ghost function Ids<V>(t: Shape<Node<V>, V>): set<Node<V>> {
    if t.Leaf? then {} else {t.entry.id} + Ids(t.left) + Ids(t.right)
  }

  ghost function ContextIds<V>(c: Context<Node<V>, V>): set<Node<V>> {
    if c.Top? then {} else {c.entry.id} + Ids(c.other) + ContextIds(c.up)
  }

  /** No node occurs twice, so the links form a tree. */
  ghost predicate Distinct<V>(t: Shape<Node<V>, V>) {
    t.Branch? ==>
      && t.entry.id !in Ids(t.left) && t.entry.id !in Ids(t.right) && Ids(t.left) !! Ids(t.right)
      && Distinct(t.left) && Distinct(t.right)
  }

  ghost predicate DistinctContext<V>(c: Context<Node<V>, V>) {
    !c.Top? ==>
      && c.entry.id !in Ids(c.other) && c.entry.id !in ContextIds(c.up) && Ids(c.other) !! ContextIds(c.up)
      && Distinct(c.other) && DistinctContext(c.up)
  }

  // ----- Stores that spell out a shape -----

  ghost predicate Holds<V>(s: Store<V>, e: Entry<Node<V>, V>, color: Color, parent: Node?<V>) {
    e.id in s && s[e.id].key == e.key && s[e.id].value == e.value && s[e.id].color == color && s[e.id].parent == parent
  }

  /** The cells reachable from `r` spell `t`, and every parent link mirrors the child link
      that leads to its node. */
  ghost predicate Rep<V>(s: Store<V>, t: Shape<Node<V>, V>, r: Node?<V>, p: Node?<V>)
    decreases t
  {
    match t
    case Leaf => r == null
    case Branch(left, color, e, right) =>
      && r == e.id && Holds(s, e, color, p)
      && Rep(s, left, s[e.id].left, e.id) && Rep(s, right, s[e.id].right, e.id)
  }

  ghost function HoleParent<V>(c: Context<Node<V>, V>): Node?<V> {
    if c.Top? then null else c.entry.id
  }

  ghost predicate RepContext<V>(s: Store<V>, c: Context<Node<V>, V>, hole: Node?<V>, root: Node?<V>)
    decreases c
  {
    match c
    case Top => root == hole
    case OnLeft(up, color, e, other) =>
      && Holds(s, e, color, HoleParent(up)) && s[e.id].left == hole
      && Rep(s, other, s[e.id].right, e.id) && RepContext(s, up, e.id, root)
    case OnRight(up, color, e, other) =>
      && Holds(s, e, color, HoleParent(up)) && s[e.id].right == hole
      && Rep(s, other, s[e.id].left, e.id) && RepContext(s, up, e.id, root)
  }

  /** The store is the tree `Plug(c, t)` with root pointer `root`, and `node` points at `t`. */
  ghost predicate At<V>(s: Store<V>, root: Node?<V>, c: Context<Node<V>, V>, t: Shape<Node<V>, V>, node: Node?<V>) {
    && Rep(s, t, node, HoleParent(c)) && RepContext(s, c, node, root)
    && Distinct(t) && DistinctContext(c) && Ids(t) !! ContextIds(c)
    && s.Keys == Ids(t) + ContextIds(c)
  }

  // ----- Frames -----

  ghost predicate Agree<V>(s: Store<V>, s': Store<V>, ids: set<Node<V>>) {
    forall n :: n in ids && n in s ==> n in s' && s'[n] == s[n]
  }

  lemma {:induction false} RepFrame<V>(s: Store<V>, s': Store<V>, t: Shape<Node<V>, V>, r: Node?<V>, p: Node?<V>)
    requires Rep(s, t, r, p) && Agree(s, s', Ids(t))
    ensures Rep(s', t, r, p)
    decreases t
  {
    if t.Branch? {
      RepFrame(s, s', t.left, s[r].left, r);
      RepFrame(s, s', t.right, s[r].right, r);
    }
  }

  lemma {:induction false} ContextFrame<V>(s: Store<V>, s': Store<V>, c: Context<Node<V>, V>, hole: Node?<V>, root: Node?<V>)
    requires RepContext(s, c, hole, root) && Agree(s, s', ContextIds(c))
    ensures RepContext(s', c, hole, root)
    decreases c
  {
    if !c.Top? {
      var n := c.entry.id;
      RepFrame(s, s', c.other, if c.OnLeft? then s[n].right else s[n].left, n);
      ContextFrame(s, s', c.up, n, root);
    }
  }

  // ----- Moving between a tree and its parts -----

  lemma {:induction false} PlugAt<V>(s: Store<V>, root: Node?<V>, c: Context<Node<V>, V>, t: Shape<Node<V>, V>, node: Node?<V>)
    requires At(s, root, c, t, node)
    ensures At(s, root, Top, Plug(c, t), root)
    decreases c
  {
    if !c.Top? {
      PlugAt(s, root, c.up, WithParent(c, c.color, t), c.entry.id);
    }
  }

  /** One step down, to the left or to the right. */
  lemma DescendAt<V>(s: Store<V>, root: Node?<V>, c: Context<Node<V>, V>, t: Shape<Node<V>, V>, node: Node?<V>)
    requires At(s, root, c, t, node) && t.Branch?
    ensures node in s
    ensures At(s, root, OnLeft(c, t.color, t.entry, t.right), t.left, s[node].left)
    ensures At(s, root, OnRight(c, t.color, t.entry, t.left), t.right, s[node].right)
  {
  }

  lemma AscendAt<V>(s: Store<V>, root: Node?<V>, c: Context<Node<V>, V>, t: Shape<Node<V>, V>, node: Node?<V>)
    requires At(s, root, c, t, node) && !c.Top?
    ensures At(s, root, c.up, WithParent(c, c.color, t), c.entry.id)
  {
  }

  /** In a represented tree a child knows its parent and the parent knows its child. */
  lemma {:induction false} LinksMirror<V>(s: Store<V>, t: Shape<Node<V>, V>, r: Node?<V>, p: Node?<V>, n: Node<V>)
    requires Rep(s, t, r, p) && n in Ids(t)
    ensures n in s
    ensures s[n].left != null ==> s[n].left in Ids(t) && s[n].left in s && s[s[n].left].parent == n
    ensures s[n].right != null ==> s[n].right in Ids(t) && s[n].right in s && s[s[n].right].parent == n
    ensures n != r ==> s[n].parent in Ids(t) && s[n].parent in s && (s[s[n].parent].left == n || s[s[n].parent].right == n)
    ensures n == r ==> s[n].parent == p
    decreases t
  {
    if n in Ids(t.left) {
      LinksMirror(s, t.left, s[r].left, r, n);
    }
    if n in Ids(t.right) {
      LinksMirror(s, t.right, s[r].right, r, n);
    }
  }

  /** How high the tree below a node is. */
  ghost function Rank<V>(t: Shape<Node<V>, V>, n: Node<V>): nat
    requires n in Ids(t)
  {
    if n == t.entry.id then Height(t) else if n in Ids(t.left) then Rank(t.left, n) else Rank(t.right, n)
  }

  /** Child links lead down, so no node is its own descendant. */
  lemma {:induction false} LinksDescend<V>(s: Store<V>, t: Shape<Node<V>, V>, r: Node?<V>, p: Node?<V>, n: Node<V>)
    requires Rep(s, t, r, p) && Distinct(t) && n in Ids(t)
    ensures n in s
    ensures s[n].left != null ==> s[n].left in Ids(t) && Rank(t, s[n].left) < Rank(t, n)
    ensures s[n].right != null ==> s[n].right in Ids(t) && Rank(t, s[n].right) < Rank(t, n)
    decreases t
  {
    if n in Ids(t.left) {
      LinksDescend(s, t.left, s[r].left, r, n);
    } else if n in Ids(t.right) {
      LinksDescend(s, t.right, s[r].right, r, n);
    }
  }

  // ----- Pointer updates -----

  /** The store after the link that leads to `c`'s hole was redirected to `new_`; the cell
      of `new_` itself may have changed as well. */
  ghost predicate Redirected<V>(s: Store<V>, s': Store<V>, c: Context<Node<V>, V>, new_: Node<V>) {
    match c
    case Top => true
    case OnLeft(_, _, e, _) => e.id in s && e.id in s' && s'[e.id] == s[e.id].(left := new_)
    case OnRight(_, _, e, _) => e.id in s && e.id in s' && s'[e.id] == s[e.id].(right := new_)
  }

  lemma RedirectContext<V>(s: Store<V>, s': Store<V>, c: Context<Node<V>, V>, old_: Node?<V>, new_: Node<V>, root: Node?<V>, root': Node?<V>)
    requires RepContext(s, c, old_, root) && DistinctContext(c)
    requires Redirected(s, s', c, new_) && root' == (if c.Top? then new_ else root)
    requires !c.Top? ==> Agree(s, s', Ids(c.other)) && Agree(s, s', ContextIds(c.up))
    ensures RepContext(s', c, new_, root')
  {
    if !c.Top? {
      var n := c.entry.id;
      RepFrame(s, s', c.other, if c.OnLeft? then s[n].right else s[n].left, n);
      ContextFrame(s, s', c.up, n, root);
    }
  }

  lemma RepMoved<V>(s: Store<V>, s': Store<V>, t: Shape<Node<V>, V>, r: Node?<V>, p: Node?<V>, p': Node?<V>)
    requires Rep(s, t, r, p) && Distinct(t)
    requires t.Branch? ==> r in s' && s'[r] == s[r].(parent := p')
    requires t.Branch? ==> Agree(s, s', Ids(t.left)) && Agree(s, s', Ids(t.right))
    ensures Rep(s', t, r, p')
  {
    if t.Branch? {
      RepFrame(s, s', t.left, s[r].left, r);
      RepFrame(s, s', t.right, s[r].right, r);
    }
  }

  ghost function HoleNode<V>(c: Context<Node<V>, V>): set<Node<V>> {
    if c.Top? then {} else {c.entry.id}
  }

  ghost predicate OthersAgree<V>(s: Store<V>, s': Store<V>, touched: set<Node<V>>) {
    s'.Keys == s.Keys && forall n :: n in s && n !in touched ==> s'[n] == s[n]
  }

  ghost function AsSet<V>(n: Node?<V>): set<Node<V>> {
    if n == null then {} else {n}
  }

  /** What the assignments of a left rotation at `node` do to the cells. */
  ghost predicate LeftRotated<V>(s: Store<V>, s': Store<V>, c: Context<Node<V>, V>, node: Node<V>, right: Node<V>, b: Node?<V>) {
    && node in s && right in s && (b != null ==> b in s)
    && s'.Keys == s.Keys
    && (forall n :: n in s && n != node && n != right && n != b && n != HoleParent(c) ==> s'[n] == s[n])
    && s'[node] == s[node].(right := b, parent := right)
    && s'[right] == s[right].(left := node, parent := s[node].parent)
    && (b != null ==> s'[b] == s[b].(parent := node))
    && Redirected(s, s', c, right)
  }

  ghost predicate RightRotated<V>(s: Store<V>, s': Store<V>, c: Context<Node<V>, V>, node: Node<V>, left: Node<V>, b: Node?<V>) {
    && node in s && left in s && (b != null ==> b in s)
    && s'.Keys == s.Keys
    && (forall n :: n in s && n != node && n != left && n != b && n != HoleParent(c) ==> s'[n] == s[n])
    && s'[node] == s[node].(left := b, parent := left)
    && s'[left] == s[left].(right := node, parent := s[node].parent)
    && (b != null ==> s'[b] == s[b].(parent := node))
    && Redirected(s, s', c, left)
  }

  lemma LeftRotatedAt<V>(s: Store<V>, s': Store<V>, root: Node?<V>, root': Node?<V>, c: Context<Node<V>, V>, t: Shape<Node<V>, V>, node: Node<V>)
    requires At(s, root, c, t, node) && t.Branch? && t.right.Branch?
    requires LeftRotated(s, s', c, node, t.right.entry.id, s[t.right.entry.id].left)
    requires root' == if c.Top? then t.right.entry.id else root
    ensures At(s', root', c, RotateLeft(t), t.right.entry.id)
  {
    RotateLeftIds(t);
    TouchedLeft(s, c, t, node);
    LeftRotatedRep(s, s', c, t, node);
    RedirectContext(s, s', c, node, t.right.entry.id, root, root');
  }

  lemma RotateLeftIds<V>(t: Shape<Node<V>, V>)
    requires t.Branch? && t.right.Branch? && Distinct(t)
    ensures Distinct(RotateLeft(t)) && Ids(RotateLeft(t)) == Ids(t)
  {
    assert Distinct(t.right);
    assert Ids(t.right) == {t.right.entry.id} + Ids(t.right.left) + Ids(t.right.right);
  }

  /** The nodes a left rotation touches lie in the rotated tree, except for the hole's parent. */
  lemma TouchedLeft<V>(s: Store<V>, c: Context<Node<V>, V>, t: Shape<Node<V>, V>, node: Node<V>)
    requires Rep(s, t, node, HoleParent(c)) && t.Branch? && t.right.Branch? && Distinct(t) && Ids(t) !! ContextIds(c)
    ensures node == t.entry.id && s[node].right == t.right.entry.id && s[node].parent == HoleParent(c)
    ensures Rep(s, t.right, t.right.entry.id, node) && t.right.entry.id in s
    ensures {node, t.right.entry.id} + AsSet(s[t.right.entry.id].left) <= Ids(t)
    ensures AsSet(s[t.right.entry.id].left) <= Ids(t.right.left)
    ensures HoleNode(c) <= ContextIds(c)
  {
    assert Rep(s, t.right, s[node].right, node);
    var n := t.right.entry.id;
    assert Rep(s, t.right.left, s[n].left, n);
  }

  lemma LeftRotatedRep<V>(s: Store<V>, s': Store<V>, c: Context<Node<V>, V>, t: Shape<Node<V>, V>, node: Node<V>)
    requires Rep(s, t, node, HoleParent(c)) && t.Branch? && t.right.Branch? && Distinct(t) && Ids(t) !! ContextIds(c)
    requires t.right.entry.id in s && LeftRotated(s, s', c, node, t.right.entry.id, s[t.right.entry.id].left)
    ensures Rep(s', RotateLeft(t), t.right.entry.id, HoleParent(c))
  {
    TouchedLeft(s, c, t, node);
    var n := t.right.entry.id;
    assert Distinct(t.right);
    assert Ids(t.left) !! Ids(t.right) && node !in Ids(t.right);
    assert Ids(t.right) == {n} + Ids(t.right.left) + Ids(t.right.right);
    RepFrame(s, s', t.left, s[node].left, node);
    RepFrame(s, s', t.right.right, s[n].right, n);
    RepMoved(s, s', t.right.left, s[n].left, n, node);
    assert Rep(s', RotateLeft(t).left, node, n);
  }

  lemma RightRotatedAt<V>(s: Store<V>, s': Store<V>, root: Node?<V>, root': Node?<V>, c: Context<Node<V>, V>, t: Shape<Node<V>, V>, node: Node<V>)
    requires At(s, root, c, t, node) && t.Branch? && t.left.Branch?
    requires RightRotated(s, s', c, node, t.left.entry.id, s[t.left.entry.id].right)
    requires root' == if c.Top? then t.left.entry.id else root
    ensures At(s', root', c, RotateRight(t), t.left.entry.id)
  {
    RotateRightIds(t);
    TouchedRight(s, c, t, node);
    RightRotatedRep(s, s', c, t, node);
    RedirectContext(s, s', c, node, t.left.entry.id, root, root');
  }

  lemma RotateRightIds<V>(t: Shape<Node<V>, V>)
    requires t.Branch? && t.left.Branch? && Distinct(t)
    ensures Distinct(RotateRight(t)) && Ids(RotateRight(t)) == Ids(t)
  {
    assert Distinct(t.left);
    assert Ids(t.left) == {t.left.entry.id} + Ids(t.left.left) + Ids(t.left.right);
  }

  /** The nodes a right rotation touches lie in the rotated tree, except for the hole's parent. */
  lemma TouchedRight<V>(s: Store<V>, c: Context<Node<V>, V>, t: Shape<Node<V>, V>, node: Node<V>)
    requires Rep(s, t, node, HoleParent(c)) && t.Branch? && t.left.Branch? && Distinct(t) && Ids(t) !! ContextIds(c)
    ensures node == t.entry.id && s[node].left == t.left.entry.id && s[node].parent == HoleParent(c)
    ensures Rep(s, t.left, t.left.entry.id, node) && t.left.entry.id in s
    ensures {node, t.left.entry.id} + AsSet(s[t.left.entry.id].right) <= Ids(t)
    ensures AsSet(s[t.left.entry.id].right) <= Ids(t.left.right)
    ensures HoleNode(c) <= ContextIds(c)
  {
    assert Rep(s, t.left, s[node].left, node);
    var n := t.left.entry.id;
    assert Rep(s, t.left.right, s[n].right, n);
  }

  lemma RightRotatedRep<V>(s: Store<V>, s': Store<V>, c: Context<Node<V>, V>, t: Shape<Node<V>, V>, node: Node<V>)
    requires Rep(s, t, node, HoleParent(c)) && t.Branch? && t.left.Branch? && Distinct(t) && Ids(t) !! ContextIds(c)
    requires t.left.entry.id in s && RightRotated(s, s', c, node, t.left.entry.id, s[t.left.entry.id].right)
    ensures Rep(s', RotateRight(t), t.left.entry.id, HoleParent(c))
  {
    TouchedRight(s, c, t, node);
    var n := t.left.entry.id;
    assert Distinct(t.left);
    assert Ids(t.right) !! Ids(t.left) && node !in Ids(t.left);
    assert Ids(t.left) == {n} + Ids(t.left.left) + Ids(t.left.right);
    RepFrame(s, s', t.right, s[node].right, node);
    RepFrame(s, s', t.left.left, s[n].left, n);
    RepMoved(s, s', t.left.right, s[n].right, n, node);
    assert Rep(s', RotateRight(t).right, node, n);
  }

  /** Colour, key or value of the current node was overwritten. */
  lemma RewrittenAt<V>(s: Store<V>, s': Store<V>, root: Node?<V>, c: Context<Node<V>, V>, t: Shape<Node<V>, V>, node: Node<V>, color: Color, key: Key, value: V)
    requires At(s, root, c, t, node) && t.Branch? && node in s
    requires OthersAgree(s, s', {node})
    requires s'[node] == s[node].(color := color, key := key, value := value)
    ensures At(s', root, c, Branch(t.left, color, t.entry.(key := key, value := value), t.right), node)
  {
    RepFrame(s, s', t.left, s[node].left, node);
    RepFrame(s, s', t.right, s[node].right, node);
    ContextFrame(s, s', c, node, root);
  }

  /** A fresh red node was hung into an empty hole. */
  lemma AttachedAt<V>(s: Store<V>, s': Store<V>, root: Node?<V>, root': Node?<V>, c: Context<Node<V>, V>, n: Node<V>, key: Key, value: V)
    requires At(s, root, c, Leaf, null) && n !in s
    requires s'.Keys == s.Keys + {n}
    requires forall m :: m in s && m !in HoleNode(c) ==> s'[m] == s[m]
    requires s'[n] == Cell(key, value, Red, null, null, HoleParent(c))
    requires Redirected(s, s', c, n) && root' == (if c.Top? then n else root)
    ensures At(s', root', c, Branch(Leaf, Red, Entry(n, key, value), Leaf), n)
  {
    RedirectContext(s, s', c, null, n, root, root');
  }

  /** The same, with the link into the hole and the new cell written one after the other. */
  lemma LinkedAt<V>(s: Store<V>, linked: Store<V>, root: Node?<V>, root': Node?<V>, c: Context<Node<V>, V>, n: Node<V>, key: Key, value: V)
    requires At(s, root, c, Leaf, null) && n !in linked
    requires Redirected(s, linked, c, n) && OthersAgree(s, linked, HoleNode(c))
    requires root' == (if c.Top? then n else root)
    ensures At(linked[n := Cell(key, value, Red, null, null, HoleParent(c))], root', c, Branch(Leaf, Red, Entry(n, key, value), Leaf), n)
  {
    hide At;
    AttachedAt(s, linked[n := Cell(key, value, Red, null, null, HoleParent(c))], root, root', c, n, key, value);
  }

  ghost function RootId<V>(t: Shape<Node<V>, V>): Node?<V> {
    if t.Leaf? then null else t.entry.id
  }

  /** What the links around the current node say about its context. */
  lemma KinAt<V>(s: Store<V>, root: Node?<V>, c: Context<Node<V>, V>, t: Shape<Node<V>, V>, node: Node<V>)
    requires At(s, root, c, t, node)
    ensures node in s && t.Branch? && node == t.entry.id && s[node].parent == HoleParent(c)
    ensures !c.Top? ==> c.entry.id in s && s[c.entry.id].color == c.color && s[c.entry.id].parent == HoleParent(c.up)
    ensures !c.Top? ==> (node == s[c.entry.id].left <==> c.OnLeft?) && (node == s[c.entry.id].right <==> c.OnRight?)
    ensures !c.Top? ==> RootId(c.other) == if c.OnLeft? then s[c.entry.id].right else s[c.entry.id].left
    ensures !c.Top? && c.other.Branch? ==> c.other.entry.id in s && s[c.other.entry.id].color == c.other.color
  {
  }
}
