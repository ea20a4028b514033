/** The linked red-black tree with parent pointers, proved to compute the insertion cases
    of `RedBlackRepair` on the shape its nodes spell out. */
module RedBlackTree {
  import opened Wrappers
  import opened RedBlackShape
  import opened RedBlackRepair
  import opened RedBlackStore
  import opened RedBlackTraversal

  function NodeColor<V>(node: Node?<V>): Color
    reads node
  {
    if node == null then Black else node.color
  }

  class Tree<V> {
    var root: Node?<V>
    ghost var shape: Shape<Node<V>, V>
    ghost var nodes: set<Node<V>>
    ghost var rotations: nat

    ghost function Snapshot(): Store<V>
      reads this`nodes, nodes
    {
      map n | n in nodes :: n.Fields()
    }

    /** The heap is the tree `Plug(c, t)`, with `node` at the root of `t`. */
    ghost predicate Focus(c: Context<Node<V>, V>, t: Shape<Node<V>, V>, node: Node?<V>)
      reads this`root, this`nodes, nodes
    {
      At(Snapshot(), root, c, t, node)
    }

    ghost predicate Valid()
      reads this, nodes
    {
      Focus(Top, shape, root) && SearchTree(shape)
    }

    constructor ()
      ensures Valid() && shape == Leaf && nodes == {} && Contents(shape) == map[]
    {
      root, shape, nodes, rotations := null, Leaf, {}, 0;
      new;
      assert BlackHeight(shape, 0);
    }

    /** The pointers of a valid tree: parent links mirror child links, the root has no parent,
        and child links lead strictly down, so there is no cycle. */
    lemma WellLinked(n: Node<V>)
      requires Valid() && n in nodes
      ensures n in Ids(shape)
      ensures n.left != null ==> n.left in nodes && n.left.parent == n && n.left in Ids(shape) && Rank(shape, n.left) < Rank(shape, n)
      ensures n.right != null ==> n.right in nodes && n.right.parent == n && n.right in Ids(shape) && Rank(shape, n.right) < Rank(shape, n)
      ensures n == root <==> n.parent == null
      ensures n.parent != null ==> n.parent in nodes && (n.parent.left == n || n.parent.right == n)
    {
      hide Rep, Distinct, SearchTree;
      var s := Snapshot();
      LinksMirror(s, shape, root, null, n);
      LinksDescend(s, shape, root, null, n);
      assert n.Fields() == s[n];
    }

    /** The one link that leads into the hole of `c` points at `node`. */
    ghost predicate LeadsTo(c: Context<Node<V>, V>, node: Node<V>)
      reads this, HoleNode(c), node
    {
      && node.parent == HoleParent(c)
      && (c.Top? ==> root == node)
      && (c.OnLeft? ==> c.entry.id.left == node)
      && (c.OnRight? ==> c.entry.id.right == node && c.entry.id.left != node)
    }

    method ReplaceNode(old_: Node<V>, new_: Node<V>, ghost c: Context<Node<V>, V>)
      requires LeadsTo(c, old_) && {old_, new_} !! HoleNode(c)
      modifies this`root, HoleNode(c)`left, HoleNode(c)`right, new_`parent
      ensures c.OnLeft? ==> c.entry.id.left == new_ && c.entry.id.right == old(c.entry.id.right)
      ensures c.OnRight? ==> c.entry.id.right == new_ && c.entry.id.left == old(c.entry.id.left)
      ensures root == (if c.Top? then new_ else old(root))
      ensures new_.parent == old(old_.parent)
    {
      if old_.parent == null {
        root := new_;
      } else if old_ == old_.parent.left {
        old_.parent.left := new_;
      } else {
        old_.parent.right := new_;
      }
      new_.parent := old_.parent;
    }

    /** The nodes that a left rotation touches are there and are four different ones. */
    ghost predicate CanTurnLeft(node: Node<V>, c: Context<Node<V>, V>)
      reads this, nodes, node, node.right, HoleNode(c)
    {
      && node in nodes && node.right != null && node.right in nodes && AsSet(node.right.left) <= nodes && HoleNode(c) <= nodes
      && node.right != node && node.right.left != node && node.right.left != node.right
      && (!c.Top? ==> c.entry.id != node && c.entry.id != node.right && c.entry.id != node.right.left)
      && LeadsTo(c, node)
    }

    lemma FocusCanTurnLeft(node: Node<V>, c: Context<Node<V>, V>, t: Shape<Node<V>, V>)
      requires Focus(c, t, node) && t.Branch? && t.right.Branch?
      ensures CanTurnLeft(node, c) && node.right == t.right.entry.id
      ensures node.right.left == Snapshot()[t.right.entry.id].left
    {
      var s := Snapshot();
      TouchedLeft(s, c, t, node);
      assert node.Fields() == s[node] && node.right.Fields() == s[node.right];
    }

    /** The assignments of the rotation. */
    method TurnLeft(node: Node<V>, ghost c: Context<Node<V>, V>)
      requires CanTurnLeft(node, c)
      modifies this`root, nodes
      ensures LeftRotated(old(Snapshot()), Snapshot(), c, node, old(node.right), old(node.right.left))
      ensures root == if c.Top? then old(node.right) else old(root)
    {
      var right := node.right;
      ReplaceNode(node, right, c);
      node.right := right.left;
      if right.left != null {
        right.left.parent := node;
      }
      right.left := node;
      node.parent := right;
      ghost var b := old(node.right.left);
      assert node.Fields() == old(node.Fields()).(right := b, parent := right);
      assert right.Fields() == old(right.Fields()).(left := node, parent := old(node.parent));
    }

    method RotateLeft(node: Node<V>, ghost c: Context<Node<V>, V>, ghost t: Shape<Node<V>, V>)
      requires Focus(c, t, node) && t.Branch? && t.right.Branch?
      modifies this`root, this`rotations, nodes
      ensures Focus(c, RedBlackRepair.RotateLeft(t), t.right.entry.id)
      ensures rotations == old(rotations) + 1
    {
      ghost var s := Snapshot();
      FocusCanTurnLeft(node, c, t);
      TurnLeft(node, c);
      rotations := rotations + 1;
      LeftRotatedAt(s, Snapshot(), old(root), root, c, t, node);
    }

    /** The nodes that a right rotation touches are there and are four different ones. */
    ghost predicate CanTurnRight(node: Node<V>, c: Context<Node<V>, V>)
      reads this, nodes, node, node.left, HoleNode(c)
    {
      && node in nodes && node.left != null && node.left in nodes && AsSet(node.left.right) <= nodes && HoleNode(c) <= nodes
      && node.left != node && node.left.right != node && node.left.right != node.left
      && (!c.Top? ==> c.entry.id != node && c.entry.id != node.left && c.entry.id != node.left.right)
      && LeadsTo(c, node)
    }

    lemma FocusCanTurnRight(node: Node<V>, c: Context<Node<V>, V>, t: Shape<Node<V>, V>)
      requires Focus(c, t, node) && t.Branch? && t.left.Branch?
      ensures CanTurnRight(node, c) && node.left == t.left.entry.id
      ensures node.left.right == Snapshot()[t.left.entry.id].right
    {
      var s := Snapshot();
      TouchedRight(s, c, t, node);
      assert node.Fields() == s[node] && node.left.Fields() == s[node.left];
    }

    /** The assignments of the rotation. */
    method TurnRight(node: Node<V>, ghost c: Context<Node<V>, V>)
      requires CanTurnRight(node, c)
      modifies this`root, nodes
      ensures RightRotated(old(Snapshot()), Snapshot(), c, node, old(node.left), old(node.left.right))
      ensures root == if c.Top? then old(node.left) else old(root)
    {
      var left := node.left;
      ReplaceNode(node, left, c);
      node.left := left.right;
      if left.right != null {
        left.right.parent := node;
      }
      left.right := node;
      node.parent := left;
      ghost var b := old(node.left.right);
      assert node.Fields() == old(node.Fields()).(left := b, parent := left);
      assert left.Fields() == old(left.Fields()).(right := node, parent := old(node.parent));
    }

    method RotateRight(node: Node<V>, ghost c: Context<Node<V>, V>, ghost t: Shape<Node<V>, V>)
      requires Focus(c, t, node) && t.Branch? && t.left.Branch?
      modifies this`root, this`rotations, nodes
      ensures Focus(c, RedBlackRepair.RotateRight(t), t.left.entry.id)
      ensures rotations == old(rotations) + 1
    {
      ghost var s := Snapshot();
      FocusCanTurnRight(node, c, t);
      TurnRight(node, c);
      rotations := rotations + 1;
      RightRotatedAt(s, Snapshot(), old(root), root, c, t, node);
    }

    // ----- Insertion -----

    lemma Kin(c: Context<Node<V>, V>, t: Shape<Node<V>, V>, node: Node<V>)
      requires Focus(c, t, node)
      ensures node in nodes && t.Branch? && node == t.entry.id && node.parent == HoleParent(c)
      ensures !c.Top? ==> node.parent in nodes && node.parent.color == c.color
      ensures !c.Top? ==> (node == node.parent.left <==> c.OnLeft?) && (node == node.parent.right <==> c.OnRight?)
      ensures HasGrandparent(c) ==> node.Grandparent() == c.up.entry.id && node.Grandparent() in nodes
      ensures HasGrandparent(c) ==> Focus(c.up, WithParent(c, c.color, t), node.parent)
      ensures HasGrandparent(c) ==> (node.parent == node.Grandparent().left <==> c.up.OnLeft?)
      ensures HasGrandparent(c) ==> (node.parent == node.Grandparent().right <==> c.up.OnRight?)
      ensures HasGrandparent(c) ==> node.Uncle() == RootId(RedBlackRepair.Uncle(c)) && AsSet(node.Uncle()) <= nodes
      ensures HasGrandparent(c) ==> NodeColor(node.Uncle()) == RootColor(RedBlackRepair.Uncle(c))
    {
      var s := Snapshot();
      KinAt(s, root, c, t, node);
      assert forall n :: n in nodes ==> n.Fields() == s[n];
      if HasGrandparent(c) {
        AscendAt(s, root, c, t, node);
        KinAt(s, root, c.up, WithParent(c, c.color, t), c.entry.id);
      }
    }

    method SetColor(node: Node<V>, color: Color, ghost c: Context<Node<V>, V>, ghost t: Shape<Node<V>, V>)
      requires Focus(c, t, node) && t.Branch?
      modifies nodes`color
      ensures Focus(c, t.(color := color), node)
      ensures NodeColor(node) == color
    {
      ghost var s := Snapshot();
      KinAt(s, root, c, t, node);
      node.color := color;
      assert Snapshot()[node] == s[node].(color := color);
      RewrittenAt(s, Snapshot(), root, c, t, node, color, t.entry.key, t.entry.value);
    }

    method InsertCase1(node: Node<V>, ghost c: Context<Node<V>, V>, ghost t: Shape<Node<V>, V>)
      requires Focus(c, t, node) && t.Branch? && ContextColors(c)
      modifies this`root, this`rotations, nodes
      ensures Focus(Top, Case1(c, t), root)
      ensures rotations <= old(rotations) + 2
      decreases Depth(c), 2
    {
      Kin(c, t, node);
      if node.parent == null {
        SetColor(node, Black, c, t);
      } else {
        InsertCase2(node, c, t);
      }
    }

    method InsertCase2(node: Node<V>, ghost c: Context<Node<V>, V>, ghost t: Shape<Node<V>, V>)
      requires Focus(c, t, node) && t.Branch? && ContextColors(c) && !c.Top?
      modifies this`root, this`rotations, nodes
      ensures Focus(Top, Case2(c, t), root)
      ensures rotations <= old(rotations) + 2
      decreases Depth(c), 1
    {
      Kin(c, t, node);
      if NodeColor(node.parent) == Black {
        PlugAt(Snapshot(), root, c, t, node);
      } else {
        InsertCase3(node, c, t);
      }
    }

    method InsertCase3(node: Node<V>, ghost c: Context<Node<V>, V>, ghost t: Shape<Node<V>, V>)
      requires Focus(c, t, node) && t.Branch? && ContextColors(c) && HasGrandparent(c)
      modifies this`root, this`rotations, nodes
      ensures Focus(Top, Case3(c, t), root)
      ensures rotations <= old(rotations) + 2
      decreases Depth(c), 0
    {
      Kin(c, t, node);
      var uncle := node.Uncle();
      if NodeColor(uncle) == Red {
        var grandparent := Recolor(node, uncle, c, t);
        assert ContextColors(c.up) && Depth(c.up) == 1 + Depth(c.up.up);
        InsertCase1(grandparent, c.up.up, Recolored(c, t));
      } else {
        InsertCase4(node, c, t);
      }
    }

    /** Parent and uncle turn black, the grandparent red. */
    method Recolor(node: Node<V>, uncle: Node<V>, ghost c: Context<Node<V>, V>, ghost t: Shape<Node<V>, V>) returns (grandparent: Node<V>)
      requires Focus(c, t, node) && HasGrandparent(c) && uncle == RootId(RedBlackRepair.Uncle(c))
      modifies nodes`color
      ensures grandparent == c.up.entry.id
      ensures Focus(c.up.up, Recolored(c, t), grandparent)
    {
      Kin(c, t, node);
      grandparent := node.Grandparent();
      ghost var p := WithParent(c, c.color, t);
      SetColor(node.parent, Black, c.up, p);
      ghost var p' := WithParent(c, Black, t);
      AscendAt(Snapshot(), root, c.up, p', node.parent);
      ghost var g := WithParent(c.up, c.up.color, p');
      DescendAt(Snapshot(), root, c.up.up, g, grandparent);
      ghost var uc := if c.up.OnLeft? then OnRight(c.up.up, c.up.color, c.up.entry, p') else OnLeft(c.up.up, c.up.color, c.up.entry, p');
      assert Focus(uc, RedBlackRepair.Uncle(c), uncle);
      SetColor(uncle, Black, uc, RedBlackRepair.Uncle(c));
      AscendAt(Snapshot(), root, uc, Blacken(RedBlackRepair.Uncle(c)), uncle);
      SetColor(grandparent, Red, c.up.up, WithParent(uc, c.up.color, Blacken(RedBlackRepair.Uncle(c))));
    }

    method InsertCase4(node: Node<V>, ghost c: Context<Node<V>, V>, ghost t: Shape<Node<V>, V>)
      requires Focus(c, t, node) && t.Branch? && HasGrandparent(c)
      modifies this`root, this`rotations, nodes
      ensures Focus(Top, Case4(c, t), root)
      ensures rotations <= old(rotations) + 2
    {
      Kin(c, t, node);
      ghost var p := WithParent(c, c.color, t);
      var grandparent := node.Grandparent();
      if node == node.parent.right && node.parent == grandparent.left {
        RotateLeft(node.parent, c.up, p);
        DescendAt(Snapshot(), root, c.up, RedBlackRepair.RotateLeft(p), node);
        InsertCase5(node.left, OnLeft(c.up, t.color, t.entry, t.right), Branch(c.other, c.color, c.entry, t.left));
      } else if node == node.parent.left && node.parent == grandparent.right {
        RotateRight(node.parent, c.up, p);
        DescendAt(Snapshot(), root, c.up, RedBlackRepair.RotateRight(p), node);
        InsertCase5(node.right, OnRight(c.up, t.color, t.entry, t.left), Branch(t.right, c.color, c.entry, c.other));
      } else {
        InsertCase5(node, c, t);
      }
    }

    method InsertCase5(node: Node<V>, ghost c: Context<Node<V>, V>, ghost t: Shape<Node<V>, V>)
      requires Focus(c, t, node) && t.Branch? && HasGrandparent(c)
      modifies this`root, this`rotations, nodes
      ensures Focus(Top, Case5(c, t), root)
      ensures rotations <= old(rotations) + 1
    {
      Kin(c, t, node);
      SetColor(node.parent, Black, c.up, WithParent(c, c.color, t));
      ghost var p := WithParent(c, Black, t);
      AscendAt(Snapshot(), root, c.up, p, node.parent);
      var grandparent := node.Grandparent();
      SetColor(grandparent, Red, c.up.up, WithParent(c.up, c.up.color, p));
      ghost var g := WithParent(c.up, Red, p);
      if node == node.parent.left && node.parent == grandparent.left {
        RotateRight(grandparent, c.up.up, g);
        PlugAt(Snapshot(), root, c.up.up, RedBlackRepair.RotateRight(g), p.entry.id);
      } else if node == node.parent.right && node.parent == grandparent.right {
        RotateLeft(grandparent, c.up.up, g);
        PlugAt(Snapshot(), root, c.up.up, RedBlackRepair.RotateLeft(g), p.entry.id);
      } else {
        PlugAt(Snapshot(), root, c.up.up, g, grandparent);
      }
    }

    /** From any valid tree: the result is a valid tree whose contents are the old contents
        updated at the key, reached with at most two rotations. */
    method Put(key: Key, value: V)
      requires Valid()
      modifies this, nodes
      ensures Valid() && fresh(nodes - old(nodes))
      ensures Contents(shape) == old(Contents(shape))[key.rank := (key, value)]
      ensures rotations <= old(rotations) + 2
    {
      var insertedNode := new Node(key, value, Red);
      if root == null {
        PutFirst(insertedNode, key, value);
      } else {
        PutBelow(insertedNode, key, value);
      }
      PutCorrect(old(shape), insertedNode, key, value);
    }

    method PutFirst(insertedNode: Node<V>, key: Key, value: V)
      requires Valid() && root == null && insertedNode !in nodes
      requires insertedNode.Fields() == Cell(key, value, Red, null, null, null)
      modifies this, nodes, insertedNode
      ensures nodes == old(nodes) + {insertedNode} && Focus(Top, shape, root)
      ensures shape == RedBlackRepair.Put(old(shape), insertedNode, key, value)
      ensures rotations <= old(rotations) + 2
    {
      ghost var s := Snapshot();
      root := insertedNode;
      Insert(insertedNode, key, value, null, s, Top);
    }

    method PutBelow(insertedNode: Node<V>, key: Key, value: V)
      requires Valid() && root != null && insertedNode !in nodes
      requires insertedNode.Fields() == Cell(key, value, Red, null, null, null)
      modifies this, nodes, insertedNode
      ensures nodes <= old(nodes) + {insertedNode} && Focus(Top, shape, root)
      ensures shape == RedBlackRepair.Put(old(shape), insertedNode, key, value)
      ensures rotations <= old(rotations) + 2
    {
      LocateColors(shape, key);
      ghost var s := Snapshot();
      var node, found, c, t := Descend(key, insertedNode);
      if found {
        Overwrite(node, key, value, c, t);
      } else {
        insertedNode.parent := node;
        Insert(insertedNode, key, value, root, s, c);
      }
    }

    /** The search loop of `Put`.  It stops at a node whose key compares as equal, or links
        the new node below the node where the search ends. */
    method Descend(key: Key, insertedNode: Node<V>) returns (node: Node<V>, found: bool, ghost c: Context<Node<V>, V>, ghost t: Shape<Node<V>, V>)
      requires Focus(Top, shape, root) && root != null && insertedNode !in nodes
      modifies nodes`left, nodes`right
      ensures Locate(Top, shape, key) == (c, t) && found == t.Branch?
      ensures found ==> Focus(c, t, node)
      ensures !found ==> node == HoleParent(c) && At(old(Snapshot()), root, c, t, null)
      ensures !found ==> Linked(old(Snapshot()), c, insertedNode)
    {
      node, c, t := root, Top, shape;
      ghost var s := Snapshot();
      var loop := true;
      found := false;
      while loop
        invariant node in nodes && !found
        invariant Locate(Top, shape, key) == Locate(c, t, key)
        invariant loop ==> Snapshot() == s && Focus(c, t, node)
        invariant !loop ==> t == Leaf && At(s, root, c, Leaf, null) && node == HoleParent(c)
        invariant !loop ==> Linked(s, c, insertedNode)
        decreases loop, t
      {
        Kin(c, t, node);
        DescendAt(s, root, c, t, node);
        assert node.Fields() == s[node];
        var compare := Compare(key, node.key);
        if compare == 0 {
          found := true;
          return;
        } else if compare < 0 {
          c, t := OnLeft(c, t.color, t.entry, t.right), t.left;
          if node.left == null {
            node.left := insertedNode;
            loop := false;
          } else {
            node := node.left;
          }
        } else {
          c, t := OnRight(c, t.color, t.entry, t.left), t.right;
          if node.right == null {
            node.right := insertedNode;
            loop := false;
          } else {
            node := node.right;
          }
        }
      }
    }

    /** All cells are as in `s` but for the link that leads into the hole of `c`. */
    ghost predicate Linked(s: Store<V>, c: Context<Node<V>, V>, n: Node<V>)
      reads this`nodes, nodes
    {
      && Redirected(s, Snapshot(), c, n)
      && OthersAgree(s, Snapshot(), HoleNode(c))
    }

    /** An equal key: the node keeps its place and takes over key and value. */
    method Overwrite(node: Node<V>, key: Key, value: V, ghost c: Context<Node<V>, V>, ghost t: Shape<Node<V>, V>)
      requires Focus(c, t, node) && t.Branch?
      modifies this`shape, nodes`key, nodes`value
      ensures shape == Plug(c, t.(entry := t.entry.(key := key, value := value)))
      ensures Focus(Top, shape, root)
    {
      ghost var s := Snapshot();
      KinAt(s, root, c, t, node);
      node.key := key;
      node.value := value;
      assert Snapshot()[node] == s[node].(key := key, value := value);
      RewrittenAt(s, Snapshot(), root, c, t, node, t.color, key, value);
      shape := Plug(c, t.(entry := t.entry.(key := key, value := value)));
      PlugAt(Snapshot(), root, c, t.(entry := t.entry.(key := key, value := value)), node);
    }

    /** Repair, once the new node is linked at the place where the search ended. */
    method Insert(n: Node<V>, key: Key, value: V, ghost root0: Node?<V>, ghost s: Store<V>, ghost c: Context<Node<V>, V>)
      requires n !in nodes && n.Fields() == Cell(key, value, Red, null, null, HoleParent(c))
      requires At(s, root0, c, Leaf, null) && Linked(s, c, n) && root == (if c.Top? then n else root0)
      requires ContextColors(c)
      modifies this, nodes, n
      ensures nodes == old(nodes) + {n}
      ensures shape == Case1(c, Branch(Leaf, Red, Entry(n, key, value), Leaf))
      ensures Focus(Top, shape, root)
      ensures rotations <= old(rotations) + 2
    {
      hide At, Case1, Redirected, OthersAgree;
      ghost var t: Shape<Node<V>, V> := Branch(Leaf, Red, Entry(n, key, value), Leaf);
      shape := Case1(c, t);
      ghost var linked := Snapshot();
      nodes := nodes + {n};
      LinkedAt(s, linked, root0, root, c, n, key, value);
      assert Snapshot() == linked[n := n.Fields()];
      InsertCase1(n, c, t);
    }

    // ----- Queries -----

    /** What the fields of a node say about the shape below it. */
    lemma Below(c: Context<Node<V>, V>, t: Shape<Node<V>, V>, node: Node<V>)
      requires Focus(c, t, node)
      ensures t.Branch? && node in nodes && node == t.entry.id && node.key == t.entry.key && node.value == t.entry.value
      ensures Focus(OnLeft(c, t.color, t.entry, t.right), t.left, node.left)
      ensures Focus(OnRight(c, t.color, t.entry, t.left), t.right, node.right)
    {
      KinAt(Snapshot(), root, c, t, node);
      DescendAt(Snapshot(), root, c, t, node);
      assert node.Fields() == Snapshot()[node];
    }

    /** `compares` counts the calls of `Compare`. */
    method Search(key: Key) returns (node: Node?<V>, found: bool, compares: nat)
      requires Focus(Top, shape, root)
      ensures var t := Locate(Top, shape, key).1;
              && (found <==> t.Branch?) && (found <==> node != null) && compares <= Height(shape)
              && (found ==> node == t.entry.id && node.key == t.entry.key && node.value == t.entry.value)
    {
      node, compares := root, 0;
      ghost var c: Context<Node<V>, V>, t := Top, shape;
      while node != null
        invariant Focus(c, t, node) && Locate(Top, shape, key) == Locate(c, t, key)
        invariant compares + Height(t) <= Height(shape)
        decreases t
      {
        Below(c, t, node);
        var compare := Compare(key, node.key);
        compares := compares + 1;
        if compare == 0 {
          found := true;
          return;
        } else if compare < 0 {
          node, c, t := node.left, OnLeft(c, t.color, t.entry, t.right), t.left;
        } else {
          node, c, t := node.right, OnRight(c, t.color, t.entry, t.left), t.right;
        }
      }
      found := false;
    }

    /** A search takes at most `2 * log2(n + 1)` comparisons in a tree of `n` keys. */
    method Lookup(key: Key) returns (node: Node?<V>, found: bool, compares: nat)
      requires Valid()
      ensures found <==> key.rank in Contents(shape)
      ensures found <==> node != null
      ensures found ==> (node.key, node.value) == Contents(shape)[key.rank]
      ensures Pow2(compares) <= (|Contents(shape)| + 1) * (|Contents(shape)| + 1)
    {
      node, found, compares := Search(key);
      LocateContents(shape, key);
      CompareBound(shape);
      Pow2Monotone(compares, Height(shape));
    }

    method Get(key: Key) returns (value: Option<V>, found: bool)
      requires Valid()
      ensures found <==> key.rank in Contents(shape)
      ensures value == if found then Some(Contents(shape)[key.rank].1) else None
    {
      var node, f, _ := Lookup(key);
      found := f;
      value := if node != null then Some(node.value) else None;
    }

    ghost predicate IsNode(node: Node?<V>, es: seq<Entry<Node<V>, V>>)
      reads this, nodes
    {
      && |es| <= 1 && (node == null <==> es == [])
      && (node != null ==> node in nodes && node == es[0].id && node.key == es[0].key && node.value == es[0].value)
    }

    /** The node with the least key. */
    method Left() returns (parent: Node?<V>)
      requires Valid()
      ensures parent == null <==> Contents(shape) == map[]
      ensures parent != null ==> parent.key.rank in Contents(shape) && (parent.key, parent.value) == Contents(shape)[parent.key.rank]
      ensures parent != null ==> forall k :: k in Contents(shape) ==> parent.key.rank <= k
    {
      parent := null;
      var current := root;
      ghost var c: Context<Node<V>, V>, t, last := Top, shape, [];
      while current != null
        invariant Focus(c, t, current) && Leftmost(t, last) == Leftmost(shape, [])
        invariant IsNode(parent, last)
        decreases t
      {
        Below(c, t, current);
        parent, last := current, [t.entry];
        current, c, t := current.left, OnLeft(c, t.color, t.entry, t.right), t.left;
      }
      LeftmostIsFirst(shape, []);
      ExtremeKeys(shape);
    }

    /** The node with the greatest key. */
    method Right() returns (parent: Node?<V>)
      requires Valid()
      ensures parent == null <==> Contents(shape) == map[]
      ensures parent != null ==> parent.key.rank in Contents(shape) && (parent.key, parent.value) == Contents(shape)[parent.key.rank]
      ensures parent != null ==> forall k :: k in Contents(shape) ==> k <= parent.key.rank
    {
      parent := null;
      var current := root;
      ghost var c: Context<Node<V>, V>, t, last := Top, shape, [];
      while current != null
        invariant Focus(c, t, current) && Rightmost(t, last) == Rightmost(shape, [])
        invariant IsNode(parent, last)
        decreases t
      {
        Below(c, t, current);
        parent, last := current, [t.entry];
        current, c, t := current.right, OnRight(c, t.color, t.entry, t.left), t.right;
      }
      RightmostIsLast(shape, []);
      ExtremeKeys(shape);
    }

    method InOrderTraverse<S>(node: Node<V>, cb: (S, V) -> (S, bool), s: S, ghost c: Context<Node<V>, V>, ghost t: Shape<Node<V>, V>) returns (s': S)
      requires Focus(c, t, node)
      ensures s' == Traverse(t, cb, s).0
      decreases t
    {
      Below(c, t, node);
      s' := s;
      if node.left != null {
        s' := InOrderTraverse(node.left, cb, s', OnLeft(c, t.color, t.entry, t.right), t.left);
      }
      var (state, more) := cb(s', node.value);
      s' := state;
      if !more {
        return;
      }
      if node.right != null {
        s' := InOrderTraverse(node.right, cb, s', OnRight(c, t.color, t.entry, t.left), t.right);
      }
    }

    /** `None` is the nil dereference of a traversal that starts from an empty tree. */
    method ForEach<S>(cb: (S, V) -> (S, bool), s: S) returns (r: Option<S>)
      requires Valid()
      ensures r == if Contents(shape) == map[] then None else Some(Traverse(shape, cb, s).0)
    {
      EmptyContents(shape);
      if root == null {
        r := None;
      } else {
        var s' := InOrderTraverse(root, cb, s, Top, shape);
        r := Some(s');
      }
    }
  }
}
