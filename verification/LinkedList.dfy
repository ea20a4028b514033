/** The doubly linked list. */
module LinkedList {
  import opened Wrappers

  class ListNode<V> {
    var prev: ListNode?<V>
    var next: ListNode?<V>
    var val: V

    constructor (prev: ListNode?<V>, next: ListNode?<V>, val: V)
      ensures this.prev == prev && this.next == next && this.val == val
    {
      this.prev, this.next, this.val := prev, next, val;
    }
  }

  /** Node `k` of the chain points back to its predecessor and on to its successor. */
  ghost predicate LinkedAt<V>(nodes: seq<ListNode<V>>, k: int)
    requires 0 <= k < |nodes|
    reads nodes[k]
  {
    && nodes[k].prev == (if k == 0 then null else nodes[k - 1])
    && nodes[k].next == (if k == |nodes| - 1 then null else nodes[k + 1])
  }

  ghost predicate Distinct<V>(nodes: seq<ListNode<V>>) {
    forall i, j :: 0 <= i < j < |nodes| ==> nodes[i] != nodes[j]
  }

  /** Forward and backward links spell the same nodes. */
  ghost predicate Chain<V>(nodes: seq<ListNode<V>>)
    reads nodes
  {
    Distinct(nodes) && forall k :: 0 <= k < |nodes| ==> LinkedAt(nodes, k)
  }

  ghost function Values<V>(nodes: seq<ListNode<V>>): seq<V>
    reads nodes
  {
    seq(|nodes|, k requires 0 <= k < |nodes| reads nodes => nodes[k].val)
  }

  class LinkedList<V> {
    var head: ListNode?<V>
    var tail: ListNode?<V>
    var size: int
    ghost var nodes: seq<ListNode<V>>

    ghost predicate Valid()
      reads this, nodes
    {
      && Chain(nodes)
      && size == |nodes|
      && head == (if nodes == [] then null else nodes[0])
      && tail == (if nodes == [] then null else nodes[|nodes| - 1])
    }

    constructor ()
      ensures Valid() && nodes == []
    {
      head, tail, size := null, null, 0;
      nodes := [];
    }

    method InitFirstNode(value: V)
      requires Valid() && nodes == []
      modifies this
      ensures Valid() && |nodes| == 1 && fresh(nodes[0]) && Values(nodes) == [value]
    {
      head := new ListNode(null, null, value);
      tail := head;
      size := size + 1;
      nodes := [head];
    }

    /** Links a new node in behind node `k`; head and tail are left to the caller. */
    method InsertAfterNode(node: ListNode<V>, value: V, ghost k: nat) returns (newNode: ListNode<V>)
      requires Chain(nodes) && k < |nodes| && node == nodes[k]
      modifies this`size, this`nodes, nodes
      ensures fresh(newNode) && nodes == Inserted(old(nodes), k + 1, newNode)
      ensures Chain(nodes) && Values(nodes) == Inserted(old(Values(nodes)), k + 1, value) && size == old(size) + 1
    {
      hide Values;
      ghost var was, vals := nodes, Values(nodes);
      ValuesAre(was);
      assert LinkedAt(was, k);
      assert k + 1 < |was| ==> LinkedAt(was, k + 1);
      newNode := new ListNode(node, node.next, value);
      if node.next != null {
        node.next.prev := newNode;
      }
      node.next := newNode;
      size := size + 1;
      nodes := Inserted(was, k + 1, newNode);
      InsertedValues(was, k + 1, newNode, vals);
      forall j | 0 <= j < |nodes|
        ensures LinkedAt(nodes, j)
      {
        if j <= k {
          assert old(LinkedAt(was, j)) && nodes[j] == was[j];
        } else if j > k + 1 {
          assert old(LinkedAt(was, j - 1)) && nodes[j] == was[j - 1];
        }
      }
    }

    /** Links a new node in before node `k`; head and tail are left to the caller. */
    method InsertBeforeNode(node: ListNode<V>, value: V, ghost k: nat) returns (newNode: ListNode<V>)
      requires Chain(nodes) && k < |nodes| && node == nodes[k]
      modifies this`size, this`nodes, nodes
      ensures fresh(newNode) && nodes == Inserted(old(nodes), k, newNode)
      ensures Chain(nodes) && Values(nodes) == Inserted(old(Values(nodes)), k, value) && size == old(size) + 1
    {
      hide Values;
      ghost var was, vals := nodes, Values(nodes);
      ValuesAre(was);
      assert LinkedAt(was, k);
      assert k > 0 ==> LinkedAt(was, k - 1);
      newNode := new ListNode(node.prev, node, value);
      if node.prev != null {
        node.prev.next := newNode;
      }
      node.prev := newNode;
      size := size + 1;
      nodes := Inserted(was, k, newNode);
      InsertedValues(was, k, newNode, vals);
      forall j | 0 <= j < |nodes|
        ensures LinkedAt(nodes, j)
      {
        if j < k {
          assert old(LinkedAt(was, j));
        } else if j > k {
          assert old(LinkedAt(was, j - 1));
        }
      }
    }

    /** Unlinks node `k`; head and tail are left to the caller. */
    method RemoveOnNode(node: ListNode<V>, ghost k: nat)
      requires Chain(nodes) && k < |nodes| && node == nodes[k]
      modifies this`size, this`nodes, nodes
      ensures nodes == Removed(old(nodes), k) && node.prev == old(node.prev) && node.next == old(node.next) && node.val == old(node.val)
      ensures Chain(nodes) && Values(nodes) == Removed(old(Values(nodes)), k) && size == old(size) - 1
    {
      hide Values;
      ghost var was, vals := nodes, Values(nodes);
      ValuesAre(was);
      assert LinkedAt(was, k);
      assert k > 0 ==> LinkedAt(was, k - 1);
      assert k + 1 < |was| ==> LinkedAt(was, k + 1);
      if node.prev != null {
        node.prev.next := node.next;
      }
      if node.next != null {
        node.next.prev := node.prev;
      }
      size := size - 1;
      nodes := Removed(was, k);
      RemovedValues(was, k, vals);
      forall j | 0 <= j < |nodes|
        ensures LinkedAt(nodes, j)
      {
        if j < k {
          assert old(LinkedAt(was, j)) && nodes[j] == was[j];
        } else {
          assert old(LinkedAt(was, j + 1)) && nodes[j] == was[j + 1];
        }
      }
    }

    method Append(value: V)
      requires Valid()
      modifies this, nodes
      ensures Valid() && Values(nodes) == old(Values(nodes)) + [value]
      ensures forall n :: n in nodes ==> n in old(nodes) || fresh(n)
    {
      if tail == null {
        InitFirstNode(value);
      } else if size == 1 {
        assert LinkedAt(nodes, 0);
        tail := new ListNode(head, null, value);
        head.next := tail;
        size := size + 1;
        nodes := nodes + [tail];
      } else {
        var newTail := InsertAfterNode(tail, value, |nodes| - 1);
        tail := newTail;
      }
    }

    method Prepend(value: V)
      requires Valid()
      modifies this, nodes
      ensures Valid() && Values(nodes) == [value] + old(Values(nodes))
      ensures forall n :: n in nodes ==> n in old(nodes) || fresh(n)
    {
      if head == null {
        InitFirstNode(value);
      } else if size == 1 {
        assert LinkedAt(nodes, 0);
        head := new ListNode(null, tail, value);
        tail.prev := head;
        size := size + 1;
        nodes := [head] + nodes;
      } else {
        var newHead := InsertBeforeNode(head, value, 0);
        head := newHead;
      }
    }

    /** Takes the first element off.  The list is as it should be afterwards if and only if it
        did not hold exactly one element: then the tail still names the node that was taken. */
    method Poll() returns (r: Option<V>)
      requires Valid()
      modifies this, nodes
      ensures r == if old(nodes) == [] then None else Some(old(nodes[0].val))
      ensures Valid() <==> old(|nodes|) != 1
      ensures Values(nodes) == if old(nodes) == [] then [] else old(Values(nodes))[1..]
      ensures size == |nodes| && nodes == (if old(nodes) == [] then [] else old(nodes)[1..])
      ensures old(|nodes|) == 1 ==> head == null && tail == old(tail)
    {
      if head == null {
        return None;
      }
      var node := head;
      assert LinkedAt(nodes, 0);
      RemoveOnNode(node, 0);
      head := node.next;
      return Some(node.val);
    }

    /** Takes the last element off; here it is the head that still names the only node. */
    method Pop() returns (r: Option<V>)
      requires Valid()
      modifies this, nodes
      ensures r == if old(nodes) == [] then None else Some(old(nodes[|nodes| - 1].val))
      ensures Valid() <==> old(|nodes|) != 1
      ensures Values(nodes) == if old(nodes) == [] then [] else old(Values(nodes))[..old(|nodes|) - 1]
      ensures size == |nodes| && nodes == (if old(nodes) == [] then [] else old(nodes)[..old(|nodes|) - 1])
      ensures old(|nodes|) == 1 ==> tail == null && head == old(head)
    {
      if tail == null {
        return None;
      }
      var node := tail;
      assert LinkedAt(nodes, |nodes| - 1);
      RemoveOnNode(node, |nodes| - 1);
      tail := node.prev;
      return Some(node.val);
    }

    predicate IsValidIndex(index: int, forInsert: bool)
      reads this
    {
      size != 0 && 0 <= index < (if forInsert then size + 1 else size)
    }

    /** The node at `index` if and only if the index lies in the first half or is the last one;
        in between, the walk from the tail goes two nodes too far. */
    method GetNode(index: int) returns (r: ListNode?<V>)
      requires Valid()
      ensures r == if 0 <= index < |nodes| then nodes[Where(|nodes|, index)] else null
      ensures 0 <= index < |nodes| ==> (r == nodes[index] <==> index <= |nodes| / 2 || index == |nodes| - 1)
    {
      if !IsValidIndex(index, false) {
        return null;
      }
      if index == 0 {
        return head;
      }
      if index == size - 1 {
        return tail;
      }
      var fromHead := index <= size / 2;
      var offset := if fromHead then index else size - index + 1;
      var curr := if fromHead then head else tail;
      ghost var at := if fromHead then 0 else size - 1;
      while offset > 0
        invariant 0 <= offset && 0 <= at < size && curr == nodes[at]
        invariant at == if fromHead then index - offset else index - 2 + offset
      {
        assert LinkedAt(nodes, at);
        curr := if fromHead then curr.next else curr.prev;
        at := if fromHead then at + 1 else at - 1;
        offset := offset - 1;
      }
      return curr;
    }

    method Get(index: int) returns (r: Option<V>)
      requires Valid()
      ensures r == if 0 <= index < |nodes| then Some(Values(nodes)[Where(|nodes|, index)]) else None
    {
      var node := GetNode(index);
      return if node == null then None else Some(node.val);
    }

    /** The calls that the callback receives. */
    method ForEach() returns (calls: seq<(V, int)>)
      requires Valid()
      ensures |calls| == |nodes|
      ensures forall k :: 0 <= k < |calls| ==> calls[k] == (Values(nodes)[k], k)
    {
      calls := [];
      var counter := 0;
      var curr := head;
      while curr != null
        invariant 0 <= counter <= |nodes| && |calls| == counter
        invariant curr == if counter < |nodes| then nodes[counter] else null
        invariant forall k :: 0 <= k < counter ==> calls[k] == (nodes[k].val, k)
        decreases |nodes| - counter
      {
        assert LinkedAt(nodes, counter);
        calls := calls + [(curr.val, counter)];
        curr := curr.next;
        counter := counter + 1;
      }
    }

    method ToSlice(blank: V) returns (slice: array<V>)
      requires Valid()
      ensures fresh(slice) && slice[..] == Values(nodes)
    {
      var calls := ForEach();
      slice := new V[size](_ => blank);
      var n := 0;
      while n < |calls|
        invariant 0 <= n <= |calls|
        invariant forall k :: 0 <= k < n ==> slice[k] == Values(nodes)[k]
      {
        slice[calls[n].1] := calls[n].0;
        n := n + 1;
      }
    }

    /** Inserts before the node found for the index, which is the one asked for only under the
        condition of `GetNode`; the list is as it should be afterwards unless a first node was
        there and the new one went before it. */
    method Insert(index: int, value: V) returns (ok: bool)
      requires Valid()
      modifies this, nodes
      ensures ok <==> 0 <= index <= old(|nodes|)
      ensures Values(nodes) ==
                if !ok then old(Values(nodes))
                else if index == old(|nodes|) then old(Values(nodes)) + [value]
                else Inserted(old(Values(nodes)), Where(old(|nodes|), index), value)
      ensures Valid() <==> !(index == 0 && old(nodes) != [])
    {
      hide Chain, Values, Inserted, Where;
      ValuesAre(nodes);
      if size == 0 && index == 0 {
        InitFirstNode(value);
        return true;
      }
      if !IsValidIndex(index, true) {
        return false;
      }
      if index < size {
        var node := GetNode(index);
        var newNode := InsertBeforeNode(node, value, Where(size, index));
        InsertedEnds(old(nodes), Where(old(|nodes|), index), newNode);
      } else {
        Append(value);
      }
      return true;
    }

    /** Removes the node found for the index; the list is as it should be afterwards if and only
        if that was neither the first nor the last one. */
    method Remove(index: int) returns (r: Option<V>)
      requires Valid()
      modifies this, nodes
      ensures r == if 0 <= index < old(|nodes|) then Some(old(Values(nodes))[Where(old(|nodes|), index)]) else None
      ensures Values(nodes) == if r.None? then old(Values(nodes)) else Removed(old(Values(nodes)), Where(old(|nodes|), index))
      ensures Valid() <==> !(index == 0 < old(|nodes|)) && !(0 <= index == old(|nodes|) - 1)
    {
      var node := GetNode(index);
      if node == null {
        return None;
      }
      RemoveOnNode(node, Where(size, index));
      return Some(node.val);
    }
  }

  lemma ValuesAre<V>(nodes: seq<ListNode<V>>)
    ensures |Values(nodes)| == |nodes|
    ensures forall i :: 0 <= i < |nodes| ==> nodes[i].val == Values(nodes)[i]
  {
  }

  lemma InsertedValues<V>(nodes: seq<ListNode<V>>, k: nat, n: ListNode<V>, vals: seq<V>)
    requires k <= |nodes| == |vals| && forall i :: 0 <= i < |nodes| ==> nodes[i].val == vals[i]
    ensures Values(Inserted(nodes, k, n)) == Inserted(vals, k, n.val)
  {
  }

  lemma RemovedValues<V>(nodes: seq<ListNode<V>>, k: nat, vals: seq<V>)
    requires k < |nodes| == |vals| && forall i :: 0 <= i < |nodes| ==> nodes[i].val == vals[i]
    ensures Values(Removed(nodes, k)) == Removed(vals, k)
  {
  }

  /** The place of the node that an index of a list of `size` leads to. */
  function Where(size: nat, index: nat): (r: nat)
    requires index < size
    ensures r < size && (r == 0 <==> index == 0) && (r == size - 1 <==> index == size - 1)
  {
    if index <= size / 2 || index == size - 1 then index else index - 2
  }

  function Inserted<T>(s: seq<T>, k: nat, x: T): seq<T>
    requires k <= |s|
  {
    s[..k] + [x] + s[k..]
  }

  lemma InsertedEnds<T>(s: seq<T>, k: nat, x: T)
    requires k < |s|
    ensures var r := Inserted(s, k, x);
            |r| == |s| + 1 && r[0] == (if k == 0 then x else s[0]) && r[|s|] == s[|s| - 1]
  {
  }

  function Removed<T>(s: seq<T>, k: nat): seq<T>
    requires k < |s|
  {
    s[..k] + s[k + 1..]
  }
}
