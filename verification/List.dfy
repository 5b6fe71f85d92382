/** The linked lists of kernel/list.h. The links are in the nodes, and a node is in at most one list. */
module Lists {
  class Node<T> {
    var value: T
    var list: List?<T>
    var prev: Node?<T>
    var next: Node?<T>

    /** list_node_create. */
    constructor (value: T)
      ensures this.value == value && this.list == null && this.prev == null && this.next == null
    {
      this.value, this.list, this.prev, this.next := value, null, null, null;
    }
  }

  function Or<T>(x: Node?<T>, y: Node<T>): Node<T> {
    if x == null then y else x
  }

  class List<T> {
    var first: Node?<T>
    var last: Node?<T>
    /** The nodes in the list, in order. */
    ghost var nodes: seq<Node<T>>

    /** `xs` are the nodes from `first` to `last`. What the first node has as `prev` is left open. */
    ghost predicate Links(xs: seq<Node<T>>)
      reads this, xs
    {
      && first == (if xs == [] then null else xs[0])
      && last == (if xs == [] then null else xs[|xs| - 1])
      && (forall i, j | 0 <= i < j < |xs| :: xs[i] != xs[j])
      && (forall x | x in xs :: x.list == this)
      && (forall i, j | 0 <= i < |xs| && j == i + 1 < |xs| :: xs[i].next == xs[j] && xs[j].prev == xs[i])
      && (xs != [] ==> xs[|xs| - 1].next == null)
    }

    ghost predicate Valid()
      reads this, nodes
    {
      Links(nodes)
    }

    /** Valid, and nothing has been shifted off in front of the first node. */
    ghost predicate Strict()
      reads this, nodes
    {
      Valid() && (nodes != [] ==> nodes[0].prev == null)
    }

    /** The values from first to last. */
    ghost function Values(): seq<T>
      reads this, nodes
    {
      seq(|nodes|, i requires 0 <= i < |nodes| reads this, nodes => nodes[i].value)
    }

    /** list_init. */
    constructor ()
      ensures Strict() && nodes == []
    {
      first, last, nodes := null, null, [];
    }

    /** Whether list_push keeps a list: `next` of the node must be NULL already. */
    ghost predicate CanPush(node: Node<T>)
      reads this, nodes, node
    {
      Valid() && node !in nodes && node.next == null
    }

    /** list_push. */
    method Push(node: Node<T>)
      modifies this, node`list, node`prev, Or(last, node)`next
      ensures old(CanPush(node)) ==> Valid() && nodes == old(nodes) + [node] && Values() == old(Values()) + [node.value]
      ensures old(CanPush(node) && Strict()) ==> Strict()
      ensures node.list == this && node.prev == old(last) && last == node
      ensures if old(last) != null then old(last).next == node else node.next == old(node.next)
    {
      node.list := this;
      node.prev := last;
      if last != null {
        last.next := node;
      }
      last := node;
      if first == null {
        first := node;
      }
      nodes := nodes + [node];
    }

    /** list_shift. What stays behind as `prev` of the new first node is the node taken off. */
    method Shift() returns (node: Node?<T>)
      requires Valid()
      modifies this, if nodes == [] then {} else {nodes[0]}
      ensures node == null <==> old(nodes) == []
      ensures node == null ==> nodes == [] && Valid()
      ensures node != null ==>
                && Valid() && [node] + nodes == old(nodes) && [node.value] + Values() == old(Values())
                && node.next == null && node.list == null && node.prev == old(node.prev) && node.value == old(node.value)
                && (nodes != [] ==> nodes[0].prev == node)
    {
      node := first;
      if node == null { return; }
      node.list := null;
      first := node.next;
      if node == last {
        last := node.next;
      }
      node.next := null;
      nodes := nodes[1..];
    }

    /** A list whose nodes are not touched is what it was. */
    twostate lemma Spared()
      requires old(Valid()) && unchanged(this) && forall x | x in nodes :: unchanged(x)
      ensures Valid() && Values() == old(Values())
    {
      assert nodes == old(nodes) && first == old(first) && last == old(last);
      assert forall x | x in nodes :: x.list == old(x.list) && x.next == old(x.next) && x.prev == old(x.prev) && x.value == old(x.value);
    }

    /** What the links of the node at index `i` are. */
    lemma Neighbours(i: nat)
      requires Valid() && i < |nodes|
      ensures var x := nodes[i];
              && x.next == (if i == |nodes| - 1 then null else nodes[i + 1]) && (i > 0 ==> x.prev == nodes[i - 1])
              && (x == first <==> i == 0) && (x == last <==> i == |nodes| - 1) && (x.next != null ==> x.next.prev == x)
    {
    }

    /** No node leads back to the first one. */
    lemma NoWayBack(xs: seq<Node<T>>, x: Node<T>)
      requires Links(xs) && x in xs
      ensures x.next != xs[0]
    {
      var i :| 0 <= i < |xs| && xs[i] == x;
      if i < |xs| - 1 { assert xs[i].next == xs[i + 1]; }
    }

    /** The links after an insertion at index `i`. */
    lemma Inserted(xs: seq<Node<T>>, i: nat, node: Node<T>)
      requires i < |xs| && node !in xs
      requires first == (if i == 0 then node else xs[0]) && last == xs[|xs| - 1]
      requires forall i, j | 0 <= i < j < |xs| :: xs[i] != xs[j]
      requires node.list == this && forall x | x in xs :: x.list == this
      requires node.next == xs[i] && xs[i].prev == node && (i > 0 ==> node.prev == xs[i - 1] && xs[i - 1].next == node)
      requires forall k, j | 0 <= k < |xs| && j == k + 1 < |xs| && j != i :: xs[k].next == xs[j] && xs[j].prev == xs[k]
      requires xs[|xs| - 1].next == null
      ensures Links(xs[..i] + [node] + xs[i..])
    {
      var ys := xs[..i] + [node] + xs[i..];
      assert forall k | 0 <= k < i :: ys[k] == xs[k];
      assert forall k | i < k < |ys| :: ys[k] == xs[k - 1];
    }

    /** The links after the removal of the node at index `i`. */
    lemma Removed(xs: seq<Node<T>>, i: nat)
      requires i < |xs|
      requires first == (if i == 0 then if |xs| == 1 then null else xs[1] else xs[0])
      requires last == (if i == |xs| - 1 then if i == 0 then null else xs[i - 1] else xs[|xs| - 1])
      requires forall i, j | 0 <= i < j < |xs| :: xs[i] != xs[j]
      requires forall x | x in xs :: x.list == this
      requires 0 < i < |xs| - 1 ==> xs[i - 1].next == xs[i + 1] && xs[i + 1].prev == xs[i - 1]
      requires forall k, j | 0 <= k < |xs| && j == k + 1 < |xs| && j != i && k != i :: xs[k].next == xs[j] && xs[j].prev == xs[k]
      requires if i == |xs| - 1 then i > 0 ==> xs[i - 1].next == null else xs[|xs| - 1].next == null
      ensures Links(xs[..i] + xs[i + 1..])
    {
      var ys := xs[..i] + xs[i + 1..];
      assert forall k | 0 <= k < i :: ys[k] == xs[k];
      assert forall k | i <= k < |ys| :: ys[k] == xs[k + 1];
    }

    /** list_remove, pointer by pointer. */
    method Unlink(node: Node<T>)
      requires node.next != node && node.prev != node
      modifies this`first, this`last, Or(node.next, node)`prev, Or(node.prev, node)`next
      ensures node.next == old(node.next) && node.prev == old(node.prev)
      ensures node.next != null ==> node.next.prev == node.prev
      ensures node.prev != null ==> node.prev.next == node.next
      ensures first == if node == old(first) then node.next else old(first)
      ensures last == if node == old(last) then node.prev else old(last)
    {
      if node.next != null {
        node.next.prev := node.prev;
      }
      if node.prev != null {
        node.prev.next := node.next;
      }
      if node == first {
        first := node.next;
      }
      if node == last {
        last := node.prev;
      }
    }

    /** list_remove of a node in no list, or of one whose `prev` is up to date: any but the first one
        after a shift. */
    method Remove(node: Node<T>, ghost i: nat)
      requires node.list == null || (node.list == this && Valid() && i < |nodes| && nodes[i] == node && (i > 0 || node.prev == null))
      modifies (if node.list == null then {} else {this}), if node.list == null then [] else nodes
      ensures old(node.list) != null ==>
                && Valid() && nodes == old(nodes)[..i] + old(nodes)[i + 1..] && node !in nodes
                && (old(Strict()) ==> Strict()) && forall x | x in old(nodes) :: x.value == old(x.value)
    {
      if node.list == null { return; }
      ghost var xs := nodes;
      Neighbours(i);
      if i > 0 { Neighbours(i - 1); }
      Unlink(node);
      Removed(xs, i);
      nodes := xs[..i] + xs[i + 1..];
    }

    /** list_remove of the first node after `stale` was shifted off in front of it. The rest is still
        a list exactly when there is a rest and `stale` has not come back into it; and `stale`, wherever
        it is now, has its `next` changed. */
    method RemoveFirst(node: Node<T>, stale: Node<T>)
      requires Valid() && nodes != [] && nodes[0] == node && node.prev == stale != node
      modifies this, nodes, stale`next
      ensures stale.next == old(node.next)
      ensures Links(old(nodes)[1..]) <==> |old(nodes)| > 1 && stale !in old(nodes)
    {
      ghost var xs := nodes;
      Neighbours(0);
      Unlink(node);
      if stale in xs {
        assert stale in xs[1..] && stale.next == xs[1..][0];
        if Links(xs[1..]) { NoWayBack(xs[1..], stale); }
      }
    }

    /** list_insert_before, pointer by pointer. */
    method LinkBefore(node: Node<T>, pos: Node<T>)
      requires node != pos
      modifies this`first, node`list, node`prev, node`next, pos`prev, Or(pos.prev, node)`next
      ensures node.list == this && node.prev == old(pos.prev) && pos.prev == node
      ensures node.next == if old(pos.prev) == node then node else pos
      ensures old(pos.prev) != null ==> old(pos.prev).next == node
      ensures first == if pos == old(first) then node else old(first)
    {
      node.list := this;
      node.prev := pos.prev;
      node.next := pos;
      pos.prev := node;
      if node.prev != null {
        node.prev.next := node;
      }
      if pos == first {
        first := node;
      }
    }

    /** list_insert_before in a list. It keeps a list exactly when what `pos` has as `prev` is up to date
        or no longer in the list. */
    method InsertBefore(node: Node<T>, pos: Node<T>, ghost i: nat)
      requires Valid() && i < |nodes| && nodes[i] == pos && node !in nodes
      modifies this, nodes, node`list, node`prev, node`next, if pos.prev == null then {} else {pos.prev}
      ensures nodes == old(nodes)[..i] + [node] + old(nodes)[i..]
      ensures Valid() <==> i > 0 || old(pos.prev) == null || old(pos.prev) !in old(nodes) + [node]
      ensures old(Strict()) ==> Strict()
      ensures forall x | x in nodes :: x.value == old(x.value)
    {
      Neighbours(i);
      ghost var stale, xs := pos.prev, nodes;
      LinkBefore(node, pos);
      nodes := xs[..i] + [node] + xs[i..];
      if i == 0 && stale != null && stale in nodes {
        assert stale.next == nodes[0];
        if Valid() { NoWayBack(nodes, stale); }
      } else {
        Inserted(xs, i, node);
      }
    }

    /** list_destroy. Freeing a node puts a link of the free list over the first eight bytes of its
        page, which are the header of kmalloc and a part of `value`; `next` is read after that and is
        intact. Each node is freed once, in list order. */
    method Destroy() returns (ghost freed: seq<Node<T>>)
      requires Valid()
      modifies this, nodes
      ensures freed == old(nodes) && Valid() && nodes == []
    {
      freed := [];
      var node := first;
      while node != null
        invariant |freed| <= |nodes| && freed == nodes[..|freed|]
        invariant Valid() && nodes == old(nodes)
        invariant node == if |freed| == |nodes| then null else nodes[|freed|]
        decreases |nodes| - |freed|
      {
        node.value := *;
        freed := freed + [node];
        node := node.next;
      }
      first, last, nodes := null, null, [];
    }
  }

  /** No node is in two lists. */
  lemma Apart<T>(l: List<T>, m: List<T>)
    requires l.Valid() && m.Valid() && l != m
    ensures forall x | x in l.nodes :: x !in m.nodes
    ensures m.last != null ==> m.last in m.nodes
  {
  }

  lemma SameMembers<T>(a: seq<T>, b: seq<T>, c: seq<T>, d: seq<T>)
    requires a + b == c + d
    ensures forall i | 0 <= i < |a| :: a[i] in c || a[i] in d
    ensures forall i | 0 <= i < |b| :: b[i] in c || b[i] in d
  {
    assert forall i | 0 <= i < |a| :: a[i] == (c + d)[i];
    assert forall i | 0 <= i < |b| :: b[i] == (c + d)[|a| + i];
  }

  /** One round of wakeup. */
  method Move<T>(group: List<T>, tasks: List<T>) returns (moved: bool)
    requires group.Valid() && tasks.Valid() && group != tasks
    modifies group, tasks, group.nodes, tasks.nodes
    ensures group.Valid() && tasks.Valid() && (moved <==> old(group.nodes) != [])
    ensures if moved then [old(group.nodes)[0]] + group.nodes == old(group.nodes) && tasks.nodes == old(tasks.nodes) + [old(group.nodes)[0]]
            else group.nodes == [] && tasks.nodes == old(tasks.nodes)
    ensures tasks.nodes + group.nodes == old(tasks.nodes) + old(group.nodes)
    ensures tasks.Values() + group.Values() == old(tasks.Values()) + old(group.Values())
  {
    Apart(group, tasks);
    hide List.Links;
    var node := group.Shift();
    moved := node != null;
    if moved {
      assert old(group.nodes)[0] in old(group.nodes) && node == old(group.nodes)[0];
      assert tasks.nodes == old(tasks.nodes) && node !in tasks.nodes && tasks.Valid();
      assert tasks.CanPush(node);
      tasks.Push(node);
    }
  }

  /** wakeup of kernel/sched.c: every node of `group`, oldest first, to the end of `tasks`. */
  method Wakeup<T>(group: List<T>, tasks: List<T>)
    requires group.Valid() && tasks.Valid() && group != tasks
    modifies group, tasks, group.nodes, tasks.nodes
    ensures group.Valid() && tasks.Valid()
    ensures group.nodes == [] && tasks.nodes == old(tasks.nodes) + old(group.nodes)
    ensures tasks.Values() == old(tasks.Values()) + old(group.Values())
  {
    hide List.Links;
    var moved := true;
    while moved
      invariant group.Valid() && tasks.Valid() && (!moved ==> group.nodes == [])
      invariant tasks.nodes + group.nodes == old(tasks.nodes) + old(group.nodes)
      invariant tasks.Values() + group.Values() == old(tasks.Values()) + old(group.Values())
      decreases |group.nodes|, moved
    {
      SameMembers(tasks.nodes, group.nodes, old(tasks.nodes), old(group.nodes));
      moved := Move(group, tasks);
    }
  }
}

/** vm_add_area of kernel/vm.c on the linked list of a task's areas. */
module AreaLists {
  import opened Lists
  import opened Vm

  /** Every area in the list starts at or below `va`. */
  ghost predicate NoneAbove(xs: seq<Node<Area>>, va: nat)
    reads xs
  {
    forall x | x in xs :: x.value.va <= va
  }

  /** The links of the node at index `i` are as in the list `xs`. */
  ghost predicate Intact(xs: seq<Node<Area>>, i: nat)
    requires i < |xs|
    reads xs
  {
    xs[i].next == (if i == |xs| - 1 then null else xs[i + 1]) && xs[i].prev == if i == 0 then null else xs[i - 1]
  }

  lemma AllIntact(list: List<Area>)
    requires list.Strict()
    ensures var xs := list.nodes;
            && (forall j, k | 0 <= j < k < |xs| :: xs[j] != xs[k]) && (forall j: nat | j < |xs| :: Intact(xs, j))
            && list.first == (if xs == [] then null else xs[0]) && list.last == (if xs == [] then null else xs[|xs| - 1])
  {
  }

  lemma Ends(list: List<Area>, ys: seq<Node<Area>>)
    requires list.last != null && list.last.next != null
    ensures !list.Links(ys)
  {
  }

  /** One round of the loop. The links of the nodes to come are not touched. */
  method Visit(list: List<Area>, node: Node<Area>, n: Node<Area>, ghost xs: seq<Node<Area>>, ghost i: nat) returns (above: bool)
    requires node !in xs && i < |xs| && xs[i] == n && forall j, k | 0 <= j < k < |xs| :: xs[j] != xs[k]
    requires forall j: nat | i <= j < |xs| :: Intact(xs, j)
    modifies list`first, node`list, node`prev, node`next, n`prev, Or(n.prev, node)`next
    ensures above <==> n.value.va > node.value.va
    ensures above ==> node.next == n
    ensures !above && old(list.Strict()) ==> list.Strict()
    ensures !above ==> list.first == old(list.first) && node.list == old(node.list) && node.prev == old(node.prev)
    ensures !above ==> node.next == old(node.next) && n.prev == old(n.prev) && Or(n.prev, node).next == old(Or(n.prev, node).next)
    ensures n.next == old(n.next) && forall j: nat | i < j < |xs| :: Intact(xs, j)
  {
    assert Intact(xs, i);
    var a := n.value;
    above := a.va > node.value.va;
    if above {
      list.LinkBefore(node, n);
      forall j: nat | i < j < |xs|
        ensures Intact(xs, j)
      {
        assert old(Intact(xs, j));
      }
    }
  }

  /** The loop: the node is put before every area above it, one after the other, and in the end has the
      last of them as `next`. `at` is the index of that one, or -1. */
  method PutBefore(list: List<Area>, node: Node<Area>) returns (ghost at: int)
    requires list.Strict() && node !in list.nodes && node.next == null
    modifies list`first, list.nodes, node
    ensures list.nodes == old(list.nodes) && list.last == old(list.last) && -1 <= at < |list.nodes|
    ensures forall x | x in list.nodes :: x.value == old(x.value)
    ensures node.value == old(node.value)
    ensures at == -1 ==> list.Strict() && node.next == null
    ensures at >= 0 ==> node.next == list.nodes[at] && list.nodes[at].value.va > node.value.va
    ensures forall j | at < j < |list.nodes| :: list.nodes[j].value.va <= node.value.va
  {
    ghost var xs := list.nodes;
    ghost var i := 0;
    at := -1;
    var n := list.first;
    AllIntact(list);
    hide List.Links, List.Valid, List.Values, List.Strict, Intact;
    while n != null
      invariant i <= |xs| && n == (if i == |xs| then null else xs[i]) && -1 <= at < i
      invariant list.nodes == xs && list.last == old(list.last) && node.value == old(node.value)
      invariant forall x | x in xs :: x.value == old(x.value)
      invariant forall j: nat | i <= j < |xs| :: Intact(xs, j)
      invariant at == -1 ==> list.Strict() && node.next == null
      invariant at >= 0 ==> node.next == xs[at] && xs[at].value.va > node.value.va
      invariant forall j | at < j < i :: xs[j].value.va <= node.value.va
      decreases |xs| - i
    {
      LinksOf(xs, i);
      var above := Visit(list, node, n, xs, i);
      if above {
        at := i;
      }
      n := n.next;
      i := i + 1;
    }
  }

  lemma LinksOf(xs: seq<Node<Area>>, i: nat)
    requires i < |xs| && Intact(xs, i)
    ensures xs[i].next == if i == |xs| - 1 then null else xs[i + 1]
    ensures xs[i].prev == null || (i > 0 && xs[i].prev == xs[i - 1])
  {
  }

  /** The loop does not stop at the first area above the new one, and the push comes in any case. So
      what is left is a list exactly when there is no area above; if the last area is above, it and
      the new one lead to each other for ever. */
  method VmAddArea(list: List<Area>, node: Node<Area>)
    requires list.Strict() && node !in list.nodes && node.next == null
    modifies list, list.nodes, node
    ensures old(NoneAbove(list.nodes, node.value.va)) ==> list.Strict() && list.nodes == old(list.nodes) + [node]
    ensures old(NoneAbove(list.nodes, node.value.va)) <==> exists ys :: list.Links(ys)
    ensures old(list.last != null && list.last.value.va > node.value.va) ==>
              node.next == old(list.last) && node.next.next == node
  {
    ghost var xs := list.nodes;
    LastOf(list);
    hide List.Links, List.Valid, List.Values, List.Strict;
    var at := PutBefore(list, node);
    if at == -1 { MayPush(list, node); }
    list.Push(node);
    if at >= 0 {
      forall ys: seq<Node<Area>>
        ensures !list.Links(ys)
      {
        Ends(list, ys);
      }
    } else {
      IsList(list);
    }
  }

  lemma LastOf(list: List<Area>)
    requires list.Strict()
    ensures list.last == if list.nodes == [] then null else list.nodes[|list.nodes| - 1]
  {
  }

  lemma MayPush(list: List<Area>, node: Node<Area>)
    requires list.Strict() && node !in list.nodes && node.next == null
    ensures list.CanPush(node)
  {
  }

  lemma IsList(list: List<Area>)
    requires list.Strict()
    ensures list.Links(list.nodes)
  {
  }
}
