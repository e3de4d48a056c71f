/** The intrusive hash list of osw_list.h.

    A node does not point back at its predecessor: `pprevious` holds the ADDRESS
    of the pointer that points at it, which is either the `first` field of a head
    or the `next` field of another node. That lets a node unlink itself without
    knowing the list it is on. The model keeps this: an `Address` names one of
    those two fields, and a removal writes through it.
 */
module HList {
  import opened Seqs

  datatype Link<T> = Null | Poison1 | To(node: Node<T>)

  datatype Address<T> = FirstOf(head: Head<T>) | NextOf(node: Node<T>)

  datatype Back<T> = NoBack | Poison2 | At(addr: Address<T>)

  class Head<T> {
    const slot: nat                 // index of this head among its fellows
    var first: Link<T>
    ghost var chain: seq<Node<T>>   // the nodes on the list, first to last
    ghost var members: set<Node<T>> // the same nodes as a set

    constructor (slot: nat)
      ensures this.slot == slot && Valid() && chain == [] && members == {}
    {
      this.slot := slot;
      first := Null;
      chain := [];
      members := {};
    }

    /** The list is well formed and owns its nodes, so two valid lists share none. */
    ghost predicate Valid()
      reads this, members`next, members`pprevious, members`owner
    {
      && (forall n :: n in chain ==> n in members)
      && (forall n :: n in members ==> n in chain && n.owner == this && n.Linked() && n.next != Poison1)
      && Chained(this, chain)
    }
  }

  /** A list node together with the structure that contains it (`hlist_entry`). */
  class Node<T> {
    var next: Link<T>
    var pprevious: Back<T>
    var item: T
    ghost var owner: Head?<T>  // the list the node is on, while it is on one

    constructor (item: T)
      ensures next == Null && pprevious == NoBack && this.item == item
    {
      next, pprevious := Null, NoBack;
      this.item := item;
      owner := null;
    }

    ghost predicate Linked()
      reads `pprevious
    {
      pprevious.At?
    }
  }

  /** The heap holds exactly the nodes of xs, in this order, hanging off h. */
  ghost predicate Chained<T>(h: Head<T>, xs: seq<Node<T>>)
    reads h`first, xs`next, xs`pprevious
  {
    && Distinct(xs)
    && (|xs| == 0 ==> h.first == Null)
    && (|xs| > 0 ==> h.first == To(xs[0]) && xs[0].pprevious == At(FirstOf(h)) && xs[|xs| - 1].next == Null)
    && (forall i, j :: 0 <= i < j < |xs| && j < i + 2 ==>
          xs[i].next == To(xs[j]) && xs[j].pprevious == At(NextOf(xs[i])))
  }

  /** Where the walk goes next from the front of any tail of a list. */
  lemma NextOnTail<T>(h: Head<T>, xs: seq<Node<T>>, rest: seq<Node<T>>)
    requires Chained(h, xs) && Suffix(rest, xs) && rest != []
    ensures rest[0] in xs && Distinct(rest)
    ensures rest[0].next == if |rest| > 1 then To(rest[1]) else Null
  {
    var i := |xs| - |rest|;
    assert rest[0] == xs[i];
    assert forall j :: 0 <= j < |rest| ==> rest[j] == xs[i + j];
    if |rest| > 1 {
      assert rest[1] == xs[i + 1];
    }
  }

  /** hlist_head_add */
  method HeadAdd<T>(head: Head<T>, node: Node<T>)
    requires head.Valid() && !node.Linked()
    modifies head, node`next, node`pprevious, node`owner, head.members`pprevious
    ensures head.Valid()
    ensures head.chain == [node] + old(head.chain) && head.members == old(head.members) + {node}
  {
    var first := head.first;
    node.next := first;
    if first.To? {
      first.node.pprevious := At(NextOf(node));
    }
    head.first := To(node);
    node.pprevious := At(FirstOf(head));
    head.chain := [node] + head.chain;
    head.members := head.members + {node};
    node.owner := head;
  }

  /** The list xs after its i-th node has been bypassed. */
  ghost predicate Bypassed<T>(h: Head<T>, xs: seq<Node<T>>, i: nat)
    requires i < |xs|
    reads h`first, xs`next, xs`pprevious
  {
    && Distinct(xs)
    && (forall a, b :: 0 <= a < b < |xs| && b < a + 2 && a != i && b != i ==>
          xs[a].next == To(xs[b]) && xs[b].pprevious == At(NextOf(xs[a])))
    && (i > 0 ==> h.first == To(xs[0]) && xs[0].pprevious == At(FirstOf(h)))
    && (i + 1 < |xs| ==> xs[|xs| - 1].next == Null)
    && (0 < i && i + 1 < |xs| ==> xs[i - 1].next == To(xs[i + 1]) && xs[i + 1].pprevious == At(NextOf(xs[i - 1])))
    && (0 < i && i + 1 == |xs| ==> xs[i - 1].next == Null)
    && (i == 0 && 1 < |xs| ==> h.first == To(xs[1]) && xs[1].pprevious == At(FirstOf(h)))
    && (i == 0 && |xs| == 1 ==> h.first == Null)
  }

  lemma BypassedIsChained<T>(h: Head<T>, xs: seq<Node<T>>, i: nat, ys: seq<Node<T>>)
    requires i < |xs| && Bypassed(h, xs, i)
    requires ys == xs[..i] + xs[i + 1..]
    ensures Chained(h, ys)
  {
    forall a, b | 0 <= a < b < |ys| && b < a + 2
      ensures ys[a].next == To(ys[b]) && ys[b].pprevious == At(NextOf(ys[a]))
    {
      if b < i {
        assert ys[a] == xs[a] && ys[b] == xs[b];
      } else if a >= i {
        assert ys[a] == xs[a + 1] && ys[b] == xs[b + 1];
      } else {
        assert ys[a] == xs[i - 1] && ys[b] == xs[i + 1];
      }
    }
  }

  lemma ChainDistinct<T>(h: Head<T>)
    requires h.Valid()
    ensures Distinct(h.chain)
  {
  }

  /** hlist_node_remove: the list comes from `pprevious` alone. */
  method NodeRemove<T>(node: Node<T>)
    requires node.Linked() && node.owner != null && node.owner.Valid() && node in node.owner.members
    modifies node.owner, node.owner.members`next, node.owner.members`pprevious
    ensures node.owner.Valid()
    ensures node.owner.chain == Without(old(node.owner.chain), node)
    ensures node.owner.members == old(node.owner.members) - {node}
    ensures node.next == Poison1 && node.pprevious == Poison2
  {
    hide Chained, Distinct;
    ghost var head, xs := node.owner, node.owner.chain;
    ChainDistinct(head);
    ghost var i := IndexOf(xs, node);
    WithoutIs(xs, node, i);
    head.chain := Without(xs, node);
    head.members := head.members - {node};
    Bypass(node, head, xs, i, head.chain);
  }

  method Bypass<T>(node: Node<T>, ghost head: Head<T>, ghost xs: seq<Node<T>>, ghost i: nat, ghost ys: seq<Node<T>>)
    requires Chained(head, xs) && i < |xs| && xs[i] == node
    requires forall n :: n in xs ==> n.Linked() && n.next != Poison1
    requires ys == xs[..i] + xs[i + 1..]
    modifies head`first, xs`next, xs`pprevious
    ensures Chained(head, ys)
    ensures forall n :: n in xs && n != node ==> n.Linked() && n.next != Poison1
    ensures node.next == Poison1 && node.pprevious == Poison2
  {
    Unlink(node, head, xs, i);
    BypassedIsChained(head, xs, i, ys);
  }

  method Unlink<T>(node: Node<T>, ghost head: Head<T>, ghost xs: seq<Node<T>>, ghost i: nat)
    requires Chained(head, xs) && i < |xs| && xs[i] == node
    requires forall n :: n in xs ==> n.Linked() && n.next != Poison1
    modifies head`first, xs`next, xs`pprevious
    ensures Bypassed(head, xs, i)
    ensures forall n :: n in xs && n != node ==> n.Linked() && n.next != Poison1
    ensures node.next == Poison1 && node.pprevious == Poison2
  {
    var next := node.next;
    var pprev := node.pprevious;
    assert pprev == At(if i == 0 then FirstOf(head) else NextOf(xs[i - 1]));
    assert next == if i + 1 < |xs| then To(xs[i + 1]) else Null;
    match pprev.addr {
      case FirstOf(h) => h.first := next;
      case NextOf(n) => n.next := next;
    }
    if next.To? {
      next.node.pprevious := pprev;
    }
    node.next := Poison1;
    node.pprevious := Poison2;
  }

  /** A family of lists over one set of nodes. */
  class Lists<T> {
    const heads: seq<Head<T>>
    ghost var nodes: set<Node<T>>   // every node created, on a list or not

    /** Every list is well formed, and a node carries an address in `pprevious`
        exactly while it is on one of the lists. */
    ghost predicate Valid()
      reads this, heads, nodes`next, nodes`pprevious, nodes`owner
    {
      && (forall h :: h in heads ==> h.members <= nodes)
      && (forall k :: 0 <= k < |heads| ==> heads[k].slot == k && heads[k].Valid())
      && (forall n :: n in nodes && n.Linked() ==> n.owner in heads && n in n.owner.members)
    }

    constructor (size: nat)
      ensures Valid() && fresh(heads) && nodes == {}
      ensures |heads| == size && forall h :: h in heads ==> h.chain == [] && h.members == {}
    {
      var hs: seq<Head<T>> := [];
      for k := 0 to size
        invariant |hs| == k && fresh(hs)
        invariant forall j :: 0 <= j < k ==> hs[j].slot == j && hs[j].chain == [] && hs[j].members == {} && hs[j].Valid()
      {
        var h := new Head<T>(k);
        hs := hs + [h];
      }
      heads := hs;
      nodes := {};
    }

    method Create(item: T) returns (node: Node<T>)
      requires Valid()
      modifies this`nodes
      ensures Valid() && fresh(node) && nodes == old(nodes) + {node}
      ensures !node.Linked() && node.item == item
    {
      node := new Node<T>(item);
      nodes := nodes + {node};
    }

    /** hlist_head_add on one list leaves all the others as they were. */
    method Add(head: Head<T>, node: Node<T>)
      requires Valid() && head in heads
      requires node in nodes && !node.Linked()
      modifies head, nodes`next, nodes`pprevious, node`owner
      ensures Valid()
      ensures forall h :: h in heads ==> h.chain == if h == head then [node] + old(h.chain) else old(h.chain)
      ensures node.Linked() && node.owner == head
      ensures forall n :: n in nodes && n != node ==> n.Linked() == old(n.Linked())
    {
      HeadAdd(head, node);
    }

    /** hlist_node_remove: the list is not an argument, and no other list changes. */
    method Remove(node: Node<T>)
      requires Valid()
      requires node in nodes && node.Linked()
      modifies node.owner, nodes`next, nodes`pprevious
      ensures Valid()
      ensures node.next == Poison1 && node.pprevious == Poison2
      ensures forall h :: h in heads ==> h.chain == Without(old(h.chain), node)
      ensures forall n :: n in nodes && n != node ==> n.Linked() == old(n.Linked())
    {
      forall h | h in heads && h != node.owner
        ensures Without(h.chain, node) == h.chain
      {
        assert h.Valid();
        WithoutAbsent(h.chain, node);
      }
      NodeRemove(node);
    }
  }
}
