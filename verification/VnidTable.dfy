/** The 64-bucket hash table of dps_client_ctrl.c on intrusive lists, and the server
    operations built on it. Each operation is proved to be the map operation. */
module VnidTable {
  import opened Seqs
  import opened HList
  import opened VnidMap

  datatype Slot = Slot(vnid: nat, addr: IpAddr)

  type EntryNode = Node<Slot>

  datatype Status = Success | Error | NoResources

  class Index {
    const lists: Lists<Slot>
    ghost var at: map<nat, EntryNode>   // the entry of each VNID
    ghost var m: Mapping

    /** At most one entry a VNID, each in the bucket of its hash. */
    ghost predicate Filed(at: map<nat, EntryNode>)
      reads lists, lists.heads, lists.nodes`next, lists.nodes`pprevious, lists.nodes`owner, lists.nodes`item
    {
      && lists.Valid() && |lists.heads| == SIZE
      && (forall v :: v in at ==> at[v] in lists.nodes && InPlace(at[v], v))
      && (forall n :: n in lists.nodes && n.Linked() ==> n.item.vnid in at && at[n.item.vnid] == n)
    }

    ghost predicate InPlace(n: EntryNode, v: nat)
      requires |lists.heads| == SIZE
      reads n`pprevious, n`owner, n`item
    {
      n.Linked() && n.item.vnid == v && n.owner == lists.heads[BucketOf(v)]
    }

    /** ... and together the entries are m. */
    ghost predicate Valid()
      reads this, lists, lists.heads, lists.nodes
    {
      && Filed(at) && at.Keys == m.Keys
      && (forall v :: v in m ==> at[v] in lists.nodes && at[v].item == Slot(v, m[v]))
    }

    constructor ()
      ensures Valid() && m == map[] && fresh(lists) && fresh(lists.heads) && fresh(lists.nodes)
    {
      lists := new Lists<Slot>(SIZE);
      at, m := map[], map[];
    }

    /** dps_vnid_node_mapping_hash */
    static method Hash(data: seq<nat>) returns (hash: nat)
      ensures hash == Djb2(data)
    {
      hide Mix;
      hash := 5381;
      for i := 0 to |data|
        invariant Djb2From(data[i..], hash) == Djb2(data)
      {
        assert data[i..][1..] == data[i + 1..];
        hash := Mix(hash, data[i]);
      }
    }

    /** get_hlist_head */
    method HeadFor(v: nat) returns (head: Head<Slot>)
      requires Valid()
      ensures |lists.heads| == SIZE && head == lists.heads[BucketOf(v)]
    {
      var hash := Hash(Bytes(v));
      head := lists.heads[hash % SIZE];
    }

    /** vnid_node_search_in_bkt */
    method SearchIn(v: nat, head: Head<Slot>) returns (found: Link<Slot>)
      requires Valid() && head == lists.heads[BucketOf(v)]
      ensures found == if v in at then To(at[v]) else Null
    {
      hide BucketOf;
      var hnode := head.first;
      ghost var i := 0;
      assert head.Valid();
      assert v in at ==> at[v] in head.members && at[v] in head.chain;
      while hnode.To?
        invariant i <= |head.chain| && hnode == if i < |head.chain| then To(head.chain[i]) else Null
        invariant forall j :: 0 <= j < i ==> head.chain[j].item.vnid != v
        decreases |head.chain| - i
      {
        assert head.chain[i] in head.members;
        if hnode.node.item.vnid == v {
          return hnode;
        }
        NextOnTail(head, head.chain, head.chain[i..]);
        hnode := hnode.node.next;
        i := i + 1;
      }
      found := Null;
    }

    /** dps_vnid_node_mapping_entry_search */
    method Search(v: nat) returns (status: Status, addr: IpAddr)
      requires Valid()
      ensures status == if v in m then Success else Error
      ensures v in m ==> addr == m[v]
    {
      hide BucketOf;
      var head := HeadFor(v);
      var found := SearchIn(v, head);
      if found.To? {
        status, addr := Success, found.node.item.addr;
      } else {
        status, addr := Error, IpAddr(0, 0, 0, 0, 0, []);
      }
    }

    /** dps_vnid_node_mapping_entry_add, when memory does not run out */
    method Add(v: nat, addr: IpAddr) returns (status: Status)
      requires Valid()
      modifies this, lists, lists.heads, lists.nodes
      ensures Valid() && fresh(lists.nodes - old(lists.nodes))
      ensures status == Success && m == old(m)[v := addr]
    {
      hide Filed, BucketOf;
      var head := HeadFor(v);
      var found := SearchIn(v, head);
      if found.To? {
        AddKnown(found.node, v, addr);
      } else {
        AddNew(v, addr, head);
      }
      status := Success;
    }

    method AddKnown(node: EntryNode, v: nat, addr: IpAddr)
      requires Valid() && v in at && node == at[v]
      modifies this`m, node`item
      ensures Valid() && m == old(m)[v := addr]
    {
      hide Filed;
      Overwrite(node, v, addr, at);
      m := m[v := addr];
    }

    method AddNew(v: nat, addr: IpAddr, head: Head<Slot>)
      requires Valid() && v !in at && |lists.heads| == SIZE && head == lists.heads[BucketOf(v)]
      modifies this, lists, lists.heads, lists.nodes`next, lists.nodes`pprevious
      ensures Valid() && fresh(lists.nodes - old(lists.nodes)) && m == old(m)[v := addr]
    {
      hide Filed, BucketOf;
      var node := Insert(v, addr, head, at);
      at, m := at[v := node], m[v := addr];
    }

    method Overwrite(node: EntryNode, v: nat, addr: IpAddr, ghost at: map<nat, EntryNode>)
      requires Filed(at) && v in at && node == at[v]
      modifies node`item
      ensures forall x :: x in at && x != v ==> at[x] != node
      ensures Filed(at) && node in lists.nodes && node.item == Slot(v, addr)
    {
      hide BucketOf, Lists.Valid;
      node.item := Slot(v, addr);
      assert forall x :: x in at ==> InPlace(at[x], x);
    }

    method Insert(v: nat, addr: IpAddr, head: Head<Slot>, ghost at: map<nat, EntryNode>) returns (node: EntryNode)
      requires Filed(at) && v !in at && head == lists.heads[BucketOf(v)]
      modifies lists, lists.heads, lists.nodes`next, lists.nodes`pprevious
      ensures fresh(node) && lists.nodes == old(lists.nodes) + {node}
      ensures Filed(at[v := node]) && node.item == Slot(v, addr)
    {
      hide BucketOf, Lists.Valid;
      node := lists.Create(Slot(v, addr));
      assert forall x :: x in at ==> InPlace(at[x], x);
      Link(node, head, v, at);
    }

    method Link(node: EntryNode, head: Head<Slot>, ghost v: nat, ghost at: map<nat, EntryNode>)
      requires Filed(at) && node in lists.nodes && !node.Linked() && v !in at
      requires node.item.vnid == v && head == lists.heads[BucketOf(v)]
      modifies lists.heads, lists.nodes`next, lists.nodes`pprevious, node`owner
      ensures Filed(at[v := node])
    {
      hide BucketOf, Lists.Valid;
      lists.Add(head, node);
      assert forall x :: x in at ==> InPlace(at[x], x);
    }

    method Unlink(node: EntryNode, ghost v: nat, ghost at: map<nat, EntryNode>)
      requires Filed(at) && v in at && node == at[v]
      modifies lists.heads, lists.nodes`next, lists.nodes`pprevious
      ensures Filed(at - {v})
    {
      hide BucketOf, Lists.Valid;
      lists.Remove(node);
      assert forall x :: x in at && x != v ==> InPlace(at[x], x);
    }

    method Delete(node: EntryNode, ghost v: nat)
      requires Valid() && v in m && node == at[v]
      modifies this`at, this`m, lists.heads, lists.nodes`next, lists.nodes`pprevious
      ensures Valid() && m == old(m) - {v}
    {
      hide Filed;
      Unlink(node, v, at);
      at, m := at - {v}, m - {v};
    }

    /** dps_vnid_node_mapping_entry_del: only if the node is the one given */
    method DeleteIf(v: nat, addr: IpAddr) returns (status: Status)
      requires Valid()
      modifies this, lists.heads, lists.nodes
      ensures Valid() && m == Del(old(m), v, addr)
      ensures m == if v in old(m) && Same(old(m)[v], addr) then old(m) - {v} else old(m)
      ensures status == Success <==> v in old(m) && Same(old(m)[v], addr)
    {
      hide BucketOf, Lists.Valid;
      var head := HeadFor(v);
      var found := SearchIn(v, head);
      status := Error;
      if found.To? && Same(found.node.item.addr, addr) {
        Delete(found.node, v);
        status := Success;
      }
    }

    /** dps_vnid_node_mapping_entry_del2 */
    method DeleteVnid(v: nat) returns (status: Status)
      requires Valid()
      modifies this, lists.heads, lists.nodes
      ensures Valid() && m == old(m) - {v} && (status == Success <==> v in old(m))
    {
      hide BucketOf, Lists.Valid;
      var head := HeadFor(v);
      var found := SearchIn(v, head);
      status := Error;
      if found.To? {
        Delete(found.node, v);
        status := Success;
      }
    }

    /** dps_vnid_node_mapping_del_dup_node */
    method DeleteDuplicates(addr: IpAddr)
      requires Valid()
      modifies this, lists.heads, lists.nodes
      ensures Valid() && m == Purged(old(m), addr)
      ensures forall v :: (v in m <==> v in old(m) && !(v < 64 && Same(old(m)[v], addr))) && (v in m ==> m[v] == old(m)[v])
    {
      hide Index.Valid;
      for i := 0 to SIZE
        invariant Valid() && m == DelBelow(old(m), i, addr)
      {
        var ret := DeleteIf(i, addr);
      }
      DelBelowIs(old(m), SIZE, addr);
    }

    /** dps_vnid_node_mapping_table_get_available_entry */
    method FirstAvailable() returns (status: Status, addr: IpAddr)
      requires Valid()
      ensures status == if m == map[] then Error else Success
      ensures m != map[] ==> exists v :: v in m && addr == m[v]
    {
      hide BucketOf;
      addr := IpAddr(0, 0, 0, 0, 0, []);
      for i := 0 to SIZE
        invariant forall v :: v in m ==> i <= BucketOf(v)
      {
        var head := lists.heads[i];
        assert head.Valid();
        if head.first.To? {
          var node := head.first.node;
          assert node in head.members;
          assert node.item.vnid in m;
          return Success, node.item.addr;
        }
        forall v | v in m
          ensures BucketOf(v) != i
        {
          assert InPlace(at[v], v);
        }
      }
      status := Error;
    }
  
    /** dps_vnid_node_mapping_entry_find */
    method Find(v: nat) returns (status: Status, addr: IpAddr)
      requires Valid()
      ensures status == if m == map[] then Error else Success
      ensures m != map[] ==> if v in m then addr == m[v] else exists w :: w in m && addr == m[w]
    {
      hide Filed;
      status, addr := Search(v);
      if status != Success {
        status, addr := FirstAvailable();
      }
    }

    /** dps_find_server: the address must also be one that can be sent to. */
    method FindServer(v: nat) returns (status: Status, addr: IpAddr)
      requires Valid()
      ensures (forall w :: w in m ==> m[w].family in {2, 10}) ==>
        (status == Success <==> m != map[])
      ensures status == Success ==> addr.family in {2, 10} && exists w :: w in m && addr == m[w]
      ensures status == Success && v in m ==> addr == m[v]
      ensures v in m ==> (status == Success <==> m[v].family in {2, 10})
    {
      hide Filed;
      status, addr := Find(v);
      if status == Success && addr.family != AF_INET && addr.family != AF_INET6 {
        status := Error;
      }
    }
  }

  /** An operation on the table, and what it does to the map. */
  datatype Op = Adds(vnid: nat, addr: IpAddr) | DeletesIf(vnid: nat, addr: IpAddr) | Deletes(vnid: nat) | Purges(addr: IpAddr)

  ghost function Effect(m: Mapping, op: Op): Mapping
  {
    match op
    case Adds(v, a) => m[v := a]
    case DeletesIf(v, a) => Del(m, v, a)
    case Deletes(v) => m - {v}
    case Purges(a) => Purged(m, a)
  }

  ghost function Effects(m: Mapping, ops: seq<Op>): Mapping
  {
    if |ops| == 0 then m else Effect(Effects(m, ops[..|ops| - 1]), ops[|ops| - 1])
  }

  /** Over every sequence of operations the table equals the map. */
  method Execute(index: Index, ops: seq<Op>)
    requires index.Valid()
    modifies index, index.lists, index.lists.heads, index.lists.nodes
    ensures index.Valid() && index.m == Effects(old(index.m), ops)
  {
    hide Index.Valid, Effect;
    for i := 0 to |ops|
      invariant index.Valid() && fresh(index.lists.nodes - old(index.lists.nodes))
      invariant index.m == Effects(old(index.m), ops[..i])
    {
      Perform(index, ops[i]);
      assert ops[..i + 1][..i] == ops[..i];
    }
    assert ops[..|ops|] == ops;
  }

  method Perform(index: Index, op: Op)
    requires index.Valid()
    modifies index, index.lists, index.lists.heads, index.lists.nodes
    ensures index.Valid() && index.m == Effect(old(index.m), op)
    ensures var m := old(index.m);
      match op
      case Adds(v, a) => index.m == m[v := a]
      case DeletesIf(v, a) => index.m == if v in m && Same(m[v], a) then m - {v} else m
      case Deletes(v) => index.m == m - {v}
      case Purges(a) => index.m == map v | v in m && !(v < 64 && Same(m[v], a)) :: m[v]
    ensures fresh(index.lists.nodes - old(index.lists.nodes))
  {
    hide Index.Valid;
    match op
    case Adds(v, a) => var s := index.Add(v, a);
    case DeletesIf(v, a) => var s := index.DeleteIf(v, a);
    case Deletes(v) => var s := index.DeleteVnid(v);
    case Purges(a) => index.DeleteDuplicates(a);
  }

  /** The node found for a VNID is the one last learned or added for it. */
  lemma {:induction false} LastAddWins(ops: seq<Op>, v: nat) returns (i: nat)
    requires v in Effects(map[], ops)
    ensures i < |ops| && ops[i] == Adds(v, Effects(map[], ops)[v])
    ensures forall j :: i < j < |ops| ==> !(ops[j].Adds? && ops[j].vnid == v) && !(ops[j].Deletes? && ops[j].vnid == v)
    ensures forall j :: i < j < |ops| && ops[j].DeletesIf? && ops[j].vnid == v ==> !Same(ops[i].addr, ops[j].addr)
    ensures forall j :: i < j < |ops| && ops[j].Purges? && v < 64 ==> !Same(ops[i].addr, ops[j].addr)
  {
    var n := |ops| - 1;
    if ops[n].Adds? && ops[n].vnid == v {
      i := n;
    } else {
      i := LastAddWins(ops[..n], v);
      forall j | i < j < |ops|
        ensures !(ops[j].Adds? && ops[j].vnid == v) && !(ops[j].Deletes? && ops[j].vnid == v)
        ensures ops[j].DeletesIf? && ops[j].vnid == v ==> !Same(ops[i].addr, ops[j].addr)
        ensures ops[j].Purges? && v < SIZE ==> !Same(ops[i].addr, ops[j].addr)
      {
        if j < n {
          assert ops[j] == ops[..n][j];
        }
      }
    }
  }

  /** Whether the operation touches an entry v with the address a. */
  ghost predicate Touches(op: Op, v: nat, a: IpAddr)
  {
    match op
    case Adds(w, _) => w == v
    case DeletesIf(w, b) => w == v && Same(a, b)
    case Deletes(w) => w == v
    case Purges(b) => v < 64 && Same(a, b)
  }

  /** ... and it stays found, through any number of other operations, until one touches it. */
  lemma {:induction false} AddStays(m: Mapping, ops: seq<Op>, i: nat)
    requires i < |ops| && ops[i].Adds?
    requires forall j :: i < j < |ops| ==> !Touches(ops[j], ops[i].vnid, ops[i].addr)
    ensures ops[i].vnid in Effects(m, ops) && Effects(m, ops)[ops[i].vnid] == ops[i].addr
    decreases |ops|
  {
    var n := |ops| - 1;
    if i < n {
      assert forall j :: i < j < n ==> ops[..n][j] == ops[j];
      AddStays(m, ops[..n], i);
      assert !Touches(ops[n], ops[i].vnid, ops[i].addr);
    }
  }
}
