/** The client's view of its policy servers: the seed server under VNID 0, its
    replacement, and the throttled request for a new one (dps_client_ctrl.c). */
module DpsClient {
  import opened HList
  import opened VnidMap
  import opened VnidTable

  /** What dps_server_add makes of the map when it already has a socket. */
  ghost function Reseeded(m: Mapping, node: IpAddr): Mapping
  {
    if 0 !in m then m[0 := node]
    else if SameSeed(node, m[0]) then m
    else Purged(m, m[0])[0 := node]
  }

  /** After a replacement VNID 0 is on the new server, no VNID below 64 is on the old one,
      and nothing else has changed. */
  lemma ReplacementIsLocal(m: Mapping, node: IpAddr, v: nat)
    requires 0 in m && !SameSeed(node, m[0])
    ensures var r := Reseeded(m, node);
            && 0 in r && r[0] == node
            && (v in r && v < 64 ==> !Same(r[v], m[0]))
            && (v != 0 && !(v < 64 && v in m && Same(m[v], m[0])) ==> (v in r <==> v in m) && (v in m ==> r[v] == m[v]))
  {
  }

  /** All that can happen to a client in use: the server under VNID 0 is the same by its family,
      the first four bytes of its address and its port, and nothing changes; or VNID 0 is free
      and gets the node; or it gets the node and the old server leaves the VNIDs below 64. */
  lemma ReseededIs(m: Mapping, node: IpAddr, v: nat)
    ensures var r := Reseeded(m, node);
      if 0 in m && node.family == m[0].family && node.ip4 == m[0].ip4 && node.port == m[0].port then r == m
      else
        && 0 in r && r[0] == node
        && (v != 0 ==> (v in r <==> v in m && !(0 in m && v < 64 && Same(m[v], m[0]))) && (v in r ==> r[v] == m[v]))
  {
  }

  /** Afterwards VNID 0 is on the new server, as the table itself compares servers, unless
      and only unless it is taken for the one already there although the transport or, for
      IPv6, the rest of the address differs. */
  lemma TakesOver(m: Mapping, node: IpAddr)
    ensures var r := Reseeded(m, node);
            0 in r &&
            (Same(r[0], node) <==>
               !(0 in m && SameSeed(node, m[0])
                 && (node.xport != m[0].xport || (node.family != AF_INET && node.rest != m[0].rest))))
  {
  }

  lemma Ipv6SeedCanBeIgnored(a: IpAddr, rest: seq<nat>)
    requires a.family == AF_INET6 && rest != a.rest
    ensures !Same(a.(rest := rest), a) && Reseeded(map[0 := a], a.(rest := rest)) == map[0 := a]
  {
  }

  class Client {
    const index: Index
    var inUse: bool
    var lastSent: int

    const INTERVAL: int := 132   // DpsReqNewNodeInterval

    ghost predicate Valid()
      reads this, index, index.lists, index.lists.heads, index.lists.nodes
    {
      index.Valid()
    }

    constructor ()
      ensures Valid() && index.m == map[] && !inUse && lastSent == 0
      ensures fresh(index) && fresh(index.lists) && fresh(index.lists.heads) && fresh(index.lists.nodes)
    {
      index := new Index();
      inUse, lastSent := false, 0;
    }

    /** dps_server_add. The outcomes of socket, fcntl and fd_process_add_fd are inputs. */
    method ServerAdd(node: IpAddr, socketOk: bool, fcntlOk: bool, pollOk: bool) returns (status: Status)
      requires Valid()
      modifies this`inUse, index, index.lists, index.lists.heads, index.lists.nodes
      ensures Valid() && fresh(index.lists.nodes - old(index.lists.nodes))
      ensures old(inUse) ==> status == Success && inUse && index.m == Reseeded(old(index.m), node)
      ensures old(inUse) ==>
        var m, r := old(index.m), index.m;
        if 0 in m && node.family == m[0].family && node.ip4 == m[0].ip4 && node.port == m[0].port then r == m
        else if 0 !in m then r == m[0 := node]
        else
          && 0 in r && r[0] == node
          && forall v :: v != 0 ==>
               && (v in r <==> v in m && !(v < 64 && Same(m[v], m[0])))
               && (v in r ==> r[v] == m[v])
      ensures !old(inUse) ==>
        var opens := node.xport == 2;   // SOCK_DGRAM
        && index.m == (if opens && socketOk && fcntlOk && pollOk then old(index.m)[0 := node] else old(index.m))
        && inUse == !(opens && (!socketOk || (fcntlOk && !pollOk)))
        && status == if opens && !socketOk then NoResources
                     else if opens && fcntlOk && !pollOk then Error else Success
    {
      hide Index.Valid;
      status := Success;
      if inUse {
        var found, seed := index.Search(0);
        if found == Success {
          if !(node.family == seed.family && node.ip4 == seed.ip4 && node.port == seed.port) {
            index.DeleteDuplicates(seed);
            var s := index.Add(0, node);
          }
        } else {
          var s := index.Add(0, node);
        }
      } else {
        inUse := true;
        if node.xport == SOCK_DGRAM {
          if !socketOk {
            inUse := false;
            return NoResources;
          }
          if !fcntlOk {
            return;
          }
          if pollOk {
            var s := index.Add(0, node);
            return Success;
          }
          status := Error;
          inUse := false;
        }
      }
    }

    /** dps_server_del */
    method ServerDel(node: IpAddr)
      requires Valid()
      modifies index, index.lists.heads, index.lists.nodes
      ensures Valid() && index.m == Purged(old(index.m), node)
      ensures forall v :: (v in index.m <==> v in old(index.m) && !(v < 64 && Same(old(index.m)[v], node)))
                       && (v in index.m ==> index.m[v] == old(index.m)[v])
    {
      hide Index.Valid;
      index.DeleteDuplicates(node);
    }

    /** dps_req_new_dps_node: the VNID is forgotten, and at most one request goes out in
        any 132 seconds. */
    method RequestNewNode(v: nat, now: int) returns (requested: bool)
      requires Valid()
      modifies this`lastSent, index, index.lists.heads, index.lists.nodes
      ensures Valid() && index.m == old(index.m) - {v}
      ensures requested <==> now - old(lastSent) >= 132
      ensures lastSent == if requested then now else old(lastSent)
    {
      hide Index.Valid;
      var s := index.DeleteVnid(v);
      requested := now - lastSent >= INTERVAL;
      if requested {
        lastSent := now;
      }
    }
  }
}
