/** What the VNID to server-node index of dps_client_ctrl.c means: a map, and what its
    operations do to a map. */
module VnidMap {

  const AF_INET: nat := 2
  const AF_INET6: nat := 10
  const SOCK_DGRAM: nat := 2
  const SIZE: nat := 64        // 1 << VNID_NODE_MAPPING_HASH_BITS

  /** ip_addr_s. The IPv4 address shares the first four bytes of the IPv6 address;
      `rest` is the other twelve. */
  datatype IpAddr = IpAddr(family: nat, port: nat, xport: nat, http: nat, ip4: nat, rest: seq<nat>)

  type Mapping = map<nat, IpAddr>

  /** dps_vnid_entries_eq */
  predicate Same(a: IpAddr, b: IpAddr)
  {
    && a.family == b.family && a.port == b.port && a.xport == b.xport
    && a.ip4 == b.ip4 && (a.family != AF_INET ==> a.rest == b.rest)
  }

  /** Two addresses are the same server exactly if they agree in everything but the http port
      and, for IPv4, the bytes after the address. */
  lemma SameIs(a: IpAddr, b: IpAddr)
    ensures Same(a, b) <==> a == b.(http := a.http, rest := if a.family == 2 then a.rest else b.rest)
  {
  }

  /** How dps_server_add recognises the server it already has. */
  predicate SameSeed(a: IpAddr, b: IpAddr)
  {
    a.family == b.family && a.ip4 == b.ip4 && a.port == b.port
  }

  /** dps_vnid_node_mapping_entry_del */
  ghost function Del(m: Mapping, v: nat, a: IpAddr): Mapping
  {
    if v in m && Same(m[v], a) then m - {v} else m
  }

  /** dps_vnid_node_mapping_del_dup_node: deletes for VNIDs below n. */
  ghost function DelBelow(m: Mapping, n: nat, a: IpAddr): Mapping
  {
    if n == 0 then m else Del(DelBelow(m, n - 1, a), n - 1, a)
  }

  /** What that loop leaves. */
  ghost function Purged(m: Mapping, a: IpAddr): Mapping
  {
    map v | v in m && !(v < SIZE && Same(m[v], a)) :: m[v]
  }

  lemma {:induction false} DelBelowIs(m: Mapping, n: nat, a: IpAddr)
    ensures DelBelow(m, n, a) == map v | v in m && !(v < n && Same(m[v], a)) :: m[v]
  {
    if n > 0 {
      DelBelowIs(m, n - 1, a);
    }
  }

  /** The documented purge of a server from the whole table happens exactly when no
      VNID from 64 on maps to it: the loop runs over VNIDs, not over buckets. */
  lemma PurgeIsComplete(m: Mapping, a: IpAddr)
    ensures (forall v :: v in Purged(m, a) ==> !Same(Purged(m, a)[v], a))
       <==> (forall v :: v in m && 64 <= v ==> !Same(m[v], a))
  {
    var p := Purged(m, a);
    if v :| v in m && SIZE <= v && Same(m[v], a) {
      assert v in p && p[v] == m[v];
    }
  }

  lemma PurgeCanMiss(a: IpAddr)
    ensures var m: Mapping := map[64 := a]; Purged(m, a) == m && Same(m[64], a)
  {
  }

  // The hash

  /** hash = ((hash << 5) + hash) + byte, in 32 bits */
  function Mix(h: nat, byte: nat): nat
  {
    (h * 32 % 0x1_0000_0000 + h + byte) % 0x1_0000_0000
  }

  function Djb2From(data: seq<nat>, h: nat): nat
  {
    if |data| == 0 then h else Djb2From(data[1..], Mix(h, data[0]))
  }

  function Djb2(data: seq<nat>): nat
  {
    Djb2From(data, 5381)
  }

  /** The bytes of a VNID as they lie in memory (little endian). */
  function Bytes(v: nat): (bs: seq<nat>)
    ensures |bs| == 4
  {
    [v % 256, v / 256 % 256, v / 65536 % 256, v / 16777216 % 256]
  }

  lemma BytesAreOf(v: nat)
    requires v < 0x1_0000_0000
    ensures var bs := Bytes(v);
            && bs[0] < 256 && bs[1] < 256 && bs[2] < 256 && bs[3] < 256
            && v == bs[0] + 0x100 * bs[1] + 0x1_0000 * bs[2] + 0x100_0000 * bs[3]
  {
    var a, b, c := v / 256, v / 65536, v / 16777216;
    assert v == 256 * a + v % 256;
    assert b == a / 256 && c == b / 256;
    assert a == 256 * b + a % 256 && b == 256 * c + b % 256 && c < 256;
  }

  /** get_hlist_head */
  function BucketOf(v: nat): (k: nat)
    ensures k < SIZE
  {
    Djb2(Bytes(v)) % SIZE
  }

  lemma MixMod64(h: nat, byte: nat)
    ensures Mix(h, byte) % SIZE == (33 * (h % SIZE) + byte) % SIZE
  {
    var q := h * 32 / 0x1_0000_0000;
    var x := h * 32 % 0x1_0000_0000 + h + byte;
    var p := x / 0x1_0000_0000;
    var a := h / 64;
    assert Mix(h, byte) == 33 * (h % 64) + byte + 64 * (33 * a - 0x400_0000 * (q + p)) by {
      assert h * 32 % 0x1_0000_0000 == h * 32 - 0x1_0000_0000 * q;
      assert x % 0x1_0000_0000 == x - 0x1_0000_0000 * p;
      assert h == 64 * a + h % 64;
    }
    SameMod64(Mix(h, byte), 33 * (h % 64) + byte, 33 * a - 0x400_0000 * (q + p));
  }

  lemma FourRounds(b0: nat, b1: nat, b2: nat, b3: nat)
    ensures Djb2([b0, b1, b2, b3]) == Mix(Mix(Mix(Mix(5381, b0), b1), b2), b3)
  {
    hide Mix;
    var h1 := Mix(5381, b0);
    var h2 := Mix(h1, b1);
    var h3 := Mix(h2, b2);
    assert [b0, b1, b2, b3][1..] == [b1, b2, b3];
    assert [b1, b2, b3][1..] == [b2, b3];
    assert [b2, b3][1..] == [b3];
    assert [b3][1..] == [];
    assert Djb2From([b3], h3) == Djb2From([], Mix(h3, b3));
    assert Djb2From([b2, b3], h2) == Djb2From([b3], h3);
    assert Djb2From([b1, b2, b3], h1) == Djb2From([b2, b3], h2);
  }

  /** The bucket of a VNID is the sum of its bytes plus 5, with half a turn more when
      its first and third byte differ in parity. */
  lemma BucketIsByteSum(v: nat)
    ensures var bs := Bytes(v);
            BucketOf(v) == (5 + bs[0] + bs[1] + bs[2] + bs[3] + 32 * (bs[0] + bs[2])) % 64
  {
    hide Mix, Bytes, Djb2From;
    var bs := Bytes(v);
    assert bs == [bs[0], bs[1], bs[2], bs[3]];
    var h1 := Mix(5381, bs[0]);
    var h2 := Mix(h1, bs[1]);
    var h3 := Mix(h2, bs[2]);
    FourRounds(bs[0], bs[1], bs[2], bs[3]);
    MixMod64(5381, bs[0]);
    MixMod64(h1, bs[1]);
    MixMod64(h2, bs[2]);
    MixMod64(h3, bs[3]);
    hide Djb2;
    RoundsMod64(bs[0], bs[1], bs[2], bs[3], h1 % 64, h2 % 64, h3 % 64);
  }

  lemma RoundsMod64(b0: nat, b1: nat, b2: nat, b3: nat, h1: nat, h2: nat, h3: nat)
    requires h1 == (33 * 5 + b0) % 64 && h2 == (33 * h1 + b1) % 64 && h3 == (33 * h2 + b2) % 64
    ensures (33 * h3 + b3) % 64 == (5 + b0 + b1 + b2 + b3 + 32 * (b0 + b2)) % 64
  {
    var q1, q2, q3 := (33 * 5 + b0) / 64, (33 * h1 + b1) / 64, (33 * h2 + b2) / 64;
    assert h1 == 165 + b0 - 64 * q1 && h2 == 33 * h1 + b1 - 64 * q2 && h3 == 33 * h2 + b2 - 64 * q3;
    SameMod64(33 * h3 + b3, 5 + b0 + b1 + b2 + b3 + 32 * (b0 + b2),
              92650 + 561 * b0 + 17 * b1 - 35937 * q1 - 1089 * q2 - 33 * q3);
  }

  lemma SameMod64(x: int, y: int, k: int)
    requires x == y + 64 * k
    ensures x % 64 == y % 64
  {
  }

  lemma SmallBytes(v: nat)
    requires v < 256
    ensures Bytes(v) == [v, 0, 0, 0]
  {
  }

  lemma BucketOfSmall(v: nat)
    requires v < SIZE
    ensures BucketOf(v) == (5 + v + 32 * (v % 2)) % SIZE
  {
    hide BucketOf, Djb2;
    SmallBytes(v);
    hide Bytes;
    BucketIsByteSum(v);
    SameMod64(5 + v + 32 * v, 5 + v + 32 * (v % 2), v / 2);
  }

  /** The VNIDs that del_dup_node tries fall one into each bucket. */
  lemma LoopHitsEachBucketOnce(v: nat, w: nat)
    requires v < w < 64
    ensures BucketOf(v) != BucketOf(w)
  {
    hide BucketOf;
    BucketOfSmall(v);
    BucketOfSmall(w);
    OddTurns(v, w, v % 2, w % 2);
  }

  lemma OddTurns(v: nat, w: nat, p: nat, q: nat)
    requires v < 64 && w < 64 && p == v % 2 && q == w % 2
    ensures (5 + v + 32 * p) % 64 == (5 + w + 32 * q) % 64 ==> v == w
  {
    var x, y := 5 + v + 32 * p, 5 + w + 32 * q;
    var k := y / 64 - x / 64;
    if x % 64 == y % 64 {
      assert y - x == 64 * k;
      assert w - v == 2 * (32 * k - 16 * (q - p));
      assert p == q;
    }
  }
}
