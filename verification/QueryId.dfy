/** raw_proto_query_id_generate and the bucket index computed from its ids. */
module QueryId {

  const UINT_MAX: nat := 0xFFFF_FFFF

  /** One call: the static counter is also the id returned. */
  function NextId(q: nat): (r: nat)
    requires q <= UINT_MAX
    ensures 1 <= r <= 4294967295
  {
    if q == UINT_MAX then 1 else q + 1
  }

  /** The id of the n-th call, counting from 1; the counter starts at 0. */
  function Id(n: nat): (q: nat)
    ensures q <= UINT_MAX && (n > 0 ==> 1 <= q)
  {
    if n == 0 then 0 else NextId(Id(n - 1))
  }

  lemma {:induction false} IdIsCyclic(n: nat)
    requires n > 0
    ensures Id(n) == 1 + (n - 1) % 4294967295
  {
    if n > 1 {
      IdIsCyclic(n - 1);
    }
  }

  /** Ids repeat exactly after a whole cycle of the counter, which skips 0. */
  lemma IdsAreUnique(m: nat, n: nat)
    requires 0 < m <= n
    ensures Id(m) == Id(n) <==> (n - m) % 4294967295 == 0
  {
    hide Id;
    IdIsCyclic(m);
    IdIsCyclic(n);
    SameResidue(m - 1, n - 1);
  }

  lemma SameResidue(a: nat, b: nat)
    requires a <= b
    ensures a % UINT_MAX == b % UINT_MAX <==> (b - a) % UINT_MAX == 0
  {
    var q, r := a / UINT_MAX, a % UINT_MAX;
    var p, s := b / UINT_MAX, b % UINT_MAX;
    assert a == q * UINT_MAX + r && b == p * UINT_MAX + s;
    assert b - a == (p - q) * UINT_MAX + (s - r);
  }

  /** An unsigned id passed as an int. */
  function AsInt(q: nat): int
    requires q <= UINT_MAX
  {
    if q < 0x8000_0000 then q else q - 0x1_0000_0000
  }

  /** hash: the remainder of C, which takes the sign of the key. */
  function Hash(key: int): int
  {
    if key >= 0 then key % 1000 else -(-key % 1000)
  }

  /** The generated id is a valid bucket index exactly below 2^31, or when the negative
      key happens to be a multiple of the table size. */
  lemma HashInRange(q: nat)
    requires q <= 4294967295
    ensures 0 <= Hash(AsInt(q)) < 1000 <==> q < 0x8000_0000 || (0x1_0000_0000 - q) % 1000 == 0
  {
  }
}
