/** The Internet checksum of dove-switch.c against RFC 1071: a wide sum folded twice,
    versus the one's complement sum of 16-bit words. */
module Checksum {

  newtype Word16 = x: int | 0 <= x < 0x1_0000

  /** End-around-carry addition (section 1 of RFC 1071). */
  function OnesAdd(a: Word16, b: Word16): (r: Word16)
    ensures r as int == a as int + b as int || r as int == a as int + b as int - 0xFFFF
  {
    var s := a as int + b as int;
    if s > 0xFFFF then (s - 0xFFFF) as Word16 else s as Word16
  }

  /** The one's complement sum of the words. */
  function OnesSum(ws: seq<Word16>): Word16
  {
    if |ws| == 0 then 0 else OnesAdd(OnesSum(ws[..|ws| - 1]), ws[|ws| - 1])
  }

  function Complement(a: Word16): Word16
  {
    0xFFFF - a
  }

  /** The sum the loop accumulates. */
  function Sum(ws: seq<Word16>): (s: nat)
    ensures s <= 0xFFFF * |ws|
  {
    if |ws| == 0 then 0 else Sum(ws[..|ws| - 1]) + ws[|ws| - 1] as int
  }

  /** The two folds, and the truncation of ~sum to 16 bits. */
  function Folded(sum: nat): Word16
  {
    var once := sum / 0x1_0000 + sum % 0x1_0000;
    var twice := once + once / 0x1_0000;
    (0xFFFF - twice % 0x1_0000) as Word16
  }

  /** The words the loop reads: for an odd number of bytes the last one is read whole. */
  function Words(bytes: int): (w: nat)
    ensures if bytes <= 0 then w == 0 else bytes <= 2 * w <= bytes + 1
  {
    if bytes <= 0 then 0 else (bytes + 1) / 2
  }

  /** checksum */
  method Checksum(buffer: array<Word16>, bytes: int) returns (r: Word16)
    requires Words(bytes) <= buffer.Length && bytes < 0x8000_0000
    ensures r == Folded(Sum(buffer[..Words(bytes)]))
    ensures Words(bytes) <= 65538 ==> r == Internet(buffer[..Words(bytes)])
  {
    var sum: nat := 0;
    var i := bytes;
    var next := 0;
    while i > 0
      invariant i == bytes - 2 * next && 0 <= next <= buffer.Length
      invariant next == 0 || i >= -1
      invariant sum == Sum(buffer[..next])
    {
      assert buffer[..next + 1][..next] == buffer[..next];
      sum := sum + buffer[next] as int;
      next := next + 1;
      i := i - 2;
    }
    sum := sum / 0x1_0000 + sum % 0x1_0000;
    sum := sum + sum / 0x1_0000;
    r := (0xFFFF - sum % 0x1_0000) as Word16;
    assert next == Words(bytes);
    if next <= 65538 {
      TwoFoldsSufficeFor(buffer[..next]);
      FoldIsOnesComplement(buffer[..next]);
    }
  }

  const CSUM: nat := 5   // the word of ip_csum in an IPv4 header

  /** send_dhcp_reply: the field is cleared, the header summed, the field filled in. */
  method FillHeaderChecksum(header: array<Word16>)
    requires header.Length >= 10
    modifies header
    ensures OnesSum(header[..10]) == 0xFFFF
    ensures forall i :: 0 <= i < header.Length && i != 5 ==> header[i] == old(header[i])
  {
    ghost var pre, post := header[..5], header[6..10];
    header[CSUM] := 0;
    var c := Checksum(header, 20);
    assert header[..10] == pre + [0] + post;
    header[CSUM] := c;
    assert header[..10] == pre + [c] + post;
    VerifiesItself(pre, post);
  }

  // The two sums agree modulo 0xFFFF

  lemma {:induction false} SumsAgree(ws: seq<Word16>)
    ensures exists k: nat :: Sum(ws) == OnesSum(ws) as int + 0xFFFF * k
    ensures OnesSum(ws) == 0 <==> Sum(ws) == 0
  {
    if |ws| == 0 {
      assert Sum(ws) == OnesSum(ws) as int + 0xFFFF * 0;
    } else {
      var init, last := ws[..|ws| - 1], ws[|ws| - 1];
      SumsAgree(init);
      var k: nat :| Sum(init) == OnesSum(init) as int + 0xFFFF * k;
      var carry := if OnesSum(init) as int + last as int > 0xFFFF then 1 else 0;
      assert Sum(ws) == OnesSum(ws) as int + 0xFFFF * (k + carry);
    }
  }

  /** A 16-bit value is known from its residue modulo 0xFFFF and whether it is zero. */
  lemma SameResidue(a: int, b: int, k: int)
    requires 0 <= a <= 0xFFFF && 0 <= b <= 0xFFFF && a == b + 0xFFFF * k && (a == 0 <==> b == 0)
    ensures a == b
  {
  }

  /** Whether two folds bring a sum below 2^16 without losing a carry. */
  predicate TwoFoldsSuffice(sum: nat)
  {
    var once := sum / 0x1_0000 + sum % 0x1_0000;
    once / 0x1_0000 + once % 0x1_0000 < 0x1_0000
  }

  /** The program's result is the complement of the one's complement sum exactly when
      two folds suffice. */
  lemma FoldIsOnesComplement(ws: seq<Word16>)
    requires |ws| < 0x4000_0000   // the length in bytes is an int
    ensures Folded(Sum(ws)) == Complement(OnesSum(ws)) <==> TwoFoldsSuffice(Sum(ws))
  {
    SumsAgree(ws);
    var k: nat :| Sum(ws) == OnesSum(ws) as int + 0xFFFF * k;
    FoldResidue(Sum(ws), OnesSum(ws), k);
  }

  lemma FoldResidue(sum: nat, ones: Word16, k: nat)
    requires sum == ones as int + 0xFFFF * k && (ones == 0 <==> sum == 0) && sum < 0x4000_0000_0000
    ensures Folded(sum) == Complement(ones) <==> TwoFoldsSuffice(sum)
  {
    var q, r, c, d := Folds(sum);
    hide Folded, TwoFoldsSuffice;
    assert c + d == ones as int + 0xFFFF * (k - q - c);
    if c + d < 0x1_0000 {
      TopDropped(c, c + d);
      SameResidue(c + d, ones as int, k - q - c);
    } else {
      LostCarry(c, d, ones, k - q - c);
    }
  }

  /** The parts of the two folds. */
  lemma Folds(sum: nat) returns (q: nat, r: nat, c: nat, d: nat)
    ensures sum == 0x1_0000 * q + r && r < 0x1_0000
    ensures q + r == 0x1_0000 * c + d && d < 0x1_0000 && c <= q
    ensures Folded(sum) as int == 0xFFFF - (0x1_0000 * c + (c + d)) % 0x1_0000
    ensures TwoFoldsSuffice(sum) <==> c + d < 0x1_0000
  {
    q, r := sum / 0x1_0000, sum % 0x1_0000;
    c, d := (q + r) / 0x1_0000, (q + r) % 0x1_0000;
  }

  lemma TopDropped(c: nat, x: nat)
    requires x < 0x1_0000
    ensures (0x1_0000 * c + x) % 0x1_0000 == x
  {
  }

  /** A carry out of the second fold makes the result wrong. */
  lemma LostCarry(c: nat, d: nat, ones: Word16, k: int)
    requires d < 0x1_0000 && c + d >= 0x1_0000 && c < 0x4000_0000
    requires c + d == ones as int + 0xFFFF * k
    ensures (0x1_0000 * c + (c + d)) % 0x1_0000 != ones as int
  {
    var p, m := (c + d) / 0x1_0000, (c + d) % 0x1_0000;
    assert c + d == 0x1_0000 * p + m && 1 <= p < 0xFFFF;
    TopDropped(c + p, m);
    assert 0x1_0000 * c + (c + d) == 0x1_0000 * (c + p) + m;
    Coprime(p, k);
  }

  lemma Coprime(p: int, k: int)
    requires 1 <= p < 0xFFFF
    ensures 0x1_0000 * p != 0xFFFF * k
  {
    assert 0x1_0000 * p - 0xFFFF * k == p - 0xFFFF * (k - p);
  }

  /** Up to 65538 words two folds always suffice ... */
  lemma TwoFoldsSufficeFor(ws: seq<Word16>)
    requires |ws| <= 65538
    ensures TwoFoldsSuffice(Sum(ws))
  {
    var q, r := Sum(ws) / 0x1_0000, Sum(ws) % 0x1_0000;
    assert Sum(ws) <= 0x1_0000_FFFE;
    assert q <= 0x1_0000 && (q == 0x1_0000 ==> r <= 0xFFFE);
    Small(q + r);
  }

  lemma Small(once: nat)
    requires once <= 0x1_FFFE
    ensures once / 0x1_0000 + once % 0x1_0000 < 0x1_0000
  {
  }

  function Repeat(n: nat): (ws: seq<Word16>)
    ensures |ws| == n
  {
    if n == 0 then [] else Repeat(n - 1) + [0xFFFF]
  }

  lemma {:induction false} SumOfRepeat(n: nat)
    ensures Sum(Repeat(n)) == 0xFFFF * n
  {
    if n > 0 {
      SumOfRepeat(n - 1);
      assert Repeat(n)[..n - 1] == Repeat(n - 1);
    }
  }

  /** ... and 65539 words can be one too many. */
  lemma TwoFoldsCanFail()
    ensures exists ws :: |ws| == 65539 && !TwoFoldsSuffice(Sum(ws)) && Folded(Sum(ws)) != Complement(OnesSum(ws))
  {
    hide Repeat, Folded, TwoFoldsSuffice, OnesSum;
    var ws := Repeat(65538) + [1];
    SumOfRepeat(65538);
    assert ws[..65538] == Repeat(65538);
    assert Sum(ws) == 0x1_0000_FFFF;
    FailingSum();
    FoldIsOnesComplement(ws);
  }

  lemma FailingSum()
    ensures !TwoFoldsSuffice(0x1_0000_FFFF)
  {
  }

  /** The checksum of RFC 1071, wherever two folds suffice. */
  function Internet(ws: seq<Word16>): Word16
  {
    Complement(OnesSum(ws))
  }

  // Order of words and of bytes

  lemma {:induction false} SumAppend(xs: seq<Word16>, ys: seq<Word16>)
    ensures Sum(xs + ys) == Sum(xs) + Sum(ys)
  {
    if |ys| == 0 {
      assert xs + ys == xs;
    } else {
      var n := |ys| - 1;
      SumAppend(xs, ys[..n]);
      assert (xs + ys)[..|xs + ys| - 1] == xs + ys[..n];
    }
  }

  /** The one's complement sum depends on the plain sum only. */
  lemma OnesSumFromSum(xs: seq<Word16>, ys: seq<Word16>, k: int)
    requires Sum(xs) == Sum(ys) + 0xFFFF * k && (Sum(xs) == 0 <==> Sum(ys) == 0)
    ensures OnesSum(xs) == OnesSum(ys)
  {
    SumsAgree(xs);
    SumsAgree(ys);
    var i: nat :| Sum(xs) == OnesSum(xs) as int + 0xFFFF * i;
    var j: nat :| Sum(ys) == OnesSum(ys) as int + 0xFFFF * j;
    SameResidue(OnesSum(xs) as int, OnesSum(ys) as int, j - i + k);
  }

  /** A header whose checksum field, zero when the checksum was computed, now holds it
      sums to 0xFFFF: what the receiver checks (section 3.1 of RFC 791). */
  lemma VerifiesItself(pre: seq<Word16>, post: seq<Word16>)
    ensures OnesSum(pre + [Internet(pre + [0] + post)] + post) == 0xFFFF
  {
    var zero := pre + [0] + post;
    var c := Internet(zero);
    var full := pre + [c] + post;
    SumAppend(pre + [0], post);
    SumAppend(pre, [0]);
    SumAppend(pre + [c], post);
    SumAppend(pre, [c]);
    assert Sum([c]) == c as int && Sum([0 as Word16]) == 0;
    SumsAgree(zero);
    var k: nat :| Sum(zero) == OnesSum(zero) as int + 0xFFFF * k;
    assert Sum(full) == 0xFFFF * (k + 1);
    assert Sum([0xFFFF as Word16]) == 0xFFFF;
    assert OnesSum([0xFFFF as Word16]) == OnesAdd(0, 0xFFFF);
    OnesSumFromSum(full, [0xFFFF], k);
  }

  function Swap(a: Word16): Word16
  {
    a % 256 * 256 + a / 256
  }

  function Swapped(ws: seq<Word16>): (r: seq<Word16>)
    ensures |r| == |ws|
  {
    if |ws| == 0 then [] else Swapped(ws[..|ws| - 1]) + [Swap(ws[|ws| - 1])]
  }

  /** Swapping bytes multiplies by 256 modulo 0xFFFF. */
  lemma SwapIsTimes256(a: Word16)
    ensures 256 * (a as int) == Swap(a) as int + 0xFFFF * (a as int / 256)
    ensures Swap(a) == 0 <==> a == 0
  {
  }

  lemma {:induction false} SwappedSum(ws: seq<Word16>) returns (k: nat)
    ensures 256 * Sum(ws) == Sum(Swapped(ws)) + 0xFFFF * k
    ensures Sum(Swapped(ws)) == 0 <==> Sum(ws) == 0
  {
    if |ws| == 0 {
      k := 0;
    } else {
      var n := |ws| - 1;
      k := SwappedSum(ws[..n]);
      SwapIsTimes256(ws[n]);
      assert Swapped(ws)[..n] == Swapped(ws[..n]);
      k := k + ws[n] as int / 256;
    }
  }

  /** Byte order does not matter: the checksum of the swapped words is the swapped
      checksum (section 2(B) of RFC 1071). */
  lemma ByteOrderIndependent(ws: seq<Word16>)
    ensures Internet(Swapped(ws)) == Swap(Internet(ws))
  {
    var k := SwappedSum(ws);
    var ones := OnesSum(ws);
    SumsAgree(ws);
    var j: nat :| Sum(ws) == ones as int + 0xFFFF * j;
    SumsAgree(Swapped(ws));
    var i: nat :| Sum(Swapped(ws)) == OnesSum(Swapped(ws)) as int + 0xFFFF * i;
    SwapIsTimes256(ones);
    SameResidue(OnesSum(Swapped(ws)) as int, Swap(ones) as int, 256 * j + ones as int / 256 - k - i);
    SwapOfComplement(ones);
  }

  lemma SwapOfComplement(a: Word16)
    ensures Swap(Complement(a)) == Complement(Swap(a))
  {
  }

  /** A buffer of odd length is not padded with zero, as section 2 of RFC 1071 has it: the
      byte behind it is summed too. In memory order that byte is the high half of the last
      word, and the checksum is the padded one if and only if it is zero. */
  lemma OddLength(ws: seq<Word16>, last: Word16, behind: Word16)
    requires last < 256 && behind < 256
    ensures Internet(ws + [last + 256 * behind]) == Internet(ws + [last]) <==> behind == 0
  {
    var xs, ys := ws + [last + 256 * behind], ws + [last];
    assert xs[..|ws|] == ws && ys[..|ws|] == ws;
    hide OnesSum;
    SumsAgree(xs);
    SumsAgree(ys);
    var i: nat :| Sum(xs) == OnesSum(xs) as int + 0xFFFF * i;
    var j: nat :| Sum(ys) == OnesSum(ys) as int + 0xFFFF * j;
    assert Sum(xs) == Sum(ys) + 256 * behind as int;
    if OnesSum(xs) == OnesSum(ys) {
      assert 256 * behind as int == 0xFFFF * (i - j);
    }
  }
}
