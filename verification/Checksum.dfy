/** The Internet checksum of RFC 1071, as in_cksum computes it with a 32-bit accumulator. */
module Checksum {
  import opened Common

  /** How the host stores a 16-bit word. */
  datatype Order = Little | Big

  function Word(order: Order, first: byte, second: byte): (w: int)
    ensures 0 <= w < 65536
  {
    match order
    case Little => first + 256 * second
    case Big => 256 * first + second
  }

  /** The two bytes of a word in memory. */
  function Stored(order: Order, w: int): (b: seq<byte>)
    requires 0 <= w < 65536
    ensures |b| == 2 && Word(order, b[0], b[1]) == w
  {
    match order
    case Little => [w % 256, w / 256]
    case Big => [w / 256, w % 256]
  }

  /** The exact sum of the words of the data; a last odd byte comes first in a word of its own. */
  function WordSum(order: Order, b: seq<byte>): nat {
    if |b| == 0 then 0
    else if |b| == 1 then Word(order, b[0], 0)
    else Word(order, b[0], b[1]) + WordSum(order, b[2..])
  }

  /** RFC 1071: r is the complement of the ones' complement sum, which is 0 only for all-zero data. */
  predicate IsChecksumOf(r: int, sum: nat) {
    0 <= r <= 65535 && (65535 - r) % 65535 == sum % 65535 && (r == 65535 <==> sum == 0)
  }

  /** The two folds of the accumulator, truncated to 16 bits. */
  function Folded(sum: int): (f: int)
    requires 0 <= sum < TWO_TO_THE_32
    ensures 0 <= f < 65536
  {
    var once := sum / 65536 + sum % 65536;
    (once + once / 65536) % 65536
  }

  /** What a 32-bit accumulator keeps of a sum. */
  function Kept(sum: nat): (r: int)
    ensures 0 <= r < TWO_TO_THE_32
  {
    sum % TWO_TO_THE_32
  }

  /** Addition in the uint32_t accumulator. */
  function Add32(sum: int, w: int): (r: int)
    requires 0 <= sum < TWO_TO_THE_32 && 0 <= w < TWO_TO_THE_32
    ensures 0 <= r < TWO_TO_THE_32
  {
    (sum + w) % TWO_TO_THE_32
  }

  /** What in_cksum returns: the accumulator may have wrapped. */
  function Cksum(order: Order, b: seq<byte>): (r: int)
    ensures 0 <= r < 65536
  {
    65535 - Folded(Kept(WordSum(order, b)))
  }

  /** in_cksum over len bytes at the start of a buffer. */
  method InCksum(order: Order, addr: array<byte>, len: nat) returns (answer: int)
    requires len <= addr.Length
    ensures answer == Cksum(order, addr[..len])
  {
    hide WordSum, Folded, Word, Cksum, Add32, Kept;
    var nleft, w, sum := len, 0, 0;
    ghost var exact: nat := 0;
    KeptZero();
    assert addr[0..len] == addr[..len];
    while nleft > 1
      invariant 0 <= w <= len && nleft == len - w
      invariant sum == Kept(exact)
      invariant exact + WordSum(order, addr[w..len]) == WordSum(order, addr[..len])
      decreases nleft
    {
      SumStep(order, addr[w..len]);
      assert addr[w..len][2..] == addr[w + 2..len];
      AddMod(exact, Word(order, addr[w], addr[w + 1]));
      exact := exact + Word(order, addr[w], addr[w + 1]);
      sum := Add32(sum, Word(order, addr[w], addr[w + 1]));
      w, nleft := w + 2, nleft - 2;
    }
    SumEnd(order, addr[w..len]);
    if nleft == 1 {
      AddMod(exact, Word(order, addr[w], 0));
      exact := exact + Word(order, addr[w], 0);
      sum := Add32(sum, Word(order, addr[w], 0));
    }
    assert exact == WordSum(order, addr[..len]);
    CksumIs(order, addr[..len]);
    sum := sum / 65536 + sum % 65536;
    sum := Add32(sum, sum / 65536);
    answer := 65535 - sum % 65536;
  }

  lemma KeptZero()
    ensures Kept(0) == 0
  {
  }

  lemma SumStep(order: Order, b: seq<byte>)
    requires |b| > 1
    ensures WordSum(order, b) == Word(order, b[0], b[1]) + WordSum(order, b[2..])
  {
  }

  lemma SumEnd(order: Order, b: seq<byte>)
    requires |b| <= 1
    ensures WordSum(order, b) == if |b| == 1 then Word(order, b[0], 0) else 0
  {
  }

  lemma CksumIs(order: Order, b: seq<byte>)
    ensures var sum := Kept(WordSum(order, b));
            var once := sum / 65536 + sum % 65536;
            Cksum(order, b) == 65535 - Add32(once, once / 65536) % 65536
  {
    hide WordSum, Kept;
  }

  lemma CksumSmall(order: Order, b: seq<byte>)
    requires WordSum(order, b) < TWO_TO_THE_32
    ensures Cksum(order, b) == 65535 - Folded(WordSum(order, b))
  {
    hide WordSum, Folded;
  }

  lemma AddMod(x: nat, y: nat)
    requires y < TWO_TO_THE_32
    ensures Add32(Kept(x), y) == Kept(x + y)
  {
    assert x == TWO_TO_THE_32 * (x / TWO_TO_THE_32) + x % TWO_TO_THE_32;
  }

  /** The folds keep the value modulo 65535 and leave no carry behind. */
  lemma FoldKeepsValue(sum: nat)
    requires sum < TWO_TO_THE_32
    ensures Folded(sum) % 65535 == sum % 65535 && (Folded(sum) == 0 <==> sum == 0)
    ensures IsChecksumOf(65535 - Folded(sum), sum)
  {
    var h, l := sum / 65536, sum % 65536;
    var once := h + l;
    Congruent(once, h);
    assert sum == once + 65535 * h;
    var c := once / 65536;
    assert once == 65536 * c + once % 65536 && (c == 0 || c == 1);
    assert Folded(sum) == once - 65535 * c;
    Congruent(Folded(sum), c);
  }

  lemma Congruent(x: nat, k: nat)
    ensures (x + 65535 * k) % 65535 == x % 65535
  {
    var q, r := x / 65535, x % 65535;
    assert x + 65535 * k == 65535 * (q + k) + r;
  }

  lemma ChecksumIsUnique(r: int, r': int, sum: nat)
    requires IsChecksumOf(r, sum) && IsChecksumOf(r', sum)
    ensures r == r'
  {
    assert r < 65535 ==> r % 65535 == r && (65535 - r) % 65535 == if r == 0 then 0 else 65535 - r;
    assert r' < 65535 ==> r' % 65535 == r' && (65535 - r') % 65535 == if r' == 0 then 0 else 65535 - r';
  }

  lemma {:induction false} SumBound(order: Order, b: seq<byte>)
    ensures 2 * WordSum(order, b) <= 65535 * (|b| + 1)
    ensures |b| % 2 == 0 ==> 2 * WordSum(order, b) <= 65535 * |b|
  {
    if |b| >= 2 {
      SumBound(order, b[2..]);
    }
  }

  /** No accumulator wraps for up to 131074 bytes, so every IP datagram is summed exactly. */
  lemma NeverWraps(order: Order, b: seq<byte>)
    requires |b| <= 131074
    ensures WordSum(order, b) < TWO_TO_THE_32 && IsChecksumOf(Cksum(order, b), WordSum(order, b))
  {
    hide WordSum, Folded, Cksum, IsChecksumOf;
    SumBound(order, b);
    CksumSmall(order, b);
    FoldKeepsValue(WordSum(order, b));
  }

  /** For every length an int can hold, the result is the checksum exactly when the sum fits the accumulator. */
  lemma CorrectUnlessWrapped(order: Order, b: seq<byte>)
    requires |b| < 0x8000_0000
    ensures IsChecksumOf(Cksum(order, b), WordSum(order, b)) <==> WordSum(order, b) < TWO_TO_THE_32
  {
    hide WordSum;
    var sum := WordSum(order, b);
    SumBound(order, b);
    var q, kept := sum / TWO_TO_THE_32, sum % TWO_TO_THE_32;
    FoldKeepsValue(kept);
    if q > 0 && IsChecksumOf(Cksum(order, b), sum) {
      assert sum == kept + q + 65535 * (65537 * q);
      Congruent(kept + q, 65537 * q);
      assert (kept + q) % 65535 == kept % 65535 && 0 < q < 65535;
      Shifted(kept, q);
    }
  }

  lemma Shifted(x: nat, q: nat)
    requires 0 < q < 65535
    ensures (x + q) % 65535 != x % 65535
  {
    var k, r := x / 65535, x % 65535;
    assert x + q == 65535 * k + (r + q);
    Congruent(r + q, k);
    assert r + q < 65535 || (r + q) % 65535 == r + q - 65535;
  }

  function Ones(n: nat): seq<byte> {
    seq(n, _ => 255)
  }

  lemma {:induction false} SumOfOnes(order: Order, n: nat)
    ensures WordSum(order, Ones(2 * n)) == 65535 * n
  {
    if n > 0 {
      assert Ones(2 * n)[2..] == Ones(2 * (n - 1));
      SumOfOnes(order, n - 1);
    }
  }

  lemma WrappedOnes()
    ensures Kept(65535 * 65538) == 65534 && Add32(65534, 0) == 65534
  {
  }

  /** The bound is tight: two bytes more, and the checksum of all-ones data is 1 instead of 0. */
  lemma WrapsAt131076(order: Order)
    ensures Cksum(order, Ones(131076)) == 1 && IsChecksumOf(0, WordSum(order, Ones(131076)))
  {
    hide WordSum, Ones, Cksum, Kept, Add32;
    SumOfOnes(order, 65538);
    CksumIs(order, Ones(131076));
    WrappedOnes();
  }

  /** An odd last byte counts as if a zero byte followed it. */
  lemma {:induction false} OddTailIsPadded(order: Order, b: seq<byte>)
    requires |b| % 2 == 1
    ensures WordSum(order, b + [0]) == WordSum(order, b) && Cksum(order, b + [0]) == Cksum(order, b)
  {
    if |b| == 1 {
      assert (b + [0])[2..] == [];
    } else {
      OddTailIsPadded(order, b[2..]);
      assert (b + [0])[2..] == b[2..] + [0];
    }
  }

  lemma {:induction false} SumOfParts(order: Order, a: seq<byte>, b: seq<byte>)
    requires |a| % 2 == 0
    ensures WordSum(order, a + b) == WordSum(order, a) + WordSum(order, b)
  {
    if |a| == 0 {
      assert a + b == b;
    } else {
      SumOfParts(order, a[2..], b);
      assert (a + b)[2..] == a[2..] + b;
    }
  }

  /** The sum, pair by pair: a host of the big order takes the first byte of a pair as the high one, one of the little
      order the second; a single last byte is the first of a pair; and the parts of the data add up. */
  lemma SumLaws(a: seq<byte>, b: seq<byte>, x: byte, y: byte)
    requires |a| % 2 == 0
    ensures WordSum(Big, [x, y]) == 256 * x + y && WordSum(Little, [x, y]) == x + 256 * y
    ensures WordSum(Big, [x]) == 256 * x && WordSum(Little, [x]) == x
    ensures forall order :: WordSum(order, []) == 0 && WordSum(order, a + b) == WordSum(order, a) + WordSum(order, b)
  {
    hide WordSum;
    forall order: Order
      ensures WordSum(order, []) == 0 && WordSum(order, a + b) == WordSum(order, a) + WordSum(order, b)
    {
      SumEnd(order, []);
      SumOfParts(order, a, b);
    }
    SumStep(Big, [x, y]);
    SumStep(Little, [x, y]);
    SumEnd(Big, [x]);
    SumEnd(Little, [x]);
    assert [x, y][2..] == [];
    SumEnd(Big, []);
    SumEnd(Little, []);
  }

  /** The data with the 16-bit field at offset i holding w. */
  function WithField(order: Order, b: seq<byte>, i: nat, w: int): (r: seq<byte>)
    requires i + 1 < |b| && 0 <= w < 65536
    ensures |r| == |b|
  {
    b[..i] + Stored(order, w) + b[i + 2..]
  }

  lemma SumWithField(order: Order, b: seq<byte>, i: nat, w: int)
    requires i + 1 < |b| && i % 2 == 0 && 0 <= w < 65536
    ensures WordSum(order, WithField(order, b, i, w))
         == WordSum(order, b[..i]) + w + WordSum(order, b[i + 2..])
  {
    var field := Stored(order, w);
    assert WithField(order, b, i, w) == b[..i] + (field + b[i + 2..]);
    assert (field + b[i + 2..])[2..] == b[i + 2..];
    SumOfParts(order, b[..i], field + b[i + 2..]);
  }

  /** The values of an aligned field for which a recomputation gives 0: the checksum taken with the field zero,
    * and 0xffff in place of a checksum of 0. */
  lemma AcceptedExactly(order: Order, b: seq<byte>, i: nat, w: int)
    requires i + 1 < |b| <= 131074 && i % 2 == 0 && 0 <= w < 65536
    ensures var c := Cksum(order, WithField(order, b, i, 0));
            Cksum(order, WithField(order, b, i, w)) == 0 <==> w == c || (w == 0xffff && c == 0)
  {
    var zeroed, filled := WithField(order, b, i, 0), WithField(order, b, i, w);
    SumWithField(order, b, i, 0);
    SumWithField(order, b, i, w);
    NeverWraps(order, zeroed);
    NeverWraps(order, filled);
    FieldArithmetic(WordSum(order, zeroed), w, Cksum(order, zeroed), Cksum(order, filled));
  }

  lemma FieldArithmetic(s: nat, w: nat, c: int, r: int)
    requires w < 65536 && IsChecksumOf(c, s) && IsChecksumOf(r, s + w)
    ensures r == 0 <==> w == c || (w == 65535 && c == 0)
  {
    var k, m := s / 65535, s % 65535;
    assert s == 65535 * k + m;
    Congruent(m + w, k);
    assert (s + w) % 65535 == (m + w) % 65535;
    assert m == if c == 0 then 0 else 65535 - c;
    ZeroIff(s + w, r);
    if m + w >= 131070 {
      assert false;
    } else if m + w >= 65535 {
      assert (m + w) % 65535 == m + w - 65535;
    }
  }

  lemma ZeroIff(s: nat, r: int)
    requires IsChecksumOf(r, s)
    ensures r == 0 <==> s % 65535 == 0 && s != 0
  {
    if 0 < r < 65535 {
      assert (65535 - r) % 65535 == 65535 - r;
    }
  }

  function Swapped(w: int): (r: int)
    requires 0 <= w < 65536
    ensures 0 <= r < 65536
  {
    w % 256 * 256 + w / 256
  }

  /** Swapping the bytes of every word multiplies the sum by 256, modulo 65535. */
  lemma {:induction false} SwappedSum(b: seq<byte>)
    ensures exists k: int {:trigger 65535 * k} :: WordSum(Big, b) == 256 * WordSum(Little, b) - 65535 * k
    ensures WordSum(Big, b) == 0 <==> WordSum(Little, b) == 0
  {
    if |b| == 0 {
      assert WordSum(Big, b) == 256 * WordSum(Little, b) - 65535 * 0;
    } else if |b| == 1 {
      assert WordSum(Big, b) == 256 * WordSum(Little, b) - 65535 * 0;
    } else {
      SwappedSum(b[2..]);
      var k: int :| WordSum(Big, b[2..]) == 256 * WordSum(Little, b[2..]) - 65535 * k;
      assert WordSum(Big, b) == 256 * WordSum(Little, b) - 65535 * (k + b[1]);
    }
  }

  /** Hosts of either byte order compute the same checksum bytes. */
  lemma OrderDoesNotMatter(b: seq<byte>)
    requires |b| <= 131074
    ensures Cksum(Big, b) == Swapped(Cksum(Little, b))
    ensures Stored(Big, Cksum(Big, b)) == Stored(Little, Cksum(Little, b))
  {
    hide WordSum, Cksum, Swapped, IsChecksumOf;
    NeverWraps(Little, b);
    NeverWraps(Big, b);
    SwappedSum(b);
    var k: int :| WordSum(Big, b) == 256 * WordSum(Little, b) - 65535 * k;
    SwapArithmetic(WordSum(Little, b), WordSum(Big, b), k, Cksum(Little, b));
    ChecksumIsUnique(Swapped(Cksum(Little, b)), Cksum(Big, b), WordSum(Big, b));
    StoredSwapped(Cksum(Little, b));
  }

  lemma StoredSwapped(w: int)
    requires 0 <= w < 65536
    ensures Stored(Big, Swapped(w)) == Stored(Little, w)
  {
  }

  lemma SwapArithmetic(s: nat, t: nat, k: int, c: int)
    requires t == 256 * s - 65535 * k && (t == 0 <==> s == 0) && IsChecksumOf(c, s)
    ensures IsChecksumOf(Swapped(c), t)
  {
    hide Swapped;
    var f, g := 65535 - c, 65535 - Swapped(c);
    var m := SwapShifts(f);
    Quotients(s, f);
    var n := s / 65535 - f / 65535;
    assert s - f == 65535 * n;
    assert t - g == 65535 * (256 * n - k + m);
    SameRemainder(t, g, 256 * n - k + m);
  }

  /** Swapping the bytes of the complement multiplies it by 256, modulo 65535. */
  lemma SwapShifts(f: nat) returns (m: int)
    requires f <= 65535
    ensures 256 * f == 65535 - Swapped(65535 - f) + 65535 * m && (f == 0 <==> Swapped(65535 - f) == 65535)
  {
    var high, low := f / 256, f % 256;
    m := high;
    var c := 65535 - f;
    assert c == 256 * (255 - high) + (255 - low);
    assert c / 256 == 255 - high && c % 256 == 255 - low;
  }

  lemma Quotients(s: nat, f: nat)
    requires s % 65535 == f % 65535
    ensures s - f == 65535 * (s / 65535 - f / 65535)
  {
  }

  lemma SameRemainder(x: nat, y: nat, k: int)
    requires x - y == 65535 * k
    ensures x % 65535 == y % 65535
  {
    if k >= 0 {
      Congruent(y, k);
    } else {
      Congruent(x, -k);
    }
  }

  /** The data with the bytes of every word swapped. */
  function SwapWords(b: seq<byte>): (r: seq<byte>)
    requires |b| % 2 == 0
    ensures |r| == |b|
  {
    if |b| == 0 then [] else [b[1], b[0]] + SwapWords(b[2..])
  }

  lemma {:induction false} SwappedWords(b: seq<byte>)
    requires |b| % 2 == 0
    ensures WordSum(Little, SwapWords(b)) == WordSum(Big, b) && WordSum(Big, SwapWords(b)) == WordSum(Little, b)
  {
    if |b| > 0 {
      SwappedWords(b[2..]);
      assert SwapWords(b)[2..] == SwapWords(b[2..]);
    }
  }

  /** Swapping the bytes of every word of the data swaps the bytes of the result. */
  lemma SwapCommutes(order: Order, b: seq<byte>)
    requires |b| % 2 == 0 && |b| <= 131074
    ensures Cksum(order, SwapWords(b)) == Swapped(Cksum(order, b))
  {
    SwappedWords(b);
    OrderDoesNotMatter(b);
  }
}
