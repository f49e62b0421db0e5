/** Octets and the two ways the repository writes an integer as octets. */
module Bytes {

  /** An octet. Bit tests on octets are written with division and remainder. */
  type byte = x: int | 0 <= x < 256

  datatype Option<+T> = None | Some(value: T)

  /** The `n` low-order octets of `x`, most significant first. */
  function BigEndian(x: nat, n: nat): (s: seq<byte>)
    ensures |s| == n
  {
    if n == 0 then [] else BigEndian(x / 256, n - 1) + [x % 256]
  }

  /** The number that `s` spells, most significant octet first. */
  function FromBigEndian(s: seq<byte>): nat {
    if s == [] then 0 else FromBigEndian(s[..|s| - 1]) * 256 + s[|s| - 1]
  }

  /** The number that `s` spells, least significant octet first. */
  function FromLittleEndian(s: seq<byte>): nat {
    if s == [] then 0 else s[0] + 256 * FromLittleEndian(s[1..])
  }

  function Pow256(n: nat): (p: nat)
    ensures p > 0
  {
    if n == 0 then 1 else 256 * Pow256(n - 1)
  }

  /** A number that fits the field is read back unchanged. */
  lemma {:induction false} BigEndianRoundTrip(x: nat, n: nat)
    requires x < Pow256(n)
    ensures FromBigEndian(BigEndian(x, n)) == x
  {
    if n == 0 {
    } else {
      BigEndianRoundTrip(x / 256, n - 1);
      assert BigEndian(x, n)[..n - 1] == BigEndian(x / 256, n - 1);
    }
  }

  lemma {:induction false} FromBigEndianBound(s: seq<byte>)
    ensures FromBigEndian(s) < Pow256(|s|)
  {
    if s != [] {
      FromBigEndianBound(s[..|s| - 1]);
    }
  }

  /** The exclusive or of the `n` low-order bits of `a` and `b`. */
  function XorBits(a: nat, b: nat, n: nat): (x: nat)
    ensures x < Pow2(n)
  {
    if n == 0 then 0 else 2 * XorBits(a / 2, b / 2, n - 1) + if a % 2 == b % 2 then 0 else 1
  }

  function Pow2(n: nat): (p: nat)
    ensures p > 0
  {
    if n == 0 then 1 else 2 * Pow2(n - 1)
  }

  /** The exclusive or of two octets. */
  function Xor(a: byte, b: byte): byte {
    assert Pow2(8) == 256;
    XorBits(a, b, 8)
  }

  lemma {:induction false} XorBitsTwice(a: nat, b: nat, n: nat)
    requires a < Pow2(n)
    ensures XorBits(XorBits(a, b, n), b, n) == a
  {
    if n != 0 {
      XorBitsTwice(a / 2, b / 2, n - 1);
      XorBitsParts(a, b, n);
      XorBitsParts(XorBits(a, b, n), b, n);
    }
  }

  lemma XorBitsParts(a: nat, b: nat, n: nat)
    requires n > 0
    ensures XorBits(a, b, n) / 2 == XorBits(a / 2, b / 2, n - 1)
    ensures XorBits(a, b, n) % 2 == if a % 2 == b % 2 then 0 else 1
  {
  }

  lemma {:induction false} XorBitsZero(a: nat, n: nat)
    requires a < Pow2(n)
    ensures XorBits(a, 0, n) == a
  {
    if n != 0 {
      XorBitsZero(a / 2, n - 1);
    }
  }

  function Bit(x: nat, k: nat): nat {
    x / Pow2(k) % 2
  }

  /** Bit `k` of the result is the sum of the two bits without a carry. */
  lemma {:induction false} XorBit(a: nat, b: nat, n: nat, k: nat)
    requires k < n
    ensures Bit(XorBits(a, b, n), k) == (Bit(a, k) + Bit(b, k)) % 2
    decreases k
  {
    hide XorBits, Bit;
    XorBitsParts(a, b, n);
    if k == 0 {
      LowBit(a);
      LowBit(b);
      LowBit(XorBits(a, b, n));
    } else {
      XorBit(a / 2, b / 2, n - 1, k - 1);
      NextBit(a, k);
      NextBit(b, k);
      NextBit(XorBits(a, b, n), k);
    }
  }

  lemma LowBit(x: nat)
    ensures Bit(x, 0) == x % 2
  {
  }

  lemma NextBit(x: nat, k: nat)
    requires k > 0
    ensures Bit(x, k) == Bit(x / 2, k - 1)
  {
    Halve(x, k);
  }

  lemma Halve(x: nat, k: nat)
    requires k > 0
    ensures x / Pow2(k) == x / 2 / Pow2(k - 1)
  {
    var p := Pow2(k - 1);
    var q, r := x / 2 / p, x / 2 % p;
    DivideTwice(x, p, q, r);
  }

  lemma DivideTwice(x: nat, p: nat, q: nat, r: nat)
    requires p > 0 && x / 2 == q * p + r && r < p
    ensures x / (2 * p) == q
  {
    assert x == 2 * p * q + (2 * r + x % 2);
    assert 2 * r + x % 2 < 2 * p;
    Quotient(x, 2 * p, q, 2 * r + x % 2);
  }

  lemma Quotient(x: nat, m: nat, q: nat, r: nat)
    requires m > 0 && x == m * q + r && r < m
    ensures x / m == q
  {
    var d := x / m - q;
    assert d * m == r - x % m;
    AtLeast(d, m);
    AtLeast(-d, m);
  }

  lemma AtLeast(d: int, m: nat)
    ensures d > 0 ==> d * m >= m
  {
  }

  /** Every bit of the result is the exclusive or of the two bits. */
  lemma XorIsBitwise(a: byte, b: byte, k: nat)
    requires k < 8
    ensures Pow2(k) == [1, 2, 4, 8, 16, 32, 64, 128][k]
    ensures Xor(a, b) / Pow2(k) % 2 == (a / Pow2(k) + b / Pow2(k)) % 2
  {
    hide XorBits, Pow2;
    PowersOfTwo();
    XorBit(a, b, 8, k);
    BitsAdded(a, b, k);
  }

  lemma BitsAdded(a: nat, b: nat, k: nat)
    ensures (Bit(a, k) + Bit(b, k)) % 2 == (a / Pow2(k) + b / Pow2(k)) % 2
  {
    hide Pow2;
    SameParity(a / Pow2(k), b / Pow2(k));
  }

  lemma PowersOfTwo()
    ensures Pow2(0) == 1 && Pow2(1) == 2 && Pow2(2) == 4 && Pow2(3) == 8
    ensures Pow2(4) == 16 && Pow2(5) == 32 && Pow2(6) == 64 && Pow2(7) == 128
  {
  }

  lemma SameParity(x: nat, y: nat)
    ensures (x % 2 + y % 2) % 2 == (x + y) % 2
  {
  }

  /** Applying the same octet twice gives the original back; applying zero changes nothing. */
  lemma XorTwice(a: byte, b: byte)
    ensures Xor(Xor(a, b), b) == a
    ensures Xor(a, 0) == a
  {
    assert Pow2(8) == 256;
    XorBitsTwice(a, b, 8);
    XorBitsZero(a, 8);
  }

  /** The accumulation loop that reads a length, most significant octet first. */
  method ReadBigEndian(s: seq<byte>) returns (n: nat)
    ensures n == FromBigEndian(s)
  {
    n := 0;
    for j := 0 to |s|
      invariant n == FromBigEndian(s[..j])
    {
      assert s[..j + 1][..j] == s[..j];
      n := n * 256 + s[j];
    }
    assert s[..|s|] == s;
  }

  /** `x` shifted right by `k` octets. */
  function Shift(x: nat, k: nat): nat {
    if k == 0 then x else Shift(x / 256, k - 1)
  }

  /** Digit `k` of the big-endian form, as a shift and a mask pick it out. */
  lemma {:induction false} BigEndianDigit(x: nat, n: nat, k: nat)
    requires k < n
    ensures BigEndian(x, n)[k] == Shift(x, n - 1 - k) % 256
  {
    if k < n - 1 {
      BigEndianDigit(x / 256, n - 1, k);
    }
  }

  /** The four octets of a 32-bit word, as shifts and masks pick them out. */
  lemma FourDigits(n: nat)
    ensures BigEndian(n, 4) == [n / 0x100_0000 % 256, n / 0x1_0000 % 256, n / 0x100 % 256, n % 256]
  {
    BigEndianDigit(n, 4, 0);
    BigEndianDigit(n, 4, 1);
    BigEndianDigit(n, 4, 2);
    BigEndianDigit(n, 4, 3);
    Shifts(n);
  }

  lemma Shifts(n: nat)
    ensures Shift(n, 1) == n / 0x100 && Shift(n, 2) == n / 0x1_0000 && Shift(n, 3) == n / 0x100_0000
    ensures Shift(n, 4) == n / 0x1_0000_0000
  {
  }

  /** The low-order digits come last. */
  lemma {:induction false} BigEndianSplit(x: nat, n: nat, k: nat)
    ensures BigEndian(x, n + k) == BigEndian(Shift(x, k), n) + BigEndian(x, k)
  {
    if k == 0 {
      assert BigEndian(x, n) + [] == BigEndian(x, n);
    } else {
      BigEndianSplit(x / 256, n, k - 1);
    }
  }

  /** Digits do not depend on what is above them. */
  lemma {:induction false} LowDigits(q: nat, r: nat, k: nat)
    ensures BigEndian(q * Pow256(k) + r, k) == BigEndian(r, k)
  {
    if k > 0 {
      var t := q * Pow256(k - 1);
      assert q * Pow256(k) == 256 * t;
      AddMultipleOf256(t, r);
      LowDigits(q, r / 256, k - 1);
    }
  }

  lemma AddMultipleOf256(t: nat, r: nat)
    ensures (256 * t + r) / 256 == t + r / 256 && (256 * t + r) % 256 == r % 256
  {
  }

  lemma SomeMember(s: set<int>)
    ensures s == {} || exists k :: k in s
  {
    if !exists k :: k in s {
      assert s == {};
    }
  }
}
