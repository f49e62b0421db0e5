/**
 * The streaming hash (src/sha1.c) against FIPS 180-1. The specification is the 80-word form of
 * section 7; the code is the 16-word form of section 8, with the registers rotated by renaming.
 */
module Sha1 {
  import opened Bytes

  type Word = bv32

  /** The circular left shift of section 3. */
  function Rotl(x: Word, n: nat): Word
    requires 0 < n < 32
  {
    (x << n) | (x >> (32 - n))
  }

  /** A block or a digest as words: four octets each, most significant first. */
  function WordAt(s: seq<byte>, i: nat): Word
    requires i + 4 <= |s|
  {
    ((s[i] as Word) << 24) | ((s[i + 1] as Word) << 16) | ((s[i + 2] as Word) << 8) | (s[i + 3] as Word)
  }

  // ----- FIPS 180-1 -----

  datatype Registers = Registers(a: Word, b: Word, c: Word, d: Word, e: Word)

  const Initial: Registers := Registers(0x67452301, 0xEFCDAB89, 0x98BADCFE, 0x10325476, 0xC3D2E1F0)

  // The functions of section 5.

  function Choose(b: Word, c: Word, d: Word): Word {
    (b & c) | (!b & d)
  }

  function Parity(b: Word, c: Word, d: Word): Word {
    b ^ c ^ d
  }

  function Majority(b: Word, c: Word, d: Word): Word {
    (b & c) | (b & d) | (c & d)
  }

  function F(t: nat, b: Word, c: Word, d: Word): Word {
    if t < 20 then Choose(b, c, d)
    else if t < 40 then Parity(b, c, d)
    else if t < 60 then Majority(b, c, d)
    else Parity(b, c, d)
  }

  /** The constants of section 6. */
  function K(t: nat): Word {
    if t < 20 then 0x5A827999 else if t < 40 then 0x6ED9EBA1 else if t < 60 then 0x8F1BBCDC else 0xCA62C1D6
  }

  function Mix(w3: Word, w8: Word, w14: Word, w16: Word): Word {
    Rotl(w3 ^ w8 ^ w14 ^ w16, 1)
  }

  /** The words of section 7, steps (a) and (b). */
  function W(block: seq<byte>, t: nat): Word
    requires |block| == 64
  {
    if t < 16 then WordAt(block, 4 * t)
    else Mix(W(block, t - 3), W(block, t - 8), W(block, t - 14), W(block, t - 16))
  }

  /** The sum of section 7, with the first register rotated already. */
  function Temp(a5: Word, f: Word, e: Word, w: Word, k: Word): Word {
    a5 + f + e + w + k
  }

  /** Section 7, one turn of step (d). */
  function Turn(r: Registers, t: nat, w: Word): Registers {
    Registers(Temp(Rotl(r.a, 5), F(t, r.b, r.c, r.d), r.e, w, K(t)), r.a, Rotl(r.b, 30), r.c, r.d)
  }

  function Turns(h: Registers, block: seq<byte>, n: nat): Registers
    requires |block| == 64
  {
    if n == 0 then h else Turn(Turns(h, block, n - 1), n - 1, W(block, n - 1))
  }

  function Sum(h: Registers, r: Registers): Registers {
    Registers(h.a + r.a, h.b + r.b, h.c + r.c, h.d + r.d, h.e + r.e)
  }

  /** Section 7, steps (c) to (e). */
  function Compress(h: Registers, block: seq<byte>): Registers
    requires |block| == 64
  {
    Sum(h, Turns(h, block, 80))
  }

  /** All the complete blocks of `s`, one after the other. */
  function Fold(h: Registers, s: seq<byte>): Registers
    decreases |s|
  {
    if |s| < 64 then h else Fold(Compress(h, s[..64]), s[64..])
  }

  function Zeros(n: nat): (s: seq<byte>)
    ensures |s| == n
  {
    seq(n, _ => 0)
  }

  /** Section 4: a one bit, the fewest zeros that leave room for the length, and the length in bits. */
  function Padding(n: nat): seq<byte> {
    [0x80] + Zeros((55 - n) % 64) + BigEndian(8 * n, 8)
  }

  function WordOctets(w: Word): seq<byte> {
    BigEndian(w as nat, 4)
  }

  function Octets(r: Registers): seq<byte> {
    WordOctets(r.a) + WordOctets(r.b) + WordOctets(r.c) + WordOctets(r.d) + WordOctets(r.e)
  }

  function Digest(message: seq<byte>): seq<byte> {
    Octets(Fold(Initial, message + Padding(|message|)))
  }

  /** Padding fills up a whole number of blocks with as few zeros as possible. */
  lemma PaddingFills(n: nat)
    ensures (n + |Padding(n)|) % 64 == 0
    ensures 9 <= |Padding(n)| <= 72
  {
  }

  lemma {:induction false} FoldAppend(h: Registers, a: seq<byte>, b: seq<byte>)
    requires |a| % 64 == 0
    ensures Fold(h, a + b) == Fold(Fold(h, a), b)
    decreases |a|
  {
    hide Compress;
    if a == [] {
      assert a + b == b;
    } else {
      assert (a + b)[..64] == a[..64] && (a + b)[64..] == a[64..] + b;
      FoldAppend(Compress(h, a[..64]), a[64..], b);
    }
  }

  // ----- sha1_process -----

  // The functions as the macros write them.

  function MacroChoose(x: Word, y: Word, z: Word): Word {
    z ^ (x & (y ^ z))
  }

  function MacroMajority(x: Word, y: Word, z: Word): Word {
    (x & y) | (z & (x | y))
  }

  function MacroF(t: nat, x: Word, y: Word, z: Word): Word {
    if t < 20 then MacroChoose(x, y, z)
    else if t < 40 then Parity(x, y, z)
    else if t < 60 then MacroMajority(x, y, z)
    else Parity(x, y, z)
  }

  lemma ChooseInTwoForms(x: Word, y: Word, z: Word)
    ensures MacroChoose(x, y, z) == Choose(x, y, z)
  {
    assert z ^ (x & (y ^ z)) == (x & y) | (!x & z);
  }

  lemma MajorityInTwoForms(x: Word, y: Word, z: Word)
    ensures MacroMajority(x, y, z) == Majority(x, y, z)
  {
    assert (x & y) | (z & (x | y)) == (x & y) | (x & z) | (y & z);
  }

  /** The macro S. */
  function MacroS(x: Word, n: nat): Word
    requires 0 < n < 32
  {
    (x << n) | ((x & 0xFFFF_FFFF) >> (32 - n))
  }

  lemma ShiftInTwoForms(x: Word, n: nat)
    requires 0 < n < 32
    ensures MacroS(x, n) == Rotl(x, n)
  {
    assert x & 0xFFFF_FFFF == x;
  }

  /** The sum as the macro P accumulates it. */
  function MacroTemp(a5: Word, f: Word, e: Word, w: Word, k: Word): Word {
    e + (a5 + f + k + w)
  }

  lemma TempInTwoForms(a5: Word, f: Word, e: Word, w: Word, k: Word)
    ensures MacroTemp(a5, f, e, w, k) == Temp(a5, f, e, w, k)
  {
  }

  /** The macro P: only `e` and `b` change. */
  method P(t: nat, a: Word, b: Word, c: Word, d: Word, e: Word, x: Word) returns (b': Word, e': Word)
    ensures Turn(Registers(a, b, c, d, e), t, x) == Registers(e', a, b', c, d)
  {
    hide Choose, Majority, Parity, MacroChoose, MacroMajority, MacroTemp, Temp, Rotl, MacroS, K;
    ShiftInTwoForms(b, 30);
    ChooseInTwoForms(b, c, d);
    MajorityInTwoForms(b, c, d);
    ShiftInTwoForms(a, 5);
    TempInTwoForms(Rotl(a, 5), F(t, b, c, d), e, x, K(t));
    e' := MacroTemp(MacroS(a, 5), MacroF(t, b, c, d), e, x, K(t));
    b' := MacroS(b, 30);
  }

  /** The sixteen words hold the last sixteen words of the schedule before number `t`, or the first. */
  ghost predicate Circular(w: array<Word>, block: seq<byte>, t: nat)
    reads w
    requires |block| == 64
  {
    && w.Length == 16
    && forall j :: 0 <= j < (if t < 16 then 16 else t) && t - 16 <= j ==> w[j % 16] == W(block, j)
  }

  /** The macro R, with its temporary. */
  function MacroR(w3: Word, w8: Word, w14: Word, w16: Word): Word {
    var temp := w3 ^ w8 ^ w14 ^ w16;
    MacroS(temp, 1)
  }

  lemma MixInTwoForms(w3: Word, w8: Word, w14: Word, w16: Word)
    ensures MacroR(w3, w8, w14, w16) == Mix(w3, w8, w14, w16)
  {
    hide MacroS, Rotl;
    ShiftInTwoForms(w3 ^ w8 ^ w14 ^ w16, 1);
  }

  /** Word number `t`, from the array for the first sixteen and by the macro R after that. */
  method NextWord(w: array<Word>, ghost block: seq<byte>, t: nat) returns (x: Word)
    requires |block| == 64 && Circular(w, block, t)
    modifies w
    ensures Circular(w, block, t + 1) && x == W(block, t)
  {
    hide WordAt, Mix, W, MacroR;
    if t < 16 {
      return w[t];
    }
    UnfoldW(block, t);
    assert (t - 16) % 16 == t % 16;
    assert w[(t - 16) % 16] == W(block, t - 16);
    x := MacroR(w[(t - 3) % 16], w[(t - 8) % 16], w[(t - 14) % 16], w[t % 16]);
    MixInTwoForms(w[(t - 3) % 16], w[(t - 8) % 16], w[(t - 14) % 16], w[t % 16]);
    forall j | t - 16 < j < t ensures j % 16 != t % 16 {
      NotCongruent(j, t);
    }
    w[t % 16] := x;
  }

  lemma UnfoldW(block: seq<byte>, t: nat)
    requires |block| == 64 && t >= 16
    ensures W(block, t) == Mix(W(block, t - 3), W(block, t - 8), W(block, t - 14), W(block, t - 16))
  {
  }

  lemma NotCongruent(j: nat, t: nat)
    requires t - 16 < j < t
    ensures j % 16 != t % 16
  {
  }

  /** Load the words of a block. */
  method Load(data: seq<byte>) returns (w: array<Word>)
    requires |data| == 64
    ensures fresh(w) && Circular(w, data, 0)
  {
    hide WordAt;
    w := new Word[16];
    var i := 0;
    while i < 16
      invariant 0 <= i <= 16
      invariant forall j :: 0 <= j < i ==> w[j] == W(data, j)
    {
      w[i] := WordAt(data, 4 * i);
      i := i + 1;
    }
  }

  method Process(state: Registers, data: seq<byte>) returns (state': Registers)
    requires |data| == 64
    ensures state' == Compress(state, data)
  {
    hide Turn, W, Circular, Sum;
    var w := Load(data);
    var a, b, c, d, e := state.a, state.b, state.c, state.d, state.e;
    var t := 0;
    while t < 80
      invariant 0 <= t <= 80 && t % 5 == 0 && Circular(w, data, t)
      invariant Registers(a, b, c, d, e) == Turns(state, data, t)
    {
      var x := NextWord(w, data, t);
      b, e := P(t, a, b, c, d, e, x);
      assert Registers(e, a, b, c, d) == Turns(state, data, t + 1);
      x := NextWord(w, data, t + 1);
      a, d := P(t + 1, e, a, b, c, d, x);
      assert Registers(d, e, a, b, c) == Turns(state, data, t + 2);
      x := NextWord(w, data, t + 2);
      e, c := P(t + 2, d, e, a, b, c, x);
      assert Registers(c, d, e, a, b) == Turns(state, data, t + 3);
      x := NextWord(w, data, t + 3);
      d, b := P(t + 3, c, d, e, a, b, x);
      assert Registers(b, c, d, e, a) == Turns(state, data, t + 4);
      x := NextWord(w, data, t + 4);
      c, a := P(t + 4, b, c, d, e, a, x);
      t := t + 5;
    }
    state' := Sum(state, Registers(a, b, c, d, e));
  }

  // ----- streaming -----

  const UINT32_MODULUS: nat := 0x1_0000_0000

  /** How much of `n` octets makes whole blocks. */
  function Whole(n: nat): (w: nat)
    ensures w <= n && w % 64 == 0 && n - w == n % 64
  {
    n / 64 * 64
  }

  lemma {:induction false} FoldBlock(h: Registers, s: seq<byte>, block: seq<byte>)
    requires |s| % 64 == 0 && |block| == 64
    ensures Fold(h, s + block) == Compress(Fold(h, s), block)
  {
    hide Compress;
    FoldAppend(h, s, block);
    assert block[..64] == block && block[64..] == [];
  }

  /** Octets that do not fill up a block do not count yet. */
  lemma FoldIncomplete(h: Registers, s: seq<byte>, t: seq<byte>)
    requires |s| % 64 + |t| < 64
    ensures Fold(h, s + t) == Fold(h, s)
  {
    hide Compress;
    var w := Whole(|s|);
    FoldAppend(h, s[..w], s[w..]);
    FoldAppend(h, s[..w], s[w..] + t);
    assert s[..w] + s[w..] == s && s[..w] + (s[w..] + t) == s + t;
  }

  lemma LeftOver(n: nat)
    ensures n % UINT32_MODULUS % 64 == n % 64
  {
  }

  /** The low word is below what was added exactly when it wrapped around. */
  lemma CarryCounts(n: nat, k: nat)
    requires k < UINT32_MODULUS
    ensures var low, high := n % UINT32_MODULUS, n / UINT32_MODULUS % UINT32_MODULUS;
            var low' := (low + k) % UINT32_MODULUS;
            && (n + k) % UINT32_MODULUS == low'
            && (n + k) / UINT32_MODULUS % UINT32_MODULUS == if low' < k then (high + 1) % UINT32_MODULUS else high
  {
    var q, low := n / UINT32_MODULUS, n % UINT32_MODULUS;
    if low + k < UINT32_MODULUS {
      assert (n + k) / UINT32_MODULUS == q;
    } else {
      assert (n + k) / UINT32_MODULUS == q + 1;
    }
  }

  /** The bit count in two words. */
  function BitsHigh(total0: nat, total1: nat): nat {
    (total0 / 0x2000_0000 + total1 * 8) % UINT32_MODULUS
  }

  function BitsLow(total0: nat): nat {
    total0 * 8 % UINT32_MODULUS
  }

  /** The two words spell the number of bits of the message. */
  lemma BitCount(n: nat)
    requires n < 0x2000_0000_0000_0000
    ensures var total0, total1 := n % UINT32_MODULUS, n / UINT32_MODULUS % UINT32_MODULUS;
            BigEndian(BitsHigh(total0, total1), 4) + BigEndian(BitsLow(total0), 4) == BigEndian(8 * n, 8)
  {
    var total0, total1 := n % UINT32_MODULUS, n / UINT32_MODULUS % UINT32_MODULUS;
    BigEndianSplit(8 * n, 4, 4);
    Shifts(8 * n);
    BitWords(n);
    assert Pow256(4) == UINT32_MODULUS;
    LowDigits(8 * n / UINT32_MODULUS, 8 * n % UINT32_MODULUS, 4);
  }

  lemma BitWords(n: nat)
    requires n < 0x2000_0000_0000_0000
    ensures var total0, total1 := n % UINT32_MODULUS, n / UINT32_MODULUS % UINT32_MODULUS;
            BitsHigh(total0, total1) == 8 * n / UINT32_MODULUS && BitsLow(total0) == 8 * n % UINT32_MODULUS
  {
    var q, r := n / UINT32_MODULUS, n % UINT32_MODULUS;
    assert n == UINT32_MODULUS * q + r && q < 0x2000_0000;
    var high, low := r / 0x2000_0000, r % 0x2000_0000;
    assert high < 8 && 8 * n == UINT32_MODULUS * (8 * q + high) + 8 * low;
    assert 8 * n / UINT32_MODULUS == 8 * q + high && 8 * n % UINT32_MODULUS == 8 * low;
    assert r * 8 % UINT32_MODULUS == 8 * low;
  }

  lemma WholeOfSum(n: nat, k: nat)
    requires n % 64 + k == 64
    ensures (n + k) % 64 == 0 && Whole(n) + 64 == n + k
  {
  }

  /** A block that completes what was left over. */
  lemma FillUp(h: Registers, message: seq<byte>, t: seq<byte>, block: seq<byte>)
    requires |message| % 64 + |t| == 64 && |block| == 64
    requires block == message[Whole(|message|)..] + t
    ensures Fold(h, message + t) == Compress(Fold(h, message), block)
    ensures (|message| + |t|) % 64 == 0
  {
    hide Compress, Fold, Whole;
    var w := Whole(|message|);
    WholeOfSum(|message|, |t|);
    assert message[..w] + message[w..] == message;
    FillUpParts(h, message[..w], message[w..], t);
  }

  lemma FillUpParts(h: Registers, head: seq<byte>, last: seq<byte>, t: seq<byte>)
    requires |head| % 64 == 0 && 0 < |t| && |last| + |t| == 64
    ensures Fold(h, head + last + t) == Compress(Fold(h, head + last), last + t)
  {
    hide Compress, Fold;
    FoldBlock(h, head, last + t);
    FoldIncomplete(h, head, last);
    assert head + (last + t) == head + last + t;
  }

  /** The octets that are left after the last whole block, when it ends the first `i` of the input. */
  lemma RestAfterBlock(h: Registers, message: seq<byte>, input: seq<byte>, i: nat)
    requires i <= |input| && |input| - i < 64 && (|message| + i) % 64 == 0
    ensures var all := message + input;
            && Fold(h, all) == Fold(h, message + input[..i])
            && |all| % 64 == |input| - i && all[Whole(|all|)..] == input[i..]
  {
    hide Compress, Fold;
    var all := message + input;
    assert (message + input[..i]) + input[i..] == all;
    FoldIncomplete(h, message + input[..i], input[i..]);
    SmallRemainder(|message| + i, |input| - i);
    assert all[|message| + i..] == input[i..];
  }

  lemma SmallRemainder(n: nat, k: nat)
    requires n % 64 == 0 && k < 64
    ensures (n + k) % 64 == k && Whole(n + k) == n
  {
  }

  /** The octets that are left when the input does not even complete the first block. */
  lemma RestWithoutBlock(h: Registers, message: seq<byte>, input: seq<byte>)
    requires |message| % 64 + |input| < 64
    ensures var all := message + input;
            && Fold(h, all) == Fold(h, message)
            && |all| % 64 == |message| % 64 + |input|
            && all[Whole(|all|)..] == message[Whole(|message|)..] + input
  {
    hide Compress, Fold;
    var all := message + input;
    FoldIncomplete(h, message, input);
    SmallRemainder(Whole(|message|), |message| % 64 + |input|);
    var w := Whole(|message|);
    assert all[w..] == message[w..] + input;
  }

  class Context {
    var total0: nat
    var total1: nat
    var state: Registers
    const buffer: array<byte>
    /** Everything passed to `Update`. */
    ghost var message: seq<byte>

    ghost predicate Valid()
      reads this, buffer
    {
      var n := |message|;
      && buffer.Length == 64
      && total0 == n % UINT32_MODULUS
      && total1 == n / UINT32_MODULUS % UINT32_MODULUS
      && state == Fold(Initial, message)
      && buffer[..n % 64] == message[Whole(n)..]
    }

    constructor ()
      ensures Valid() && message == [] && fresh(buffer)
    {
      buffer := new byte[64](_ => 0);
      total0, total1, state, message := 0, 0, Initial, [];
    }

    /** Start over. */
    method Starts()
      requires buffer.Length == 64
      modifies this
      ensures Valid() && message == []
    {
      total0, total1, state, message := 0, 0, Initial, [];
    }

    /** Count `n` more octets in two 32-bit words. */
    method Count(n: nat)
      requires n < UINT32_MODULUS
      requires total0 == |message| % UINT32_MODULUS && total1 == |message| / UINT32_MODULUS % UINT32_MODULUS
      modifies this`total0, this`total1
      ensures total0 == (|message| + n) % UINT32_MODULUS
      ensures total1 == (|message| + n) / UINT32_MODULUS % UINT32_MODULUS
    {
      CarryCounts(|message|, n);
      total0 := (total0 + n) % UINT32_MODULUS;
      if total0 < n {
        total1 := (total1 + 1) % UINT32_MODULUS;
      }
    }

    /** Write `s` into the buffer from `left` on. */
    method Copy(left: nat, s: seq<byte>)
      requires buffer.Length == 64 && left + |s| <= 64
      modifies buffer
      ensures buffer[..left + |s|] == old(buffer[..left]) + s
    {
      forall i | 0 <= i < |s| {
        buffer[left + i] := s[i];
      }
    }

    /** Absorb some more of the message. */
    method Update(input: seq<byte>)
      requires Valid() && |input| < UINT32_MODULUS
      modifies this, buffer
      ensures Valid() && message == old(message) + input
    {
      hide Compress, Fold, Whole;
      if |input| == 0 {
        assert message + input == message;
        return;
      }
      var left := total0 % 64;
      var fill := 64 - left;
      LeftOver(|message|);
      Count(|input|);
      if left == 0 || |input| >= fill {
        Absorb(input, left);
      } else {
        Copy(left, input);
        RestWithoutBlock(Initial, message, input);
      }
      message := message + input;
    }

    /** Complete the block that is left over, if any, and go on with whole blocks. */
    method Absorb(input: seq<byte>, left: nat)
      requires buffer.Length == 64 && state == Fold(Initial, message)
      requires left == |message| % 64 && buffer[..left] == message[Whole(|message|)..]
      requires left == 0 || |input| >= 64 - left
      modifies this`state, buffer
      ensures state == Fold(Initial, message + input)
      ensures var all := message + input; buffer[..|all| % 64] == all[Whole(|all|)..]
    {
      hide Compress, Fold, Whole;
      var i := 0;
      if left != 0 {
        i := 64 - left;
        Copy(left, input[..i]);
        state := Process(state, buffer[..]);
        FillUp(Initial, message, input[..i], buffer[..]);
      } else {
        assert message + input[..0] == message;
      }
      i := Blocks(input, i);
      RestAfterBlock(Initial, message, input, i);
      if i < |input| {
        Copy(0, input[i..]);
      }
    }

    /** Process whole blocks from offset `from` on. */
    method Blocks(input: seq<byte>, from: nat) returns (i: nat)
      requires from <= |input| && (|message| + from) % 64 == 0
      requires state == Fold(Initial, message + input[..from])
      modifies this`state
      ensures from <= i <= |input| && |input| - i < 64 && (|message| + i) % 64 == 0
      ensures state == Fold(Initial, message + input[..i])
    {
      hide Compress, Fold;
      i := from;
      while |input| - i >= 64
        invariant from <= i <= |input| && (|message| + i) % 64 == 0
        invariant state == Fold(Initial, message + input[..i])
      {
        var block := input[i..i + 64];
        state := Process(state, block);
        FoldBlock(Initial, message + input[..i], block);
        assert message + input[..i] + block == message + input[..i + 64];
        i := i + 64;
      }
    }

    /** Pad the message, and give out the hash. */
    method Finish() returns (output: seq<byte>)
      requires Valid() && |message| < 0x2000_0000_0000_0000
      modifies this, buffer
      ensures output == Digest(old(message))
    {
      hide Fold, Octets, Valid, Padding;
      ghost var n := |message|;
      var padding, msglen := Tail();
      assert padding + msglen == Padding(n);
      Update(padding);
      Update(msglen);
      assert message == old(message) + Padding(n) by {
        assert old(message) + padding + msglen == old(message) + (padding + msglen);
      }
      output := Result();
    }

    /** The padding and the message length that `Finish` absorbs. */
    method Tail() returns (padding: seq<byte>, msglen: seq<byte>)
      requires Valid() && |message| < 0x2000_0000_0000_0000
      ensures padding + msglen == Padding(|message|) && |padding| <= 64 && |msglen| == 8
    {
      hide Fold, BitsHigh, BitsLow;
      var high, low := BitsHigh(total0, total1), BitsLow(total0);
      BitCount(|message|);
      msglen := BigEndian(high, 4) + BigEndian(low, 4);
      LeftOver(|message|);
      var last := total0 % 64;
      var padn := if last < 56 then 56 - last else 120 - last;
      padding := ([0x80] + Zeros(63))[..padn];
      PaddingParts(|message|, padn);
    }

    method Result() returns (output: seq<byte>)
      requires Valid()
      ensures output == Octets(Fold(Initial, message))
    {
      output := Octets(state);
    }

    lemma PaddingParts(n: nat, padn: nat)
      requires padn == if n % 64 < 56 then 56 - n % 64 else 120 - n % 64
      ensures ([0x80] + Zeros(63))[..padn] + BigEndian(8 * n, 8) == Padding(n)
    {
      assert padn == 1 + (55 - n) % 64;
      assert ([0x80] + Zeros(63))[..padn] == [0x80] + Zeros(padn - 1);
    }
  }

  /** Any message, in any pieces each below 2^32 octets, hashes to its digest. */
  method HashPieces(pieces: seq<seq<byte>>) returns (output: seq<byte>)
    requires forall i :: 0 <= i < |pieces| ==> |pieces[i]| < UINT32_MODULUS
    requires |Joined(pieces)| < 0x2000_0000_0000_0000
    ensures output == Digest(Joined(pieces))
  {
    hide Digest;
    var ctx := new Context();
    for i := 0 to |pieces|
      invariant ctx.Valid() && fresh(ctx) && fresh(ctx.buffer) && ctx.message == Joined(pieces[..i])
    {
      ctx.Update(pieces[i]);
      assert pieces[..i + 1][..i] == pieces[..i];
    }
    assert pieces[..|pieces|] == pieces;
    output := ctx.Finish();
  }

  /** The pieces one after the other. */
  function Joined(pieces: seq<seq<byte>>): seq<byte> {
    if pieces == [] then [] else Joined(pieces[..|pieces| - 1]) + pieces[|pieces| - 1]
  }

  lemma {:induction false} JoinedParts(a: seq<seq<byte>>, b: seq<seq<byte>>)
    ensures Joined(a + b) == Joined(a) + Joined(b)
    ensures |b| == 1 ==> Joined(b) == b[0]
    decreases |b|
  {
    if b == [] {
      assert a + b == a;
    } else {
      var n := |b| - 1;
      JoinedParts(a, b[..n]);
      assert (a + b)[..|a| + n] == a + b[..n];
      assert Joined(a) + Joined(b[..n]) + b[n] == Joined(a) + Joined(b);
    }
  }
}
