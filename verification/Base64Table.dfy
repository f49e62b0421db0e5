/** What the base64 coder (src/base64.c) computes, character by character and octet by octet. */
module Base64Table {
  import opened Bytes
  import opened Base64

  const UPPER: string := "ABCDEFGHIJKLMNOPQRSTUVWXYZ"
  const LOWER: string := "abcdefghijklmnopqrstuvwxyz"
  const DIGITS: string := "0123456789"

  /** Table 1 of RFC 1521. */
  function Letter(v: Sextet): char {
    if v < 26 then UPPER[v] else if v < 52 then LOWER[v - 26] else if v < 62 then DIGITS[v - 52] else "+/"[v - 62]
  }

  lemma LetterIs(v: Sextet)
    ensures EncMap(v) == Letter(v) as int
  {
  }

  // ----- encoding -----

  function At(s: seq<byte>, i: nat): nat {
    if i < |s| then s[i] else 0
  }

  /** Three octets from `i` on as one number of 24 bits, missing ones being zero. */
  function Triple(s: seq<byte>, i: nat): nat {
    At(s, i) * 0x1_0000 + At(s, i + 1) * 0x100 + At(s, i + 2)
  }

  /** Four digits to the base 64, of which digit `r` counts from the left. */
  function Digit(n: nat, r: nat): Sextet
    requires r < 4
  {
    (if r == 0 then n / 0x4_0000 else if r == 1 then n / 0x1000 else if r == 2 then n / 64 else n) % 64
  }

  /**
   * Character `4 * q + r` is the letter for digit `r` of the `q`-th three octets; where not even a
   * bit of the digit comes from an octet of the input it is `=`.
   */
  lemma {:induction false} EncodedCharacter(s: seq<byte>, q: nat, r: nat)
    requires 3 * q < |s| && r < 4
    ensures 4 * q + r < |Encode(s)|
    ensures Encode(s)[4 * q + r] ==
            (if r <= |s| - 3 * q then Letter(Digit(Triple(s, 3 * q), r)) else '=') as int
    decreases q
  {
    hide EncodeGroup, Triple, Digit, Letter;
    if q == 0 {
      var g := if |s| <= 3 then s else s[..3];
      EncodedGroup(g, r);
      assert Triple(g, 0) == Triple(s, 0) by {
        SameTriple(s, g);
      }
      assert Encode(s)[r] == EncodeGroup(g)[r];
    } else {
      EncodedCharacter(s[3..], q - 1, r);
      NextTriple(s, 3 * q);
      assert Encode(s)[4..] == Encode(s[3..]);
      assert Encode(s)[4 * q + r] == Encode(s)[4..][4 * q + r - 4];
    }
  }

  lemma SameTriple(s: seq<byte>, g: seq<byte>)
    requires g == if |s| <= 3 then s else s[..3]
    ensures Triple(g, 0) == Triple(s, 0)
  {
  }

  lemma NextTriple(s: seq<byte>, i: nat)
    requires 3 <= i < |s|
    ensures Triple(s[3..], i - 3) == Triple(s, i)
  {
    assert At(s[3..], i - 3) == At(s, i) && At(s[3..], i - 2) == At(s, i + 1) && At(s[3..], i - 1) == At(s, i + 2);
  }

  lemma EncodedGroup(g: seq<byte>, r: nat)
    requires 1 <= |g| <= 3 && r < 4
    ensures EncodeGroup(g)[r] == (if r <= |g| then Letter(Digit(Triple(g, 0), r)) else '=') as int
  {
    hide EncMap, Letter, Digit, Sextets;
    DigitsAre(At(g, 0), At(g, 1), At(g, 2));
    var v := Sextets(At(g, 0), At(g, 1), At(g, 2));
    LetterIs(v.0);
    LetterIs(v.1);
    LetterIs(v.2);
    LetterIs(v.3);
  }

  lemma DigitsAre(a: byte, b: byte, c: byte)
    ensures var v, n := Sextets(a, b, c), a * 0x1_0000 + b * 0x100 + c;
            Digit(n, 0) == v.0 && Digit(n, 1) == v.1 && Digit(n, 2) == v.2 && Digit(n, 3) == v.3
  {
    GroupOfThree(a, b, c);
    var v := Sextets(a, b, c);
    DigitsOf(v.0, v.1, v.2, v.3);
  }

  lemma DigitsOf(v0: Sextet, v1: Sextet, v2: Sextet, v3: Sextet)
    ensures var n := ((v0 * 64 + v1) * 64 + v2) * 64 + v3;
            Digit(n, 0) == v0 && Digit(n, 1) == v1 && Digit(n, 2) == v2 && Digit(n, 3) == v3
  {
    var n := ((v0 * 64 + v1) * 64 + v2) * 64 + v3;
    assert n / 64 == (v0 * 64 + v1) * 64 + v2;
    assert n / 0x1000 == v0 * 64 + v1;
    assert n / 0x4_0000 == v0;
  }

  // ----- what the decoder accepts -----

  predicate IsLetter(c: byte) {
    65 <= c <= 90 || 97 <= c <= 122 || 48 <= c <= 57 || c == 43 || c == 47
  }

  predicate Fits(src: seq<byte>, i: nat)
    requires i < |src|
  {
    IsLetter(src[i]) || src[i] == 61 || src[i] == 10 || (src[i] == 13 && i + 1 < |src| && src[i + 1] == 10)
  }

  /** No more than `n` pad characters from `i` on, for an `n` of at most two. */
  predicate FewPads(src: seq<byte>, i: nat, n: nat) {
    if n == 0 then forall a :: i <= a < |src| ==> src[a] != 61
    else if n == 1 then forall a, b :: i <= a < b < |src| ==> src[a] != 61 || src[b] != 61
    else forall a, b, c :: i <= a < b < c < |src| ==> src[a] != 61 || src[b] != 61 || src[c] != 61
  }

  predicate NoLetterFrom(src: seq<byte>, i: nat) {
    forall a :: i <= a < |src| ==> !IsLetter(src[a])
  }

  /**
   * Accepted is what consists of letters, at most two pad characters behind all letters, LF
   * anywhere and CR only before LF.
   */
  lemma AcceptedExactly(src: seq<byte>)
    ensures CountChars(src).Some? <==>
            && (forall i :: 0 <= i < |src| ==> Fits(src, i))
            && (forall i, j :: 0 <= i < j < |src| && src[i] == 61 ==> !IsLetter(src[j]))
            && (forall i, j, k :: 0 <= i < j < k < |src| ==> src[i] != 61 || src[j] != 61 || src[k] != 61)
  {
    hide IsLetter, Fits;
    AcceptedFrom(src, 0, 0);
  }

  lemma {:induction false} AcceptedFrom(src: seq<byte>, i: nat, pads: nat)
    requires i <= |src| && pads <= 2
    ensures CountFrom(src, i, pads).Some? <==> AllFit(src, i) && Ordered(src, i) && FewPads(src, i, 2 - pads)
                                                && (pads > 0 ==> NoLetterFrom(src, i))
    decreases |src| - i
  {
    hide AllFit, Ordered, FewPads, NoLetterFrom, CountFrom;
    if i == |src| {
      NothingLeft(src, pads);
    } else {
      FirstIs(src, i);
      FirstPad(src, i, 2 - pads);
      CountStep(src, i, pads);
      AcceptedFrom(src, i + 1, pads);
      if pads < 2 {
        AcceptedFrom(src, i + 1, pads + 1);
      }
    }
  }

  predicate AllFit(src: seq<byte>, i: nat) {
    forall k :: i <= k < |src| ==> Fits(src, k)
  }

  predicate Ordered(src: seq<byte>, i: nat) {
    forall a, b :: i <= a < b < |src| && src[a] == 61 ==> !IsLetter(src[b])
  }

  lemma NothingLeft(src: seq<byte>, pads: nat)
    requires pads <= 2
    ensures CountFrom(src, |src|, pads).Some? && AllFit(src, |src|) && Ordered(src, |src|)
    ensures FewPads(src, |src|, 2 - pads) && NoLetterFrom(src, |src|)
  {
  }

  lemma FirstIs(src: seq<byte>, i: nat)
    requires i < |src|
    ensures AllFit(src, i) <==> Fits(src, i) && AllFit(src, i + 1)
    ensures Ordered(src, i) <==> (src[i] == 61 ==> NoLetterFrom(src, i + 1)) && Ordered(src, i + 1)
    ensures NoLetterFrom(src, i) <==> !IsLetter(src[i]) && NoLetterFrom(src, i + 1)
  {
    hide IsLetter, Fits;
  }

  lemma FirstPad(src: seq<byte>, i: nat, n: nat)
    requires i < |src| && n <= 2
    ensures FewPads(src, i, n) <==> if src[i] == 61 then n > 0 && FewPads(src, i + 1, n - 1) else FewPads(src, i + 1, n)
  {
  }

  lemma CountStep(src: seq<byte>, i: nat, pads: nat)
    requires i < |src| && pads <= 2
    ensures src[i] == 61 ==> (CountFrom(src, i, pads).Some? <==> pads < 2 && CountFrom(src, i + 1, pads + 1).Some?)
    ensures src[i] != 61 ==>
              (CountFrom(src, i, pads).Some? <==>
                 Fits(src, i) && (IsLetter(src[i]) ==> pads == 0) && CountFrom(src, i + 1, pads).Some?)
    ensures src[i] == 61 ==> Fits(src, i) && !IsLetter(src[i])
  {
  }

  // ----- decoding -----

  /** A CR or LF is skipped wherever it stands. */
  lemma {:induction false} BreaksIgnored(a: seq<byte>, c: byte, b: seq<byte>)
    requires c == 13 || c == 10
    ensures Decode(a + [c] + b) == Decode(a + b)
  {
    StripOne(a, c, b);
  }

  lemma {:induction false} StripOne(a: seq<byte>, c: byte, b: seq<byte>)
    requires c == 13 || c == 10
    ensures Strip(a + [c] + b) == Strip(a + b)
  {
    var t := a + [c] + b;
    if a == [] {
      assert t[1..] == b && a + b == b;
    } else {
      StripOne(a[1..], c, b);
      assert t[1..] == a[1..] + [c] + b && (a + b)[1..] == a[1..] + b;
    }
  }

  lemma {:induction false} NothingToStrip(s: seq<byte>)
    requires forall i :: 0 <= i < |s| ==> s[i] != 13 && s[i] != 10
    ensures Strip(s) == s
  {
    if s != [] {
      NothingToStrip(s[1..]);
    }
  }

  /** Letters with `pads` pad characters behind them. */
  predicate Padded(cs: seq<byte>, pads: nat) {
    && pads <= 2 && pads <= |cs|
    && (forall i :: 0 <= i < |cs| - pads ==> IsLetter(cs[i]))
    && (forall i :: |cs| - pads <= i < |cs| ==> cs[i] == 61)
  }

  /** The number that the four characters from `i` on spell; a pad character counts as zero. */
  function Quad(cs: seq<byte>, i: nat): nat
    requires i + 4 <= |cs|
  {
    DecMap(cs[i]) % 64 * 0x4_0000 + DecMap(cs[i + 1]) % 64 * 0x1000 + DecMap(cs[i + 2]) % 64 * 64 + DecMap(cs[i + 3]) % 64
  }

  /**
   * Each complete group of four characters gives three octets, less one for each of its pad
   * characters; what is left over gives none.
   */
  lemma DecodedLength(cs: seq<byte>, pads: nat)
    requires Padded(cs, pads)
    ensures var over := |cs| % 4; |Decode(cs)| == |cs| / 4 * 3 - if pads < over then 0 else pads - over
  {
    hide Strip, Groups, IsLetter;
    LettersStay(cs, pads);
    NothingToStrip(cs);
    GroupsLength(cs, pads);
  }

  lemma LettersStay(cs: seq<byte>, pads: nat)
    requires Padded(cs, pads)
    ensures forall i :: 0 <= i < |cs| ==> cs[i] != 13 && cs[i] != 10
  {
  }

  /** Octet `3 * q + r` is octet `r` of the number that the `q`-th group spells. */
  lemma DecodedOctet(cs: seq<byte>, pads: nat, q: nat, r: nat)
    requires Padded(cs, pads) && 4 * q + 4 <= |cs| && r < 3 && 4 * q + r + 1 < |cs| - pads
    ensures 3 * q + r < |Decode(cs)|
    ensures Decode(cs)[3 * q + r] ==
            (if r == 0 then Quad(cs, 4 * q) / 0x1_0000 else if r == 1 then Quad(cs, 4 * q) / 0x100 else Quad(cs, 4 * q)) % 256
  {
    hide Strip, Groups, IsLetter, Quad;
    LettersStay(cs, pads);
    NothingToStrip(cs);
    GroupsOctet(cs, pads, q, r);
  }

  lemma {:induction false} GroupsLength(cs: seq<byte>, pads: nat)
    requires Padded(cs, pads)
    ensures var over := |cs| % 4; |Groups(cs, 3)| == |cs| / 4 * 3 - if pads < over then 0 else pads - over
    decreases |cs|
  {
    hide IsLetter, Pads, GroupOctets, GroupValue;
    if |cs| >= 4 {
      PadsOfGroup(cs, pads);
      OctetCount(GroupValue(cs[..4]), 3 - Pads(cs[..4]));
      if |cs| - pads >= 4 {
        PaddedRest(cs, pads);
        GroupsLength(cs[4..], pads);
      }
    }
  }

  lemma PaddedRest(cs: seq<byte>, pads: nat)
    requires Padded(cs, pads) && |cs| - pads >= 4
    ensures Padded(cs[4..], pads)
  {
    hide IsLetter;
  }

  lemma OctetCount(v: nat, keep: nat)
    requires 1 <= keep <= 3
    ensures |GroupOctets(v, keep)| == keep
    ensures GroupOctets(v, keep)[0] == v / 0x1_0000 % 256
    ensures keep > 1 ==> GroupOctets(v, keep)[1] == v / 0x100 % 256
    ensures keep > 2 ==> GroupOctets(v, keep)[2] == v % 256
  {
  }

  /** The pad characters of the first group. */
  lemma PadsOfGroup(cs: seq<byte>, pads: nat)
    requires Padded(cs, pads) && |cs| >= 4
    ensures Pads(cs[..4]) == if |cs| - pads >= 4 then 0 else 4 - (|cs| - pads)
  {
    hide Pads, IsLetter, IsPad;
    FourValues(cs[..4]);
    PadOrLetter(cs[0]);
    PadOrLetter(cs[1]);
    PadOrLetter(cs[2]);
    PadOrLetter(cs[3]);
  }

  lemma PadOrLetter(c: byte)
    ensures IsLetter(c) ==> IsPad(c) == 0
    ensures c == 61 ==> IsPad(c) == 1
  {
  }

  lemma QuadIs(cs: seq<byte>)
    requires |cs| >= 4
    ensures GroupValue(cs[..4]) == Quad(cs, 0)
  {
    hide DecMap, GroupValue, Pads;
    FourValues(cs[..4]);
  }

  lemma {:induction false} GroupsOctet(cs: seq<byte>, pads: nat, q: nat, r: nat)
    requires Padded(cs, pads) && 4 * q + 4 <= |cs| && r < 3 && 4 * q + r + 1 < |cs| - pads
    ensures 3 * q + r < |Groups(cs, 3)|
    ensures Groups(cs, 3)[3 * q + r] ==
            (if r == 0 then Quad(cs, 4 * q) / 0x1_0000 else if r == 1 then Quad(cs, 4 * q) / 0x100 else Quad(cs, 4 * q)) % 256
    decreases q
  {
    hide IsLetter, Pads, GroupOctets, GroupValue, DecMap, Padded;
    var g := cs[..4];
    PadsOfGroup(cs, pads);
    OctetCount(GroupValue(g), 3 - Pads(g));
    if q == 0 {
      QuadIs(cs);
      assert Groups(cs, 3)[r] == GroupOctets(GroupValue(g), 3 - Pads(g))[r];
    } else {
      PaddedRest(cs, pads);
      GroupsOctet(cs[4..], pads, q - 1, r);
      assert Groups(cs, 3) == GroupOctets(GroupValue(g), 3) + Groups(cs[4..], 3);
      assert Quad(cs[4..], 4 * q - 4) == Quad(cs, 4 * q);
    }
  }

  /** The length that the decoder asks for is the bits of all characters, rounded up to octets. */
  lemma NeededOctets(src: seq<byte>)
    requires CountChars(src).Some?
    ensures CountChars(src).value == |Strip(src)|
    ensures 6 * |Strip(src)| <= 8 * DecodedBound(CountChars(src).value) < 6 * |Strip(src)| + 8
  {
    CountIsStripped(src, 0, 0);
    assert src[0..] == src;
  }
}
