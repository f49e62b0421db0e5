/** The base64 coder (src/base64.c) against section 5.2 of RFC 1521. */
module Base64 {
  import opened Bytes

  const CR: byte := 13
  const LF: byte := 10
  const PAD: byte := 61
  const UINT32_MODULUS: nat := 0x1_0000_0000

  type Sextet = x: int | 0 <= x < 64

  /** The alphabet, in its five runs. */
  function EncMap(v: Sextet): byte {
    if v < 26 then 65 + v
    else if v < 52 then 97 + (v - 26)
    else if v < 62 then 48 + (v - 52)
    else if v == 62 then 43
    else 47
  }

  /** The inverse table: 64 stands for the pad character, 127 for a character that is not in the alphabet. */
  function DecMap(c: byte): byte {
    if c == 43 then 62
    else if c == 47 then 63
    else if 48 <= c <= 57 then 52 + (c - 48)
    else if c == PAD then 64
    else if 65 <= c <= 90 then c - 65
    else if 97 <= c <= 122 then 26 + (c - 97)
    else 127
  }

  lemma DecMapInverts(v: Sextet)
    ensures DecMap(EncMap(v)) == v && EncMap(v) != PAD && EncMap(v) != CR && EncMap(v) != LF && EncMap(v) < 128
  {
  }

  // ----- encoding -----

  /** One group of three octets, the missing ones being zero: its four sextets. */
  function Sextets(a: byte, b: byte, c: byte): (Sextet, Sextet, Sextet, Sextet) {
    (a / 4, (a % 4) * 16 + b / 16, (b % 16) * 4 + c / 64, c % 64)
  }

  /** The four characters for one to three octets. */
  function EncodeGroup(g: seq<byte>): (r: seq<byte>)
    requires 1 <= |g| <= 3
    ensures |r| == 4
  {
    var b, c := if |g| > 1 then g[1] else 0, if |g| > 2 then g[2] else 0;
    var v := Sextets(g[0], b, c);
    [EncMap(v.0), EncMap(v.1), if |g| > 1 then EncMap(v.2) else PAD, if |g| > 2 then EncMap(v.3) else PAD]
  }

  function Encode(s: seq<byte>): (r: seq<byte>)
    ensures |r| == (|s| + 2) / 3 * 4
  {
    if s == [] then []
    else if |s| <= 3 then EncodeGroup(s)
    else EncodeGroup(s[..3]) + Encode(s[3..])
  }

  lemma {:induction false} EncodeStep(s: seq<byte>, i: nat)
    requires i % 3 == 0 && i < |s|
    ensures var g := if i + 3 <= |s| then s[i..i + 3] else s[i..];
            Encode(s[..i]) + EncodeGroup(g) == Encode(s[..i + |g|])
    decreases i
  {
    hide EncodeGroup;
    var g := if i + 3 <= |s| then s[i..i + 3] else s[i..];
    var t := s[..i + |g|];
    if i == 0 {
      assert t == g;
    } else {
      EncodeStep(s[3..], i - 3);
      assert s[3..][..i - 3] == s[..i][3..];
      assert s[3..][..i - 3 + |g|] == t[3..];
      assert s[..i][..3] == t[..3] == s[..3];
      assert i + 3 <= |s| ==> s[3..][i - 3..i] == g;
      assert s[3..][i - 3..] == s[i..];
      if i == 3 {
        assert s[..i] == s[..3] && Encode(s[3..][..0]) == [];
      }
    }
  }

  /** The number of characters, worked out by the bits as the source does. */
  function EncodedLength(slen: nat): nat {
    var n := slen * 8 / 6;
    var bits := slen * 8 - n * 6;
    if bits == 2 then n + 3 else if bits == 4 then n + 2 else n
  }

  lemma EncodedLengthIsExact(slen: nat)
    ensures EncodedLength(slen) == (slen + 2) / 3 * 4
  {
    var q, r := slen / 3, slen % 3;
    assert slen == 3 * q + r;
    assert slen * 8 == 24 * q + 8 * r;
    assert slen * 8 / 6 == 4 * q + 8 * r / 6;
  }

  /**
   * Encode `src` into `dst`, which holds `dlen` octets. A destination that is too small is left
   * alone and the length it needs, which counts the NUL at the end, is given instead.
   */
  method EncodeInto(dst: array<byte>, dlen: nat, src: seq<byte>) returns (tooSmall: bool, written: nat)
    requires dlen <= dst.Length
    modifies dst
    ensures src == [] ==> !tooSmall && written == dlen && dst[..] == old(dst[..])
    ensures src != [] ==> tooSmall == (dlen < |Encode(src)| + 1)
    ensures tooSmall ==> written == |Encode(src)| + 1 && dst[..] == old(dst[..])
    ensures src != [] && !tooSmall ==>
              && written == |Encode(src)| && dst[..written] == Encode(src) && dst[written] == 0
              && TailKept(dst, written + 1)
  {
    if |src| == 0 {
      return false, dlen;
    }
    var n := EncodedLength(|src|);
    EncodedLengthIsExact(|src|);
    if dlen < n + 1 {
      return true, n + 1;
    }
    PutGroups(dst, src);
    dst[n] := 0;
    return false, n;
  }

  /** Write all the groups, the last of which may be short. */
  method PutGroups(dst: array<byte>, src: seq<byte>)
    requires src != [] && |Encode(src)| <= dst.Length
    modifies dst
    ensures dst[..|Encode(src)|] == Encode(src) && TailKept(dst, |Encode(src)|)
  {
    hide Encode, EncodeGroup;
    var n := |src| / 3 * 3;
    var i, p := 0, 0;
    NothingEncoded(src);
    while i < n
      invariant i <= n && i % 3 == 0 && p == i / 3 * 4
      invariant dst[..p] == Encode(src[..i]) && TailKept(dst, p)
    {
      EncodeStep(src, i);
      RoomForGroup(|src|, i);
      PutGroup(dst, p, src[i..i + 3]);
      i, p := i + 3, p + 4;
    }
    if i < |src| {
      EncodeStep(src, i);
      RoomForGroup(|src|, i);
      assert src[..|src|] == src;
      PutGroup(dst, p, src[i..]);
    } else {
      assert src[..i] == src;
    }
  }

  lemma NothingEncoded(s: seq<byte>)
    ensures Encode(s[..0]) == []
  {
  }

  lemma RoomForGroup(n: nat, i: nat)
    requires i < n && i % 3 == 0
    ensures i / 3 * 4 + 4 <= (n + 2) / 3 * 4
    ensures i + 3 >= n ==> i / 3 * 4 + 4 == (n + 2) / 3 * 4
  {
  }

  /** Nothing from `p` on was written. */
  twostate predicate TailKept(dst: array<byte>, p: nat)
    reads dst
  {
    forall k :: p <= k < dst.Length ==> dst[k] == old(dst[k])
  }

  method PutGroup(dst: array<byte>, p: nat, g: seq<byte>)
    requires 1 <= |g| <= 3 && p + 4 <= dst.Length
    modifies dst
    ensures dst[..p + 4] == old(dst[..p]) + EncodeGroup(g) && TailKept(dst, p + 4)
  {
    var c1, c2, c3 := g[0], if |g| > 1 then g[1] else 0, if |g| > 2 then g[2] else 0;
    dst[p] := EncMap(c1 / 4);
    dst[p + 1] := EncMap((c1 % 4) * 16 + c2 / 16);
    dst[p + 2] := if |g| > 1 then EncMap((c2 % 16) * 4 + c3 / 64) else PAD;
    dst[p + 3] := if |g| > 2 then EncMap(c3 % 64) else PAD;
  }

  // ----- decoding -----

  predicate IsLineBreak(c: byte) {
    c == CR || c == LF
  }

  /** The input without its line breaks. */
  function Strip(s: seq<byte>): seq<byte> {
    if s == [] then [] else if IsLineBreak(s[0]) then Strip(s[1..]) else [s[0]] + Strip(s[1..])
  }

  /**
   * The number of characters from `i` on, `pads` pad characters having been seen, or nothing when
   * one of them is not allowed: a CR without a LF, a character that is not in the alphabet, a
   * third pad character, or anything else after a pad character.
   */
  function CountFrom(src: seq<byte>, i: nat, pads: nat): (r: Option<nat>)
    requires i <= |src|
    ensures r.Some? ==> r.value <= |src| - i
    decreases |src| - i
  {
    if i == |src| then Some(0)
    else if |src| - i >= 2 && src[i] == CR && src[i + 1] == LF then CountFrom(src, i + 1, pads)
    else if src[i] == LF then CountFrom(src, i + 1, pads)
    else
      var pads' := if src[i] == PAD then pads + 1 else pads;
      if src[i] == PAD && pads' > 2 then None
      else if src[i] > 127 || DecMap(src[i]) == 127 then None
      else if DecMap(src[i]) < 64 && pads' != 0 then None
      else
        var rest := CountFrom(src, i + 1, pads');
        if rest.None? then None else Some(1 + rest.value)
  }

  function CountChars(src: seq<byte>): Option<nat> {
    CountFrom(src, 0, 0)
  }

  function Value(c: byte): Sextet {
    DecMap(c) % 64
  }

  /** The number that a group of characters spells. */
  function GroupValue(g: seq<byte>): nat {
    if g == [] then 0 else GroupValue(g[..|g| - 1]) * 64 + Value(g[|g| - 1])
  }

  function IsPad(c: byte): (n: nat)
    ensures n <= 1
  {
    if DecMap(c) == 64 then 1 else 0
  }

  function Pads(g: seq<byte>): (n: nat)
    ensures n <= |g|
  {
    if g == [] then 0 else Pads(g[..|g| - 1]) + IsPad(g[|g| - 1])
  }

  /** The first `keep` of the three octets of a group. */
  function GroupOctets(v: nat, keep: int): (r: seq<byte>)
    ensures |r| <= 3
  {
    (if keep > 0 then [v / 0x1_0000 % 256] else []) +
    (if keep > 1 then [v / 0x100 % 256] else []) +
    (if keep > 2 then [v % 256] else [])
  }

  /** Complete groups of four characters; `keep` octets of a group are kept, less one for each pad so far. */
  function Groups(cs: seq<byte>, keep: int): seq<byte>
    decreases |cs|
  {
    if |cs| < 4 then []
    else
      var keep' := keep - Pads(cs[..4]);
      GroupOctets(GroupValue(cs[..4]), keep') + Groups(cs[4..], keep')
  }

  function Decode(src: seq<byte>): seq<byte> {
    Groups(Strip(src), 3)
  }

  /** What the source makes of the number of characters: a bound on the octets. */
  function DecodedBound(n: nat): nat {
    (n * 6 + 7) / 8
  }

  lemma {:induction false} GroupsBound(cs: seq<byte>, keep: int)
    ensures |Groups(cs, keep)| <= |cs| / 4 * 3
    decreases |cs|
  {
    if |cs| >= 4 {
      GroupsBound(cs[4..], keep - Pads(cs[..4]));
    }
  }

  lemma {:induction false} CountIsStripped(src: seq<byte>, i: nat, pads: nat)
    requires i <= |src| && CountFrom(src, i, pads).Some?
    ensures CountFrom(src, i, pads).value == |Strip(src[i..])|
    decreases |src| - i
  {
    if i < |src| {
      assert src[i..][1..] == src[i + 1..] && src[i..][0] == src[i];
      var pads' := if src[i] == PAD then pads + 1 else pads;
      if (|src| - i >= 2 && src[i] == CR && src[i + 1] == LF) || src[i] == LF {
        CountIsStripped(src, i + 1, pads);
      } else {
        CountIsStripped(src, i + 1, pads');
      }
    }
  }

  /** For any accepted input the decoder stays within the length that it computes. */
  lemma WithinBound(src: seq<byte>)
    requires CountChars(src).Some?
    ensures |Decode(src)| <= DecodedBound(CountChars(src).value)
  {
    CountIsStripped(src, 0, 0);
    assert src[0..] == src;
    GroupsBound(Strip(src), 3);
    ThreeQuarters(|Strip(src)|);
  }

  lemma ThreeQuarters(n: nat)
    ensures n / 4 * 3 <= DecodedBound(n)
  {
  }

  // ----- round trip -----

  /** The characters of a group spell its octets. */
  lemma GroupOfThree(a: byte, b: byte, c: byte)
    ensures var v := Sextets(a, b, c);
            ((v.0 * 64 + v.1) * 64 + v.2) * 64 + v.3 == a * 0x1_0000 + b * 0x100 + c
  {
  }

  lemma OctetsOf(a: byte, b: byte, c: byte)
    ensures var v := a * 0x1_0000 + b * 0x100 + c;
            v / 0x1_0000 % 256 == a && v / 0x100 % 256 == b && v % 256 == c
  {
    var w := a * 0x100 + b;
    assert w / 0x100 == a && w % 0x100 == b;
    var v := w * 0x100 + c;
    assert v / 0x100 == w && v % 0x100 == c;
    assert v / 0x1_0000 == a;
  }

  lemma FourValues(g: seq<byte>)
    requires |g| == 4
    ensures GroupValue(g) == ((Value(g[0]) * 64 + Value(g[1])) * 64 + Value(g[2])) * 64 + Value(g[3])
    ensures Pads(g) == IsPad(g[0]) + IsPad(g[1]) + IsPad(g[2]) + IsPad(g[3])
  {
    hide Value, IsPad;
    var g3, g2, g1 := g[..3], g[..2], g[..1];
    assert g3[..2] == g2 && g2[..1] == g1 && g1[..0] == [];
    assert GroupValue(g1) == Value(g[0]) && Pads(g1) == IsPad(g[0]);
    assert GroupValue(g2) == GroupValue(g1) * 64 + Value(g[1]) && Pads(g2) == Pads(g1) + IsPad(g[1]);
    assert GroupValue(g3) == GroupValue(g2) * 64 + Value(g[2]) && Pads(g3) == Pads(g2) + IsPad(g[2]);
  }

  lemma CharValue(v: Sextet)
    ensures Value(EncMap(v)) == v && IsPad(EncMap(v)) == 0
    ensures Value(PAD) == 0 && IsPad(PAD) == 1
  {
  }

  /** Where a pad stands for a sextet, that sextet is zero. */
  lemma GroupChars(g: seq<byte>)
    requires 1 <= |g| <= 3
    ensures var b, c := if |g| > 1 then g[1] else 0, if |g| > 2 then g[2] else 0;
            var v, r := Sextets(g[0], b, c), EncodeGroup(g);
            && Value(r[0]) == v.0 && Value(r[1]) == v.1 && Value(r[2]) == v.2 && Value(r[3]) == v.3
            && IsPad(r[0]) + IsPad(r[1]) + IsPad(r[2]) + IsPad(r[3]) == 3 - |g|
  {
    hide EncMap, Value, IsPad;
    var b, c := if |g| > 1 then g[1] else 0, if |g| > 2 then g[2] else 0;
    var v := Sextets(g[0], b, c);
    CharValue(v.0);
    CharValue(v.1);
    CharValue(v.2);
    CharValue(v.3);
  }

  lemma GroupRoundTrip(g: seq<byte>)
    requires 1 <= |g| <= 3
    ensures Pads(EncodeGroup(g)) == 3 - |g|
    ensures GroupOctets(GroupValue(EncodeGroup(g)), |g|) == g
  {
    hide Value, IsPad, Sextets, EncodeGroup, GroupValue, Pads;
    var b, c := if |g| > 1 then g[1] else 0, if |g| > 2 then g[2] else 0;
    FourValues(EncodeGroup(g));
    GroupChars(g);
    GroupOfThree(g[0], b, c);
    OctetsOf(g[0], b, c);
  }

  lemma {:induction false} GroupsRoundTrip(s: seq<byte>)
    ensures Groups(Encode(s), 3) == s
    decreases |s|
  {
    hide EncodeGroup, GroupOctets, Pads, GroupValue;
    if s != [] {
      var g := if |s| <= 3 then s else s[..3];
      var e := Encode(s);
      GroupRoundTrip(g);
      assert e[..4] == EncodeGroup(g);
      if |s| > 3 {
        assert e[4..] == Encode(s[3..]);
        GroupsRoundTrip(s[3..]);
        assert s[..3] + s[3..] == s;
      }
    }
  }

  /** The first `n` characters are of the alphabet, the others are pads. */
  predicate Shaped(e: seq<byte>, n: nat) {
    && n <= |e|
    && (forall i :: 0 <= i < n ==> DecMap(e[i]) < 64 && e[i] < 128)
    && (forall i :: n <= i < |e| ==> e[i] == PAD)
  }

  lemma GroupShape(g: seq<byte>)
    requires 1 <= |g| <= 3
    ensures Shaped(EncodeGroup(g), |g| + 1)
  {
    hide EncMap, DecMap, Sextets;
    var b, c := if |g| > 1 then g[1] else 0, if |g| > 2 then g[2] else 0;
    var v := Sextets(g[0], b, c);
    DecMapInverts(v.0);
    DecMapInverts(v.1);
    DecMapInverts(v.2);
    DecMapInverts(v.3);
  }

  /** The number of characters of the alphabet in the encoding of `n` octets. */
  function Significant(n: nat): nat {
    n / 3 * 4 + if n % 3 == 0 then 0 else n % 3 + 1
  }

  lemma {:induction false} EncodeShape(s: seq<byte>)
    ensures Shaped(Encode(s), Significant(|s|)) && |Encode(s)| - Significant(|s|) <= 2
    decreases |s|
  {
    hide EncodeGroup, DecMap;
    if s != [] {
      var g := if |s| <= 3 then s else s[..3];
      GroupShape(g);
      if |s| > 3 {
        EncodeShape(s[3..]);
        ShapeOfSum(EncodeGroup(g), Encode(s[3..]), Significant(|s| - 3));
        assert Significant(|s|) == 4 + Significant(|s| - 3);
      }
    }
  }

  lemma ShapeOfSum(a: seq<byte>, b: seq<byte>, n: nat)
    requires Shaped(a, |a|) && Shaped(b, n)
    ensures Shaped(a + b, |a| + n)
  {
  }

  lemma {:induction false} ShapedIsAccepted(e: seq<byte>, n: nat, i: nat)
    requires Shaped(e, n) && |e| - n <= 2 && i <= |e|
    ensures CountFrom(e, i, if i <= n then 0 else i - n) == Some(|e| - i)
    ensures Strip(e[i..]) == e[i..]
    decreases |e| - i
  {
    if i < |e| {
      ShapedIsAccepted(e, n, i + 1);
      assert e[i..] == [e[i]] + e[i + 1..];
      assert e[i..][1..] == e[i + 1..];
    }
  }

  /** Decoding the encoding of anything gives it back. */
  lemma RoundTrip(s: seq<byte>)
    ensures CountChars(Encode(s)) == Some(|Encode(s)|)
    ensures Decode(Encode(s)) == s
  {
    hide Encode, CountFrom, Strip, Groups;
    var e := Encode(s);
    EncodeShape(s);
    ShapedIsAccepted(e, Significant(|s|), 0);
    assert e[0..] == e;
    GroupsRoundTrip(s);
  }

  // ----- the loops of the decoder -----

  datatype Status = Ok | InvalidCharacter | BufferTooSmall

  method Count(src: seq<byte>) returns (ok: bool, n: nat)
    ensures CountChars(src) == if ok then Some(n) else None
  {
    hide DecMap;
    n := 0;
    var i, j := 0, 0;
    while i < |src|
      invariant i <= |src|
      invariant CountFrom(src, 0, 0) ==
                match CountFrom(src, i, j) { case None => None case Some(rest) => Some(n + rest) }
    {
      if (|src| - i >= 2 && src[i] == CR && src[i + 1] == LF) || src[i] == LF {
        i := i + 1;
        continue;
      }
      if src[i] == PAD {
        j := j + 1;
        if j > 2 {
          return false, 0;
        }
      }
      if src[i] > 127 || DecMap(src[i]) == 127 {
        return false, 0;
      }
      if DecMap(src[i]) < 64 && j != 0 {
        return false, 0;
      }
      n := n + 1;
      i := i + 1;
    }
    return true, n;
  }

  function Pow64(n: nat): (p: nat)
    requires n <= 4
    ensures p > 0
  {
    if n == 0 then 1 else if n == 1 then 64 else if n == 2 then 4096 else if n == 3 then 262144 else 16777216
  }

  /** Shifting six bits into a 32-bit word keeps the low bits right, whatever is left above them. */
  lemma ShiftIn(x: nat, v: Sextet, n: nat)
    requires n < 4
    ensures (x * 64 + v) % UINT32_MODULUS % Pow64(n + 1) == x % Pow64(n) * 64 + v
  {
    if n == 0 {
    } else if n == 1 {
    } else if n == 2 {
    } else {
    }
  }

  lemma LowOctets(x: nat)
    ensures var g := x % Pow64(4);
            x / 0x1_0000 % 256 == g / 0x1_0000 % 256 && x / 0x100 % 256 == g / 0x100 % 256 && x % 256 == g % 256
  {
    var q, g := x / Pow64(4), x % Pow64(4);
    assert x == 16777216 * q + g;
    assert x / 0x1_0000 == 256 * q + g / 0x1_0000;
    assert x / 0x100 == 0x1_0000 * q + g / 0x100;
  }

  lemma NextChar(g: seq<byte>, src: seq<byte>, i: nat)
    requires i < |src|
    ensures IsLineBreak(src[i]) ==> Strip(src[i..]) == Strip(src[i + 1..])
    ensures !IsLineBreak(src[i]) ==> g + Strip(src[i..]) == g + [src[i]] + Strip(src[i + 1..])
    ensures GroupValue(g + [src[i]]) == GroupValue(g) * 64 + Value(src[i])
    ensures Pads(g + [src[i]]) == Pads(g) + IsPad(src[i])
  {
  }

  lemma FullGroup(g: seq<byte>, rest: seq<byte>, keep: int)
    requires |g| == 4
    ensures Groups(g + rest, keep) == GroupOctets(GroupValue(g), keep - Pads(g)) + Groups(rest, keep - Pads(g))
  {
  }

  /** Write the octets of a complete group; `x` holds its bits below others. */
  method PutOctets(dst: array<byte>, p: nat, x: nat, j: int) returns (p': nat)
    requires p + |GroupOctets(x % Pow64(4), j)| <= dst.Length
    modifies dst
    ensures p' == p + |GroupOctets(x % Pow64(4), j)|
    ensures dst[..p'] == old(dst[..p]) + GroupOctets(x % Pow64(4), j) && TailKept(dst, p')
  {
    LowOctets(x);
    p' := p;
    if j > 0 {
      dst[p'] := x / 0x1_0000 % 256;
      p' := p' + 1;
    }
    if j > 1 {
      dst[p'] := x / 0x100 % 256;
      p' := p' + 1;
    }
    if j > 2 {
      dst[p'] := x % 256;
      p' := p' + 1;
    }
  }

  /** The second pass: shift six bits in for each character, and write a group when it is complete. */
  method Emit(dst: array<byte>, src: seq<byte>) returns (p: nat)
    requires |Decode(src)| <= dst.Length
    modifies dst
    ensures p == |Decode(src)| && dst[..p] == Decode(src) && TailKept(dst, p)
  {
    hide GroupOctets, GroupValue, Pads, Strip, Value, IsPad, Groups, DecMap, Pow64;
    var i, n, j := 0, 0, 3;
    var x: nat := 0;
    p := 0;
    ghost var g: seq<byte> := [];
    assert src[0..] == src && [] + Strip(src) == Strip(src);
    StartOfGroup();
    while i < |src|
      invariant i <= |src| && n == |g| < 4
      invariant x % Pow64(n) == GroupValue(g)
      invariant p <= dst.Length && TailKept(dst, p)
      invariant Decode(src) == dst[..p] + Groups(g + Strip(src[i..]), j + Pads(g))
    {
      var c := src[i];
      NextChar(g, src, i);
      i := i + 1;
      if !IsLineBreak(c) {
        ShiftIn(x, Value(c), n);
        j := j - IsPad(c);
        x := (x * 64 + Value(c)) % UINT32_MODULUS;
        n := n + 1;
        g := g + [c];
        if n == 4 {
          FullGroup(g, Strip(src[i..]), j + Pads(g));
          p := PutOctets(dst, p, x, j);
          n, g := 0, [];
          StartOfGroup();
          Unit(x);
          assert [] + Strip(src[i..]) == Strip(src[i..]);
        }
      }
    }
    Remainder(g, src, j + Pads(g));
  }

  lemma StartOfGroup()
    ensures GroupValue([]) == 0 && Pads([]) == 0 && 0 % Pow64(0) == 0
  {
  }

  lemma Unit(x: nat)
    ensures x % Pow64(0) == 0
  {
  }

  lemma Remainder(g: seq<byte>, src: seq<byte>, keep: int)
    requires |g| < 4
    ensures Groups(g + Strip(src[|src|..]), keep) == []
  {
  }

  /**
   * Decode `src` into `dst`, which holds `dlen` octets. Input without any character succeeds and
   * leaves the length alone; a destination that is too small is told the bound.
   */
  method DecodeInto(dst: array<byte>, dlen: nat, src: seq<byte>) returns (status: Status, written: nat)
    requires dlen <= dst.Length
    modifies dst
    ensures status == InvalidCharacter <==> CountChars(src) == None
    ensures status == BufferTooSmall <==>
              CountChars(src).Some? && CountChars(src).value > 0 && dlen < DecodedBound(CountChars(src).value)
    ensures status != Ok || CountChars(src) == Some(0) ==> dst[..] == old(dst[..])
    ensures status == BufferTooSmall ==> written == DecodedBound(CountChars(src).value)
    ensures status == Ok && CountChars(src).value > 0 ==>
              && written == |Decode(src)| && written <= dst.Length
              && dst[..written] == Decode(src) && TailKept(dst, written)
  {
    hide Decode, CountChars;
    var ok, n := Count(src);
    if !ok {
      return InvalidCharacter, dlen;
    }
    if n == 0 {
      return Ok, dlen;
    }
    n := DecodedBound(n);
    if dlen < n {
      return BufferTooSmall, n;
    }
    WithinBound(src);
    written := Emit(dst, src);
    status := Ok;
  }
}
