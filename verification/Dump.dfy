/** The hex dump of a buffer and its scanner (`cb_sprint` and `cb_sscan` in src/char_buffer.c). */
module Dump {
  import opened Bytes

  const SPACE: byte := 32
  const NEWLINE: byte := 10
  const DOT: byte := 46

  // ----- printing -----

  function HexChar(v: nat): byte
    requires v < 16
  {
    if v < 10 then 48 + v else 55 + v
  }

  /** How many octets go on the first line: at most `cpl`, and none after a newline. */
  function LineLength(s: seq<byte>, cpl: nat): (n: nat)
    ensures n <= |s| && n <= cpl && (s != [] && cpl > 0 ==> n > 0)
  {
    if s == [] || cpl == 0 then 0
    else if s[0] == NEWLINE then 1
    else 1 + LineLength(s[1..], cpl - 1)
  }

  function Spaces(n: nat): (s: seq<byte>)
    ensures |s| == n
  {
    seq(n, _ => SPACE)
  }

  function HexPart(line: seq<byte>): (s: seq<byte>)
    ensures |s| == 3 * |line|
  {
    if line == [] then []
    else [SPACE, HexChar(line[0] / 16), HexChar(line[0] % 16)] + HexPart(line[1..])
  }

  function Shown(c: byte): byte {
    if c < 32 || c > 126 then DOT else c
  }

  function CharPart(line: seq<byte>): (s: seq<byte>)
    ensures |s| == |line|
  {
    seq(|line|, i requires 0 <= i < |line| => Shown(line[i]))
  }

  function LineText(line: seq<byte>, cpl: nat): seq<byte>
    requires |line| <= cpl
  {
    HexPart(line) + Spaces(3 * (cpl - |line|)) + Spaces(2) + CharPart(line)
  }

  /** The dump of a buffer with `cpl` octets to the line and no limit on the lines. */
  function Print(s: seq<byte>, cpl: nat): seq<byte>
    requires cpl > 0
    decreases |s|
  {
    if s == [] then []
    else
      var n := LineLength(s, cpl);
      LineText(s[..n], cpl) + if n == |s| then [] else [NEWLINE] + Print(s[n..], cpl)
  }

  /** The number of octets that fit a line of `maxWidth` characters. */
  function CharsPerLine(maxWidth: nat): (cpl: nat)
    ensures cpl > 0
  {
    if maxWidth > 6 then (maxWidth - 2) / 4 else 1
  }

  // ----- scanning -----

  /** The character at the pointer; a string ends with a NUL. */
  function Head(f: seq<byte>): byte {
    if f == [] then 0 else f[0]
  }

  function HexValue(c: byte): int {
    if 48 <= c <= 57 then c - 48
    else if 97 <= c <= 102 then 10 + c - 97
    else if 65 <= c <= 70 then 10 + c - 65
    else -1
  }

  function SkipSpaces(f: seq<byte>): (g: seq<byte>)
    ensures |g| <= |f| && (Head(f) == SPACE ==> |g| < |f|) && Head(g) != SPACE
  {
    if Head(f) == SPACE then SkipSpaces(f[1..]) else f
  }

  /** Two digits and a space at the pointer. */
  predicate HexAt(f: seq<byte>) {
    |f| >= 3 && HexValue(f[0]) >= 0 && HexValue(f[1]) >= 0 && f[2] == SPACE
  }

  /** The octets up to a space or a newline, and what comes after them. */
  function Hexes(f: seq<byte>): (r: Option<(seq<byte>, seq<byte>)>)
    ensures r.Some? ==> |r.value.1| <= |f| && Head(r.value.1) in {SPACE, NEWLINE}
    ensures r.Some? && Head(f) !in {SPACE, NEWLINE} ==> |r.value.1| < |f|
  {
    if Head(f) == SPACE || Head(f) == NEWLINE then Some(([], f))
    else if !HexAt(f) then None
    else
      match Hexes(f[3..])
      case None => None
      case Some(r) => Some(([HexValue(f[0]) * 16 + HexValue(f[1])] + r.0, r.1))
  }

  /** Drop the rest of the line. */
  function SkipLine(f: seq<byte>): (g: seq<byte>)
    ensures |g| <= |f| && Head(g) in {0, NEWLINE}
  {
    if Head(f) == 0 || Head(f) == NEWLINE then f else SkipLine(f[1..])
  }

  /** What is left after a line whose octets end at `h`. */
  function AfterLine(h: seq<byte>): (k: seq<byte>)
    requires Head(h) in {SPACE, NEWLINE}
    ensures |k| < |h|
  {
    if Head(h) == NEWLINE then h[1..]
    else
      var k := SkipLine(h[1..]);
      if Head(k) == NEWLINE then k[1..] else k
  }

  function Scan(f: seq<byte>): Option<seq<byte>>
    decreases |f|
  {
    if Head(f) == 0 then Some([])
    else
      match Hexes(SkipSpaces(f))
      case None => None
      case Some(r) =>
        match Scan(AfterLine(r.1))
        case None => None
        case Some(rest) => Some(r.0 + rest)
  }

  // ----- the picture -----

  const UPPER_DIGITS: string := "0123456789ABCDEF"
  const LOWER_DIGITS: string := "0123456789abcdef"

  lemma {:induction false} HexPartAt(line: seq<byte>, k: nat)
    requires k < |line|
    ensures var h := HexPart(line);
            && h[3 * k] == ' ' as int
            && h[3 * k + 1] == UPPER_DIGITS[line[k] / 16] as int && h[3 * k + 2] == UPPER_DIGITS[line[k] % 16] as int
    decreases k
  {
    hide HexChar;
    if k == 0 {
      DigitIs(line[0] / 16);
      DigitIs(line[0] % 16);
    } else {
      HexPartAt(line[1..], k - 1);
      assert HexPart(line)[3..] == HexPart(line[1..]);
      assert forall i :: 3 * k <= i < 3 * k + 3 ==> HexPart(line)[i] == HexPart(line)[3..][i - 3];
    }
  }

  lemma DigitIs(v: nat)
    requires v < 16
    ensures HexChar(v) == UPPER_DIGITS[v] as int
  {
  }

  /** Where everything stands in a line: the octets in hex, blanks, and the octets that can be shown. */
  lemma LinePicture(line: seq<byte>, cpl: nat)
    requires |line| <= cpl
    ensures var t := LineText(line, cpl);
            && |t| == 3 * cpl + 2 + |line|
            && (forall k :: 0 <= k < |line| ==>
                  && t[3 * k] == ' ' as int && t[3 * k + 1] == UPPER_DIGITS[line[k] / 16] as int
                  && t[3 * k + 2] == UPPER_DIGITS[line[k] % 16] as int)
            && (forall k :: 3 * |line| <= k < 3 * cpl + 2 ==> t[k] == ' ' as int)
            && (forall k :: 0 <= k < |line| ==>
                  t[3 * cpl + 2 + k] == if 32 <= line[k] <= 126 then line[k] else '.' as int)
  {
    hide HexPart;
    var t, h := LineText(line, cpl), HexPart(line);
    assert |h| == 3 * |line|;
    forall k | 0 <= k < |line|
      ensures t[3 * k] == ' ' as int && t[3 * k + 1] == UPPER_DIGITS[line[k] / 16] as int
      ensures t[3 * k + 2] == UPPER_DIGITS[line[k] % 16] as int
    {
      HexPartAt(line, k);
      assert t[3 * k] == h[3 * k] && t[3 * k + 1] == h[3 * k + 1] && t[3 * k + 2] == h[3 * k + 2];
    }
  }

  /** A line ends where the octets end, where it is full, or behind its first newline. */
  lemma {:induction false} LineEnds(s: seq<byte>, cpl: nat)
    ensures var n := LineLength(s, cpl);
            && (forall k :: 0 <= k < n - 1 ==> s[k] != 10)
            && (n == |s| || n == cpl || (n > 0 && s[n - 1] == 10))
    decreases cpl
  {
    if s != [] && cpl > 0 {
      LineEnds(s[1..], cpl - 1);
    }
  }

  /** As many octets to the line as fit into the width, and always one. */
  lemma LineFits(maxWidth: nat, line: seq<byte>)
    requires |line| == CharsPerLine(maxWidth)
    ensures maxWidth < 7 ==> |line| == 1
    ensures maxWidth >= 7 ==> |LineText(line, |line|)| <= maxWidth < |LineText(line, |line|)| + 4
  {
  }

  /** The digits in either case, and nothing else, have values. */
  lemma HexDigits(c: byte, v: nat)
    ensures HexValue(c) == v <==> v < 16 && (c == UPPER_DIGITS[v] as int || c == LOWER_DIGITS[v] as int)
    ensures HexValue(c) >= -1
  {
    if v < 16 {
      UpperIs(c, v);
      LowerIs(c, v);
    }
  }

  lemma UpperIs(c: byte, v: nat)
    requires v < 16
    ensures c == UPPER_DIGITS[v] as int <==> c == HexChar(v)
  {
    DigitIs(v);
  }

  lemma LowerIs(c: byte, v: nat)
    requires v < 16
    ensures c == LOWER_DIGITS[v] as int <==> c == if v < 10 then 48 + v else 87 + v
  {
  }

  /** What the scanner makes of the octets of a line: two digits and a space for each, up to a space or a newline. */
  lemma ScanPairs(f: seq<byte>)
    ensures f != [] && (f[0] == 32 || f[0] == 10) ==> Hexes(f) == Some(([], f))
    ensures f == [] ==> Hexes(f) == None
    ensures f != [] && f[0] != 32 && f[0] != 10 ==>
              (Hexes(f).Some? <==>
                 |f| >= 3 && HexValue(f[0]) >= 0 && HexValue(f[1]) >= 0 && f[2] == 32 && Hexes(f[3..]).Some?)
    ensures f != [] && f[0] != 32 && f[0] != 10 && Hexes(f).Some? ==>
              var rest := Hexes(f[3..]).value;
              |Hexes(f).value.0| == 1 + |rest.0| && Hexes(f).value.0[0] == 16 * HexValue(f[0]) + HexValue(f[1])
              && Hexes(f).value.0[1..] == rest.0 && Hexes(f).value.1 == rest.1
  {
  }

  // ----- round trip -----

  lemma HexDigitBack(v: nat)
    requires v < 16
    ensures HexValue(HexChar(v)) == v && HexChar(v) != SPACE && HexChar(v) != NEWLINE && HexChar(v) != 0
  {
  }

  /** The hex part, past its first space and followed by a space, is read back. */
  lemma {:induction false} HexesReadBack(line: seq<byte>, tail: seq<byte>)
    requires line != [] && |tail| >= 2 && tail[0] == SPACE && tail[1] == SPACE
    ensures Hexes(HexPart(line)[1..] + tail) == Some((line, tail[1..]))
  {
    hide HexValue, HexChar, Hexes, HexPart;
    var c, others := line[0], line[1..];
    var f := HexPart(line)[1..] + tail;
    HexPartStep(line);
    var next := HexPart(others) + tail;
    assert f == [HexChar(c / 16), HexChar(c % 16)] + next;
    if others == [] {
      NoHex();
      assert next == tail;
      HexesEnd(tail[1..]);
    } else {
      HexPartStep(others);
      assert next[1..] == HexPart(others)[1..] + tail;
      HexesReadBack(others, tail);
    }
    HexesStep(f, c, next);
    assert line == [c] + others;
  }

  lemma HexesEnd(f: seq<byte>)
    requires Head(f) == SPACE
    ensures Hexes(f) == Some(([], f))
  {
  }

  lemma HexesStep(f: seq<byte>, c: byte, next: seq<byte>)
    requires f == [HexChar(c / 16), HexChar(c % 16)] + next
    requires next != [] && next[0] == SPACE && Hexes(next[1..]).Some?
    ensures Hexes(f) == Some(([c] + Hexes(next[1..]).value.0, Hexes(next[1..]).value.1))
  {
    hide HexValue, HexChar;
    HexDigitBack(c / 16);
    HexDigitBack(c % 16);
    assert f[3..] == next[1..];
  }

  lemma {:induction false} SkipLineTo(a: seq<byte>, b: seq<byte>)
    requires forall i :: 0 <= i < |a| ==> a[i] != 0 && a[i] != NEWLINE
    requires Head(b) in {0, NEWLINE}
    ensures SkipLine(a + b) == b
  {
    if a == [] {
      assert a + b == b;
    } else {
      assert (a + b)[1..] == a[1..] + b;
      SkipLineTo(a[1..], b);
    }
  }

  /** One printed line followed by the end or by a newline. */
  lemma LineReadBack(line: seq<byte>, cpl: nat, rest: seq<byte>)
    requires line != [] && |line| <= cpl && Head(rest) in {0, NEWLINE}
    ensures var f := LineText(line, cpl) + rest;
            && Head(f) != 0
            && Hexes(SkipSpaces(f)).Some?
            && var r := Hexes(SkipSpaces(f)).value;
               r.0 == line && AfterLine(r.1) == if rest == [] || rest[0] == 0 then rest else rest[1..]
  {
    hide Hexes, HexPart, CharPart, SkipLine;
    var pad := 3 * (cpl - |line|);
    var tail := Spaces(pad) + Spaces(2) + CharPart(line) + rest;
    var f := LineText(line, cpl) + rest;
    FirstHex(line);
    assert f == HexPart(line) + tail;
    assert f[1..] == HexPart(line)[1..] + tail;
    assert SkipSpaces(f) == f[1..];
    assert tail[0] == SPACE && tail[1] == SPACE;
    HexesReadBack(line, tail);
    var shown := Spaces(pad) + Spaces(2) + CharPart(line);
    NothingSpecial(line, pad);
    assert tail[1..][1..] == shown[2..] + rest;
    SkipLineTo(shown[2..], rest);
  }

  lemma FirstHex(line: seq<byte>)
    requires line != []
    ensures |HexPart(line)| >= 3 && HexPart(line)[0] == SPACE && HexPart(line)[1] != SPACE
  {
  }

  lemma NothingSpecial(line: seq<byte>, pad: nat)
    ensures var shown := Spaces(pad) + Spaces(2) + CharPart(line);
            forall i :: 0 <= i < |shown| ==> shown[i] != 0 && shown[i] != NEWLINE
  {
  }

  /** Scanning a dump gives the buffer back, whatever the width. */
  lemma {:induction false} ScanPrint(s: seq<byte>, cpl: nat)
    requires cpl > 0
    ensures Scan(Print(s, cpl)) == Some(s)
    decreases |s|
  {
    hide LineText, Hexes, SkipSpaces, AfterLine, LineLength, Print, Scan;
    PrintStep(s, cpl);
    if s == [] {
      assert Scan([]) == Some([]) by { EmptyScan(); }
    } else {
      var n := LineLength(s, cpl);
      var rest := if n == |s| then [] else [NEWLINE] + Print(s[n..], cpl);
      LineReadBack(s[..n], cpl, rest);
      ScanStep(LineText(s[..n], cpl) + rest, s[..n], AfterNewline(rest));
      if n == |s| {
        EmptyScan();
      } else {
        ScanPrint(s[n..], cpl);
        assert rest[1..] == Print(s[n..], cpl);
      }
      assert s[..n] + s[n..] == s;
    }
  }

  function AfterNewline(rest: seq<byte>): seq<byte> {
    if rest == [] || rest[0] == 0 then rest else rest[1..]
  }

  lemma EmptyScan()
    ensures Scan([]) == Some([])
  {
  }

  lemma PrintStep(s: seq<byte>, cpl: nat)
    requires cpl > 0
    ensures s == [] ==> Print(s, cpl) == []
    ensures s != [] ==>
      var n := LineLength(s, cpl);
      0 < n && Print(s, cpl) == LineText(s[..n], cpl) + if n == |s| then [] else [NEWLINE] + Print(s[n..], cpl)
  {
  }

  lemma ScanStep(f: seq<byte>, line: seq<byte>, k: seq<byte>)
    requires Head(f) != 0 && Hexes(SkipSpaces(f)).Some?
    requires Hexes(SkipSpaces(f)).value.0 == line && AfterLine(Hexes(SkipSpaces(f)).value.1) == k
    ensures Scan(f) == match Scan(k) { case None => None case Some(rest) => Some(line + rest) }
  {
  }

  // ----- the loops of the source -----

  /** `out` has been printed; without a destination it has only been counted. */
  ghost predicate Holds(toBuf: array?<byte>, out: seq<byte>, room: nat)
    reads toBuf
  {
    toBuf != null ==> |out| + room < toBuf.Length && toBuf[..|out|] == out
  }

  /** The macro APPEND. */
  method Append(toBuf: array?<byte>, ghost out: seq<byte>, ghost room: nat, n: nat, c: byte) returns (n': nat)
    requires n == |out| && room > 0 && Holds(toBuf, out, room)
    modifies toBuf
    ensures n' == n + 1 && Holds(toBuf, out + [c], room - 1)
  {
    if toBuf != null {
      toBuf[n] := c;
    }
    n' := n + 1;
  }

  method AppendSpaces(toBuf: array?<byte>, ghost out: seq<byte>, ghost room: nat, n: nat, count: nat) returns (n': nat)
    requires n == |out| && room >= count && Holds(toBuf, out, room)
    modifies toBuf
    ensures n' == n + count && Holds(toBuf, out + Spaces(count), room - count)
  {
    n' := n;
    ghost var done := out;
    assert out + Spaces(0) == out;
    for k := 0 to count
      invariant n' == n + k && done == out + Spaces(k) && Holds(toBuf, done, room - k)
    {
      n' := Append(toBuf, done, room - k, n', SPACE);
      done := done + [SPACE];
    }
  }

  /** Three characters for one octet. */
  method AppendOctet(toBuf: array?<byte>, ghost out: seq<byte>, ghost room: nat, n: nat, ch: byte) returns (n': nat)
    requires n == |out| && room >= 3 && Holds(toBuf, out, room)
    modifies toBuf
    ensures n' == n + 3 && Holds(toBuf, out + HexPart([ch]), room - 3)
  {
    hide HexChar;
    n' := Append(toBuf, out, room, n, SPACE);
    n' := Append(toBuf, out + [SPACE], room - 1, n', HexChar(ch / 16));
    n' := Append(toBuf, out + [SPACE] + [HexChar(ch / 16)], room - 2, n', HexChar(ch % 16));
    assert HexPart([ch]) == [SPACE, HexChar(ch / 16), HexChar(ch % 16)] + HexPart([]);
    assert out + [SPACE] + [HexChar(ch / 16)] + [HexChar(ch % 16)] == out + HexPart([ch]);
  }

  function HexOf(c: byte): (s: seq<byte>)
    ensures |s| == 3 && s[0] == SPACE
  {
    [SPACE, HexChar(c / 16), HexChar(c % 16)]
  }

  lemma HexPartStep(line: seq<byte>)
    requires line != []
    ensures HexPart(line) == HexOf(line[0]) + HexPart(line[1..])
  {
  }

  lemma {:induction false} HexPartAppend(a: seq<byte>, b: seq<byte>)
    ensures HexPart(a + b) == HexPart(a) + HexPart(b)
  {
    hide HexChar, HexPart, HexOf;
    if a == [] {
      assert a + b == b;
      NoHex();
    } else {
      HexPartAppend(a[1..], b);
      assert (a + b)[1..] == a[1..] + b;
      HexPartStep(a);
      HexPartStep(a + b);
      assert HexOf(a[0]) + (HexPart(a[1..]) + HexPart(b)) == HexPart(a) + HexPart(b);
    }
  }

  /** The hex part of the line that starts at `i`: it ends at `j`. */
  method AppendHex(toBuf: array?<byte>, ghost out: seq<byte>, ghost room: nat, n: nat, buf: seq<byte>, i: nat, cpl: nat)
    returns (n': nat, j: nat)
    requires n == |out| && i <= |buf| && Holds(toBuf, out, room)
    requires room >= 3 * LineLength(buf[i..], cpl)
    modifies toBuf
    ensures j == i + LineLength(buf[i..], cpl)
    ensures n' == n + 3 * (j - i) && Holds(toBuf, out + HexPart(buf[i..j]), room - 3 * (j - i))
  {
    hide HexPart;
    n', j := n, i;
    var rem := cpl;
    assert out + HexPart(buf[i..j]) == out by { NoHex(); }
    while j < |buf| && rem > 0
      invariant i <= j <= |buf| && rem == cpl - (j - i)
      invariant LineLength(buf[i..], cpl) == j - i + LineLength(buf[j..], rem)
      invariant n' == n + 3 * (j - i) && Holds(toBuf, out + HexPart(buf[i..j]), room - 3 * (j - i))
    {
      var ch := buf[j];
      n' := AppendOctet(toBuf, out + HexPart(buf[i..j]), room - 3 * (j - i), n', ch);
      HexPartAppend(buf[i..j], [ch]);
      assert buf[i..j] + [ch] == buf[i..j + 1];
      assert out + HexPart(buf[i..j]) + HexPart([ch]) == out + HexPart(buf[i..j + 1]);
      assert buf[j..][1..] == buf[j + 1..];
      j := j + 1;
      rem := rem - 1;
      if ch == NEWLINE {
        break;
      }
    }
  }

  lemma NoHex()
    ensures HexPart([]) == []
  {
  }

  /** The readable part of the line from `i` to `j`. */
  method AppendChars(toBuf: array?<byte>, ghost out: seq<byte>, ghost room: nat, n: nat, buf: seq<byte>, i: nat, j: nat)
    returns (n': nat)
    requires n == |out| && i <= j <= |buf| && room >= j - i && Holds(toBuf, out, room)
    modifies toBuf
    ensures n' == n + (j - i) && Holds(toBuf, out + CharPart(buf[i..j]), room - (j - i))
  {
    n' := n;
    var k := i;
    ghost var done := out;
    assert out + CharPart(buf[i..i]) == out;
    while k < j
      invariant i <= k <= j && n' == n + (k - i)
      invariant done == out + CharPart(buf[i..k]) && Holds(toBuf, done, room - (k - i))
    {
      var ch := buf[k];
      n' := Append(toBuf, done, room - (k - i), n', Shown(ch));
      done := done + [Shown(ch)];
      assert CharPart(buf[i..k + 1]) == CharPart(buf[i..k]) + [Shown(ch)];
      k := k + 1;
    }
  }

  /** One line of the dump. */
  method AppendLine(toBuf: array?<byte>, ghost out: seq<byte>, ghost room: nat, n: nat, buf: seq<byte>, i: nat, cpl: nat)
    returns (n': nat, j: nat)
    requires n == |out| && i <= |buf| && Holds(toBuf, out, room)
    requires room >= |LineText(buf[i..i + LineLength(buf[i..], cpl)], cpl)|
    modifies toBuf
    ensures j == i + LineLength(buf[i..], cpl)
    ensures n' == |out + LineText(buf[i..j], cpl)|
    ensures Holds(toBuf, out + LineText(buf[i..j], cpl), room - |LineText(buf[i..j], cpl)|)
  {
    hide HexPart, CharPart, Spaces, Holds;
    n', j := AppendHex(toBuf, out, room, n, buf, i, cpl);
    var rem := cpl - (j - i);
    ghost var line := buf[i..j];
    ghost var o1 := out + HexPart(line);
    n' := AppendSpaces(toBuf, o1, room - 3 * |line|, n', 3 * rem);
    ghost var o2 := o1 + Spaces(3 * rem);
    n' := AppendSpaces(toBuf, o2, room - 3 * cpl, n', 2);
    ghost var o3 := o2 + Spaces(2);
    n' := AppendChars(toBuf, o3, room - 3 * cpl - 2, n', buf, i, j);
    assert o3 + CharPart(line) == out + LineText(line, cpl);
  }

  /**
   * Print the dump; with no destination only measure it. The result is the number of characters
   * before the NUL in both cases.
   */
  method Sprint(toBuf: array?<byte>, buf: seq<byte>, maxWidth: nat) returns (n: nat)
    requires toBuf != null ==> |Print(buf, CharsPerLine(maxWidth))| < toBuf.Length
    modifies toBuf
    ensures n == |Print(buf, CharsPerLine(maxWidth))|
    ensures toBuf != null ==> n < toBuf.Length && toBuf[..n] == Print(buf, CharsPerLine(maxWidth)) && toBuf[n] == 0
  {
    hide LineText, LineLength, Print;
    var cpl := CharsPerLine(maxWidth);
    ghost var goal := Print(buf, cpl);
    n := 0;
    PrintStep(buf, cpl);
    if |buf| > 0 {
      var i := 0;
      ghost var out := [];
      assert buf[0..] == buf && [] + goal == goal;
      while true
        invariant i < |buf| && n == |out| && out + Print(buf[i..], cpl) == goal
        invariant Holds(toBuf, out, |Print(buf[i..], cpl)|)
        decreases |buf| - i
      {
        var j;
        PrintStep(buf[i..], cpl);
        assert buf[i..][..LineLength(buf[i..], cpl)] == buf[i..i + LineLength(buf[i..], cpl)];
        n, j := AppendLine(toBuf, out, |Print(buf[i..], cpl)|, n, buf, i, cpl);
        out := out + LineText(buf[i..j], cpl);
        assert buf[i..][j - i..] == buf[j..];
        i := j;
        if i >= |buf| {
          assert out == goal;
          break;
        }
        n := Append(toBuf, out, 1 + |Print(buf[i..], cpl)|, n, NEWLINE);
        out := out + [NEWLINE];
      }
    }
    if toBuf != null {
      toBuf[n] := 0;
    }
  }

  /** Scan a dump back. */
  method Sscan(buf: seq<byte>) returns (r: Option<seq<byte>>)
    ensures r == Scan(buf)
  {
    hide SkipSpaces, Hexes, AfterLine, Scan;
    var f := 0;
    var t: seq<byte> := [];
    assert buf[0..] == buf;
    JoinedNothing(Scan(buf));
    while f < |buf| && buf[f] != 0
      invariant f <= |buf|
      invariant Scan(buf) == Joined(t, Scan(buf[f..]))
      decreases |buf| - f
    {
      ghost var start := buf[f..];
      var g := ScanSpaces(buf, f);
      var line, h := ScanHexes(buf, g);
      ScanUnfold(start);
      if line == None {
        return None;
      }
      t := t + line.value;
      f := ScanEnd(buf, h);
    }
    EndOfScan(buf[f..]);
    assert t + [] == t;
    return Some(t);
  }

  function Joined(t: seq<byte>, rest: Option<seq<byte>>): Option<seq<byte>> {
    match rest case None => None case Some(r) => Some(t + r)
  }

  lemma JoinedNothing(r: Option<seq<byte>>)
    ensures Joined([], r) == r
  {
    if r.Some? {
      assert [] + r.value == r.value;
    }
  }

  lemma ScanUnfold(f: seq<byte>)
    requires Head(f) != 0
    ensures Hexes(SkipSpaces(f)).None? ==> Scan(f) == None
    ensures Hexes(SkipSpaces(f)).Some? ==>
              var r := Hexes(SkipSpaces(f)).value; Scan(f) == Joined(r.0, Scan(AfterLine(r.1)))
    ensures forall t :: Joined(t, None) == None
    ensures Hexes(SkipSpaces(f)).Some? ==>
              var r := Hexes(SkipSpaces(f)).value;
              forall t :: Joined(t, Scan(f)) == Joined(t + r.0, Scan(AfterLine(r.1)))
  {
    hide Hexes, SkipSpaces, AfterLine;
    if Hexes(SkipSpaces(f)).Some? {
      var r := Hexes(SkipSpaces(f)).value;
      var rest := Scan(AfterLine(r.1));
      forall t ensures Joined(t, Scan(f)) == Joined(t + r.0, rest) {
        if rest.Some? {
          assert t + (r.0 + rest.value) == t + r.0 + rest.value;
        }
      }
    }
  }

  lemma EndOfScan(f: seq<byte>)
    requires Head(f) == 0
    ensures Scan(f) == Some([])
  {
  }

  method ScanSpaces(buf: seq<byte>, f: nat) returns (g: nat)
    requires f <= |buf|
    ensures f <= g <= |buf| && buf[g..] == SkipSpaces(buf[f..])
  {
    g := f;
    while g < |buf| && buf[g] == SPACE
      invariant f <= g <= |buf| && SkipSpaces(buf[f..]) == SkipSpaces(buf[g..])
    {
      assert buf[g..][1..] == buf[g + 1..];
      g := g + 1;
    }
  }

  method ScanHexes(buf: seq<byte>, g: nat) returns (line: Option<seq<byte>>, h: nat)
    requires g <= |buf|
    ensures g <= h <= |buf|
    ensures Hexes(buf[g..]) == if line == None then None else Some((line.value, buf[h..]))
  {
    hide HexValue, Hexes;
    h := g;
    var bytes: seq<byte> := [];
    PrefixedNothing(Hexes(buf[g..]));
    while !(h < |buf| && (buf[h] == SPACE || buf[h] == NEWLINE))
      invariant g <= h <= |buf|
      invariant Hexes(buf[g..]) == Prefixed(bytes, Hexes(buf[h..]))
      decreases |buf| - h
    {
      NulIsNoDigit();
      var h0 := if h < |buf| && buf[h] != 0 then HexValue(buf[h]) else -1;
      var h1 := if h + 1 < |buf| && buf[h + 1] != 0 then HexValue(buf[h + 1]) else -1;
      var ch := if h + 2 < |buf| then buf[h + 2] else 0;
      HexesUnfold(buf[h..]);
      if h0 < 0 || h1 < 0 || ch != SPACE {
        return None, h;
      }
      HexBound(buf[h]);
      HexBound(buf[h + 1]);
      assert buf[h..][3..] == buf[h + 3..];
      PrefixedTwice(bytes, h0 * 16 + h1, Hexes(buf[h + 3..]));
      bytes := bytes + [h0 * 16 + h1];
      h := h + 3;
    }
    HexesUnfold(buf[h..]);
    assert bytes + [] == bytes;
    line := Some(bytes);
  }

  function Prefixed(bytes: seq<byte>, r: Option<(seq<byte>, seq<byte>)>): Option<(seq<byte>, seq<byte>)> {
    match r case None => None case Some(p) => Some((bytes + p.0, p.1))
  }

  lemma PrefixedNothing(r: Option<(seq<byte>, seq<byte>)>)
    ensures Prefixed([], r) == r
  {
    if r.Some? {
      assert [] + r.value.0 == r.value.0;
    }
  }

  lemma PrefixedTwice(bytes: seq<byte>, b: byte, r: Option<(seq<byte>, seq<byte>)>)
    ensures Prefixed(bytes, Prefixed([b], r)) == Prefixed(bytes + [b], r)
  {
    if r.Some? {
      assert bytes + ([b] + r.value.0) == bytes + [b] + r.value.0;
    }
  }

  lemma HexesUnfold(f: seq<byte>)
    ensures Head(f) in {SPACE, NEWLINE} ==> Hexes(f) == Some(([], f))
    ensures Head(f) !in {SPACE, NEWLINE} ==>
              Hexes(f) == if HexAt(f) then Prefixed([HexPair(f[0], f[1])], Hexes(f[3..])) else None
  {
  }

  function HexPair(a: byte, b: byte): byte
    requires HexValue(a) >= 0 && HexValue(b) >= 0
  {
    HexValue(a) * 16 + HexValue(b)
  }

  lemma NulIsNoDigit()
    ensures HexValue(0) == -1
  {
  }

  lemma HexBound(c: byte)
    ensures -1 <= HexValue(c) < 16
  {
  }

  method ScanEnd(buf: seq<byte>, h: nat) returns (f: nat)
    requires h < |buf| && buf[h] in {SPACE, NEWLINE}
    ensures h < f <= |buf| && buf[f..] == AfterLine(buf[h..])
  {
    f := h;
    if buf[f] == SPACE {
      f := f + 1;
      assert buf[h..][1..] == buf[f..];
      while f < |buf| && buf[f] != 0 && buf[f] != NEWLINE
        invariant h < f <= |buf| && SkipLine(buf[h + 1..]) == SkipLine(buf[f..])
      {
        assert buf[f..][1..] == buf[f + 1..];
        f := f + 1;
      }
    }
    if f < |buf| && buf[f] == NEWLINE {
      assert buf[f..][1..] == buf[f + 1..];
      f := f + 1;
    }
  }
}
