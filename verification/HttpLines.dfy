/** What the lines of a request say (src/websocket.c:371-483), by the places where their parts are. */
module HttpLines {
  import opened Bytes
  import opened Http

  predicate AllSpaces(s: seq<byte>, i: nat, j: nat)
    requires j <= |s|
  {
    forall k :: i <= k < j ==> s[k] == 32
  }

  predicate NoSpaces(s: seq<byte>, i: nat, j: nat)
    requires j <= |s|
  {
    forall k :: i <= k < j ==> s[k] != 32
  }

  lemma {:induction false} SkippedTo(s: seq<byte>, k: nat, end: nat, r: nat)
    requires k <= r <= end <= |s| && AllSpaces(s, k, r) && (r < end ==> s[r] != 32)
    ensures SkipSpaces(s, k, end) == r
    decreases r - k
  {
    if k < r {
      SkippedTo(s, k + 1, end, r);
    }
  }

  lemma {:induction false} FoundAtPlace(s: seq<byte>, c: byte, k: nat, end: nat, r: nat)
    requires k <= r <= end <= |s| && (r < end ==> s[r] == c) && forall j :: k <= j < r ==> s[j] != c
    ensures Until(s, c, k, end) == r
    decreases r - k
  {
    if k < r {
      FoundAtPlace(s, c, k + 1, end, r);
    }
  }

  lemma {:induction false} TrimmedTo(s: seq<byte>, start: nat, end: nat, r: nat)
    requires start <= r <= end <= |s| && AllSpaces(s, r, end) && (start < r ==> s[r - 1] != 32)
    ensures TrimEnd(s, start, end) == r
    decreases end - r
  {
    if r < end {
      TrimmedTo(s, start, end - 1, r);
    }
  }

  // ----- the request line -----

  /** A word from `i` to `j`, with spaces in front of it from `k` on. */
  predicate WordAt(s: seq<byte>, k: nat, i: nat, j: nat, end: nat)
    requires end <= |s|
  {
    && k <= i < j <= end && AllSpaces(s, k, i) && NoSpaces(s, i, j)
    && (j < end ==> s[j] == 32)
  }

  lemma OneWord(s: seq<byte>, k: nat, i: nat, j: nat, end: nat)
    requires end <= |s| && WordAt(s, k, i, j, end)
    ensures Word(s, k, end) == (Some(s[i..j]), j)
  {
    SkippedTo(s, k, end, i);
    FoundAtPlace(s, SPACE, i, end, j);
  }

  /** Verb, resource and version are the first three words of the line, however many spaces there are. */
  lemma ThreeWords(s: seq<byte>, end: nat, i: nat, j: nat, i': nat, j': nat, i'': nat, j'': nat)
    requires end <= |s| && WordAt(s, 0, i, j, end) && WordAt(s, j, i', j', end) && WordAt(s, j', i'', j'', end)
    ensures Trio(s, end) == (Some(s[i..j]), Some(s[i'..j']), Some(s[i''..j'']))
  {
    hide Word, WordAt;
    OneWord(s, 0, i, j, end);
    OneWord(s, j, i', j', end);
    OneWord(s, j', i'', j'', end);
  }

  /** Three words with spaces between them. */
  ghost predicate HasThreeWords(s: seq<byte>, end: nat)
    requires end <= |s|
  {
    exists a: nat, b: nat, c: nat, d: nat, e: nat ::
      a < b < c < d < e < end && s[a] != 32 && s[b] == 32 && s[c] != 32 && s[d] == 32 && s[e] != 32
  }

  /** The line is accepted if and only if it has three words. */
  lemma VersionExactly(s: seq<byte>, end: nat)
    requires end <= |s|
    ensures Trio(s, end).2.Some? <==> HasThreeWords(s, end)
  {
    hide Word;
    var (w0, k0) := Word(s, 0, end);
    var (w1, k1) := Word(s, k0, end);
    WordPlaces(s, 0, end);
    WordPlaces(s, k0, end);
    WordPlaces(s, k1, end);
    var i0: nat :| Between(s, 0, i0, k0, end) && (w0.Some? <==> i0 < k0);
    var i1: nat :| Between(s, k0, i1, k1, end) && (w1.Some? <==> i1 < k1);
    var (w2, k2) := Word(s, k1, end);
    var i2: nat :| Between(s, k1, i2, k2, end) && (w2.Some? <==> i2 < k2);
    ThirdWord(s, end, i0, k0, i1, k1, i2, k2);
  }

  lemma ThirdWord(s: seq<byte>, end: nat, i0: nat, k0: nat, i1: nat, k1: nat, i2: nat, k2: nat)
    requires end <= |s| && Between(s, 0, i0, k0, end) && Between(s, k0, i1, k1, end) && Between(s, k1, i2, k2, end)
    ensures i2 < k2 <==> HasThreeWords(s, end)
  {
    if i2 < k2 {
      assert s[i0] != 32 && s[k0] == 32 && s[i1] != 32 && s[k1] == 32 && s[i2] != 32;
    } else if a: nat, b: nat, c: nat, d: nat, e: nat :|
      a < b < c < d < e < end && s[a] != 32 && s[b] == 32 && s[c] != 32 && s[d] == 32 && s[e] != 32 {
      assert false;
    }
  }

  /** Where the next word ends: nothing but spaces, then nothing but other octets, is passed over. */
  lemma WordPlaces(s: seq<byte>, k: nat, end: nat)
    requires k <= end <= |s|
    ensures var w := Word(s, k, end);
            exists i: nat :: Between(s, k, i, w.1, end) && (w.0.Some? <==> i < w.1)
  {
    var i := SkipSpaces(s, k, end);
    Skipped(s, k, end);
    Passed(s, SPACE, i, end);
    assert Between(s, k, i, Word(s, k, end).1, end);
  }

  predicate Between(s: seq<byte>, k: nat, i: nat, j: nat, end: nat)
    requires end <= |s|
  {
    k <= i <= j <= end && AllSpaces(s, k, i) && NoSpaces(s, i, j) && (j < end ==> s[j] == 32 && i < j)
  }

  lemma {:induction false} Skipped(s: seq<byte>, k: nat, end: nat)
    requires k <= end <= |s|
    ensures AllSpaces(s, k, SkipSpaces(s, k, end))
    decreases end - k
  {
    if k < end && s[k] == SPACE {
      Skipped(s, k + 1, end);
    }
  }

  lemma {:induction false} Passed(s: seq<byte>, c: byte, k: nat, end: nat)
    requires k <= end <= |s|
    ensures forall j :: k <= j < Until(s, c, k, end) ==> s[j] != c
    decreases end - k
  {
    if k < end && s[k] != c {
      Passed(s, c, k + 1, end);
    }
  }

  // ----- a header line -----

  /** The first line of `s` ends at `end`, before any NUL. */
  predicate LineEndsAt(s: seq<byte>, end: nat) {
    && end + 2 <= |s| && s[end] == 13 && s[end + 1] == 10
    && (forall k :: 0 <= k < end ==> s[k] != 0 && !(s[k] == 13 && s[k + 1] == 10))
  }

  lemma LineFound(s: seq<byte>, end: nat)
    requires LineEndsAt(s, end)
    ensures Strnstr(s, CRLF) == Some(end)
  {
    forall k: nat | k < end ensures !MatchAt(s, CRLF, k) {
      assert s[k..k + 2] == [s[k], s[k + 1]];
    }
    assert s[end..end + 2] == CRLF;
    StrnstrExact(s, CRLF, end);
  }

  /**
   * The key of a line is what stands before its first colon, the first octet not being looked at;
   * the value is what follows, without the spaces on either side.
   */
  lemma FieldParts(s: seq<byte>, colon: nat, i: nat, j: nat, end: nat)
    requires LineEndsAt(s, end) && s[0] != 32
    requires 0 < colon < i <= j <= end && s[colon] == 58 && forall k :: 0 < k < colon ==> s[k] != 58
    requires AllSpaces(s, colon + 1, i) && AllSpaces(s, j, end)
    requires if i < j then s[i] != 32 && s[j - 1] != 32 else i == end
    ensures ReadLine(s) == Field(s[..colon], s[i..j], end + 2)
  {
    hide Strnstr, CString;
    LineFound(s, end);
    FoundAtPlace(s, COLON, 1, end, colon);
    SkippedTo(s, colon + 1, end, i);
    TrimmedTo(s, i, end, j);
  }

  /** The other kinds of lines. */
  lemma OtherLines(s: seq<byte>, end: nat)
    requires LineEndsAt(s, end)
    ensures end == 0 ==> ReadLine(s) == Blank
    ensures end > 0 && s[0] == 32 ==> ReadLine(s) == Continued
  {
    hide Strnstr, CString, Val;
    LineFound(s, end);
  }

  /** What a header does: each kind sets one field and leaves the others. */
  lemma FieldEffect(strtol: seq<byte> -> int, h: Headers, kind: Kind, val: seq<byte>)
    ensures var h' := Effect(strtol, h, kind, val);
            && (h'.isConnection <==> if kind.ConnectionKey? then ContainsIgnoringCase(val, [85, 112, 103, 114, 97, 100, 101])
                                     else h.isConnection)
            && (h'.isUpgrade <==> if kind.UpgradeKey? then EqualsIgnoringCase(val, [87, 101, 98, 83, 111, 99, 107, 101, 116])
                                  else h.isUpgrade)
            && h'.request.protocol == (if kind.ProtocolKey? then Some(val) else h.request.protocol)
            && h'.request.version == (if kind.VersionKey? then strtol(val) else h.request.version)
            && h'.request.secKey == (if kind.SecretKey? then Some(val) else h.request.secKey)
            && (!kind.HostKey? ==> h'.request.reqHost == h.request.reqHost)
            && h'.request.verb == h.request.verb && h'.request.resource == h.request.resource
            && h'.request.httpVersion == h.request.httpVersion
    ensures IsWebsocket(h) <==> h.isConnection && h.isUpgrade && h.request.secKey != None
  {
    hide EqualsIgnoringCase, ContainsIgnoringCase;
    assert Ascii("Upgrade") == [85, 112, 103, 114, 97, 100, 101];
    assert Ascii("WebSocket") == [87, 101, 98, 83, 111, 99, 107, 101, 116];
  }
}
