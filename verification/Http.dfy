/**
 * The HTTP request that precedes the web socket handshake: the searches and scans of
 * src/websocket.c:376-483 and the bounded search of src/char_buffer.c:294-307.
 */
module Http {
  import opened Bytes

  const CR: byte := 13
  const LF: byte := 10
  const SPACE: byte := 32
  const COLON: byte := 58
  const CRLF: seq<byte> := [13, 10]
  const CRLFCRLF: seq<byte> := [13, 10, 13, 10]

  function Ascii(s: string): (r: seq<byte>)
    ensures |r| == |s|
  {
    seq(|s|, i requires 0 <= i < |s| => s[i] as int % 256)
  }

  // ----- bounded search -----

  predicate MatchAt(s: seq<byte>, pat: seq<byte>, k: nat) {
    k + |pat| <= |s| && s[k..k + |pat|] == pat
  }

  predicate NoNul(s: seq<byte>, n: nat)
    requires n <= |s|
  {
    forall j :: 0 <= j < n ==> s[j] != 0
  }

  /** `k` is the first occurrence of `pat`, and no NUL comes before it. */
  predicate FoundAt(s: seq<byte>, pat: seq<byte>, k: nat) {
    MatchAt(s, pat, k) && NoNul(s, k) && forall j: nat :: j < k ==> !MatchAt(s, pat, j)
  }

  /** Search from `k` on; a NUL ends the search. */
  function Search(s: seq<byte>, pat: seq<byte>, k: nat): (r: Option<nat>)
    requires pat != [] && pat[0] != 0
    ensures r.Some? ==> k <= r.value && MatchAt(s, pat, r.value)
    ensures r.Some? ==> forall j :: k <= j <= r.value ==> s[j] != 0
    ensures r.Some? ==> forall j: nat :: k <= j < r.value ==> !MatchAt(s, pat, j)
    decreases |s| - k
  {
    if k + |pat| > |s| || s[k] == 0 then None
    else if s[k..k + |pat|] == pat then Some(k)
    else Search(s, pat, k + 1)
  }

  function Strnstr(s: seq<byte>, pat: seq<byte>): (r: Option<nat>)
    requires pat != [] && pat[0] != 0
    ensures r.Some? ==> FoundAt(s, pat, r.value)
  {
    Search(s, pat, 0)
  }

  lemma {:induction false} SearchFinds(s: seq<byte>, pat: seq<byte>, from: nat, k: nat)
    requires pat != [] && pat[0] != 0
    requires from <= k && FoundAt(s, pat, k)
    ensures Search(s, pat, from) == Some(k)
    decreases k - from
  {
    if from == k {
      assert s[k] == pat[0] by { assert s[k..k + |pat|][0] == s[k]; }
    } else {
      assert !MatchAt(s, pat, from);
      SearchFinds(s, pat, from + 1, k);
    }
  }

  /** The search finds the first occurrence if and only if no NUL comes before it. */
  lemma StrnstrExact(s: seq<byte>, pat: seq<byte>, k: nat)
    requires pat != [] && pat[0] != 0
    ensures Strnstr(s, pat) == Some(k) <==> FoundAt(s, pat, k)
  {
    if FoundAt(s, pat, k) {
      SearchFinds(s, pat, 0, k);
    }
  }

  lemma MatchAtExtend(s: seq<byte>, b: seq<byte>, pat: seq<byte>, k: nat)
    requires k + |pat| <= |s|
    ensures MatchAt(s + b, pat, k) == MatchAt(s, pat, k)
  {
  }

  /** What was found stays found when more input arrives. */
  lemma StrnstrExtend(s: seq<byte>, b: seq<byte>, pat: seq<byte>)
    requires pat != [] && pat[0] != 0 && Strnstr(s, pat).Some?
    ensures Strnstr(s + b, pat) == Strnstr(s, pat)
  {
    var k := Strnstr(s, pat).value;
    forall j: nat | j <= k ensures MatchAt(s + b, pat, j) == MatchAt(s, pat, j) {
      MatchAtExtend(s, b, pat, j);
    }
    StrnstrExact(s + b, pat, k);
  }

  // ----- scans -----

  /** The first place from `k` on, before `end`, that does not hold a space. */
  function SkipSpaces(s: seq<byte>, k: nat, end: nat): (r: nat)
    requires k <= end <= |s|
    ensures k <= r <= end && (r < end ==> s[r] != SPACE)
    decreases end - k
  {
    if k < end && s[k] == SPACE then SkipSpaces(s, k + 1, end) else k
  }

  /** The first place from `k` on, before `end`, that holds `c`. */
  function Until(s: seq<byte>, c: byte, k: nat, end: nat): (r: nat)
    requires k <= end <= |s|
    ensures k <= r <= end && (r < end ==> s[r] == c)
    decreases end - k
  {
    if k < end && s[k] != c then Until(s, c, k + 1, end) else k
  }

  /** The end of `s[start..end]` without its trailing spaces. */
  function TrimEnd(s: seq<byte>, start: nat, end: nat): (r: nat)
    requires start <= end <= |s|
    ensures start <= r <= end
    decreases end
  {
    if end > start && s[end - 1] == SPACE then TrimEnd(s, start, end - 1) else end
  }

  /** The octets up to the first NUL. */
  function CString(s: seq<byte>): seq<byte> {
    s[..Until(s, 0, 0, |s|)]
  }

  // ----- the request line -----

  /** The word that starts at or after `k`: absent when only spaces are left. */
  function Word(s: seq<byte>, k: nat, end: nat): (r: (Option<seq<byte>>, nat))
    requires k <= end <= |s|
    ensures k <= r.1 <= end && (r.0.None? <==> r.1 == end && SkipSpaces(s, k, end) == end)
  {
    var start := SkipSpaces(s, k, end);
    var stop := Until(s, SPACE, start, end);
    (if start < stop then Some(s[start..stop]) else None, stop)
  }

  /** The first three words of the line `s[..end]`. */
  function Trio(s: seq<byte>, end: nat): (r: (Option<seq<byte>>, Option<seq<byte>>, Option<seq<byte>>))
    requires end <= |s|
    ensures r.2.Some? ==> r.0.Some? && r.1.Some? && end > 0
  {
    var (w0, k0) := Word(s, 0, end);
    var (w1, k1) := Word(s, k0, end);
    var (w2, _) := Word(s, k1, end);
    (w0, w1, w2)
  }

  lemma {:induction false} ScansExtend(s: seq<byte>, b: seq<byte>, c: byte, k: nat, end: nat)
    requires k <= end <= |s|
    ensures SkipSpaces(s + b, k, end) == SkipSpaces(s, k, end)
    ensures Until(s + b, c, k, end) == Until(s, c, k, end)
    decreases end - k
  {
    if k < end {
      ScansExtend(s, b, c, k + 1, end);
    }
  }

  lemma {:induction false} TrimEndExtend(s: seq<byte>, b: seq<byte>, start: nat, end: nat)
    requires start <= end <= |s|
    ensures TrimEnd(s + b, start, end) == TrimEnd(s, start, end)
    decreases end
  {
    if end > start {
      TrimEndExtend(s, b, start, end - 1);
    }
  }

  lemma WordExtend(s: seq<byte>, b: seq<byte>, k: nat, end: nat)
    requires k <= end <= |s|
    ensures Word(s + b, k, end) == Word(s, k, end)
  {
    ScansExtend(s, b, SPACE, k, end);
    var start := SkipSpaces(s, k, end);
    ScansExtend(s, b, SPACE, start, end);
    var stop := Until(s, SPACE, start, end);
    assert (s + b)[start..stop] == s[start..stop];
  }

  lemma TrioExtend(s: seq<byte>, b: seq<byte>, end: nat)
    requires end <= |s|
    ensures Trio(s + b, end) == Trio(s, end)
  {
    WordExtend(s, b, 0, end);
    WordExtend(s, b, Word(s, 0, end).1, end);
    WordExtend(s, b, Word(s, Word(s, 0, end).1, end).1, end);
  }

  // ----- one header line -----

  datatype Line =
    | Missing
    | Blank
    | Continued
    | Field(key: seq<byte>, val: seq<byte>, used: nat)

  /** Where the key of a line of length `end` stops: at its colon, else at the end of the line. */
  function KeyEnd(s: seq<byte>, end: nat): (r: nat)
    requires 0 < end <= |s|
    ensures 0 < r <= end
  {
    Until(s, COLON, 1, end)
  }

  /**
   * The value of the header. A line without a colon makes the source copy from past the end of
   * the line up to the next NUL, here taken to follow the input.
   */
  function Val(s: seq<byte>, end: nat): seq<byte>
    requires 0 < end < |s|
  {
    var keyEnd := KeyEnd(s, end);
    if keyEnd == end then CString(s[end + 1..])
    else
      var start := SkipSpaces(s, keyEnd + 1, end);
      s[start..TrimEnd(s, start, end)]
  }

  function ReadLine(s: seq<byte>): (l: Line)
    ensures l.Blank? ==> |s| >= 2
    ensures l.Field? ==> 2 < l.used <= |s|
  {
    match Strnstr(s, CRLF)
    case None => Missing
    case Some(end) =>
      if end == 0 then Blank
      else if s[0] == SPACE then Continued
      else Field(s[..KeyEnd(s, end)], Val(s, end), end + 2)
  }

  /** The line at the start of `s`, if it is a header, has a colon after its first octet. */
  predicate HasColon(s: seq<byte>) {
    match Strnstr(s, CRLF)
    case None => true
    case Some(end) => end == 0 || s[0] == SPACE || KeyEnd(s, end) < end
  }

  lemma KeyEndExtend(s: seq<byte>, b: seq<byte>, end: nat)
    requires 0 < end <= |s|
    ensures KeyEnd(s + b, end) == KeyEnd(s, end)
  {
    ScansExtend(s, b, COLON, 1, end);
  }

  lemma ValExtend(s: seq<byte>, b: seq<byte>, end: nat)
    requires 0 < end < |s| && KeyEnd(s, end) < end
    ensures Val(s + b, end) == Val(s, end)
  {
    hide Until, SkipSpaces, TrimEnd, CString;
    KeyEndExtend(s, b, end);
    var from := KeyEnd(s, end) + 1;
    ScansExtend(s, b, SPACE, from, end);
    var start := SkipSpaces(s, from, end);
    TrimEndExtend(s, b, start, end);
    var stop := TrimEnd(s, start, end);
    assert (s + b)[start..stop] == s[start..stop];
  }

  /** A complete line with a colon is read the same whatever follows it. */
  lemma ReadLineExtend(s: seq<byte>, b: seq<byte>)
    requires Strnstr(s, CRLF).Some? && HasColon(s)
    ensures ReadLine(s + b) == ReadLine(s) && HasColon(s + b)
  {
    StrnstrExtend(s, b, CRLF);
    var end := Strnstr(s, CRLF).value;
    if end > 0 && s[0] != SPACE {
      KeyEndExtend(s, b, end);
      ValExtend(s, b, end);
      var keyEnd := KeyEnd(s, end);
      assert (s + b)[..keyEnd] == s[..keyEnd];
    }
  }

  lemma {:induction false} UntilNulExtend(s: seq<byte>, b: seq<byte>, k: nat)
    requires k <= |s|
    ensures var r := Until(s, 0, k, |s|);
            if r < |s| then Until(s + b, 0, k, |s + b|) == r
            else Until(s + b, 0, k, |s + b|) >= |s|
    decreases |s| - k
  {
    if k < |s| && s[k] != 0 {
      UntilNulExtend(s, b, k + 1);
    }
  }

  /**
   * A complete line is read the same whatever follows it if and only if it has a colon, or a NUL
   * that already arrived ends the overrun.
   */
  lemma ReadLineIsLocal(s: seq<byte>)
    requires Strnstr(s, CRLF).Some?
    ensures (forall b :: ReadLine(s + b) == ReadLine(s)) <==>
            HasColon(s) || 0 in s[Strnstr(s, CRLF).value + 1..]
  {
    var end := Strnstr(s, CRLF).value;
    var t := s[end + 1..];
    if HasColon(s) {
      forall b: seq<byte> ensures ReadLine(s + b) == ReadLine(s) {
        ReadLineExtend(s, b);
      }
    } else {
      hide ReadLine, CString;
      if 0 in t {
        forall b: seq<byte> ensures ReadLine(s + b) == ReadLine(s) {
          ColonlessLine(s, b, end);
          NulStays(t, b);
        }
      } else {
        ColonlessLine(s, [1], end);
        NulAwaited(t);
        assert ReadLine(s + [1]) != ReadLine(s);
      }
    }
  }

  lemma NulStays(t: seq<byte>, b: seq<byte>)
    requires 0 in t
    ensures CString(t + b) == CString(t)
  {
    UntilFindsNul(t, 0);
    UntilNulExtend(t, b, 0);
    var n := Until(t, 0, 0, |t|);
    assert t[0..] == t && (t + b)[..n] == t[..n];
  }

  lemma NulAwaited(t: seq<byte>)
    requires 0 !in t
    ensures CString(t + [1]) != CString(t)
  {
    UntilFindsNul(t + [1], 0);
    assert (t + [1])[0..] == t + [1];
    assert |CString(t + [1])| == |t| + 1;
  }

  lemma ColonlessLine(s: seq<byte>, b: seq<byte>, end: nat)
    requires Strnstr(s, CRLF) == Some(end) && !HasColon(s)
    ensures ReadLine(s) == Field(s[..end], CString(s[end + 1..]), end + 2)
    ensures ReadLine(s + b) == Field(s[..end], CString(s[end + 1..] + b), end + 2)
  {
    StrnstrExtend(s, b, CRLF);
    KeyEndExtend(s, b, end);
    assert (s + b)[..end] == s[..end];
    assert (s + b)[end + 1..] == s[end + 1..] + b;
  }

  lemma {:induction false} UntilFindsNul(s: seq<byte>, k: nat)
    requires k <= |s|
    ensures Until(s, 0, k, |s|) == |s| <==> 0 !in s[k..]
    decreases |s| - k
  {
    if k < |s| && s[k] != 0 {
      UntilFindsNul(s, k + 1);
      assert s[k..] == [s[k]] + s[k + 1..];
    }
  }

  // ----- all the header lines -----

  /** The request fields that the engine keeps; they survive from one request to the next. */
  datatype Request = Request(
    verb: Option<seq<byte>>,
    resource: Option<seq<byte>>,
    httpVersion: Option<seq<byte>>,
    reqHost: Option<seq<byte>>,
    protocol: Option<seq<byte>>,
    version: int,
    secKey: Option<seq<byte>>)

  /** The request together with the two flags that one pass over the headers computes. */
  datatype Headers = Headers(request: Request, isConnection: bool, isUpgrade: bool)

  function Lower(c: byte): byte {
    if 65 <= c <= 90 then c + 32 else c
  }

  predicate EqualsIgnoringCase(s: seq<byte>, t: seq<byte>) {
    |s| == |t| && forall i :: 0 <= i < |s| ==> Lower(s[i]) == Lower(t[i])
  }

  predicate ContainsIgnoringCase(s: seq<byte>, t: seq<byte>) {
    exists k :: 0 <= k <= |s| - |t| && OccursAt(s, t, k)
  }

  predicate OccursAt(s: seq<byte>, t: seq<byte>, k: nat) {
    k + |t| <= |s| && EqualsIgnoringCase(s[k..k + |t|], t)
  }

  /** `s` up to its last colon, or all of it. */
  function BeforeLastColon(s: seq<byte>, n: nat): seq<byte>
    requires n <= |s|
  {
    if n == 0 then s else if s[n - 1] == COLON then s[..n - 1] else BeforeLastColon(s, n - 1)
  }

  /** Octets count as equal when they are, and when they are the two forms of one letter. */
  lemma EqualButCase(s: seq<byte>, t: seq<byte>)
    ensures EqualsIgnoringCase(s, t) <==>
            |s| == |t| && forall i :: 0 <= i < |s| ==>
              s[i] == t[i] || (s[i] == t[i] as int + 32 && 97 <= s[i] <= 122) || (t[i] == s[i] as int + 32 && 97 <= t[i] <= 122)
  {
  }

  /** A word is found wherever it occurs in any spelling. */
  lemma FoundInside(before: seq<byte>, word: seq<byte>, after: seq<byte>, t: seq<byte>)
    requires EqualsIgnoringCase(word, t)
    ensures ContainsIgnoringCase(before + word + after, t)
  {
    hide EqualsIgnoringCase;
    var s, k := before + word + after, |before|;
    assert |word| == |t| by { SameLength(word, t); }
    assert s[k..k + |t|] == word;
    assert OccursAt(s, t, k);
  }

  lemma SameLength(s: seq<byte>, t: seq<byte>)
    requires EqualsIgnoringCase(s, t)
    ensures |s| == |t|
  {
  }

  /** And nowhere else. */
  lemma FoundIsInside(s: seq<byte>, t: seq<byte>) returns (before: seq<byte>, word: seq<byte>, after: seq<byte>)
    requires ContainsIgnoringCase(s, t)
    ensures s == before + word + after && EqualsIgnoringCase(word, t)
  {
    hide EqualsIgnoringCase;
    var k :| 0 <= k <= |s| - |t| && OccursAt(s, t, k);
    before, word, after := s[..k], s[k..k + |t|], s[k + |t|..];
  }

  /** The host ends at its last colon, if it has one. */
  lemma {:induction false} HostUpToColon(s: seq<byte>, n: nat)
    requires n <= |s| && forall i :: n <= i < |s| ==> s[i] != COLON
    ensures var h := BeforeLastColon(s, n);
            && h <= s
            && (|h| < |s| ==> s[|h|] == 58 && forall i :: |h| < i < |s| ==> s[i] != 58)
            && (|h| == |s| ==> forall i :: 0 <= i < |s| ==> s[i] != 58)
    decreases n
  {
    if n > 0 && s[n - 1] != COLON {
      HostUpToColon(s, n - 1);
    }
  }

  /** The headers that have an effect. */
  datatype Kind = ConnectionKey | UpgradeKey | ProtocolKey | VersionKey | SecretKey | HostKey | OtherKey

  function KindOf(key: seq<byte>): Kind {
    if EqualsIgnoringCase(key, Ascii("Connection")) then ConnectionKey
    else if EqualsIgnoringCase(key, Ascii("Upgrade")) then UpgradeKey
    else if EqualsIgnoringCase(key, Ascii("Sec-WebSocket-Protocol")) then ProtocolKey
    else if EqualsIgnoringCase(key, Ascii("Sec-WebSocket-Version")) then VersionKey
    else if EqualsIgnoringCase(key, Ascii("Sec-WebSocket-Key")) then SecretKey
    else if EqualsIgnoringCase(key, Ascii("Host")) then HostKey
    else OtherKey
  }

  /** The kinds by their names: `Connection`, `Upgrade`, three of `Sec-WebSocket-` and `Host`. */
  lemma KindByName(key: seq<byte>)
    ensures KindOf(key).ConnectionKey? <==> EqualsIgnoringCase(key, [67, 111, 110, 110, 101, 99, 116, 105, 111, 110])
    ensures KindOf(key).UpgradeKey? <==> EqualsIgnoringCase(key, [85, 112, 103, 114, 97, 100, 101])
    ensures KindOf(key).ProtocolKey? <==>
            EqualsIgnoringCase(key, [83, 101, 99, 45, 87, 101, 98, 83, 111, 99, 107, 101, 116, 45,
                                     80, 114, 111, 116, 111, 99, 111, 108])
    ensures KindOf(key).VersionKey? <==>
            EqualsIgnoringCase(key, [83, 101, 99, 45, 87, 101, 98, 83, 111, 99, 107, 101, 116, 45,
                                     86, 101, 114, 115, 105, 111, 110])
    ensures KindOf(key).SecretKey? <==>
            EqualsIgnoringCase(key, [83, 101, 99, 45, 87, 101, 98, 83, 111, 99, 107, 101, 116, 45, 75, 101, 121])
    ensures KindOf(key).HostKey? <==> EqualsIgnoringCase(key, [72, 111, 115, 116])
  {
    hide Ascii;
    Names();
    ProtocolName();
    VersionName();
    KeyName();
  }

  lemma Names()
    ensures Ascii("Connection") == [67, 111, 110, 110, 101, 99, 116, 105, 111, 110]
    ensures Ascii("Upgrade") == [85, 112, 103, 114, 97, 100, 101]
    ensures Ascii("WebSocket") == [87, 101, 98, 83, 111, 99, 107, 101, 116]
    ensures Ascii("Host") == [72, 111, 115, 116]
  {
  }

  lemma ProtocolName()
    ensures Ascii("Sec-WebSocket-Protocol") ==
            [83, 101, 99, 45, 87, 101, 98, 83, 111, 99, 107, 101, 116, 45, 80, 114, 111, 116, 111, 99, 111, 108]
  {
  }

  lemma VersionName()
    ensures Ascii("Sec-WebSocket-Version") ==
            [83, 101, 99, 45, 87, 101, 98, 83, 111, 99, 107, 101, 116, 45, 86, 101, 114, 115, 105, 111, 110]
  {
  }

  lemma KeyName()
    ensures Ascii("Sec-WebSocket-Key") == [83, 101, 99, 45, 87, 101, 98, 83, 111, 99, 107, 101, 116, 45, 75, 101, 121]
  {
  }

  /** The case of letters in a name makes no difference. */
  lemma AnyCaseKind(key: seq<byte>, key': seq<byte>)
    requires EqualsIgnoringCase(key, key')
    ensures KindOf(key) == KindOf(key')
  {
    hide Ascii;
  }

  /** Nor does it in the values that decide about an upgrade. */
  lemma AnyCaseValue(strtol: seq<byte> -> int, h: Headers, kind: Kind, val: seq<byte>, val': seq<byte>)
    requires EqualsIgnoringCase(val, val') && (kind.ConnectionKey? || kind.UpgradeKey?)
    ensures Effect(strtol, h, kind, val) == Effect(strtol, h, kind, val')
  {
    AnyCaseContains(val, val', Ascii("Upgrade"));
    AnyCaseContains(val', val, Ascii("Upgrade"));
  }

  lemma AnyCaseContains(s: seq<byte>, s': seq<byte>, t: seq<byte>)
    requires EqualsIgnoringCase(s, s')
    ensures ContainsIgnoringCase(s, t) ==> ContainsIgnoringCase(s', t)
  {
    if k :| 0 <= k <= |s| - |t| && OccursAt(s, t, k) {
      assert OccursAt(s', t, k);
    }
  }

  /** What a header of each kind does. `strtol` stands for the C library's number parser. */
  function Effect(strtol: seq<byte> -> int, h: Headers, kind: Kind, val: seq<byte>): Headers {
    match kind
    case ConnectionKey => h.(isConnection := ContainsIgnoringCase(val, Ascii("Upgrade")))
    case UpgradeKey => h.(isUpgrade := EqualsIgnoringCase(val, Ascii("WebSocket")))
    case ProtocolKey => h.(request := h.request.(protocol := Some(val)))
    case VersionKey => h.(request := h.request.(version := strtol(val)))
    case SecretKey => h.(request := h.request.(secKey := Some(val)))
    case HostKey => h.(request := h.request.(reqHost := Some(BeforeLastColon(val, |val|))))
    case OtherKey => h
  }

  function Applying(strtol: seq<byte> -> int): Applier {
    (h, key, val) => Effect(strtol, h, KindOf(key), val)
  }

  function IsWebsocket(h: Headers): bool {
    h.isConnection && h.isUpgrade && h.request.secKey.Some?
  }

  type Applier = (Headers, seq<byte>, seq<byte>) -> Headers

  /** Read lines until a blank one, a continued one or an incomplete one. */
  function ReadHeaders(apply: Applier, h: Headers, s: seq<byte>): (r: (Headers, nat))
    ensures r.1 <= |s|
    decreases |s|
  {
    var line := ReadLine(s);
    if !line.Field? then (h, if line.Blank? then 2 else 0)
    else
      var r := ReadHeaders(apply, apply(h, line.key, line.val), s[line.used..]);
      (r.0, line.used + r.1)
  }

  /** Every line that `ReadHeaders` reads has a colon. */
  predicate AllColons(s: seq<byte>)
    decreases |s|
  {
    HasColon(s) && (ReadLine(s).Field? ==> AllColons(s[ReadLine(s).used..]))
  }

  predicate BlankLineAt(s: seq<byte>, p: nat) {
    MatchAt(s, CRLFCRLF, p) && NoNul(s, p + 4)
  }

  /** A blank line comes up in `s` before any NUL. */
  ghost predicate Terminated(s: seq<byte>) {
    MatchAt(s, CRLF, 0) || exists p: nat :: BlankLineAt(s, p)
  }

  lemma BlankLineOctets(s: seq<byte>, p: nat)
    requires BlankLineAt(s, p)
    ensures s[p] == CR && s[p + 1] == LF && s[p + 2] == CR && s[p + 3] == LF
    ensures MatchAt(s, CRLF, p) && MatchAt(s, CRLF, p + 2)
  {
  }

  /** A match with no NUL before it makes the search succeed no later than there. */
  lemma SomeEarlierMatch(s: seq<byte>, p: nat)
    requires MatchAt(s, CRLF, p) && NoNul(s, p)
    ensures Strnstr(s, CRLF).Some? && Strnstr(s, CRLF).value <= p
  {
    var k: nat := p;
    while exists j: nat :: j < k && MatchAt(s, CRLF, j)
      invariant k <= p && MatchAt(s, CRLF, k)
      decreases k
    {
      var j: nat :| j < k && MatchAt(s, CRLF, j);
      k := j;
    }
    StrnstrExact(s, CRLF, k);
  }

  /** In a terminated block every line is complete, and what follows it is terminated too. */
  lemma NextLine(s: seq<byte>)
    requires Terminated(s)
    ensures Strnstr(s, CRLF).Some?
    ensures ReadLine(s).Field? ==> Terminated(s[ReadLine(s).used..])
  {
    if MatchAt(s, CRLF, 0) {
      StrnstrExact(s, CRLF, 0);
    } else {
      var p: nat :| BlankLineAt(s, p);
      BlankLineOctets(s, p);
      SomeEarlierMatch(s, p);
      var end := Strnstr(s, CRLF).value;
      assert s[end + 1] == s[end..end + 2][1] == LF;
      RestTerminated(s, p, end);
    }
  }

  /** A blank line that is not the first line comes up in what follows the first line. */
  lemma RestTerminated(s: seq<byte>, p: nat, end: nat)
    requires BlankLineAt(s, p) && end + 2 <= |s| && (end == p || end + 2 <= p)
    ensures Terminated(s[end + 2..])
  {
    var rest := s[end + 2..];
    if end == p {
      assert rest[0..2] == s[p + 2..p + 4];
    } else {
      var q: nat := p - (end + 2);
      assert rest[q..q + 4] == s[p..p + 4];
      assert BlankLineAt(rest, q);
    }
  }

  /** The first line of a terminated block, and what is left after it. */
  lemma LineOfExtension(s: seq<byte>, b: seq<byte>) returns (line: Line)
    requires Terminated(s) && AllColons(s + b)
    ensures line == ReadLine(s) == ReadLine(s + b)
    ensures line.Field? ==>
      var rest := s[line.used..];
      (s + b)[line.used..] == rest + b && Terminated(rest) && AllColons(rest + b)
  {
    line := ReadLine(s);
    NextLine(s);
    HasColonShrinks(s, b);
    ReadLineExtend(s, b);
    if line.Field? {
      assert (s + b)[line.used..] == s[line.used..] + b;
    }
  }

  /** A terminated block whose lines all have colons is read the same whatever follows it. */
  lemma {:induction false} ReadHeadersExtend(apply: Applier, h: Headers, s: seq<byte>, b: seq<byte>)
    requires Terminated(s) && AllColons(s + b)
    ensures ReadHeaders(apply, h, s + b) == ReadHeaders(apply, h, s)
    decreases |s|
  {
    hide ReadLine, Terminated, AllColons;
    var line := LineOfExtension(s, b);
    if line.Field? {
      ReadHeadersExtend(apply, apply(h, line.key, line.val), s[line.used..], b);
    }
  }

  lemma HasColonShrinks(s: seq<byte>, b: seq<byte>)
    requires Strnstr(s, CRLF).Some? && HasColon(s + b)
    ensures HasColon(s)
  {
    StrnstrExtend(s, b, CRLF);
    var end := Strnstr(s, CRLF).value;
    if end > 0 {
      KeyEndExtend(s, b, end);
    }
  }

  // ----- the loops of the source -----

  /** The bounded search as a loop. */
  method FindString(s: seq<byte>, pat: seq<byte>) returns (r: Option<nat>)
    requires pat != [] && pat[0] != 0
    ensures r == Strnstr(s, pat)
  {
    if |s| >= |pat| {
      var end := |s| - |pat|;
      var k := 0;
      while k <= end && s[k] != 0
        invariant 0 <= k <= end + 1
        invariant Strnstr(s, pat) == Search(s, pat, k)
      {
        if s[k..k + |pat|] == pat {
          return Some(k);
        }
        k := k + 1;
      }
    }
    return None;
  }

  /** Split off the word at `inHead`. */
  method ScanWord(s: seq<byte>, inHead: nat, lineEnd: nat) returns (word: Option<seq<byte>>, k: nat)
    requires inHead <= lineEnd <= |s|
    ensures (word, k) == Word(s, inHead, lineEnd)
  {
    k := inHead;
    while k < lineEnd && s[k] == SPACE
      invariant inHead <= k <= lineEnd
      invariant SkipSpaces(s, inHead, lineEnd) == SkipSpaces(s, k, lineEnd)
    {
      k := k + 1;
    }
    var start := k;
    while k < lineEnd && s[k] != SPACE
      invariant start <= k <= lineEnd
      invariant Until(s, SPACE, start, lineEnd) == Until(s, SPACE, k, lineEnd)
    {
      k := k + 1;
    }
    word := if start < k then Some(s[start..k]) else None;
  }

  /** Split off one header line. */
  method ScanLine(s: seq<byte>) returns (line: Line)
    ensures line == ReadLine(s)
  {
    var found := FindString(s, CRLF);
    if found == None {
      return Missing;
    }
    var lineEnd := found.value;
    if lineEnd == 0 {
      return Blank;
    }
    if s[0] == SPACE {
      return Continued;
    }
    var kEnd := 1;
    while kEnd < lineEnd && s[kEnd] != COLON
      invariant 1 <= kEnd <= lineEnd
      invariant KeyEnd(s, lineEnd) == Until(s, COLON, kEnd, lineEnd)
    {
      kEnd := kEnd + 1;
    }
    if kEnd == lineEnd {
      return Field(s[..kEnd], CString(s[lineEnd + 1..]), lineEnd + 2);
    }
    var vStart := kEnd + 1;
    while vStart < lineEnd && s[vStart] == SPACE
      invariant kEnd < vStart <= lineEnd
      invariant SkipSpaces(s, kEnd + 1, lineEnd) == SkipSpaces(s, vStart, lineEnd)
    {
      vStart := vStart + 1;
    }
    var vEnd := lineEnd;
    while vEnd > vStart && s[vEnd - 1] == SPACE
      invariant vStart <= vEnd <= lineEnd
      invariant TrimEnd(s, vStart, lineEnd) == TrimEnd(s, vStart, vEnd)
    {
      vEnd := vEnd - 1;
    }
    return Field(s[..kEnd], s[vStart..vEnd], lineEnd + 2);
  }

  /** Read header lines and apply them until one of them ends the loop. */
  method ScanHeaders(apply: Applier, h: Headers, s: seq<byte>) returns (h': Headers, used: nat)
    ensures (h', used) == ReadHeaders(apply, h, s)
  {
    hide ReadLine;
    h', used := h, 0;
    while true
      invariant used <= |s|
      invariant ReadHeaders(apply, h, s).0 == ReadHeaders(apply, h', s[used..]).0
      invariant ReadHeaders(apply, h, s).1 == used + ReadHeaders(apply, h', s[used..]).1
      decreases |s| - used
    {
      var line := ScanLine(s[used..]);
      if !line.Field? {
        used := used + if line.Blank? then 2 else 0;
        return;
      }
      assert s[used..][line.used..] == s[used + line.used..];
      h' := apply(h', line.key, line.val);
      used := used + line.used;
    }
  }
}
