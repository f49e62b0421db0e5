/**
 * A header line without a colon takes what follows it for its value (src/websocket.c:411-443).
 * Here: for which requests that shows, depending on what has arrived behind them.
 */
module HttpOverrun {
  import opened Bytes
  import opened Http

  /**
   * What a block of headers leaves open: of each kind the value of the last line, if that line has
   * no colon; for `Connection` only if no `Upgrade` stands between it and the end of the block.
   * `asks`, `upgrade` and `hasKey` are the conditions for a web socket request, as they are without
   * more input.
   */
  datatype Open = Open(connection: Option<seq<byte>>, protocol: Option<seq<byte>>, version: Option<seq<byte>>,
                       key: Option<seq<byte>>, host: Option<seq<byte>>, asks: bool, upgrade: bool, hasKey: bool)

  function AfterLine(o: Open, kind: Kind, colon: bool, val: seq<byte>): Open {
    var left := if colon then None else Some(val);
    match kind
    case ConnectionKey =>
      if ContainsIgnoringCase(val, Ascii("Upgrade")) then o.(connection := None, asks := true)
      else o.(connection := left, asks := false)
    case UpgradeKey => o.(upgrade := EqualsIgnoringCase(val, Ascii("WebSocket")))
    case ProtocolKey => o.(protocol := left)
    case VersionKey => o.(version := left)
    case SecretKey => o.(key := left, hasKey := true)
    case HostKey => o.(host := left)
    case OtherKey => o
  }

  /** The lines of a block, read as `ReadHeaders` reads them. */
  function OpenAfter(o: Open, t: seq<byte>): Open
    decreases |t|
  {
    var line := ReadLine(t);
    if !line.Field? then o
    else OpenAfter(AfterLine(o, KindOf(line.key), HasColon(t), line.val), t[line.used..])
  }

  function Untouched(request: Request): Open {
    Open(None, None, None, None, None, false, false, request.secKey.Some?)
  }

  /** What the block leaves open. */
  function Left(request: Request, t: seq<byte>): Open {
    OpenAfter(Untouched(request), t)
  }

  /** The open `Connection` line decides about the upgrade. */
  predicate Undecided(o: Open) {
    o.connection.Some? && o.upgrade && o.hasKey
  }

  /**
   * Nothing that matters is left open: no last Protocol, Version, Key or Host line lacks its colon,
   * and an open Connection line does not decide about a web socket.
   */
  predicate IsLocal(request: Request, t: seq<byte>) {
    var o := Left(request, t);
    o.protocol.None? && o.version.None? && o.key.None? && o.host.None? && !Undecided(o)
  }

  // ----- one line, with and without more input -----

  /** A block that ends in its blank line and has no NUL. */
  ghost predicate IsBlock(t: seq<byte>) {
    Terminated(t) && NoNul(t, |t|)
  }

  /** `b` as a C string read from its start. */
  lemma {:induction false} CStringAppend(t: seq<byte>, b: seq<byte>, k: nat)
    requires NoNul(t, |t|) && k <= |t|
    ensures Until(t, 0, k, |t|) == |t|
    ensures Until(t + b, 0, k, |t + b|) == |t| + Until(b, 0, 0, |b|)
    decreases |t| - k
  {
    if k < |t| {
      CStringAppend(t, b, k + 1);
    } else {
      UntilShift(t, b, 0);
    }
  }

  lemma {:induction false} UntilShift(t: seq<byte>, b: seq<byte>, k: nat)
    requires k <= |b|
    ensures Until(t + b, 0, |t| + k, |t + b|) == |t| + Until(b, 0, k, |b|)
    decreases |b| - k
  {
    if k < |b| && b[k] != 0 {
      UntilShift(t, b, k + 1);
    }
  }

  lemma OverrunValue(t: seq<byte>, b: seq<byte>)
    requires NoNul(t, |t|)
    ensures CString(t) == t && CString(t + b) == t + CString(b)
  {
    CStringAppend(t, b, 0);
    CStringAppend(t, [], 0);
    var n := Until(b, 0, 0, |b|);
    assert (t + b)[..|t| + n] == t + b[..n];
  }

  /** The first line of a block is the same line with more input; only an overrun shows it. */
  lemma SameLine(t: seq<byte>, b: seq<byte>)
    requires IsBlock(t)
    ensures var l, l' := ReadLine(t), ReadLine(t + b);
            && (l.Field? <==> l'.Field?) && (l.Blank? <==> l'.Blank?)
            && HasColon(t + b) == HasColon(t)
            && (l.Field? ==>
                  && l'.key == l.key && l'.used == l.used
                  && (HasColon(t) ==> l'.val == l.val)
                  && (!HasColon(t) ==> l.val != [] && l.val[0] == LF && l'.val == l.val + CString(b))
                  && (t + b)[l.used..] == t[l.used..] + b && IsBlock(t[l.used..]))
  {
    hide Terminated;
    NextLine(t);
    StrnstrExtend(t, b, CRLF);
    var end := Strnstr(t, CRLF).value;
    if end > 0 && t[0] != SPACE {
      KeyEndExtend(t, b, end);
      assert (t + b)[end + 2..] == t[end + 2..] + b;
      if HasColon(t) {
        ReadLineExtend(t, b);
      } else {
        ColonlessLine(t, b, end);
        OverrunValue(t[end + 1..], b);
        assert t[end + 1] == t[end..end + 2][1] == LF;
      }
    }
  }

  // ----- what stays the same -----

  /** An open value has `c` behind it in the second reading, another value is the same. */
  predicate Longer(left: Option<seq<byte>>, c: seq<byte>, x: Option<seq<byte>>, x': Option<seq<byte>>) {
    match left
    case None => x' == x
    case Some(v) => x == Some(v) && x' == Some(v + c)
  }

  function HostOf(v: seq<byte>): Option<seq<byte>> {
    Some(BeforeLastColon(v, |v|))
  }

  /** The second reading is the first with `c` behind every open value. */
  predicate Agree(strtol: seq<byte> -> int, c: seq<byte>, h: Headers, h': Headers, o: Open) {
    var r, r' := h.request, h'.request;
    && r'.verb == r.verb && r'.resource == r.resource && r'.httpVersion == r.httpVersion
    && h.isUpgrade == o.upgrade == h'.isUpgrade
    && r.secKey.Some? == o.hasKey == r'.secKey.Some?
    && h.isConnection == o.asks
    && (match o.connection
        case None => h'.isConnection == o.asks
        case Some(v) => !o.asks && h'.isConnection == ContainsIgnoringCase(v + c, Ascii("Upgrade")))
    && Longer(o.protocol, c, r.protocol, r'.protocol)
    && Longer(o.key, c, r.secKey, r'.secKey)
    && (match o.version
        case None => r'.version == r.version
        case Some(v) => r.version == strtol(v) && r'.version == strtol(v + c))
    && (match o.host
        case None => r'.reqHost == r.reqHost
        case Some(v) => r.reqHost == HostOf(v) && r'.reqHost == HostOf(v + c))
  }

  /** `v'` is the value `v` of a line, with `b` behind it when the line has no colon. */
  predicate Reread(colon: bool, v: seq<byte>, v': seq<byte>, b: seq<byte>) {
    if colon then v' == v else v != [] && v[0] == LF && v' == v + b
  }

  lemma StillContains(v: seq<byte>, b: seq<byte>, t: seq<byte>)
    requires ContainsIgnoringCase(v, t)
    ensures ContainsIgnoringCase(v + b, t)
  {
    var k :| 0 <= k <= |v| - |t| && OccursAt(v, t, k);
    assert (v + b)[k..k + |t|] == v[k..k + |t|];
    assert OccursAt(v + b, t, k);
  }

  lemma NoWebSocket(v: seq<byte>)
    requires v != [] && v[0] == LF
    ensures !EqualsIgnoringCase(v, Ascii("WebSocket"))
  {
    assert Ascii("WebSocket")[0] == 87;
  }

  lemma LineAgrees(strtol: seq<byte> -> int, c: seq<byte>, h: Headers, h': Headers, o: Open, kind: Kind, colon: bool,
                   v: seq<byte>, v': seq<byte>)
    requires Agree(strtol, c, h, h', o) && Reread(colon, v, v', c)
    ensures Agree(strtol, c, Effect(strtol, h, kind, v), Effect(strtol, h', kind, v'), AfterLine(o, kind, colon, v))
  {
    hide ContainsIgnoringCase, EqualsIgnoringCase, BeforeLastColon, Ascii;
    if !colon {
      NoWebSocket(v);
      NoWebSocket(v');
      if ContainsIgnoringCase(v, Ascii("Upgrade")) {
        StillContains(v, c, Ascii("Upgrade"));
      }
    }
  }

  /** One step of `ReadHeaders`. */
  lemma ReadHeadersStep(strtol: seq<byte> -> int, h: Headers, t: seq<byte>)
    ensures var l := ReadLine(t);
            && (!l.Field? ==> ReadHeaders(Applying(strtol), h, t) == (h, if l.Blank? then 2 else 0))
            && (l.Field? ==>
                  var r := ReadHeaders(Applying(strtol), Effect(strtol, h, KindOf(l.key), l.val), t[l.used..]);
                  ReadHeaders(Applying(strtol), h, t) == (r.0, l.used + r.1))
  {
    hide ReadLine, Effect, KindOf;
  }

  lemma {:induction false} BlockAgrees(strtol: seq<byte> -> int, h: Headers, h': Headers, o: Open, t: seq<byte>, b: seq<byte>)
    requires IsBlock(t) && Agree(strtol, CString(b), h, h', o)
    ensures var r, r' := ReadHeaders(Applying(strtol), h, t), ReadHeaders(Applying(strtol), h', t + b);
            Agree(strtol, CString(b), r.0, r'.0, OpenAfter(o, t)) && r.1 == r'.1
    decreases |t|
  {
    hide IsBlock, Agree, ReadLine, HasColon, Effect, KindOf, AfterLine, CString, ReadHeaders;
    SameLine(t, b);
    ReadHeadersStep(strtol, h, t);
    ReadHeadersStep(strtol, h', t + b);
    var l, l' := ReadLine(t), ReadLine(t + b);
    if l.Field? {
      var kind := KindOf(l.key);
      LineAgrees(strtol, CString(b), h, h', o, kind, HasColon(t), l.val, l'.val);
      BlockAgrees(strtol, Effect(strtol, h, kind, l.val), Effect(strtol, h', kind, l'.val),
                  AfterLine(o, kind, HasColon(t), l.val), t[l.used..], b);
    }
  }

  /** A whole block, read without and with more input. */
  lemma BlockRead(strtol: seq<byte> -> int, request: Request, t: seq<byte>, b: seq<byte>)
    requires IsBlock(t)
    ensures var h := Headers(request, false, false);
            var r, r' := ReadHeaders(Applying(strtol), h, t), ReadHeaders(Applying(strtol), h, t + b);
            Agree(strtol, CString(b), r.0, r'.0, Left(request, t)) && r.1 == r'.1
  {
    hide IsBlock, CString;
    var h := Headers(request, false, false);
    BlockAgrees(strtol, h, h, Untouched(request), t, b);
  }

  // ----- what shows -----

  /** With these octets behind a block everything that is open shows. */
  function Telling(): (b: seq<byte>)
    ensures |b| == 8
  {
    Ascii("Upgrade:")
  }

  /** A number parser that tells values of different lengths apart. */
  function Length(v: seq<byte>): int {
    |v|
  }

  lemma {:induction false} HostLength(v: seq<byte>, n: nat)
    requires n <= |v|
    ensures |BeforeLastColon(v, n)| <= |v|
  {
    if n > 0 && v[n - 1] != COLON {
      HostLength(v, n - 1);
    }
  }

  lemma TellingHost(v: seq<byte>)
    ensures HostOf(v + Telling()) != HostOf(v)
  {
    hide BeforeLastColon, Telling, Ascii;
    TellingColon();
    LastColon(v + Telling());
    HostLength(v, |v|);
  }

  lemma TellingColon()
    ensures Telling()[7] == COLON
  {
    assert "Upgrade:"[7] as int == 58;
  }

  lemma LastColon(w: seq<byte>)
    requires w != [] && w[|w| - 1] == COLON
    ensures |BeforeLastColon(w, |w|)| == |w| - 1
  {
  }

  lemma TellingConnection(v: seq<byte>)
    ensures ContainsIgnoringCase(v + Telling(), Ascii("Upgrade"))
  {
    var w := v + Telling();
    var u := Ascii("Upgrade");
    assert forall i :: 0 <= i < 7 ==> Telling()[i] == u[i];
    assert w[|v|..|v| + 7] == u;
    assert OccursAt(w, u, |v|);
  }

  lemma TellingIsCString()
    ensures CString(Telling()) == Telling()
  {
    var b := Telling();
    forall i | 0 <= i < 8 ensures b[i] != 0 {
      assert b[i] == "Upgrade:"[i] as int % 256;
    }
    OverrunValue(b, []);
  }

  // ----- the exact condition -----

  /** In particular a block whose lines all have colons leaves nothing open. */
  lemma {:induction false} ColonsAreLocal(o: Open, t: seq<byte>)
    requires AllColons(t) && IsShut(o)
    ensures IsShut(OpenAfter(o, t))
    decreases |t|
  {
    hide ReadLine, HasColon, KindOf, EqualsIgnoringCase, ContainsIgnoringCase, Ascii;
    var line := ReadLine(t);
    if line.Field? {
      ColonsAreLocal(AfterLine(o, KindOf(line.key), HasColon(t), line.val), t[line.used..]);
    }
  }

  predicate IsShut(o: Open) {
    o.protocol.None? && o.version.None? && o.key.None? && o.host.None? && o.connection.None?
  }

  /** The request and the web socket flag that a block of headers yields, and what it consumes. */
  function Reading(strtol: seq<byte> -> int, request: Request, s: seq<byte>): (Request, bool, nat) {
    var (h, used) := ReadHeaders(Applying(strtol), Headers(request, false, false), s);
    (h.request, IsWebsocket(h), used)
  }

  /** What a block of headers yields with more input behind it. */
  lemma ReadingAgrees(strtol: seq<byte> -> int, request: Request, t: seq<byte>, b: seq<byte>)
    requires IsBlock(t)
    ensures var o, c := Left(request, t), CString(b);
            var (r, isWebsocket, used), (r', isWebsocket', used') := Reading(strtol, request, t), Reading(strtol, request, t + b);
            && r'.verb == r.verb && r'.resource == r.resource && r'.httpVersion == r.httpVersion && used' == used
            && isWebsocket == (o.asks && o.upgrade && o.hasKey) && (isWebsocket ==> r.secKey.Some?)
            && r.secKey.Some? == o.hasKey == r'.secKey.Some?
            && isWebsocket' == (if Undecided(o) then ContainsIgnoringCase(o.connection.value + c, Ascii("Upgrade")) else isWebsocket)
            && Longer(o.protocol, c, r.protocol, r'.protocol) && Longer(o.key, c, r.secKey, r'.secKey)
            && (match o.version
                case None => r'.version == r.version
                case Some(v) => r.version == strtol(v) && r'.version == strtol(v + c))
            && (match o.host
                case None => r'.reqHost == r.reqHost
                case Some(v) => r.reqHost == HostOf(v) && r'.reqHost == HostOf(v + c))
            && (Undecided(o) ==> !isWebsocket)
  {
    hide IsBlock, ReadHeaders, Left, CString, HostOf, ContainsIgnoringCase;
    BlockRead(strtol, request, t, b);
  }

  lemma LocalIsRead(strtol: seq<byte> -> int, request: Request, t: seq<byte>, b: seq<byte>)
    requires IsBlock(t) && IsLocal(request, t)
    ensures Reading(strtol, request, t + b) == Reading(strtol, request, t)
  {
    hide IsBlock, Left, Reading, CString;
    ReadingAgrees(strtol, request, t, b);
  }

  /** Behind an open value more input shows. */
  lemma OpenShows(request: Request, t: seq<byte>)
    requires IsBlock(t) && !IsLocal(request, t)
    ensures var got, want := Reading(Length, request, t + Telling()), Reading(Length, request, t);
            got.0 != want.0 || got.1 != want.1
  {
    hide IsBlock, Left, Reading, Telling, CString, HostOf, ContainsIgnoringCase;
    TellingIsCString();
    if IsLocalOtherwise(request, t) {
      PrivateShows(Length, request, t, Telling());
    } else {
      OtherShows(Length, request, t);
    }
  }

  lemma OtherShows(strtol: seq<byte> -> int, request: Request, t: seq<byte>)
    requires IsBlock(t) && !IsLocalOtherwise(request, t)
    ensures var got, want := Reading(strtol, request, t + Telling()), Reading(strtol, request, t);
            got.0 != want.0 || got.1 != want.1
  {
    hide IsBlock, Left, Reading, Telling, CString, HostOf, ContainsIgnoringCase;
    TellingIsCString();
    var o := Left(request, t);
    if o.host.Some? || Undecided(o) {
      SeenShows(strtol, request, t);
    } else {
      PrivateShows(strtol, request, t, Telling());
    }
  }

  /** An open host or an undecided upgrade shows in what is reported at once. */
  lemma SeenShows(strtol: seq<byte> -> int, request: Request, t: seq<byte>)
    requires IsBlock(t) && (Left(request, t).host.Some? || Undecided(Left(request, t)))
    ensures var got, want := Reading(strtol, request, t + Telling()), Reading(strtol, request, t);
            got.0.reqHost != want.0.reqHost || got.1 != want.1
  {
    hide IsBlock, Left, Reading, Telling, CString, HostOf, ContainsIgnoringCase;
    ReadingAgrees(strtol, request, t, Telling());
    TellingIsCString();
    var o := Left(request, t);
    if Undecided(o) {
      TellingConnection(o.connection.value);
    } else {
      TellingHost(o.host.value);
    }
  }

  lemma MoreIsNotLess(v: seq<byte>, c: seq<byte>)
    requires c != []
    ensures v + c != v && |v + c| > |v|
  {
    assert |v + c| == |v| + |c|;
  }

  /** Open Protocol, Key and Version lines show behind any input, the last to a parser that sees it. */
  lemma PrivateShows(strtol: seq<byte> -> int, request: Request, t: seq<byte>, b: seq<byte>)
    requires IsBlock(t) && CString(b) != []
    ensures var o, c := Left(request, t), CString(b);
            var r, r' := Reading(strtol, request, t).0, Reading(strtol, request, t + b).0;
            && (o.protocol.Some? ==> r'.protocol != r.protocol)
            && (o.key.Some? ==> r'.secKey != r.secKey)
            && (o.version.Some? && strtol(o.version.value + c) != strtol(o.version.value) ==> r'.version != r.version)
  {
    hide IsBlock, Left, Reading, CString, HostOf, ContainsIgnoringCase;
    ReadingAgrees(strtol, request, t, b);
    var o := Left(request, t);
    if o.protocol.Some? {
      MoreIsNotLess(o.protocol.value, CString(b));
    }
    if o.key.Some? {
      MoreIsNotLess(o.key.value, CString(b));
    }
  }

  /** Some input behind an open Version line changes the number that is read. */
  ghost predicate Shows(strtol: seq<byte> -> int, v: seq<byte>) {
    exists c: seq<byte> :: NoNul(c, |c|) && strtol(v + c) != strtol(v)
  }

  /** Apart from the Version line nothing that matters is left open. */
  predicate IsLocalOtherwise(request: Request, t: seq<byte>) {
    var o := Left(request, t);
    o.protocol.None? && o.key.None? && o.host.None? && !Undecided(o)
  }

  /** For one number parser: an open Version line matters if and only if the parser reads on behind it. */
  lemma ParserExactly(strtol: seq<byte> -> int, request: Request, t: seq<byte>)
    requires IsBlock(t)
    ensures (forall b: seq<byte> :: Reading(strtol, request, t + b) == Reading(strtol, request, t)) <==>
            var o := Left(request, t);
            IsLocalOtherwise(request, t) && (o.version.Some? ==> !Shows(strtol, o.version.value))
  {
    hide IsBlock, Reading, Left, CString, Telling;
    var o := Left(request, t);
    if !IsLocalOtherwise(request, t) {
      OtherShows(strtol, request, t);
      assert Reading(strtol, request, t + Telling()) != Reading(strtol, request, t);
    } else if o.version.Some? && Shows(strtol, o.version.value) {
      var c :| NoNul(c, |c|) && strtol(o.version.value + c) != strtol(o.version.value);
      OverrunValue(c, []);
      SomethingBehind(o.version.value, c, strtol);
      PrivateShows(strtol, request, t, c);
      assert Reading(strtol, request, t + c) != Reading(strtol, request, t);
    } else {
      forall b: seq<byte> ensures Reading(strtol, request, t + b) == Reading(strtol, request, t) {
        ReadingAgrees(strtol, request, t, b);
        CStringHasNoNul(b);
      }
    }
  }

  lemma SomethingBehind(v: seq<byte>, c: seq<byte>, strtol: seq<byte> -> int)
    requires strtol(v + c) != strtol(v)
    ensures c != []
  {
    assert v + [] == v;
  }

  lemma CStringHasNoNul(b: seq<byte>)
    ensures NoNul(CString(b), |CString(b)|)
  {
    NoNulUntil(b, 0);
  }

  lemma {:induction false} NoNulUntil(b: seq<byte>, k: nat)
    requires k <= |b|
    ensures forall j :: k <= j < Until(b, 0, k, |b|) ==> b[j] != 0
    decreases |b| - k
  {
    if k < |b| && b[k] != 0 {
      NoNulUntil(b, k + 1);
    }
  }

  // ----- the parser of the C library -----

  /** White space as `strtol` skips it. */
  predicate IsBlank(c: byte) {
    c == SPACE || 9 <= c <= CR
  }

  /** Tab, line feed, vertical tab, form feed, carriage return and space. */
  lemma Blanks(c: byte)
    ensures IsBlank(c) <==> c in {9, 10, 11, 12, 13, 32}
  {
  }

  predicate AllBlank(v: seq<byte>) {
    forall i :: 0 <= i < |v| ==> IsBlank(v[i])
  }

  /** A word that white space ends. */
  predicate HasWord(v: seq<byte>) {
    exists i, j :: 0 <= i < j < |v| && !IsBlank(v[i]) && IsBlank(v[j])
  }

  /** `strtol` skips white space and reads no further than the first word; a digit counts. */
  ghost predicate ReadsOneWord(strtol: seq<byte> -> int) {
    && (forall v: seq<byte>, c: seq<byte> :: HasWord(v) ==> strtol(v + c) == strtol(v))
    && (forall v: seq<byte> :: AllBlank(v) ==> strtol(v + [49]) != strtol(v))
  }

  /** To such a parser an open Version line that ends in white space shows if and only if it is all white space. */
  lemma BlankVersion(strtol: seq<byte> -> int, v: seq<byte>)
    requires ReadsOneWord(strtol) && v != [] && IsBlank(v[|v| - 1])
    ensures Shows(strtol, v) <==> AllBlank(v)
  {
    if AllBlank(v) {
      assert NoNul([49], 1) && strtol(v + [49]) != strtol(v);
    } else {
      var i :| 0 <= i < |v| && !IsBlank(v[i]);
      assert HasWord(v);
    }
  }

  /** The value of an open line goes on to the end of the block. */
  lemma OpenValue(t: seq<byte>)
    requires IsBlock(t) && t[|t| - 1] == LF && ReadLine(t).Field? && !HasColon(t)
    ensures var v := ReadLine(t).val; v != [] && v[|v| - 1] == LF
  {
    hide ReadLine, HasColon, CString;
    NextLine(t);
    var end := Strnstr(t, CRLF).value;
    assert t[end + 1] == t[end..end + 2][1] == LF;
    ColonlessLine(t, [], end);
    OverrunValue(t[end + 1..], []);
  }

  lemma {:induction false} OpenVersionEnds(o: Open, t: seq<byte>)
    requires IsBlock(t) && t[|t| - 1] == LF
    requires o.version.Some? ==> o.version.value != [] && o.version.value[|o.version.value| - 1] == LF
    ensures var v := OpenAfter(o, t).version; v.Some? ==> v.value != [] && v.value[|v.value| - 1] == LF
    decreases |t|
  {
    hide IsBlock, ReadLine, HasColon, KindOf, EqualsIgnoringCase, ContainsIgnoringCase, Ascii;
    var l := ReadLine(t);
    if l.Field? {
      SameLine(t, []);
      if !HasColon(t) {
        OpenValue(t);
      }
      RestOfBlock(t, l.used);
      OpenVersionEnds(AfterLine(o, KindOf(l.key), HasColon(t), l.val), t[l.used..]);
    }
  }

  lemma RestOfBlock(t: seq<byte>, n: nat)
    requires n <= |t| && IsBlock(t[n..]) && t != [] && t[|t| - 1] == LF
    ensures t[n..] != [] && t[n..][|t[n..]| - 1] == LF
  {
  }

  /**
   * For the parser of the C library, and a block that ends with its blank line: an open Version
   * line matters if and only if white space is all that follows it.
   */
  lemma WithStrtol(strtol: seq<byte> -> int, request: Request, t: seq<byte>)
    requires ReadsOneWord(strtol) && IsBlock(t) && t[|t| - 1] == LF
    ensures (forall b: seq<byte> :: Reading(strtol, request, t + b) == Reading(strtol, request, t)) <==>
            var o := Left(request, t);
            IsLocalOtherwise(request, t) && (o.version.Some? ==> !AllBlank(o.version.value))
  {
    hide IsBlock, Reading, OpenAfter, ReadsOneWord, Shows, AllBlank;
    ParserExactly(strtol, request, t);
    OpenVersionEnds(Untouched(request), t);
    var o := Left(request, t);
    if o.version.Some? {
      BlankVersion(strtol, o.version.value);
    }
  }

  // ----- all parsers -----

  /**
   * A block of headers reads the same whatever has arrived behind it and however numbers are
   * parsed, if and only if it leaves nothing open that matters.
   */
  lemma LocalExactly(request: Request, t: seq<byte>)
    requires IsBlock(t)
    ensures (forall strtol: seq<byte> -> int, b: seq<byte> ::
               Reading(strtol, request, t + b) == Reading(strtol, request, t))
        <==> IsLocal(request, t)
  {
    hide IsBlock, IsLocal, Reading;
    if IsLocal(request, t) {
      forall strtol: seq<byte> -> int, b: seq<byte>
        ensures Reading(strtol, request, t + b) == Reading(strtol, request, t)
      {
        LocalIsRead(strtol, request, t, b);
      }
    } else {
      OpenShows(request, t);
      assert Reading(Length, request, t + Telling()) != Reading(Length, request, t);
    }
  }
}
