/**
 * The callbacks of one request, and of a further one on the same connection: when the cut of the
 * stream shows in them.
 */
module WsReports {
  import opened Bytes
  import opened Http
  import opened HttpOverrun
  import opened WsProtocol
  import opened WsOverrun
  import opened Incremental

  /** The request, without more input behind it, asks for an upgrade. */
  predicate Asks(o: Open) {
    o.asks && o.upgrade && o.hasKey
  }

  /** Nothing open shows in the request callback: neither the host nor the kind of the request. */
  predicate SameRequest(o: Open) {
    o.host.None? && !Undecided(o)
  }

  /** Nor, if the request asks for an upgrade, in the upgrade callback. */
  predicate SameReports(o: Open) {
    SameRequest(o) && (Asks(o) ==> o.protocol.None? && o.version.None? && o.key.None?)
  }

  /** The headers turn, in terms of what the block yields. */
  lemma HeadersReport(env: Env, s: State, a: seq<byte>)
    requires s.phase.ReadHttpHeaders? && Strnstr(a, CRLFCRLF).Some?
    ensures var (r, isWebsocket, used) := Reading(env.strtol, s.request, a[2..]);
            && (isWebsocket ==> r.secKey.Some?)
            && Step(env, s, a) == AfterHeaders(env, s, Headers(r, isWebsocket, isWebsocket), 2 + used)
  {
    hide ReadHeaders, Strnstr;
  }

  /** A complete block, with more input behind it and without. */
  lemma BothReports(env: Env, s: State, a: seq<byte>, b: seq<byte>)
    requires s.phase.ReadHttpHeaders? && JustComplete(a)
    ensures |a| >= 2 && IsBlock(a[2..]) && (a + b)[2..] == a[2..] + b
    ensures var x, x' := Reading(env.strtol, s.request, a[2..]), Reading(env.strtol, s.request, a[2..] + b);
            && (x.1 ==> x.0.secKey.Some?) && (x'.1 ==> x'.0.secKey.Some?)
            && Step(env, s, a) == AfterHeaders(env, s, Headers(x.0, x.1, x.1), 2 + x.2)
            && Step(env, s, a + b) == AfterHeaders(env, s, Headers(x'.0, x'.1, x'.1), 2 + x'.2)
  {
    hide IsBlock, Reading, Strnstr, AfterHeaders, Step;
    CompleteBlock(a);
    StrnstrExtend(a, b, CRLFCRLF);
    assert (a + b)[2..] == a[2..] + b;
    HeadersReport(env, s, a);
    HeadersReport(env, s, a + b);
  }

  // ----- the first request -----

  /**
   * A new connection whose first request is answered with an end reports this request the same,
   * whether what follows arrives with it or later, if and only if no last Host line lacks its
   * colon and no open Connection line decides about an upgrade.
   */
  lemma FirstCallbackExactly(l: seq<byte>, a: seq<byte>)
    requires IsRequest(l, a)
    ensures (forall env: Env, b: seq<byte> :: EndsAt(env, 1) ==>
               Receive(env, Initial, [l + a + b]).state.trace == Receive(env, Initial, [l + a, b]).state.trace)
        <==> SameRequest(Left(NoRequest, a[2..]))
  {
    hide Left, Step, IsRequest, Telling, Receive, EndsAt;
    RequestKnown(l, a);
    if SameRequest(Left(NoRequest, a[2..])) {
      forall env: Env, b: seq<byte> | EndsAt(env, 1)
        ensures Receive(env, Initial, [l + a + b]).state.trace == Receive(env, Initial, [l + a, b]).state.trace
      {
        CurtSame(env, Asked(l, a), a, b);
        WholeAndCut(env, l, a, b);
      }
    } else {
      var env := Curt();
      CurtDiffers(env, Asked(l, a), a);
      WholeAndCut(env, l, a, Telling());
      assert Receive(env, Initial, [l + a + Telling()]).state.trace != Receive(env, Initial, [l + a, Telling()]).state.trace;
    }
  }

  lemma Curt() returns (env: Env)
    ensures EndsAt(env, 1) && EndsWithFirst(env) && env.strtol == Length
  {
    env := Env(CurtReply, Length);
  }

  lemma CurtSame(env: Env, s: State, a: seq<byte>, b: seq<byte>)
    requires EndsAt(env, 1) && s.phase.ReadHttpHeaders? && s.trace == [] && JustComplete(a)
    requires SameRequest(Left(s.request, a[2..]))
    ensures var o, o' := Step(env, s, a), Step(env, s, a + b); o.Stop? && o'.Stop? && o.next.trace == o'.next.trace
  {
    hide IsBlock, Reading, Left, CString, HostOf, ContainsIgnoringCase, JustComplete, Step;
    BothReports(env, s, a, b);
    ReadingAgrees(env.strtol, s.request, a[2..], b);
  }

  lemma CurtDiffers(env: Env, s: State, a: seq<byte>)
    requires EndsAt(env, 1) && s.phase.ReadHttpHeaders? && s.trace == [] && JustComplete(a)
    requires !SameRequest(Left(s.request, a[2..]))
    ensures var o, o' := Step(env, s, a), Step(env, s, a + Telling());
            o.Stop? && o'.Stop? && o.next.trace != o'.next.trace
  {
    hide IsBlock, Reading, Left, Telling, JustComplete, Step;
    BothReports(env, s, a, Telling());
    SeenShows(env.strtol, s.request, a[2..]);
    var t, t' := Step(env, s, a).next.trace, Step(env, s, a + Telling()).next.trace;
    assert |t| == |t'| == 1 && t[0] != t'[0];
  }

  /** An application that keeps no connection alive and accepts no upgrade. */
  ghost predicate EndsWithFirst(env: Env) {
    && (forall t: seq<Event> :: |t| == 1 ==> !env.reply(t).keepAlive)
    && (forall t: seq<Event> :: |t| == 2 ==> env.reply(t).fails)
  }

  const PatientReply: seq<Event> -> Reply := t => Reply(|t| >= 2, false, false)

  lemma Patient() returns (env: Env)
    ensures EndsWithFirst(env) && env.strtol == Length && forall t: seq<Event> :: |t| == 1 ==> !env.reply(t).fails
  {
    env := Env(PatientReply, Length);
  }

  /**
   * All that is reported of the first request of a connection, the upgrade included, is the same
   * for every application that ends the connection with it, if and only if besides a request
   * that asks for an upgrade leaves no Protocol, Version or Key line open.
   */
  lemma FirstRequestExactly(l: seq<byte>, a: seq<byte>)
    requires IsRequest(l, a)
    ensures (forall env: Env, b: seq<byte> :: EndsWithFirst(env) ==>
               Receive(env, Initial, [l + a + b]).state.trace == Receive(env, Initial, [l + a, b]).state.trace)
        <==> SameReports(Left(NoRequest, a[2..]))
  {
    hide Left, Step, IsRequest, Telling, Receive, EndsWithFirst, SameRequest, SameReports;
    RequestKnown(l, a);
    var s := Asked(l, a);
    if SameReports(Left(NoRequest, a[2..])) {
      forall env: Env, b: seq<byte> | EndsWithFirst(env)
        ensures Receive(env, Initial, [l + a + b]).state.trace == Receive(env, Initial, [l + a, b]).state.trace
      {
        EndSame(env, s, a, b);
        WholeAndCut(env, l, a, b);
      }
    } else {
      var env := EndDiffers(s, a);
      WholeAndCut(env, l, a, Telling());
      assert Receive(env, Initial, [l + a + Telling()]).state.trace != Receive(env, Initial, [l + a, Telling()]).state.trace;
    }
  }

  lemma EndSame(env: Env, s: State, a: seq<byte>, b: seq<byte>)
    requires EndsWithFirst(env) && s.phase.ReadHttpHeaders? && s.trace == [] && JustComplete(a)
    requires SameReports(Left(s.request, a[2..]))
    ensures var o, o' := Step(env, s, a), Step(env, s, a + b); o.Stop? && o'.Stop? && o.next.trace == o'.next.trace
  {
    hide IsBlock, Reading, Left, CString, HostOf, ContainsIgnoringCase, JustComplete, Step;
    BothReports(env, s, a, b);
    ReadingAgrees(env.strtol, s.request, a[2..], b);
  }

  lemma EndDiffers(s: State, a: seq<byte>) returns (env: Env)
    requires s.phase.ReadHttpHeaders? && s.trace == [] && JustComplete(a)
    requires !SameReports(Left(s.request, a[2..]))
    ensures EndsWithFirst(env)
    ensures var o, o' := Step(env, s, a), Step(env, s, a + Telling());
            o.Stop? && o'.Stop? && o.next.trace != o'.next.trace
  {
    hide Left, Telling, Step, EndsWithFirst, SameRequest;
    if SameRequest(Left(s.request, a[2..])) {
      env := Patient();
      TellingIsCString();
      UpgradeDiffers(env, s, a, Telling());
    } else {
      env := Curt();
      CurtDiffers(env, s, a);
    }
  }

  /** An open Protocol, Version or Key line shows in the upgrade. */
  lemma UpgradeDiffers(env: Env, s: State, a: seq<byte>, b: seq<byte>)
    requires EndsWithFirst(env) && env.strtol == Length && forall t: seq<Event> :: |t| == 1 ==> !env.reply(t).fails
    requires s.phase.ReadHttpHeaders? && s.trace == [] && JustComplete(a) && CString(b) != []
    requires var o := Left(s.request, a[2..]);
             SameRequest(o) && Asks(o) && (o.protocol.Some? || o.version.Some? || o.key.Some?)
    ensures var o, o' := Step(env, s, a), Step(env, s, a + b);
            o.Stop? && o'.Stop? && o.next.trace != o'.next.trace
  {
    hide IsBlock, Reading, Left, JustComplete, Step, CString, HostOf, ContainsIgnoringCase;
    BothReports(env, s, a, b);
    ReadingAgrees(env.strtol, s.request, a[2..], b);
    LengthTells(s.request, a[2..], b);
    var t, t' := Step(env, s, a).next.trace, Step(env, s, a + b).next.trace;
    assert |t| == |t'| == 2 && t[1] != t'[1];
  }

  lemma LengthTells(request: Request, t: seq<byte>, b: seq<byte>)
    requires IsBlock(t) && CString(b) != []
    ensures var o := Left(request, t);
            var r, r' := Reading(Length, request, t).0, Reading(Length, request, t + b).0;
            && (o.protocol.Some? ==> r'.protocol != r.protocol)
            && (o.key.Some? ==> r'.secKey != r.secKey)
            && (o.version.Some? ==> r'.version != r.version)
  {
    hide IsBlock, Left, Reading, CString;
    PrivateShows(Length, request, t, b);
    var o := Left(request, t);
    if o.version.Some? {
      MoreIsNotLess(o.version.value, CString(b));
    }
  }

  // ----- a further request on the same connection -----

  /** `s` is free of NULs, line ends, colons and spaces. */
  predicate IsPlain(s: seq<byte>) {
    forall i :: 0 <= i < |s| ==> s[i] != 0 && s[i] != CR && s[i] != COLON && s[i] != SPACE
  }

  function HeaderLine(key: seq<byte>, val: seq<byte>): seq<byte> {
    key + [COLON] + val + CRLF
  }

  lemma {:induction false} UntilIs(s: seq<byte>, c: byte, k: nat, end: nat, r: nat)
    requires k <= r < end <= |s| && s[r] == c && forall j :: k <= j < r ==> s[j] != c
    ensures Until(s, c, k, end) == r
    decreases r - k
  {
    if k < r {
      UntilIs(s, c, k + 1, end, r);
    }
  }

  /** Where the parts of a line are. */
  lemma LineParts(key: seq<byte>, val: seq<byte>, rest: seq<byte>)
    ensures var s, n := HeaderLine(key, val) + rest, |HeaderLine(key, val)|;
            && n == |key| + |val| + 3 && |s| == n + |rest| && s[n..] == rest
            && s[..|key|] == key && s[|key|] == COLON && s[|key| + 1..n - 2] == val && s[n - 2..n] == CRLF
            && (forall j :: 0 <= j < |key| ==> s[j] == key[j])
            && (forall j :: 0 <= j < |val| ==> s[|key| + 1 + j] == val[j])
  {
  }

  lemma PlainLine(key: seq<byte>, val: seq<byte>, rest: seq<byte>)
    requires IsPlain(key) && IsPlain(val) && key != [] && val != []
    ensures var s := HeaderLine(key, val) + rest;
            ReadLine(s) == Field(key, val, |HeaderLine(key, val)|) && s[|HeaderLine(key, val)|..] == rest
  {
    hide Strnstr, Until, SkipSpaces, TrimEnd, HeaderLine, CString;
    var s := HeaderLine(key, val) + rest;
    var end := |key| + 1 + |val|;
    LineParts(key, val, rest);
    LineEnd(key, val, rest);
    UntilIs(s, COLON, 1, end, |key|);
    assert s[end - 1] == s[|key| + 1 + (|val| - 1)];
    assert s[|key| + 1] == s[|key| + 1 + 0];
    NoSpaces(s, |key| + 1, end);
  }

  lemma NoSpaces(s: seq<byte>, start: nat, end: nat)
    requires start < end <= |s| && s[start] != SPACE && s[end - 1] != SPACE
    ensures SkipSpaces(s, start, end) == start && TrimEnd(s, start, end) == end
  {
  }

  lemma LineEnd(key: seq<byte>, val: seq<byte>, rest: seq<byte>)
    requires IsPlain(key) && IsPlain(val)
    ensures Strnstr(HeaderLine(key, val) + rest, CRLF) == Some(|key| + 1 + |val|)
  {
    var s := HeaderLine(key, val) + rest;
    var end := |key| + 1 + |val|;
    hide HeaderLine;
    LineParts(key, val, rest);
    forall j: nat | j < end ensures s[j] != 0 && s[j] != CR {
      if j > |key| {
        assert s[j] == s[|key| + 1 + (j - |key| - 1)];
      }
    }
    forall j: nat | j < end ensures !MatchAt(s, CRLF, j) {
      assert s[j..j + 2][0] == s[j];
    }
    StrnstrExact(s, CRLF, end);
  }

  const CONNECTION: seq<byte> := [67, 111, 110, 110, 101, 99, 116, 105, 111, 110]
  const UPGRADE: seq<byte> := [85, 112, 103, 114, 97, 100, 101]
  const WEBSOCKET: seq<byte> := [87, 101, 98, 83, 111, 99, 107, 101, 116]
  const SEC_KEY: seq<byte> := [83, 101, 99, 45, 87, 101, 98, 83, 111, 99, 107, 101, 116, 45, 75, 101, 121]

  lemma Kinds()
    ensures KindOf(CONNECTION) == ConnectionKey && KindOf(UPGRADE) == UpgradeKey && KindOf(SEC_KEY) == SecretKey
    ensures ContainsIgnoringCase(UPGRADE, Ascii("Upgrade")) && EqualsIgnoringCase(WEBSOCKET, Ascii("WebSocket"))
  {
    assert CONNECTION == Ascii("Connection");
    assert UPGRADE == Ascii("Upgrade");
    assert SEC_KEY == Ascii("Sec-WebSocket-Key");
    assert WEBSOCKET == Ascii("WebSocket");
    assert UPGRADE[0..7] == UPGRADE;
    assert OccursAt(UPGRADE, Ascii("Upgrade"), 0);
  }

  /** The headers of a request for an upgrade, with a key of their own or without one. */
  function UpgradeHeaders(withKey: bool): seq<byte> {
    HeaderLine(CONNECTION, UPGRADE) + (HeaderLine(UPGRADE, WEBSOCKET) +
      ((if withKey then HeaderLine(SEC_KEY, [75]) else []) + CRLF))
  }

  lemma UpgradeRead(strtol: seq<byte> -> int, request: Request, withKey: bool)
    requires withKey || request.secKey.Some?
    ensures Reading(strtol, request, UpgradeHeaders(withKey)) ==
            (if withKey then request.(secKey := Some([75])) else request, true, |UpgradeHeaders(withKey)|)
  {
    hide ReadLine, KindOf, HeaderLine, ReadHeaders, ContainsIgnoringCase, EqualsIgnoringCase, Ascii;
    Kinds();
    var last := (if withKey then HeaderLine(SEC_KEY, [75]) else []) + CRLF;
    var h := Headers(request, false, false);
    var h1, h2 := h.(isConnection := true), h.(isConnection := true, isUpgrade := true);
    PlainLine(CONNECTION, UPGRADE, HeaderLine(UPGRADE, WEBSOCKET) + last);
    PlainLine(UPGRADE, WEBSOCKET, last);
    ReadHeadersStep(strtol, h, UpgradeHeaders(withKey));
    ReadHeadersStep(strtol, h1, HeaderLine(UPGRADE, WEBSOCKET) + last);
    LastLines(strtol, h2, withKey);
  }

  lemma LastLines(strtol: seq<byte> -> int, h: Headers, withKey: bool)
    ensures var last := (if withKey then HeaderLine(SEC_KEY, [75]) else []) + CRLF;
            ReadHeaders(Applying(strtol), h, last) ==
            (if withKey then h.(request := h.request.(secKey := Some([75]))) else h, |last|)
  {
    hide ReadLine, KindOf, HeaderLine, ReadHeaders;
    Kinds();
    BlankLine();
    ReadHeadersStep(strtol, h, CRLF);
    if withKey {
      PlainLine(SEC_KEY, [75], CRLF);
      ReadHeadersStep(strtol, h, HeaderLine(SEC_KEY, [75]) + CRLF);
      ReadHeadersStep(strtol, h.(request := h.request.(secKey := Some([75]))), CRLF);
    } else {
      assert [] + CRLF == CRLF;
    }
  }

  /** A request for an upgrade is one in whatever case its names and values are written. */
  lemma AnyCaseUpgrade(strtol: seq<byte> -> int, request: Request, connection: seq<byte>, asked: seq<byte>,
                       upgrade: seq<byte>, socket: seq<byte>, name: seq<byte>, key: seq<byte>)
    requires EqualsIgnoringCase(connection, CONNECTION) && EqualsIgnoringCase(asked, UPGRADE)
    requires EqualsIgnoringCase(upgrade, UPGRADE) && EqualsIgnoringCase(socket, WEBSOCKET)
    requires EqualsIgnoringCase(name, SEC_KEY) && IsPlain(key) && key != []
    requires IsPlain(connection) && IsPlain(asked) && IsPlain(upgrade) && IsPlain(socket) && IsPlain(name)
    ensures var block := HeaderLine(connection, asked) + (HeaderLine(upgrade, socket) + (HeaderLine(name, key) + CRLF));
            Reading(strtol, request, block) == (request.(secKey := Some(key)), true, |block|)
  {
    hide ReadLine, KindOf, HeaderLine, ReadHeaders, ContainsIgnoringCase, Ascii;
    AnyCaseKinds(connection, asked, upgrade, socket, name);
    hide EqualsIgnoringCase;
    var last := HeaderLine(name, key) + CRLF;
    var h := Headers(request, false, false);
    var h1, h2 := h.(isConnection := true), h.(isConnection := true, isUpgrade := true);
    PlainLine(connection, asked, HeaderLine(upgrade, socket) + last);
    PlainLine(upgrade, socket, last);
    PlainLine(name, key, CRLF);
    BlankLine();
    ReadHeadersStep(strtol, h, HeaderLine(connection, asked) + (HeaderLine(upgrade, socket) + last));
    ReadHeadersStep(strtol, h1, HeaderLine(upgrade, socket) + last);
    ReadHeadersStep(strtol, h2, last);
    ReadHeadersStep(strtol, h2.(request := request.(secKey := Some(key))), CRLF);
  }

  lemma AnyCaseKinds(connection: seq<byte>, asked: seq<byte>, upgrade: seq<byte>, socket: seq<byte>, name: seq<byte>)
    requires EqualsIgnoringCase(connection, CONNECTION) && EqualsIgnoringCase(asked, UPGRADE)
    requires EqualsIgnoringCase(upgrade, UPGRADE) && EqualsIgnoringCase(socket, WEBSOCKET)
    requires EqualsIgnoringCase(name, SEC_KEY)
    ensures connection != [] && asked != [] && upgrade != [] && socket != [] && name != []
    ensures KindOf(connection).ConnectionKey? && KindOf(upgrade).UpgradeKey? && KindOf(name).SecretKey?
    ensures ContainsIgnoringCase(asked, Ascii("Upgrade")) && EqualsIgnoringCase(socket, Ascii("WebSocket"))
  {
    hide Ascii, KindOf, ContainsIgnoringCase;
    Names();
    KindByName(connection);
    KindByName(upgrade);
    KindByName(name);
    FoundInside([], asked, [], Ascii("Upgrade"));
    assert [] + asked + [] == asked;
  }

  lemma BlankLine()
    ensures ReadLine(CRLF).Blank?
  {
    assert CRLF[0..2] == CRLF;
    StrnstrExact(CRLF, CRLF, 0);
  }

  /** The request `G / H` for an upgrade. */
  function Further(withKey: bool): seq<byte> {
    BareLine + (CRLF + UpgradeHeaders(withKey))
  }

  lemma {:induction false} SearchFindsSome(s: seq<byte>, pat: seq<byte>, k: nat, p: nat)
    requires pat != [] && pat[0] != 0 && k <= p && MatchAt(s, pat, p) && NoNul(s, p + |pat|)
    ensures Search(s, pat, k).Some?
    decreases p - k
  {
    if k < p {
      SearchFindsSome(s, pat, k + 1, p);
    }
  }

  lemma UpgradeComplete(withKey: bool)
    ensures Strnstr(CRLF + UpgradeHeaders(withKey), CRLFCRLF).Some?
  {
    hide Search, HeaderLine;
    var s := CRLF + UpgradeHeaders(withKey);
    var p := |s| - 4;
    LineParts(CONNECTION, UPGRADE, []);
    LineParts(UPGRADE, WEBSOCKET, []);
    LineParts(SEC_KEY, [75], []);
    LineEnds(CONNECTION, UPGRADE);
    LineEnds(UPGRADE, WEBSOCKET);
    LineEnds(SEC_KEY, [75]);
    assert s[p..] == CRLFCRLF && s[p..p + 4] == s[p..];
    SearchFindsSome(s, CRLFCRLF, 0, p);
  }

  lemma LineEnds(key: seq<byte>, val: seq<byte>)
    requires IsPlain(key) && IsPlain(val)
    ensures var s := HeaderLine(key, val);
            |s| >= 3 && s[|s| - 2] == CR && s[|s| - 1] == LF && NoNul(s, |s|)
  {
    var s := HeaderLine(key, val);
    forall j | 0 <= j < |s| ensures s[j] != 0 {
      assert s[j] == if j < |key| then key[j] else if j == |key| then COLON
                     else if j <= |key| + |val| then val[j - |key| - 1] else CRLF[j - |key| - |val| - 1];
    }
  }

  /** An application that keeps the connection alive and ends it with its third callback. */
  ghost predicate IsKeen(env: Env) {
    && (forall t: seq<Event> :: |t| < 3 ==> !env.reply(t).fails && env.reply(t).keepAlive)
    && (forall t: seq<Event> :: |t| == 3 ==> env.reply(t).fails)
  }

  const KeenReply: seq<Event> -> Reply := t => Reply(|t| >= 3, true, false)

  lemma Keen() returns (env: Env)
    ensures IsKeen(env) && env.strtol == Length
  {
    env := Env(KeenReply, Length);
  }

  /** A further request for an upgrade reports what the one before it left in the fields. */
  lemma FurtherRun(env: Env, s: State, withKey: bool)
    requires IsKeen(env) && s.phase.ReadHttpRequest? && |s.trace| == 1 && (withKey || s.request.secKey.Some?)
    ensures RunFrom(env, s, Further(withKey)).state.trace == s.trace +
            [HttpRequest(Some([71]), Some([47]), Some([72]), s.request.reqHost, true),
             Upgrade(Some([47]), s.request.protocol, s.request.version, if withKey then [75] else s.request.secKey.value)]
  {
    hide RunFrom, UpgradeHeaders, Strnstr, Reading, RecvRequest;
    var rest := CRLF + UpgradeHeaders(withKey);
    assert rest[..2] == CRLF && rest[2..] == UpgradeHeaders(withKey);
    BareLineStep(s, rest);
    Turn(env, s, BareLine + rest);
    assert (BareLine + rest)[5..] == rest;
    FurtherHeaders(env, AfterBareLine(s), withKey);
    Turn(env, AfterBareLine(s), rest);
  }

  lemma FurtherHeaders(env: Env, s: State, withKey: bool)
    requires IsKeen(env) && s.phase.ReadHttpHeaders? && |s.trace| == 1 && (withKey || s.request.secKey.Some?)
    ensures var o := Step(env, s, CRLF + UpgradeHeaders(withKey));
            var r := s.request;
            && o.Stop?
            && o.next.trace == s.trace +
               [HttpRequest(r.verb, r.resource, r.httpVersion, r.reqHost, true),
                Upgrade(r.resource, r.protocol, r.version, if withKey then [75] else r.secKey.value)]
  {
    hide UpgradeHeaders, Strnstr, Reading, Step;
    var rest := CRLF + UpgradeHeaders(withKey);
    assert rest[2..] == UpgradeHeaders(withKey);
    UpgradeComplete(withKey);
    UpgradeRead(env.strtol, s.request, withKey);
    HeadersReport(env, s, rest);
  }

  // ----- all requests -----

  /** How much of a block `ReadHeaders` consumes: a line that starts with a space ends it early. */
  function Consumed(t: seq<byte>): nat
    decreases |t|
  {
    var line := ReadLine(t);
    if line.Field? then line.used + Consumed(t[line.used..]) else if line.Blank? then 2 else 0
  }

  lemma {:induction false} ReadsConsumed(strtol: seq<byte> -> int, h: Headers, t: seq<byte>)
    ensures ReadHeaders(Applying(strtol), h, t).1 == Consumed(t)
    decreases |t|
  {
    hide ReadLine, Effect, KindOf, ReadHeaders;
    ReadHeadersStep(strtol, h, t);
    var l := ReadLine(t);
    if l.Field? {
      ReadsConsumed(strtol, Effect(strtol, h, KindOf(l.key), l.val), t[l.used..]);
    }
  }

  lemma AllConsumed(env: Env, s: State, a: seq<byte>)
    requires |a| >= 2 && Consumed(a[2..]) == |a| - 2
    ensures 2 + Reading(env.strtol, s.request, a[2..]).2 == |a|
  {
    hide ReadHeaders, Consumed;
    ReadsConsumed(env.strtol, Headers(s.request, false, false), a[2..]);
  }

  /** The first request is read and the connection goes on: what follows is read in the states it left. */
  lemma GoesOn(env: Env, l: seq<byte>, a: seq<byte>, b: seq<byte>)
    requires IsRequest(l, a)
    requires var o, o' := Step(env, Asked(l, a), a), Step(env, Asked(l, a), a + b);
             o.Go? && o'.Go? && o.used == |a| && o'.used == |a| && (o.next.phase.ReadHttpRequest? || o.next.phase.ReadFrameLength?)
    ensures var o, o' := Step(env, Asked(l, a), a), Step(env, Asked(l, a), a + b);
            && Receive(env, Initial, [l + a + b]).state == RunFrom(env, o'.next, b).state
            && Receive(env, Initial, [l + a, b]).state == RunFrom(env, o.next, b).state
  {
    hide Step, Run, RunFrom, Feed, Progresses, Engine, IsRequest;
    RequestLineTurn(env, l, a, b);
    RequestLineTurn(env, l, a, []);
    assert l + a + [] == l + a && a + [] == a && a[|a|..] == [] && (a + b)[|a|..] == b && [] + b == b;
    Turn(env, Asked(l, a), a + b);
    Turn(env, Asked(l, a), a);
    var next := Step(env, Asked(l, a), a).next;
    NothingYet(env, next);
    Turn(env, next, []);
    ReceiveShort(env, l + a + b, []);
    ReceiveShort(env, l + a, b);
  }

  lemma NothingYet(env: Env, s: State)
    requires s.phase.ReadHttpRequest? || s.phase.ReadFrameLength?
    ensures Step(env, s, []).Wait?
  {
  }

  lemma GoShape(env: Env, s: State, h: Headers, used: nat)
    requires s.phase.ReadHttpHeaders?
    ensures var o := AfterHeaders(env, s, h, used);
            && (o.Go? || o.Stop?) && (o.Go? ==> o.used == used && (o.next.phase.ReadHttpRequest? || o.next.phase.ReadFrameLength?))
  {
  }

  /**
   * Everything that a connection reports is the same for every application, whether what follows
   * the first request arrives with it or later, if and only if the headers of this request are
   * local. For headers that are read up to their blank line.
   */
  lemma ReportsExactly(l: seq<byte>, a: seq<byte>)
    requires IsRequest(l, a) && Consumed(a[2..]) == |a| - 2
    ensures (forall env: Env, b: seq<byte> ::
               Receive(env, Initial, [l + a + b]).state.trace == Receive(env, Initial, [l + a, b]).state.trace)
        <==> IsLocal(NoRequest, a[2..])
  {
    hide Left, IsLocal, Step, IsRequest, Receive, SameReports, Consumed;
    RequestKnown(l, a);
    if IsLocal(NoRequest, a[2..]) {
      forall env: Env, b: seq<byte>
        ensures Receive(env, Initial, [l + a + b]).state.trace == Receive(env, Initial, [l + a, b]).state.trace
      {
        LocalGoesOn(env, l, a, b);
      }
    } else if SameReports(Left(NoRequest, a[2..])) {
      var env, b := LaterDiffers(l, a);
      assert Receive(env, Initial, [l + a + b]).state.trace != Receive(env, Initial, [l + a, b]).state.trace;
    } else {
      var env := EndDiffers(Asked(l, a), a);
      WholeAndCut(env, l, a, Telling());
      assert Receive(env, Initial, [l + a + Telling()]).state.trace != Receive(env, Initial, [l + a, Telling()]).state.trace;
    }
  }

  lemma LocalGoesOn(env: Env, l: seq<byte>, a: seq<byte>, b: seq<byte>)
    requires IsRequest(l, a) && Consumed(a[2..]) == |a| - 2 && IsLocal(NoRequest, a[2..])
    ensures Receive(env, Initial, [l + a + b]).state == Receive(env, Initial, [l + a, b]).state
  {
    hide Left, IsLocal, Step, IsRequest, Receive, RunFrom, Reading, AfterHeaders, Consumed;
    RequestKnown(l, a);
    var s := Asked(l, a);
    TurnIsLocal(env, s, a, b);
    BothReports(env, s, a, b);
    AllConsumed(env, s, a);
    var x := Reading(env.strtol, s.request, a[2..]);
    GoShape(env, s, Headers(x.0, x.1, x.1), |a|);
    if Step(env, s, a).Go? {
      GoesOn(env, l, a, b);
    } else {
      WholeAndCut(env, l, a, b);
    }
  }

  /** The request is reported the same, but leaves other fields behind: a further one shows them. */
  lemma LaterDiffers(l: seq<byte>, a: seq<byte>) returns (env: Env, b: seq<byte>)
    requires IsRequest(l, a) && Consumed(a[2..]) == |a| - 2
    requires !IsLocal(NoRequest, a[2..]) && SameReports(Left(NoRequest, a[2..]))
    ensures Receive(env, Initial, [l + a + b]).state.trace != Receive(env, Initial, [l + a, b]).state.trace
  {
    hide Left, Step, IsRequest, Receive, RunFrom, Reading, Further, CString, Consumed;
    RequestKnown(l, a);
    var s, o := Asked(l, a), Left(NoRequest, a[2..]);
    env := Keen();
    b := Further(o.key.None?);
    FurtherIsCString(o.key.None?);
    KeptFields(env, s, a, b);
    GoesOn(env, l, a, b);
    var n, n' := Step(env, s, a).next, Step(env, s, a + b).next;
    FurtherRun(env, n, o.key.None?);
    FurtherRun(env, n', o.key.None?);
    var t, t' := RunFrom(env, n, b).state.trace, RunFrom(env, n', b).state.trace;
    assert |t| == |t'| == 3 && t[2] != t'[2];
  }

  lemma FurtherIsCString(withKey: bool)
    ensures CString(Further(withKey)) != []
  {
    hide UpgradeHeaders;
    var s := Further(withKey);
    assert s[0] == 71;
    assert Until(s, 0, 0, |s|) > 0;
  }

  /** The fields that a request which is no upgrade leaves behind, without and with more input. */
  lemma KeptFields(env: Env, s: State, a: seq<byte>, b: seq<byte>)
    requires IsKeen(env) && env.strtol == Length && s.phase.ReadHttpHeaders? && s.trace == [] && JustComplete(a)
    requires Consumed(a[2..]) == |a| - 2 && CString(b) != []
    requires !IsLocal(s.request, a[2..]) && SameReports(Left(s.request, a[2..]))
    ensures var o, x, x' := Left(s.request, a[2..]), Step(env, s, a), Step(env, s, a + b);
            && x.Go? && x'.Go? && x.used == |a| && x'.used == |a|
            && x.next.phase.ReadHttpRequest? && x'.next.phase.ReadHttpRequest?
            && |x.next.trace| == 1 && x'.next.trace == x.next.trace
            && (o.key.Some? ==> x.next.request.secKey.Some? && x'.next.request.secKey.Some?
                                && x.next.request.secKey != x'.next.request.secKey)
            && (o.key.None? ==> x.next.request.protocol != x'.next.request.protocol
                                || x.next.request.version != x'.next.request.version)
  {
    hide IsBlock, Reading, Left, Step, CString, HostOf, ContainsIgnoringCase, Consumed, JustComplete;
    BothReports(env, s, a, b);
    ReadingAgrees(env.strtol, s.request, a[2..], b);
    LengthTells(s.request, a[2..], b);
    AllConsumed(env, s, a);
  }
}
