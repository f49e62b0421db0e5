/** When the cut of a stream shows in the requests that are reported, and a stream for which it does. */
module WsOverrun {
  import opened Bytes
  import opened Http
  import opened HttpOverrun
  import opened WsProtocol
  import opened Incremental

  /** Headers that have just arrived in full: they start with a line end and end in the first blank line. */
  predicate JustComplete(a: seq<byte>) {
    |a| >= 4 && a[..2] == CRLF && Strnstr(a, CRLFCRLF) == Some(|a| - 4)
  }

  /** An application that ends the connection at its callback number `n`. */
  ghost predicate EndsAt(env: Env, n: nat) {
    forall t: seq<Event> :: |t| == n ==> env.reply(t).fails
  }

  const CurtReply: seq<Event> -> Reply := _ => Reply(true, false, false)

  lemma CompleteBlock(a: seq<byte>)
    requires JustComplete(a)
    ensures Strnstr(a, CRLFCRLF).Some? && HeaderBlock(a) == a[2..] && IsBlock(a[2..])
  {
    hide IsBlock, Strnstr;
    BlockOf(a);
  }

  /** The headers turn on a complete block, with and without more input. */
  lemma TurnIsLocal(env: Env, s: State, a: seq<byte>, b: seq<byte>)
    requires s.phase.ReadHttpHeaders? && JustComplete(a) && IsLocal(s.request, a[2..])
    ensures Step(env, s, a + b) == Step(env, s, a)
  {
    hide IsBlock, IsLocal, RecvHeaders, Strnstr, Reading;
    CompleteBlock(a);
    StrnstrExtend(a, b, CRLFCRLF);
    assert (a + b)[2..] == a[2..] + b;
    LocalIsRead(env.strtol, s.request, a[2..], b);
    HeadersTurn(env, s, a + b, a);
  }

  /** What a curt application makes of the headers. */
  lemma CurtTurn(env: Env, s: State, a: seq<byte>)
    requires EndsAt(env, |s.trace| + 1) && s.phase.ReadHttpHeaders? && Strnstr(a, CRLFCRLF).Some?
    ensures var (r, isWebsocket, used) := Reading(env.strtol, s.request, a[2..]);
            Step(env, s, a) ==
            Stop(s.(phase := Error, request := r,
                    trace := s.trace + [HttpRequest(r.verb, r.resource, r.httpVersion, r.reqHost, isWebsocket)]), 2 + used)
  {
    hide ReadHeaders, Strnstr, IsWebsocket;
    var (h, used) := ReadHeaders(Applying(env.strtol), Headers(s.request, false, false), a[2..]);
    var r := h.request;
    var e := HttpRequest(r.verb, r.resource, r.httpVersion, r.reqHost, IsWebsocket(h));
    assert env.reply(s.trace + [e]).fails;
  }

  /** Some input behind an open block makes a difference. */
  lemma TurnIsOpen(s: State, a: seq<byte>) returns (env: Env)
    requires s.phase.ReadHttpHeaders? && JustComplete(a) && !IsLocal(s.request, a[2..])
    ensures EndsAt(env, |s.trace| + 1)
    ensures var o, o' := Step(env, s, a), Step(env, s, a + Telling());
            o.Stop? && o'.Stop? && o.next != o'.next
  {
    hide IsBlock, IsLocal, Step, Strnstr, Reading, Telling;
    env := Env(CurtReply, Length);
    CompleteBlock(a);
    OpenShows(s.request, a[2..]);
    StrnstrExtend(a, Telling(), CRLFCRLF);
    assert (a + Telling())[2..] == a[2..] + Telling();
    CurtTurn(env, s, a);
    CurtTurn(env, s, a + Telling());
    var t1, t2 := Step(env, s, a).next.trace, Step(env, s, a + Telling()).next.trace;
    assert t1 == t2 ==> t1[|s.trace|] == t2[|s.trace|];
  }

  /**
   * The turn that reads a block of headers is the same whatever has arrived behind the block,
   * for every application, if and only if the block is local.
   */
  lemma HeadersExactlyLocal(s: State, a: seq<byte>)
    requires s.phase.ReadHttpHeaders? && JustComplete(a)
    ensures (forall env: Env, b: seq<byte> :: Step(env, s, a + b) == Step(env, s, a)) <==> IsLocal(s.request, a[2..])
  {
    hide IsLocal, Step, Telling;
    if IsLocal(s.request, a[2..]) {
      forall env: Env, b: seq<byte> ensures Step(env, s, a + b) == Step(env, s, a) {
        TurnIsLocal(env, s, a, b);
      }
    } else {
      var env := TurnIsOpen(s, a);
      assert Step(env, s, a + Telling()) != Step(env, s, a);
    }
  }

  // ----- from the start of a connection -----

  /** `l` is a request line, without its line end, in front of the headers `a`. */
  predicate IsRequest(l: seq<byte>, a: seq<byte>) {
    JustComplete(a) && Strnstr(l + a, CRLF) == Some(|l|) && Trio(l + a, |l|).2.Some?
  }

  /** The state of a new connection that has read its request line. */
  function Asked(l: seq<byte>, a: seq<byte>): State
    requires IsRequest(l, a)
  {
    var trio := Trio(l + a, |l|);
    Initial.(phase := ReadHttpHeaders,
             request := NoRequest.(verb := trio.0, resource := trio.1, httpVersion := trio.2))
  }

  lemma RequestLineTurn(env: Env, l: seq<byte>, a: seq<byte>, b: seq<byte>)
    requires IsRequest(l, a)
    ensures RunFrom(env, Initial, l + a + b) == RunFrom(env, Asked(l, a), a + b)
  {
    hide Strnstr, Trio, RunFrom;
    StrnstrExtend(l + a, b, CRLF);
    TrioExtend(l + a, b, |l|);
    Turn(env, Initial, l + a + b);
    assert (l + a + b)[|l|..] == a + b;
  }

  /** The first request of a connection, all at once and in two chunks. */
  lemma WholeAndCut(env: Env, l: seq<byte>, a: seq<byte>, b: seq<byte>)
    requires IsRequest(l, a)
    requires Step(env, Asked(l, a), a).Stop? && Step(env, Asked(l, a), a + b).Stop?
    ensures Receive(env, Initial, [l + a + b]).state == Step(env, Asked(l, a), a + b).next
    ensures Receive(env, Initial, [l + a, b]).state == Step(env, Asked(l, a), a).next
  {
    hide Step, Run, RunFrom, Feed, Progresses, Engine, IsRequest;
    RequestLineTurn(env, l, a, b);
    RequestLineTurn(env, l, a, []);
    assert l + a + [] == l + a && a + [] == a;
    Turn(env, Asked(l, a), a + b);
    Turn(env, Asked(l, a), a);
    ReceiveShort(env, l + a + b, []);
    ReceiveShort(env, l + a, b);
  }

  lemma ReceiveShort(env: Env, x: seq<byte>, y: seq<byte>)
    ensures var r := RunFrom(env, Initial, x);
            && Receive(env, Initial, [x]) == r
            && Receive(env, Initial, [x, y]) == if r.stopped then r else RunFrom(env, r.state, r.rest + y)
  {
    hide Run, Feed, Progresses, Engine;
    EngineProgresses(env);
    FeedShort(Engine(env), Initial, x, y);
  }

  /**
   * The first request of a connection, to an application that then ends it, leaves the same state,
   * fields that no callback shows included, whether what follows it arrives with it or later, if
   * and only if its headers are local. `WsReports` is about the callbacks alone.
   */
  lemma FirstStateExactly(l: seq<byte>, a: seq<byte>)
    requires IsRequest(l, a)
    ensures (forall env: Env, b: seq<byte> :: EndsAt(env, 1) ==>
               Receive(env, Initial, [l + a + b]).state == Receive(env, Initial, [l + a, b]).state)
        <==> IsLocal(NoRequest, a[2..])
  {
    hide IsLocal, Step, IsRequest, Telling, Receive, EndsAt;
    var s := Asked(l, a);
    RequestKnown(l, a);
    if IsLocal(NoRequest, a[2..]) {
      forall env: Env, b: seq<byte> | EndsAt(env, 1)
        ensures Receive(env, Initial, [l + a + b]).state == Receive(env, Initial, [l + a, b]).state
      {
        TurnIsLocal(env, s, a, b);
        CurtStops(env, s, a);
        WholeAndCut(env, l, a, b);
      }
    } else {
      var env := TurnIsOpen(s, a);
      WholeAndCut(env, l, a, Telling());
      assert Receive(env, Initial, [l + a + Telling()]).state != Receive(env, Initial, [l + a, Telling()]).state;
    }
  }

  lemma RequestKnown(l: seq<byte>, a: seq<byte>)
    requires IsRequest(l, a)
    ensures var s := Asked(l, a);
            && JustComplete(a) && s.phase.ReadHttpHeaders? && s.trace == []
            && Left(s.request, a[2..]) == Left(NoRequest, a[2..])
            && IsLocal(s.request, a[2..]) == IsLocal(NoRequest, a[2..])
  {
    hide OpenAfter, JustComplete, Strnstr, Trio;
  }

  lemma CurtStops(env: Env, s: State, a: seq<byte>)
    requires EndsAt(env, |s.trace| + 1) && s.phase.ReadHttpHeaders? && JustComplete(a)
    ensures Step(env, s, a).Stop?
  {
    CurtTurn(env, s, a);
  }

  // ----- a header line without a colon -----

  const BareLine: seq<byte> := [71, 32, 47, 32, 72]
  const AwaitingHeaders: State :=
    Initial.(phase := ReadHttpHeaders,
             request := NoRequest.(verb := Some([71]), resource := Some([47]), httpVersion := Some([72])))
  const BareHost: seq<byte> := [13, 10, 72, 111, 115, 116, 13, 10, 13, 10]

  /** The line `Host`, without a colon, takes what has arrived behind it for its value. */
  lemma BareHostOverruns(tail: seq<byte>)
    requires tail == [] || tail == [90]
    ensures Strnstr(BareHost + tail, CRLFCRLF) == Some(6)
    ensures ReadLine((BareHost + tail)[2..]) == Field(BareHost[2..6], [10, 13, 10] + tail, 6)
    ensures ReadLine((BareHost + tail)[2..][6..]).Blank?
  {
    var s := BareHost + tail;
    assert s[6..10] == CRLFCRLF;
    assert MatchAt(s, CRLFCRLF, 6);
    forall j: nat | j < 6 ensures !MatchAt(s, CRLFCRLF, j) {
      if j == 0 {
        assert s[0..4][2] == 72;
      } else if j <= 3 {
        assert s[j..j + 4][0] == s[j];
      } else {
        assert s[j..j + 4][0] == s[j];
      }
    }
    StrnstrExact(s, CRLFCRLF, 6);
    BareHostLine(tail);
    var t := s[2..][6..];
    assert t[0..2] == CRLF;
    StrnstrExact(t, CRLF, 0);
  }

  lemma BareHostLine(tail: seq<byte>)
    requires tail == [] || tail == [90]
    ensures ReadLine((BareHost + tail)[2..]) == Field(BareHost[2..6], [10, 13, 10] + tail, 6)
  {
    var s := (BareHost + tail)[2..];
    assert s == [72, 111, 115, 116, 13, 10, 13, 10] + tail;
    assert s[4..6] == CRLF;
    forall j: nat | j < 4 ensures !MatchAt(s, CRLF, j) {
      assert s[j..j + 2][0] == s[j];
    }
    StrnstrExact(s, CRLF, 4);
    assert Until(s, COLON, 4, 4) == 4 && Until(s, COLON, 3, 4) == 4 && Until(s, COLON, 2, 4) == 4;
    var t := s[5..];
    assert t == [10, 13, 10] + tail;
    UntilFindsNul(t, 0);
    assert s[..4] == BareHost[2..6];
  }

  lemma BareHostEvent(env: Env, tail: seq<byte>)
    requires tail == [] || tail == [90]
    ensures var o := Step(env, AwaitingHeaders, BareHost + tail);
            && !o.Wait? && o.used == 10 && o.next.phase != ReadHttpHeaders
            && o.next.trace == [HttpRequest(Some([71]), Some([47]), Some([72]), Some([10, 13, 10] + tail), false)]
  {
    hide ReadLine, Strnstr, CString;
    BareHostOverruns(tail);
    var s, val := BareHost + tail, [10, 13, 10] + tail;
    var h := Headers(AwaitingHeaders.request, false, false);
    var apply := Applying(env.strtol);
    HostHeader(env.strtol, h, val);
    var h' := apply(h, BareHost[2..6], val);
    assert ReadHeaders(apply, h', s[2..][6..]) == (h', 2);
    assert ReadHeaders(apply, h, s[2..]) == (h', 8);
  }

  lemma HostHeader(strtol: seq<byte> -> int, h: Headers, val: seq<byte>)
    requires val == [10, 13, 10] || val == [10, 13, 10, 90]
    ensures Effect(strtol, h, KindOf(BareHost[2..6]), val) == h.(request := h.request.(reqHost := Some(val)))
  {
    assert EqualsIgnoringCase(BareHost[2..6], Ascii("Host"));
    assert BeforeLastColon(val, 0) == val && BeforeLastColon(val, 1) == val && BeforeLastColon(val, 2) == val;
    assert BeforeLastColon(val, 3) == val && BeforeLastColon(val, |val|) == val;
  }

  /** One octet, or none, is no request line. */
  lemma NoRequestYet(env: Env, s: State, tail: seq<byte>)
    requires s.phase.ReadHttpRequest? && |tail| <= 1
    ensures Step(env, s, tail).Wait?
  {
  }

  lemma BareHostRun(env: Env, tail: seq<byte>)
    requires tail == [] || tail == [90]
    ensures var r := RunFrom(env, AwaitingHeaders, BareHost + tail);
            && r.state.trace == [HttpRequest(Some([71]), Some([47]), Some([72]), Some([10, 13, 10] + tail), false)]
            && (!r.stopped ==> r.state.phase.ReadHttpRequest? && r.rest == tail)
  {
    hide Step, RunFrom, BareHost, AwaitingHeaders;
    BareHostEvent(env, tail);
    Turn(env, AwaitingHeaders, BareHost + tail);
    BareHostGoesOn(env, tail);
    var next := Step(env, AwaitingHeaders, BareHost + tail).next;
    if next.phase.ReadHttpRequest? {
      NoRequestYet(env, next, tail);
      Turn(env, next, tail);
    }
  }

  lemma BareHostGoesOn(env: Env, tail: seq<byte>)
    requires tail == [] || tail == [90]
    ensures (BareHost + tail)[10..] == tail
    ensures var o := Step(env, AwaitingHeaders, BareHost + tail); o.Go? ==> o.next.phase.ReadHttpRequest?
  {
    hide ReadHeaders, Strnstr;
    BareHostEvent(env, tail);
  }

  /** The request `G / H` has been read. */
  function AfterBareLine(s: State): State {
    s.(phase := ReadHttpHeaders,
       request := s.request.(verb := Some([71]), resource := Some([47]), httpVersion := Some([72])))
  }

  lemma BareLineStep(s: State, rest: seq<byte>)
    requires |rest| >= 2 && rest[..2] == CRLF
    ensures RecvRequest(s, BareLine + rest) == Go(AfterBareLine(s), 5)
  {
    hide Trio, Search;
    var t := BareLine + rest;
    assert t[5..7] == rest[..2];
    forall j: nat | j < 5 ensures !MatchAt(t, CRLF, j) {
      assert t[j..j + 2][0] == t[j];
    }
    StrnstrExact(t, CRLF, 5);
    BareWords(t);
  }

  lemma BareLineTurn(env: Env, tail: seq<byte>)
    requires tail == [] || tail == [90]
    ensures RunFrom(env, Initial, BareLine + BareHost + tail) == RunFrom(env, AwaitingHeaders, BareHost + tail)
  {
    hide RunFrom, RecvRequest;
    var rest := BareHost + tail;
    assert BareLine + BareHost + tail == BareLine + rest && rest[..2] == CRLF;
    BareLineStep(Initial, rest);
    Turn(env, Initial, BareLine + rest);
    assert (BareLine + rest)[5..] == rest;
  }

  lemma BareWords(s: seq<byte>)
    requires |s| >= 5 && s[..5] == BareLine
    ensures Trio(s, 5) == (Some([71]), Some([47]), Some([72]))
  {
    assert s[0] == s[..5][0] && s[1] == s[..5][1] && s[2] == s[..5][2] && s[3] == s[..5][3] && s[4] == s[..5][4];
    assert Until(s, SPACE, 0, 5) == 1 && SkipSpaces(s, 1, 5) == 2;
    assert Until(s, SPACE, 2, 5) == 3 && SkipSpaces(s, 3, 5) == 4;
    assert Until(s, SPACE, 4, 5) == 5;
    assert s[0..1] == [71] && s[2..3] == [47] && s[4..5] == [72];
  }

  /** The run on the first chunk, and the octet that arrives later. */
  lemma BareHostInTwo(env: Env)
    ensures var r := RunFrom(env, AwaitingHeaders, BareHost);
            var fed := if r.stopped then r else RunFrom(env, r.state, r.rest + [90]);
            fed.state.trace == [HttpRequest(Some([71]), Some([47]), Some([72]), Some([10, 13, 10]), false)]
  {
    hide Step, RunFrom, BareHost, AwaitingHeaders;
    BareHostRun(env, []);
    assert BareHost + [] == BareHost && [10, 13, 10] + [] == [10, 13, 10];
    var r := RunFrom(env, AwaitingHeaders, BareHost);
    if !r.stopped {
      assert r.rest + [90] == [90];
      NoRequestYet(env, r.state, [90]);
      Turn(env, r.state, [90]);
    }
  }

  /**
   * The stream `G / H`, `Host`, a blank line and a `Z`, on a new connection: every application is
   * told of another host when the `Z` arrives with the rest than when it arrives later.
   */
  lemma ChunkingDependence(env: Env)
    ensures var whole, cut := [BareLine + BareHost + [90]], [BareLine + BareHost, [90]];
            && Concat(whole) == Concat(cut)
            && Receive(env, Initial, whole).state.trace ==
               [HttpRequest(Some([71]), Some([47]), Some([72]), Some([10, 13, 10, 90]), false)]
            && Receive(env, Initial, cut).state.trace ==
               [HttpRequest(Some([71]), Some([47]), Some([72]), Some([10, 13, 10]), false)]
  {
    hide RunFrom, Receive, Concat, BareHost, BareLine;
    BareWhole(env);
    BareCut(env);
    var x := BareLine + BareHost;
    TwoPieces(x, [90]);
  }

  lemma TwoPieces(x: seq<byte>, y: seq<byte>)
    ensures Concat([x + y]) == Concat([x, y])
  {
    assert [x + y][1..] == [] && [x, y][1..] == [y] && [y][1..] == [];
    assert Concat([y]) == y + [];
  }

  lemma BareWhole(env: Env)
    ensures Receive(env, Initial, [BareLine + BareHost + [90]]).state.trace ==
            [HttpRequest(Some([71]), Some([47]), Some([72]), Some([10, 13, 10, 90]), false)]
  {
    hide RunFrom, Receive, BareHost, BareLine, AwaitingHeaders;
    BareLineTurn(env, [90]);
    BareHostRun(env, [90]);
    ReceiveShort(env, BareLine + BareHost + [90], []);
    assert [10, 13, 10] + [90] == [10, 13, 10, 90];
  }

  lemma BareCut(env: Env)
    ensures Receive(env, Initial, [BareLine + BareHost, [90]]).state.trace ==
            [HttpRequest(Some([71]), Some([47]), Some([72]), Some([10, 13, 10]), false)]
  {
    hide RunFrom, Receive, BareHost, BareLine, AwaitingHeaders;
    BareLineTurn(env, []);
    assert BareLine + BareHost + [] == BareLine + BareHost && BareHost + [] == BareHost;
    BareHostInTwo(env);
    ReceiveShort(env, BareLine + BareHost, [90]);
  }
}
