/**
 * The receiving side of the web socket engine as a state machine (src/websocket.c:648-791):
 * one function per handler, and the loop as a `Machine`.
 */
module WsProtocol {
  import opened Bytes
  import opened Http
  import opened HttpOverrun
  import opened WsFrame
  import opened Incremental

  datatype Phase = ReadHttpRequest | ReadHttpHeaders | ReadFrameLength | ReadingFrame | Closed | Error

  /** The callbacks, in the order they are made. */
  datatype Event =
    | HttpRequest(verb: Option<seq<byte>>, resource: Option<seq<byte>>, httpVersion: Option<seq<byte>>,
                  host: Option<seq<byte>>, isWebsocket: bool)
    | Upgrade(target: Option<seq<byte>>, protocol: Option<seq<byte>>, version: int, secKey: seq<byte>)
    | OnFrame(isFin: bool, opcode: byte, isMasking: bool, payload: seq<byte>)

  /** A callback's answer. */
  datatype Reply = Reply(fails: bool, keepAlive: bool, shouldKeep: bool)

  /** The application, which answers each callback by the events so far, and `strtol`. */
  datatype Env = Env(reply: seq<Event> -> Reply, strtol: seq<byte> -> int)

  /** `frameLength` is meaningful while a frame is being read, and zero otherwise. */
  datatype State = State(
    phase: Phase,
    request: Request,
    frameLength: nat,
    continued: byte,
    data: seq<byte>,
    trace: seq<Event>)

  const NoRequest: Request := Request(None, None, None, None, None, 0, None)
  const Initial: State := State(ReadHttpRequest, NoRequest, 0, 0, [], [])

  function RecvRequest(s: State, input: seq<byte>): Outcome<State> {
    match Strnstr(input, CRLF)
    case None => Wait
    case Some(end) =>
      var trio := Trio(input, end);
      var s' := s.(request := s.request.(verb := trio.0, resource := trio.1, httpVersion := trio.2));
      if trio.2.None? then Stop(s'.(phase := Error), end)
      else Go(s'.(phase := ReadHttpHeaders), end)
  }

  /** What happens once the headers are read. */
  function AfterHeaders(env: Env, s: State, h: Headers, used: nat): Outcome<State> {
    var r := h.request;
    var t1 := s.trace + [HttpRequest(r.verb, r.resource, r.httpVersion, r.reqHost, IsWebsocket(h))];
    var s1 := s.(request := r, trace := t1);
    if env.reply(t1).fails then Stop(s1.(phase := Error), used)
    else if !IsWebsocket(h) then
      if env.reply(t1).keepAlive then Go(s1.(phase := ReadHttpRequest), used)
      else Stop(s1.(phase := Closed), used)
    else
      var t2 := t1 + [Upgrade(r.resource, r.protocol, r.version, r.secKey.value)];
      var s2 := s1.(trace := t2);
      if env.reply(t2).fails then Stop(s2.(phase := Error), used)
      else Go(s2.(phase := ReadFrameLength), used)
  }

  function RecvHeaders(env: Env, s: State, input: seq<byte>): Outcome<State> {
    if Strnstr(input, CRLFCRLF).None? then Wait
    else
      var (h, used) := ReadHeaders(Applying(env.strtol), Headers(s.request, false, false), input[2..]);
      AfterHeaders(env, s, h, 2 + used)
  }

  function RecvFrameLength(s: State, input: seq<byte>): Outcome<State> {
    match FrameLength(s.continued, input)
    case Bad => Stop(s.(phase := Error), 0)
    case Need(_) => Wait
    case Total(length) =>
      if length == 0 then Wait else Go(s.(phase := ReadingFrame, frameLength := length), 0)
  }

  /** What happens once a frame is read: `used` octets are consumed. */
  function AfterFrame(env: Env, s: State, isFin: bool, opcode: byte, isMasking: bool, payload: seq<byte>, used: nat)
    : Outcome<State>
  {
    var data := s.data + payload;
    var trace := s.trace + [OnFrame(isFin, opcode, isMasking, data)];
    var r := env.reply(trace);
    var s1 := s.(frameLength := 0, data := data, trace := trace);
    if r.fails then Stop(s1.(phase := Error), used)
    else
      var s2 := s1.(data := if isFin || !r.shouldKeep then [] else data,
                    continued := if isFin then 0
                                 else if opcode != OPCODE_CONTINUATION then opcode else s.continued);
      if opcode == OPCODE_CLOSE then Stop(s2.(phase := Closed), used)
      else Go(s2.(phase := ReadFrameLength), used)
  }

  function RecvFrame(env: Env, s: State, input: seq<byte>): Outcome<State> {
    if s.frameLength == 0 || |input| < s.frameLength then Wait
    else
      match ReadFrame(s.continued, s.frameLength, input)
      case Partial => Wait
      case Overrun => Stop(s.(phase := Error, frameLength := 0), 0)
      case BadText(used) => Stop(s.(phase := Error, frameLength := 0), used)
      case Frame(isFin, opcode, isMasking, payload, used) =>
        AfterFrame(env, s, isFin, opcode, isMasking, payload, used)
  }

  function Step(env: Env, s: State, input: seq<byte>): Outcome<State> {
    match s.phase
    case ReadHttpRequest => RecvRequest(s, input)
    case ReadHttpHeaders => RecvHeaders(env, s, input)
    case ReadFrameLength => RecvFrameLength(s, input)
    case ReadingFrame => RecvFrame(env, s, input)
    case Closed => Stop(s, 0)
    case Error => Stop(s, 0)
  }

  function Rank(s: State): nat {
    if s.phase.ReadFrameLength? then 1 else 0
  }

  /** The block of headers that is about to be read, once it is there, reads the same whatever follows. */
  predicate HeadersLocal(s: State, input: seq<byte>) {
    s.phase.ReadHttpHeaders? && Strnstr(input, CRLFCRLF).Some? ==> IsLocal(s.request, HeaderBlock(input))
  }

  /** The header lines up to the first blank one. */
  function HeaderBlock(input: seq<byte>): seq<byte>
    requires Strnstr(input, CRLFCRLF).Some?
  {
    input[2..Strnstr(input, CRLFCRLF).value + 4]
  }

  /** Besides, the unread input starts with the line end that `ws_read_http_request` leaves. */
  predicate HeadersReady(s: State, input: seq<byte>) {
    HeadersLocal(s, input) &&
    (s.phase.ReadHttpHeaders? && Strnstr(input, CRLFCRLF).Some? ==> input[..2] == CRLF)
  }

  function Engine(env: Env): Machine<State> {
    Machine((s, input) => Step(env, s, input), Rank, HeadersReady)
  }

  // ----- progress -----

  lemma StepProgresses(env: Env, s: State, input: seq<byte>)
    ensures ProgressesAt(Engine(env), s, input)
  {
    hide Strnstr, ReadHeaders, Trio, ReadFrame, FrameLength;
  }

  lemma EngineProgresses(env: Env)
    ensures Progresses(Engine(env))
  {
    forall s, input ensures ProgressesAt(Engine(env), s, input) {
      StepProgresses(env, s, input);
    }
  }

  /** The receive loop of the engine on `input`. */
  ghost function RunFrom(env: Env, s: State, input: seq<byte>): (r: Reached<State>)
    ensures |r.rest| <= |input|
  {
    EngineProgresses(env);
    Run(Engine(env), s, input)
  }

  /** The engine fed with chunks, `pending` being unread at first. */
  ghost function FeedFrom(env: Env, s: State, pending: seq<byte>, chunks: seq<seq<byte>>): Reached<State> {
    EngineProgresses(env);
    Feed(Engine(env), s, pending, chunks)
  }

  /** The engine fed with chunks from `s` on, nothing being unread. */
  ghost function Receive(env: Env, s: State, chunks: seq<seq<byte>>): Reached<State> {
    FeedFrom(env, s, [], chunks)
  }

  /** One turn of the receive loop of the engine. */
  lemma Turn(env: Env, s: State, input: seq<byte>)
    ensures var o := Step(env, s, input);
            && (o.Wait? ==> RunFrom(env, s, input) == Reached(s, input, false))
            && (!o.Wait? ==> o.used <= |input|)
            && (o.Stop? ==> RunFrom(env, s, input) == Reached(o.next, input[o.used..], true))
            && (o.Go? ==> RunFrom(env, s, input) == RunFrom(env, o.next, input[o.used..]))
  {
    hide Step, Run, Progresses;
    EngineProgresses(env);
    RunTurn(Engine(env), s, input);
  }

  /** One chunk after the other. */
  lemma FeedTurn(env: Env, s: State, pending: seq<byte>, chunks: seq<seq<byte>>)
    ensures chunks == [] ==> FeedFrom(env, s, pending, chunks) == Reached(s, pending, false)
    ensures chunks != [] ==>
      var r := RunFrom(env, s, pending + chunks[0]);
      FeedFrom(env, s, pending, chunks) == if r.stopped then r else FeedFrom(env, r.state, r.rest, chunks[1..])
  {
    hide Run, Engine, Progresses;
  }

  // ----- more input changes nothing -----

  lemma RecvRequestExtend(s: State, a: seq<byte>, b: seq<byte>)
    requires !RecvRequest(s, a).Wait?
    ensures RecvRequest(s, a + b) == RecvRequest(s, a)
  {
    hide Strnstr, Trio;
    StrnstrExtend(a, b, CRLF);
    TrioExtend(a, b, Strnstr(a, CRLF).value);
  }

  /** The headers of a request whose input holds a blank line are terminated. */
  lemma HeadersAreTerminated(a: seq<byte>)
    requires Strnstr(a, CRLFCRLF).Some? && a[..2] == CRLF
    ensures Terminated(a[2..])
  {
    var p := Strnstr(a, CRLFCRLF).value;
    BlankLineWithin(a, p);
    assert a[0] == a[..2][0] && a[1] == a[..2][1];
    var rest := a[2..];
    if p == 0 {
      assert rest[0..2] == a[2..4];
    } else {
      var q: nat := p - 2;
      assert rest[q..q + 4] == a[p..p + 4];
      assert BlankLineAt(rest, q);
    }
  }

  lemma BlankLineWithin(a: seq<byte>, p: nat)
    requires FoundAt(a, CRLFCRLF, p)
    ensures BlankLineAt(a, p) && MatchAt(a, CRLF, p + 2) && a[p] == CR
  {
    var t := a[p..p + 4];
    assert a[p] == t[0] && a[p + 1] == t[1] && a[p + 2] == t[2] && a[p + 3] == t[3];
    assert a[p + 2..p + 4] == t[2..];
  }

  /** The block of headers at the start of the input, and what follows it. */
  lemma BlockOf(a: seq<byte>)
    requires Strnstr(a, CRLFCRLF).Some? && a[..2] == CRLF
    ensures var t, rest := HeaderBlock(a), a[Strnstr(a, CRLFCRLF).value + 4..];
            IsBlock(t) && a == CRLF + t + rest && a[2..] == t + rest
  {
    var p := Strnstr(a, CRLFCRLF).value;
    var head := a[..p + 4];
    BlankLineWithin(a, p);
    assert a == head + a[p + 4..];
    assert BlankLineAt(head, p) by {
      assert head[p..p + 4] == a[p..p + 4];
    }
    FirstIn(a, p);
    HeadersAreTerminated(head);
    assert NoNul(head[2..], |head| - 2);
    assert head == CRLF + head[2..];
  }

  lemma FirstIn(a: seq<byte>, p: nat)
    requires Strnstr(a, CRLFCRLF) == Some(p) && a[..2] == CRLF
    ensures p + 4 <= |a| && Strnstr(a[..p + 4], CRLFCRLF) == Some(p) && a[..p + 4][..2] == CRLF
  {
    var head := a[..p + 4];
    assert a == head + a[p + 4..];
    forall j: nat | j <= p ensures MatchAt(head, CRLFCRLF, j) == MatchAt(a, CRLFCRLF, j) {
      MatchAtExtend(head, a[p + 4..], CRLFCRLF, j);
    }
    StrnstrExact(head, CRLFCRLF, p);
  }

  /** The headers turn depends on what is read and on nothing else. */
  lemma HeadersTurn(env: Env, s: State, a: seq<byte>, a': seq<byte>)
    requires Strnstr(a, CRLFCRLF).Some? && Strnstr(a', CRLFCRLF).Some?
    requires Reading(env.strtol, s.request, a[2..]) == Reading(env.strtol, s.request, a'[2..])
    ensures RecvHeaders(env, s, a) == RecvHeaders(env, s, a')
  {
    hide ReadHeaders, Strnstr, IsWebsocket;
  }

  lemma RecvHeadersExtend(env: Env, s: State, a: seq<byte>, b: seq<byte>)
    requires !RecvHeaders(env, s, a).Wait?
    requires s.phase.ReadHttpHeaders? && HeadersReady(s, a + b)
    ensures RecvHeaders(env, s, a + b) == RecvHeaders(env, s, a)
  {
    hide Strnstr, ReadHeaders, AfterHeaders, IsBlock, IsLocal, Reading;
    StrnstrExtend(a, b, CRLFCRLF);
    assert a[..2] == (a + b)[..2];
    BlockOf(a);
    var p := Strnstr(a, CRLFCRLF).value;
    var t, rest := HeaderBlock(a), a[p + 4..];
    assert HeaderBlock(a + b) == t;
    assert (a + b)[2..] == t + (rest + b);
    LocalIsRead(env.strtol, s.request, t, rest);
    LocalIsRead(env.strtol, s.request, t, rest + b);
    HeadersTurn(env, s, a + b, a);
  }

  lemma FrameLengthExtend(continued: byte, a: seq<byte>, b: seq<byte>)
    requires !FrameLength(continued, a).Need?
    ensures FrameLength(continued, a + b) == FrameLength(continued, a)
  {
    hide BadFirst, FromBigEndian;
    assert (a + b)[0] == a[0] && (a + b)[1] == a[1];
    var n := Extended(a[1]);
    if |a| >= 2 + n {
      assert (a + b)[2..2 + n] == a[2..2 + n];
    }
  }

  lemma KeyExtend(a: seq<byte>, b: seq<byte>)
    requires |a| >= 2 && |a| >= 2 + Extended(a[1]) + 4
    ensures KeyOf(a + b) == KeyOf(a)
  {
  }

  lemma ReadFrameExtend(continued: byte, length: nat, a: seq<byte>, b: seq<byte>)
    requires !ReadFrame(continued, length, a).Partial?
    ensures ReadFrame(continued, length, a + b) == ReadFrame(continued, length, a)
  {
    hide Masked, KeyOf;
    assert (a + b)[0] == a[0] && (a + b)[1] == a[1];
    var start, n := HeaderLength(a[1]), PayloadLength(length, a[1]);
    if n >= 0 {
      assert (a + b)[start..start + n] == a[start..start + n];
      if a[1] >= 128 {
        KeyExtend(a, b);
      }
    }
  }

  lemma StepExtend(env: Env, s: State, a: seq<byte>, b: seq<byte>)
    ensures MonotoneAt(Engine(env), s, a, b)
  {
    hide RecvRequest, RecvHeaders, HeadersReady, FrameLength, ReadFrame, AfterFrame;
    if !Step(env, s, a).Wait? && HeadersReady(s, a + b) {
      match s.phase
      case ReadHttpRequest => RecvRequestExtend(s, a, b);
      case ReadHttpHeaders => RecvHeadersExtend(env, s, a, b);
      case ReadFrameLength => FrameLengthExtend(s.continued, a, b);
      case ReadingFrame => ReadFrameExtend(s.continued, s.frameLength, a, b);
      case _ =>
    }
  }

  lemma EngineIsMonotone(env: Env)
    ensures Monotone(Engine(env))
  {
    forall s, a, b ensures MonotoneAt(Engine(env), s, a, b) {
      StepExtend(env, s, a, b);
    }
  }

  // ----- chunking -----

  /** Every block of headers in the stream, read in one piece from `s`, reads the same whatever follows. */
  ghost predicate LocalThroughout(env: Env, s: State, input: seq<byte>)
    decreases |input|, Rank(s)
  {
    StepProgresses(env, s, input);
    var o := Step(env, s, input);
    HeadersLocal(s, input) && (o.Go? ==> LocalThroughout(env, o.next, input[o.used..]))
  }

  /** The line end of the request line is still unread when the headers are awaited. */
  predicate LineEndKept(s: State, input: seq<byte>) {
    s.phase.ReadHttpHeaders? ==> |input| >= 2 && input[..2] == CRLF
  }

  lemma StepKeepsLineEnd(env: Env, s: State, input: seq<byte>)
    requires Step(env, s, input).Go?
    ensures var o := Step(env, s, input); o.used <= |input| && LineEndKept(o.next, input[o.used..])
  {
    hide Strnstr, ReadHeaders, Trio, ReadFrame, FrameLength;
    StepProgresses(env, s, input);
    if s.phase.ReadHttpRequest? {
      var end := Strnstr(input, CRLF).value;
      assert input[end..][..2] == input[end..end + 2];
    }
  }

  lemma {:induction false} LocalIsSafe(env: Env, s: State, input: seq<byte>)
    requires Progresses(Engine(env))
    requires LineEndKept(s, input) && LocalThroughout(env, s, input)
    ensures SafeRun(Engine(env), s, input)
    decreases |input|, Rank(s)
  {
    hide Step, HeadersLocal;
    StepProgresses(env, s, input);
    var o := Step(env, s, input);
    if o.Go? {
      StepKeepsLineEnd(env, s, input);
      LocalIsSafe(env, o.next, input[o.used..]);
    }
  }

  /**
   * However the stream of a new connection is cut into chunks, the callbacks made and the state
   * reached are the same, up to and including the first error, provided that every block of
   * headers is local; without an error the unread input is the same too.
   */
  lemma ChunkingIndependence(env: Env, one: seq<seq<byte>>, two: seq<seq<byte>>)
    requires Concat(one) == Concat(two) && LocalThroughout(env, Initial, Concat(one))
    ensures var a, b := Receive(env, Initial, one), Receive(env, Initial, two);
            a.state == b.state && a.stopped == b.stopped && (!a.stopped ==> a.rest == b.rest)
  {
    EngineProgresses(env);
    EngineIsMonotone(env);
    LocalIsSafe(env, Initial, Concat(one));
    AnyTwoCutsAgree(Engine(env), Initial, one, two);
  }
}
