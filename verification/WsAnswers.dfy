/**
 * What the answers of the application do to a connection, over every run, and what ends one that
 * gets bad input (src/websocket.c:665-791).
 */
module WsAnswers {
  import opened Bytes
  import opened Http
  import opened HttpLines
  import opened WsFrame
  import opened WsProtocol
  import opened WsTheorems
  import opened Incremental
  import Utf8

  /** The last callback ends the connection: a close frame, or a plain request that is not kept alive. */
  predicate Ends(env: Env, t: seq<Event>)
    requires t != []
  {
    match t[|t| - 1]
    case OnFrame(_, opcode, _, _) => opcode == 8
    case HttpRequest(_, _, _, _, isWebsocket) => !isWebsocket && !env.reply(t).keepAlive
    case Upgrade(_, _, _, _) => false
  }

  /** The data of a message under way: what the last callback had, if it was a fragment and the answer keeps it. */
  function Kept(env: Env, t: seq<Event>): seq<byte> {
    if t == [] then []
    else
      match t[|t| - 1]
      case OnFrame(isFin, _, _, payload) => if !isFin && env.reply(t).shouldKeep then payload else []
      case _ => []
  }

  /** A callback whose answer is a failure is the last one and leaves an error. */
  predicate FailureIsLast(env: Env, s: State) {
    forall k :: 0 < k <= |s.trace| && env.reply(s.trace[..k]).fails ==> k == |s.trace| && s.phase.Error?
  }

  /** The connection is closed behind the callback that ends it, and only there. */
  predicate EndIsLast(env: Env, s: State) {
    && (forall k :: 0 < k <= |s.trace| && Ends(env, s.trace[..k]) ==>
          k == |s.trace| && (s.phase.Closed? || env.reply(s.trace).fails))
    && (s.phase.Closed? ==> s.trace != [] && Ends(env, s.trace))
  }

  predicate Answered(env: Env, s: State) {
    && FailureIsLast(env, s) && EndIsLast(env, s)
    && (!s.phase.Error? ==> s.data == Kept(env, s.trace))
    && (s.phase.ReadHttpRequest? || s.phase.ReadHttpHeaders? ==> s.trace == [] || s.trace[|s.trace| - 1].HttpRequest?)
  }

  /** One more callback, made in a state that goes on. */
  lemma OneCallback(env: Env, s: State, s1: State, e: Event)
    requires Answered(env, s) && !s.phase.Error? && !s.phase.Closed? && s1.trace == s.trace + [e]
    requires env.reply(s1.trace).fails ==> s1.phase.Error?
    requires Ends(env, s1.trace) ==> s1.phase.Closed? || env.reply(s1.trace).fails
    requires s1.phase.Closed? ==> Ends(env, s1.trace)
    ensures FailureIsLast(env, s1) && EndIsLast(env, s1)
  {
    hide Ends;
    forall k | 0 < k <= |s.trace| ensures s1.trace[..k] == s.trace[..k] {
    }
    assert s1.trace[..|s1.trace|] == s1.trace;
  }

  lemma SameCallbacks(env: Env, s: State, s1: State)
    requires Answered(env, s) && !s.phase.Error? && !s.phase.Closed? && s1.trace == s.trace && !s1.phase.Closed?
    ensures FailureIsLast(env, s1) && EndIsLast(env, s1)
  {
    hide Ends;
    assert s.trace[..|s.trace|] == s.trace;
  }

  lemma FrameAnswers(env: Env, s: State, isFin: bool, opcode: byte, isMasking: bool, payload: seq<byte>, used: nat)
    requires Answered(env, s) && s.phase.ReadingFrame?
    ensures var s1 := AfterFrame(env, s, isFin, opcode, isMasking, payload, used).next;
            Answered(env, s1) && s1.trace == s.trace + [OnFrame(isFin, opcode, isMasking, Kept(env, s.trace) + payload)]
  {
    hide FailureIsLast, EndIsLast;
    var s1 := AfterFrame(env, s, isFin, opcode, isMasking, payload, used).next;
    OneCallback(env, s, s1, OnFrame(isFin, opcode, isMasking, Kept(env, s.trace) + payload));
  }

  lemma HeadersAnswer(env: Env, s: State, h: Headers, used: nat)
    requires Answered(env, s) && s.phase.ReadHttpHeaders?
    ensures Answered(env, AfterHeaders(env, s, h, used).next)
  {
    hide FailureIsLast, EndIsLast;
    var r := h.request;
    var e := HttpRequest(r.verb, r.resource, r.httpVersion, r.reqHost, IsWebsocket(h));
    var s1 := s.(request := r, trace := s.trace + [e]);
    var s2 := AfterHeaders(env, s, h, used).next;
    if env.reply(s1.trace).fails || !IsWebsocket(h) {
      OneCallback(env, s, s2, e);
    } else {
      OneCallback(env, s, s1, e);
      OneCallback(env, s1, s2, Upgrade(r.resource, r.protocol, r.version, r.secKey.value));
    }
  }

  lemma StepAnswers(env: Env, s: State, input: seq<byte>)
    requires Answered(env, s) && !Step(env, s, input).Wait?
    ensures Answered(env, Step(env, s, input).next)
  {
    hide FailureIsLast, EndIsLast, FrameLength, ReadFrame, AfterFrame, AfterHeaders, Strnstr, ReadHeaders, Trio;
    var s1 := Step(env, s, input).next;
    match s.phase
    case ReadHttpRequest => SameCallbacks(env, s, s1);
    case ReadHttpHeaders =>
      var h := ReadHeaders(Applying(env.strtol), Headers(s.request, false, false), input[2..]);
      HeadersAnswer(env, s, h.0, 2 + h.1);
    case ReadFrameLength => SameCallbacks(env, s, s1);
    case ReadingFrame =>
      var r := ReadFrame(s.continued, s.frameLength, input);
      if r.Frame? {
        FrameAnswers(env, s, r.isFin, r.opcode, r.isMasking, r.payload, r.used);
      } else {
        SameCallbacks(env, s, s1);
      }
    case _ =>
  }

  lemma {:induction false} RunAnswers(env: Env, s: State, input: seq<byte>)
    requires Answered(env, s)
    ensures Answered(env, RunFrom(env, s, input).state)
    decreases |input|, Rank(s)
  {
    hide Answered, Step;
    Turn(env, s, input);
    var o := Step(env, s, input);
    if !o.Wait? {
      StepAnswers(env, s, input);
      StepProgresses(env, s, input);
      if o.Go? {
        RunAnswers(env, o.next, input[o.used..]);
      }
    }
  }

  lemma {:induction false} FeedAnswers(env: Env, s: State, pending: seq<byte>, chunks: seq<seq<byte>>)
    requires Answered(env, s)
    ensures Answered(env, FeedFrom(env, s, pending, chunks).state)
    decreases |chunks|
  {
    hide Answered, RunFrom, FeedFrom;
    FeedTurn(env, s, pending, chunks);
    if chunks != [] {
      RunAnswers(env, s, pending + chunks[0]);
      var r := RunFrom(env, s, pending + chunks[0]);
      if !r.stopped {
        FeedAnswers(env, r.state, r.rest, chunks[1..]);
      }
    }
  }

  /**
   * Over every run: a callback that fails is the last one and leaves an error; the connection is
   * closed exactly behind a close frame or a plain request that is not kept alive; the data of a
   * message is kept from a fragment to the next exactly while the application asks for it.
   */
  lemma EveryAnswer(env: Env, chunks: seq<seq<byte>>)
    ensures var s := Receive(env, Initial, chunks).state;
            FailureIsLast(env, s) && EndIsLast(env, s) && (!s.phase.Error? ==> s.data == Kept(env, s.trace))
  {
    hide FeedFrom;
    FeedAnswers(env, Initial, [], chunks);
  }

  // ----- bad input -----

  /** A request line without three words is an error; it is taken, its line end is not. */
  lemma BadRequestEnds(env: Env, s: State, input: seq<byte>, end: nat)
    requires s.phase.ReadHttpRequest? && LineEndsAt(input, end) && !HasThreeWords(input, end)
    ensures var r := RunFrom(env, s, input);
            r.stopped && r.state.phase.Error? && r.state.trace == s.trace && r.rest == input[end..]
  {
    hide RunFrom, Trio, Strnstr, HasThreeWords;
    LineFound(input, end);
    VersionExactly(input, end);
    Turn(env, s, input);
  }

  /** A frame whose first octets are wrong is an error, and nothing of it is taken. */
  lemma RejectedFrameEnds(env: Env, s: State, input: seq<byte>)
    requires s.phase.ReadFrameLength? && |input| >= 2 && Rejected(s.continued, input[0], input[1])
    ensures RunFrom(env, s, input) == Reached(s.(phase := Error), input, true)
  {
    hide RunFrom, Rejected, FrameLength;
    ReadHeader(s.continued, input);
    Turn(env, s, input);
    assert input[0..] == input;
  }

  /** A text frame that no text starts with is an error; it is taken and not reported. */
  lemma InvalidTextEnds(env: Env, s: State, key: Option<Key>, payload: seq<byte>, rest: seq<byte>)
    requires BetweenMessages(s) && !Utf8.Accepts(payload) && |payload| < SIZE_MODULUS / 2
    ensures RunFrom(env, s, Encode(true, 1, key, payload) + rest) == Reached(s.(phase := Error), rest, true)
  {
    hide RunFrom, Utf8.Accepts, Encode, FrameLength, ReadFrame;
    var bytes := Encode(true, 1, key, payload);
    var input := bytes + rest;
    LengthRoundTrip(0, true, 1, key, payload, rest);
    InvalidRead(key, payload, rest);
    Turn(env, s, input);
    assert input[0..] == input && input[|bytes|..] == rest;
    Turn(env, Awaiting(s, |bytes|), input);
  }

  lemma InvalidRead(key: Option<Key>, payload: seq<byte>, rest: seq<byte>)
    requires !Utf8.Accepts(payload)
    ensures var bytes := Encode(true, 1, key, payload);
            |bytes| > 0 && ReadFrame(0, |bytes|, bytes + rest) == BadText(|bytes|)
  {
    hide Encode, Prefix, FirstOctet, SecondOctet, IsOpcode, IsControl, Masked, IsNonzero, Utf8.Accepts;
    Layout(true, 1, key, payload, rest);
    assert IsOpcode(1) by { OpcodeOfText(); }
    FirstOctetReadBack(0, true, 1);
    SecondOctetReadBack(key.Some?, |payload|);
    EncodeLength(true, 1, key, payload);
    if key.Some? {
      MaskedTwice(key.value, payload);
    }
  }

  lemma OpcodeOfText()
    ensures IsOpcode(1)
  {
  }
}
