/** What holds of every run of the web socket engine, and what a sender's frames turn into. */
module WsTheorems {
  import opened Bytes
  import opened Http
  import opened WsFrame
  import opened WsProtocol
  import opened Incremental
  import Utf8

  // ----- the invariant of every run -----

  predicate HttpOnly(t: seq<Event>) {
    forall i :: 0 <= i < |t| ==> t[i].HttpRequest? && !t[i].isWebsocket
  }

  /** The request that asked for the upgrade is number `k`, and only frames follow the upgrade. */
  predicate UpgradedAt(t: seq<Event>, k: nat) {
    && k + 1 < |t|
    && HttpOnly(t[..k])
    && t[k].HttpRequest? && t[k].isWebsocket
    && t[k + 1].Upgrade?
    && forall j :: k + 2 <= j < |t| ==> t[j].OnFrame?
  }

  ghost predicate Upgraded(t: seq<Event>) {
    exists k: nat :: UpgradedAt(t, k)
  }

  predicate EndsInRequest(t: seq<Event>) {
    t != [] && HttpOnly(t[..|t| - 1]) && t[|t| - 1].HttpRequest?
  }

  predicate InHttp(p: Phase) {
    p.ReadHttpRequest? || p.ReadHttpHeaders?
  }

  predicate InFrames(p: Phase) {
    p.ReadFrameLength? || p.ReadingFrame?
  }

  /** The callbacks made so far have the shape that the phase calls for. */
  ghost predicate Shaped(s: State) {
    if InHttp(s.phase) then HttpOnly(s.trace)
    else if InFrames(s.phase) then Upgraded(s.trace)
    else HttpOnly(s.trace) || EndsInRequest(s.trace) || Upgraded(s.trace)
  }

  /** The opcode of the message under way: that of the last frame reported, unless it was final. */
  function OpenMessage(t: seq<Event>): byte {
    if t != [] && t[|t| - 1].OnFrame? && !t[|t| - 1].isFin then t[|t| - 1].opcode else 0
  }

  predicate Messages(s: State) {
    && s.continued in {0, OPCODE_TEXT, OPCODE_BINARY}
    && (!s.phase.Error? ==> s.continued == OpenMessage(s.trace))
    && (!s.phase.Error? && s.continued == 0 ==> s.data == [])
    && (s.phase.Closed? ==> s.continued == 0)
  }

  /** While a frame is awaited its length is known, and it is the length of that frame. */
  predicate LengthKnown(s: State, input: seq<byte>) {
    s.phase.ReadingFrame? ==> FrameLength(s.continued, input) == Total(s.frameLength)
  }

  ghost predicate Inv(s: State, input: seq<byte>) {
    Shaped(s) && Messages(s) && LengthKnown(s, input)
  }

  lemma InvExtend(s: State, a: seq<byte>, b: seq<byte>)
    requires Inv(s, a)
    ensures Inv(s, a + b)
  {
    hide FrameLength, Shaped, Messages;
    if s.phase.ReadingFrame? {
      FrameLengthExtend(s.continued, a, b);
    }
  }

  /** A frame whose length is known has an opcode that may come at this point of the message. */
  lemma KnownFrameFits(s: State, input: seq<byte>)
    requires s.phase.ReadingFrame? && LengthKnown(s, input) && Messages(s)
    requires ReadFrame(s.continued, s.frameLength, input).Frame?
    ensures var r := ReadFrame(s.continued, s.frameLength, input);
            && r.opcode != OPCODE_CONTINUATION
            && (!r.isFin ==> r.opcode in {OPCODE_TEXT, OPCODE_BINARY})
  {
  }

  lemma FrameKeepsMessages(env: Env, s: State, isFin: bool, opcode: byte, isMasking: bool, payload: seq<byte>, used: nat)
    requires s.phase.ReadingFrame? && Messages(s)
    requires opcode != OPCODE_CONTINUATION && (!isFin ==> opcode in {OPCODE_TEXT, OPCODE_BINARY})
    ensures Messages(AfterFrame(env, s, isFin, opcode, isMasking, payload, used).next)
  {
  }

  lemma FrameKeepsShape(env: Env, s: State, isFin: bool, opcode: byte, isMasking: bool, payload: seq<byte>, used: nat)
    requires s.phase.ReadingFrame? && Shaped(s)
    ensures Shaped(AfterFrame(env, s, isFin, opcode, isMasking, payload, used).next)
  {
    var t := AfterFrame(env, s, isFin, opcode, isMasking, payload, used).next.trace;
    var k: nat :| UpgradedAt(s.trace, k);
    assert t[..k] == s.trace[..k];
    assert UpgradedAt(t, k);
  }

  lemma HeadersKeepShape(env: Env, s: State, h: Headers, used: nat)
    requires s.phase.ReadHttpHeaders? && Shaped(s)
    ensures Shaped(AfterHeaders(env, s, h, used).next)
  {
    var t := AfterHeaders(env, s, h, used).next.trace;
    var k := |s.trace|;
    assert t[..k] == s.trace;
    if IsWebsocket(h) && |t| == k + 2 {
      assert UpgradedAt(t, k);
    }
  }

  lemma HeadersKeepMessages(env: Env, s: State, h: Headers, used: nat)
    requires s.phase.ReadHttpHeaders? && Messages(s) && Shaped(s)
    ensures Messages(AfterHeaders(env, s, h, used).next)
  {
  }

  lemma StepKeepsInv(env: Env, s: State, input: seq<byte>)
    requires Inv(s, input) && !Step(env, s, input).Wait?
    ensures var o := Step(env, s, input); o.used <= |input| && Inv(o.next, input[o.used..])
  {
    hide FrameLength, ReadFrame, AfterFrame, AfterHeaders, Shaped, Messages, Strnstr, ReadHeaders, Trio;
    StepProgresses(env, s, input);
    match s.phase
    case ReadHttpRequest => RequestKeepsInv(s, input);
    case ReadHttpHeaders =>
      var h := ReadHeaders(Applying(env.strtol), Headers(s.request, false, false), input[2..]);
      HeadersKeepInv(env, s, h.0, 2 + h.1, input);
    case ReadFrameLength => LengthKeepsInv(s, input);
    case ReadingFrame => FrameKeepsInv(env, s, input);
    case _ =>
  }

  lemma RequestKeepsInv(s: State, input: seq<byte>)
    requires s.phase.ReadHttpRequest? && Inv(s, input) && !RecvRequest(s, input).Wait?
    ensures Shaped(RecvRequest(s, input).next) && Messages(RecvRequest(s, input).next)
    ensures !RecvRequest(s, input).next.phase.ReadingFrame?
  {
    hide Strnstr, Trio;
  }

  lemma HeadersKeepInv(env: Env, s: State, h: Headers, used: nat, input: seq<byte>)
    requires s.phase.ReadHttpHeaders? && Inv(s, input)
    ensures var next := AfterHeaders(env, s, h, used).next;
            Shaped(next) && Messages(next) && !next.phase.ReadingFrame?
  {
    HeadersKeepShape(env, s, h, used);
    HeadersKeepMessages(env, s, h, used);
  }

  lemma LengthKeepsInv(s: State, input: seq<byte>)
    requires s.phase.ReadFrameLength? && Inv(s, input) && !RecvFrameLength(s, input).Wait?
    ensures var o := RecvFrameLength(s, input); o.used == 0 && Inv(o.next, input[0..])
  {
  }

  lemma FrameKeepsInv(env: Env, s: State, input: seq<byte>)
    requires s.phase.ReadingFrame? && Inv(s, input) && !RecvFrame(env, s, input).Wait?
    ensures var next := RecvFrame(env, s, input).next;
            Shaped(next) && Messages(next) && !next.phase.ReadingFrame?
  {
    hide FrameLength, ReadFrame;
    var r := ReadFrame(s.continued, s.frameLength, input);
    if r.Frame? {
      KnownFrameFits(s, input);
      FrameKeepsMessages(env, s, r.isFin, r.opcode, r.isMasking, r.payload, r.used);
      FrameKeepsShape(env, s, r.isFin, r.opcode, r.isMasking, r.payload, r.used);
    }
  }

  /** The shape does not depend on the messages. */
  lemma StepKeepsShape(env: Env, s: State, input: seq<byte>)
    requires Shaped(s) && !Step(env, s, input).Wait?
    ensures Shaped(Step(env, s, input).next)
  {
    hide FrameLength, ReadFrame, AfterFrame, AfterHeaders, Strnstr, ReadHeaders, Trio, HttpOnly, EndsInRequest, Upgraded;
    match s.phase
    case ReadHttpHeaders =>
      var h := ReadHeaders(Applying(env.strtol), Headers(s.request, false, false), input[2..]);
      HeadersKeepShape(env, s, h.0, 2 + h.1);
    case ReadingFrame =>
      var r := ReadFrame(s.continued, s.frameLength, input);
      if r.Frame? {
        FrameKeepsShape(env, s, r.isFin, r.opcode, r.isMasking, r.payload, r.used);
      }
    case _ =>
  }

  lemma {:induction false} RunKeepsInv(env: Env, s: State, input: seq<byte>)
    requires Inv(s, input)
    ensures var r := RunFrom(env, s, input); Inv(r.state, r.rest)
    decreases |input|, Rank(s)
  {
    hide Inv, Step;
    Turn(env, s, input);
    var o := Step(env, s, input);
    if !o.Wait? {
      StepKeepsInv(env, s, input);
      StepProgresses(env, s, input);
      if o.Go? {
        RunKeepsInv(env, o.next, input[o.used..]);
      }
    }
  }

  lemma {:induction false} FeedKeepsInv(env: Env, s: State, pending: seq<byte>, chunks: seq<seq<byte>>)
    requires Inv(s, pending)
    ensures var r := FeedFrom(env, s, pending, chunks); Inv(r.state, r.rest)
    decreases |chunks|
  {
    hide Inv, Run;
    if chunks != [] {
      InvExtend(s, pending, chunks[0]);
      RunKeepsInv(env, s, pending + chunks[0]);
      var r := RunFrom(env, s, pending + chunks[0]);
      if !r.stopped {
        FeedKeepsInv(env, r.state, r.rest, chunks[1..]);
      }
    }
  }

  /**
   * Over every run of a connection that only receives: at most one request asks for an upgrade,
   * it is the last request, and after the upgrade only frames are reported; `continued` is 0,
   * TEXT or BINARY, and it is the opcode of the last frame reported exactly when that frame was
   * not final. `WsSession` adds the sends, which share the field.
   */
  lemma EveryRun(env: Env, chunks: seq<seq<byte>>)
    ensures var s := Receive(env, Initial, chunks).state;
            && Shaped(s)
            && s.continued in {0, OPCODE_TEXT, OPCODE_BINARY}
            && (!s.phase.Error? ==> s.continued == OpenMessage(s.trace))
            && (!s.phase.Error? && s.continued == 0 ==> s.data == [])
  {
    hide FeedFrom, Shaped, LengthKnown;
    InitialInv();
    FeedKeepsInv(env, Initial, [], chunks);
  }

  lemma InitialInv()
    ensures Inv(Initial, [])
  {
  }

  /**
   * The length of the awaited frame is known; a fragment sent since it was read may have opened a
   * message, and cannot have closed one.
   */
  predicate LengthSeen(s: State, input: seq<byte>) {
    s.phase.ReadingFrame? ==>
      FrameLength(0, input) == Total(s.frameLength) || FrameLength(s.continued, input) == Total(s.frameLength)
  }

  /** Frames are read in full: the frame length never leads the reader past the input. */
  lemma NoPartialRead(s: State, input: seq<byte>)
    requires LengthSeen(s, input) && s.phase.ReadingFrame? && s.frameLength > 0 && |input| >= s.frameLength
    ensures !ReadFrame(s.continued, s.frameLength, input).Partial?
    ensures ReadFrame(s.continued, s.frameLength, input).Frame? ==>
              ReadFrame(s.continued, s.frameLength, input).used == s.frameLength
  {
    hide FromBigEndian, Masked, BadFirst;
    var b := input[1];
    if Extended(b) == 0 {
      SmallModulo(HeaderLength(b) + Short(b));
    } else {
      assert 2 + Extended(b) <= |input|;
    }
  }

  /**
   * A frame whose header and payload come to exactly 2^64 octets is never read: whatever follows,
   * the engine stays where it is and keeps all its input.
   */
  lemma WrappedFrameWaits(env: Env, s: State, input: seq<byte>, more: seq<byte>)
    requires s.phase.ReadFrameLength? && |input| >= 10
    requires input[1] % 128 == 127 && !Rejected(s.continued, input[0], input[1])
    requires 10 + (if input[1] >= 128 then 4 else 0) + FromBigEndian(input[2..10]) == 0x1_0000_0000_0000_0000
    ensures RunFrom(env, s, input + more) == Reached(s, input + more, false)
  {
    hide RunFrom, FromBigEndian, Rejected, FrameLength;
    var all := input + more;
    assert all[2..10] == input[2..10];
    WrappedLength(s.continued, all);
    Turn(env, s, all);
  }

  lemma SmallModulo(n: nat)
    requires n < 200
    ensures n % SIZE_MODULUS == n
  {
  }

  // ----- no way back -----

  predicate IsDone(p: Phase) {
    p.Closed? || p.Error?
  }

  lemma StepPhases(env: Env, s: State, input: seq<byte>)
    requires !Step(env, s, input).Wait?
    ensures var o := Step(env, s, input);
            && (o.Stop? <==> IsDone(o.next.phase))
            && (!InHttp(s.phase) ==> !InHttp(o.next.phase))
            && (IsDone(s.phase) ==> o == Stop(s, 0))
  {
    hide FrameLength, ReadFrame, Strnstr, Trio, ReadHeaders;
  }

  /** What makes the loop end. */
  lemma StepMeasure(env: Env, s: State, input: seq<byte>)
    ensures var o := Step(env, s, input);
            o.Go? ==> o.used <= |input| && (o.used > 0 || Rank(o.next) < Rank(s))
  {
    hide Step;
    StepProgresses(env, s, input);
  }

  lemma NothingToRead(env: Env, s: State)
    requires !IsDone(s.phase)
    ensures Step(env, s, []).Wait?
  {
  }

  /** A run stops exactly when it reaches CLOSED or ERROR, and never goes back to HTTP. */
  lemma {:induction false} RunPhases(env: Env, s: State, input: seq<byte>)
    ensures var r := RunFrom(env, s, input);
            && (r.stopped <==> IsDone(r.state.phase))
            && (!InHttp(s.phase) ==> !InHttp(r.state.phase))
            && (IsDone(s.phase) ==> r == Reached(s, input, true))
    decreases |input|, Rank(s)
  {
    hide Step, RunFrom, InHttp;
    Turn(env, s, input);
    var o := Step(env, s, input);
    if o.Wait? {
      WaitingIsNotDone(env, s, input);
    } else {
      StepPhases(env, s, input);
      StepProgresses(env, s, input);
      if o.Go? {
        RunPhases(env, o.next, input[o.used..]);
      } else {
        assert input[0..] == input;
      }
    }
  }

  lemma WaitingIsNotDone(env: Env, s: State, input: seq<byte>)
    requires Step(env, s, input).Wait?
    ensures !IsDone(s.phase)
  {
  }

  lemma {:induction false} FeedPhases(env: Env, s: State, pending: seq<byte>, chunks: seq<seq<byte>>)
    ensures var r := FeedFrom(env, s, pending, chunks);
            && (!InHttp(s.phase) ==> !InHttp(r.state.phase))
            && (IsDone(s.phase) ==> r.state == s)
            && (r.stopped <==> chunks != [] && IsDone(r.state.phase))
    decreases |chunks|
  {
    hide Step, RunFrom, FeedFrom, InHttp;
    FeedTurn(env, s, pending, chunks);
    if chunks != [] {
      var input := pending + chunks[0];
      RunPhases(env, s, input);
      var r := RunFrom(env, s, input);
      if !r.stopped {
        FeedPhases(env, r.state, r.rest, chunks[1..]);
        FeedTurn(env, r.state, r.rest, chunks[1..]);
      }
    }
  }

  /**
   * No HTTP state is reachable after the upgrade, CLOSED and ERROR are never left, and input is
   * refused exactly in these two.
   */
  lemma NoWayBack(env: Env, s: State, chunks: seq<seq<byte>>)
    ensures var r := Receive(env, s, chunks);
            && (!InHttp(s.phase) ==> !InHttp(r.state.phase))
            && (IsDone(s.phase) ==> r.state == s)
            && (r.stopped <==> chunks != [] && IsDone(r.state.phase))
  {
    hide InHttp, FeedFrom;
    FeedPhases(env, s, [], chunks);
  }

  // ----- from a sender's frames to the receiver's callbacks -----

  /** A frame to send; the key is absent when the frame is not masked. */
  datatype Outgoing = Outgoing(opcode: byte, key: Option<Key>, payload: seq<byte>)

  predicate IsMasked(key: Option<Key>) {
    key.Some? && IsNonzero(key.value)
  }

  /** An application that accepts every callback and keeps unfinished messages. */
  ghost predicate Obliging(env: Env) {
    forall t :: !env.reply(t).fails && env.reply(t).shouldKeep
  }

  predicate BetweenMessages(s: State) {
    s.phase.ReadFrameLength? && s.frameLength == 0 && s.continued == 0 && s.data == []
  }

  /** The point where a frame of `n` octets is about to be read. */
  function Awaiting(s: State, n: nat): State {
    s.(phase := ReadingFrame, frameLength := n)
  }

  lemma FrameSteps(env: Env, s: State, isFin: bool, wire: byte, key: Option<Key>, payload: seq<byte>, rest: seq<byte>)
    requires s.phase.ReadFrameLength? && s.frameLength == 0
    requires Fits(s.continued, isFin, wire) && |payload| < SIZE_MODULUS / 2
    requires IsControl(wire) ==> |payload| <= 125
    requires Reported(s.continued, wire) == OPCODE_TEXT ==> Utf8.Accepts(payload)
    ensures var bytes := Encode(isFin, wire, key, payload);
            && Step(env, s, bytes + rest) == Go(Awaiting(s, |bytes|), 0)
            && Step(env, Awaiting(s, |bytes|), bytes + rest) ==
               AfterFrame(env, s, isFin, Reported(s.continued, wire), IsMasked(key), payload, |bytes|)
  {
    hide FrameLength, ReadFrame, Encode, Fits, Reported, Utf8.Accepts, IsMasked, IsControl;
    var bytes := Encode(isFin, wire, key, payload);
    EncodeLength(isFin, wire, key, payload);
    LengthRoundTrip(s.continued, isFin, wire, key, payload, rest);
    FrameRoundTrip(s.continued, isFin, wire, key, payload, rest);
    MaskedFlag(key);
  }

  lemma MaskedFlag(key: Option<Key>)
    ensures IsMasked(key) == (key.Some? && IsNonzero(key.value))
  {
  }

  lemma AfterFrameUses(env: Env, s: State, isFin: bool, opcode: byte, isMasking: bool, payload: seq<byte>, used: nat)
    ensures var o := AfterFrame(env, s, isFin, opcode, isMasking, payload, used); !o.Wait? && o.used == used
  {
  }

  /** One frame on the wire takes the receiver through one call of `on_frame`. */
  lemma FrameArrives(env: Env, s: State, isFin: bool, wire: byte, key: Option<Key>, payload: seq<byte>, rest: seq<byte>)
    requires s.phase.ReadFrameLength? && s.frameLength == 0
    requires Fits(s.continued, isFin, wire) && |payload| < SIZE_MODULUS / 2
    requires IsControl(wire) ==> |payload| <= 125
    requires Reported(s.continued, wire) == OPCODE_TEXT ==> Utf8.Accepts(payload)
    ensures var bytes := Encode(isFin, wire, key, payload);
            var o := AfterFrame(env, s, isFin, Reported(s.continued, wire), IsMasked(key), payload, |bytes|);
            && !o.Wait? && o.used == |bytes|
            && RunFrom(env, s, bytes + rest) ==
               if o.Stop? then Reached(o.next, rest, true) else RunFrom(env, o.next, rest)
  {
    hide RunFrom, Step, Engine, AfterFrame, Encode, Fits, Reported, Utf8.Accepts, IsMasked, IsControl, Awaiting;
    var bytes := Encode(isFin, wire, key, payload);
    var input := bytes + rest;
    AfterFrameUses(env, s, isFin, Reported(s.continued, wire), IsMasked(key), payload, |bytes|);
    FrameSteps(env, s, isFin, wire, key, payload, rest);
    Turn(env, s, input);
    assert input[0..] == input;
    Turn(env, Awaiting(s, |bytes|), input);
    assert input[|bytes|..] == rest;
  }

  /** Frames that `ws_send_frame` accepts one after the other, each final and none a continuation. */
  predicate Sendable(sentClose: bool, frames: seq<Outgoing>)
    decreases |frames|
  {
    frames == [] ||
    var f := frames[0];
    && f.opcode != OPCODE_CONTINUATION
    && |f.payload| < SIZE_MODULUS / 2
    && WireOpcode(0, sentClose, true, f.opcode, f.payload).Some?
    && Sendable(sentClose || f.opcode == OPCODE_CLOSE, frames[1..])
  }

  /** What the sender writes for them. */
  function Wire(frames: seq<Outgoing>): seq<byte> {
    if frames == [] then []
    else
      var f := frames[0];
      match WireOpcode(0, false, true, f.opcode, f.payload)
      case None => []
      case Some(wire) => Encode(true, wire, f.key, f.payload) + Wire(frames[1..])
  }

  function Delivered(frames: seq<Outgoing>): seq<Event> {
    if frames == [] then []
    else [OnFrame(true, frames[0].opcode, IsMasked(frames[0].key), frames[0].payload)] + Delivered(frames[1..])
  }

  predicate HasClose(frames: seq<Outgoing>) {
    frames != [] && (frames[0].opcode == OPCODE_CLOSE || HasClose(frames[1..]))
  }

  /**
   * Any sequence of final frames that the sender accepts arrives as the same sequence of opcodes
   * and payloads, with nothing left unread, and the connection is closed if and only if the last
   * of them is a close frame.
   */
  lemma {:induction false} FramesArrive(env: Env, s: State, frames: seq<Outgoing>)
    requires Obliging(env)
    requires BetweenMessages(s) && Sendable(false, frames)
    ensures var r := RunFrom(env, s, Wire(frames));
            && r.state.trace == s.trace + Delivered(frames)
            && r.rest == [] && r.stopped == HasClose(frames)
            && r.state.continued == 0 && r.state.data == []
            && (if HasClose(frames) then r.state.phase.Closed? else BetweenMessages(r.state))
    decreases |frames|
  {
    hide RunFrom, Encode, Utf8.Accepts, AfterFrame, WireOpcode, Obliging, IsMasked, Fits, IsControl, Reported, Delivered;
    if frames == [] {
      WaitsForFrame(env, s);
      Turn(env, s, []);
      NoneDelivered(s.trace);
    } else {
      var f, others := frames[0], frames[1..];
      AcceptedFinal(f.opcode, f.payload);
      var bytes := Encode(true, f.opcode, f.key, f.payload);
      FrameArrives(env, s, true, f.opcode, f.key, f.payload, Wire(others));
      FinalFrame(env, s, f.opcode, IsMasked(f.key), f.payload, |bytes|);
      var next := AfterFrame(env, s, true, f.opcode, IsMasked(f.key), f.payload, |bytes|).next;
      NextDelivered(s.trace, frames);
      if f.opcode == OPCODE_CLOSE {
        NothingAfterClose(others);
      } else {
        FramesArrive(env, next, others);
      }
    }
  }

  lemma NoneDelivered(t: seq<Event>)
    ensures t + Delivered([]) == t
  {
  }

  lemma NextDelivered(t: seq<Event>, frames: seq<Outgoing>)
    requires frames != []
    ensures var f, others := frames[0], frames[1..];
            var t' := t + [OnFrame(true, f.opcode, IsMasked(f.key), f.payload)];
            && t + Delivered(frames) == t' + Delivered(others)
            && (others == [] ==> t' + Delivered(others) == t')
  {
    hide IsMasked;
    var f := frames[0];
    var e := [OnFrame(true, f.opcode, IsMasked(f.key), f.payload)];
    assert Delivered(frames) == e + Delivered(frames[1..]);
    assert t + (e + Delivered(frames[1..])) == (t + e) + Delivered(frames[1..]);
  }

  lemma WaitsForFrame(env: Env, s: State)
    requires s.phase.ReadFrameLength?
    ensures Step(env, s, []).Wait?
  {
  }

  /** A final frame that is accepted outside a message goes out under its own opcode. */
  lemma AcceptedFinal(opcode: byte, payload: seq<byte>)
    requires opcode != OPCODE_CONTINUATION
    requires WireOpcode(0, false, true, opcode, payload).Some?
    ensures WireOpcode(0, false, true, opcode, payload) == Some(opcode)
    ensures Fits(0, true, opcode) && Reported(0, opcode) == opcode
    ensures IsControl(opcode) ==> |payload| <= 125
    ensures opcode == OPCODE_TEXT ==> Utf8.Accepts(payload)
  {
  }

  /** What a final frame does between messages. */
  lemma FinalFrame(env: Env, s: State, opcode: byte, isMasking: bool, payload: seq<byte>, used: nat)
    requires Obliging(env) && BetweenMessages(s)
    ensures var o := AfterFrame(env, s, true, opcode, isMasking, payload, used);
            && o == (if opcode == OPCODE_CLOSE then Stop(o.next, used) else Go(o.next, used))
            && o.next.trace == s.trace + [OnFrame(true, opcode, isMasking, payload)]
            && o.next.continued == 0 && o.next.data == []
            && (if opcode == OPCODE_CLOSE then o.next.phase.Closed? else BetweenMessages(o.next))
  {
    assert [] + payload == payload;
  }

  lemma NothingAfterClose(frames: seq<Outgoing>)
    requires Sendable(true, frames)
    ensures frames == []
  {
  }

  /** Past the handshake no header is read, so every run is safe. */
  lemma {:induction false} SafePastHttp(env: Env, s: State, input: seq<byte>)
    requires Progresses(Engine(env)) && !InHttp(s.phase)
    ensures SafeRun(Engine(env), s, input)
    decreases |input|, Rank(s)
  {
    hide Step, Progresses;
    StepProgresses(env, s, input);
    var o := Step(env, s, input);
    if o.Go? {
      StepPhases(env, s, input);
      SafePastHttp(env, o.next, input[o.used..]);
    }
  }

  /** Past the handshake a stream has the same effect in whatever chunks it arrives. */
  lemma AnyCut(env: Env, s: State, chunks: seq<seq<byte>>)
    requires s.phase.ReadFrameLength?
    ensures var whole, fed := RunFrom(env, s, Concat(chunks)), Receive(env, s, chunks);
            && fed.state == whole.state && fed.stopped == whole.stopped
            && (!whole.stopped ==> fed.rest == whole.rest)
  {
    hide Run, Engine, Step, Progresses;
    EngineProgresses(env);
    EngineIsMonotone(env);
    SafePastHttp(env, s, Concat(chunks));
    WaitsForFrame(env, s);
    EngineStep(env, s, []);
    assert [] + Concat(chunks) == Concat(chunks);
    ChunkingIrrelevant(Engine(env), s, [], chunks);
  }

  /** The same in whatever chunks the sender's octets arrive. */
  lemma FramesArriveInAnyCut(env: Env, s: State, frames: seq<Outgoing>, chunks: seq<seq<byte>>)
    requires Obliging(env) && BetweenMessages(s) && Sendable(false, frames)
    requires Concat(chunks) == Wire(frames)
    ensures var r := Receive(env, s, chunks);
            && r.state.trace == s.trace + Delivered(frames)
            && r.stopped == HasClose(frames)
            && (!HasClose(frames) ==> r.rest == [] && BetweenMessages(r.state))
  {
    hide RunFrom, Wire, Sendable, Delivered, Obliging, Receive;
    AnyCut(env, s, chunks);
    FramesArrive(env, s, frames);
  }

  lemma EngineStep(env: Env, s: State, input: seq<byte>)
    ensures Engine(env).step(s, input) == Step(env, s, input)
  {
  }

  // ----- fragmented messages -----

  datatype Piece = Piece(key: Option<Key>, payload: seq<byte>)

  /** The sender's frames for a message in pieces: `ws_send_frame` is called with `opcode` each time. */
  function WirePieces(opcode: byte, isFirst: bool, pieces: seq<Piece>): seq<byte> {
    if pieces == [] then []
    else
      var p, isFin := pieces[0], |pieces| == 1;
      match WireOpcode(if isFirst then 0 else opcode, false, isFin, opcode, p.payload)
      case None => []
      case Some(wire) => Encode(isFin, wire, p.key, p.payload) + WirePieces(opcode, false, pieces[1..])
  }

  function Payloads(pieces: seq<Piece>): seq<byte> {
    if pieces == [] then [] else pieces[0].payload + Payloads(pieces[1..])
  }

  /** What `on_frame` is told: each time everything received so far. */
  function PieceEvents(opcode: byte, data: seq<byte>, pieces: seq<Piece>): (t: seq<Event>)
    ensures |t| == |pieces|
    decreases |pieces|
  {
    if pieces == [] then []
    else
      var all := data + pieces[0].payload;
      [OnFrame(|pieces| == 1, opcode, IsMasked(pieces[0].key), all)] + PieceEvents(opcode, all, pieces[1..])
  }

  /** Each piece passes the receiver's check on its own. */
  predicate PiecesPass(opcode: byte, pieces: seq<Piece>) {
    forall i :: 0 <= i < |pieces| ==>
      |pieces[i].payload| < SIZE_MODULUS / 2 && (opcode == OPCODE_TEXT ==> Utf8.Accepts(pieces[i].payload))
  }

  predicate WithinMessage(s: State, isFirst: bool, opcode: byte) {
    && s.phase.ReadFrameLength? && s.frameLength == 0
    && s.continued == (if isFirst then 0 else opcode)
    && (isFirst ==> s.data == [])
  }

  predicate IsData(opcode: byte) {
    opcode == OPCODE_TEXT || opcode == OPCODE_BINARY
  }

  lemma PieceWire(opcode: byte, isFirst: bool, isFin: bool, payload: seq<byte>)
    requires IsData(opcode) && (opcode == OPCODE_TEXT ==> Utf8.Accepts(payload))
    ensures var continued, wire := if isFirst then 0 else opcode, if isFirst then opcode else OPCODE_CONTINUATION;
            && WireOpcode(continued, false, isFin, opcode, payload) == Some(wire)
            && Fits(continued, isFin, wire) && !IsControl(wire)
            && Reported(continued, wire) == opcode
  {
  }

  /** What one piece does to the receiver. */
  lemma PieceStep(env: Env, s: State, isFirst: bool, isFin: bool, opcode: byte, isMasking: bool, payload: seq<byte>, used: nat)
    requires Obliging(env) && IsData(opcode) && WithinMessage(s, isFirst, opcode)
    ensures var o := AfterFrame(env, s, isFin, opcode, isMasking, payload, used);
            && o.Go?
            && o.next.trace == s.trace + [OnFrame(isFin, opcode, isMasking, s.data + payload)]
            && (if isFin then BetweenMessages(o.next)
                else WithinMessage(o.next, false, opcode) && o.next.data == s.data + payload)
  {
  }

  /** From the middle of a message: every remaining piece is reported with all that came before it. */
  lemma {:induction false} PiecesArrive(env: Env, s: State, isFirst: bool, opcode: byte, pieces: seq<Piece>, rest: seq<byte>)
    returns (s': State)
    requires Obliging(env)
    requires IsData(opcode) && pieces != [] && PiecesPass(opcode, pieces) && WithinMessage(s, isFirst, opcode)
    ensures RunFrom(env, s, WirePieces(opcode, isFirst, pieces) + rest) == RunFrom(env, s', rest)
    ensures BetweenMessages(s') && s'.trace == s.trace + PieceEvents(opcode, s.data, pieces)
    decreases |pieces|
  {
    hide RunFrom, Encode, Utf8.Accepts, AfterFrame, WireOpcode, Obliging, IsMasked, Fits, IsControl, Reported,
      BetweenMessages, WithinMessage, PieceEvents;
    var p, isFin := pieces[0], |pieces| == 1;
    var wire := if isFirst then opcode else OPCODE_CONTINUATION;
    MiddleOf(s, isFirst, opcode);
    PieceWire(opcode, isFirst, isFin, p.payload);
    var bytes, others := Encode(isFin, wire, p.key, p.payload), WirePieces(opcode, false, pieces[1..]);
    assert WirePieces(opcode, isFirst, pieces) + rest == bytes + (others + rest);
    FrameArrives(env, s, isFin, wire, p.key, p.payload, others + rest);
    PieceStep(env, s, isFirst, isFin, opcode, IsMasked(p.key), p.payload, |bytes|);
    var next := AfterFrame(env, s, isFin, opcode, IsMasked(p.key), p.payload, |bytes|).next;
    if isFin {
      s' := next;
      assert others + rest == rest;
      NextPieceEvents(s.trace, opcode, s.data, pieces);
    } else {
      s' := PiecesArrive(env, next, false, opcode, pieces[1..], rest);
      NextPieceEvents(s.trace, opcode, s.data, pieces);
    }
  }

  lemma NextPieceEvents(t: seq<Event>, opcode: byte, data: seq<byte>, pieces: seq<Piece>)
    requires pieces != []
    ensures var all := data + pieces[0].payload;
            t + PieceEvents(opcode, data, pieces) ==
            t + [OnFrame(|pieces| == 1, opcode, IsMasked(pieces[0].key), all)] + PieceEvents(opcode, all, pieces[1..])
    ensures |pieces| == 1 ==>
            t + PieceEvents(opcode, data, pieces) ==
            t + [OnFrame(true, opcode, IsMasked(pieces[0].key), data + pieces[0].payload)]
  {
  }

  lemma MiddleOf(s: State, isFirst: bool, opcode: byte)
    requires WithinMessage(s, isFirst, opcode)
    ensures s.phase.ReadFrameLength? && s.frameLength == 0 && s.continued == if isFirst then 0 else opcode
  {
  }

  lemma {:induction false} LastPieceEvent(opcode: byte, data: seq<byte>, pieces: seq<Piece>)
    requires pieces != []
    ensures PieceEvents(opcode, data, pieces)[|pieces| - 1] ==
            OnFrame(true, opcode, IsMasked(pieces[|pieces| - 1].key), data + Payloads(pieces))
    decreases |pieces|
  {
    hide IsMasked;
    var all := data + pieces[0].payload;
    if |pieces| == 1 {
      assert Payloads(pieces) == pieces[0].payload + [];
    } else {
      LastPieceEvent(opcode, all, pieces[1..]);
      assert all + Payloads(pieces[1..]) == data + Payloads(pieces);
    }
  }

  /**
   * A message in any number of pieces, with no control frame between them, arriving in any cut,
   * is reported at its end with the opcode of its first piece and all the payloads in order, and
   * leaves the receiver between messages.
   */
  lemma FragmentsReassemble(env: Env, s: State, opcode: byte, pieces: seq<Piece>, chunks: seq<seq<byte>>)
    requires Obliging(env) && BetweenMessages(s)
    requires IsData(opcode) && pieces != [] && PiecesPass(opcode, pieces)
    requires Concat(chunks) == WirePieces(opcode, true, pieces)
    ensures var r := Receive(env, s, chunks);
            var n := |s.trace| + |pieces|;
            && !r.stopped && r.rest == [] && BetweenMessages(r.state)
            && s.trace <= r.state.trace && |r.state.trace| == n
            && r.state.trace[n - 1] == OnFrame(true, opcode, IsMasked(pieces[|pieces| - 1].key), Payloads(pieces))
            && forall i :: |s.trace| <= i < n - 1 ==> r.state.trace[i].OnFrame? && !r.state.trace[i].isFin
  {
    hide RunFrom, WirePieces, Obliging, IsMasked, PiecesPass, Receive, Step, PieceEvents, Payloads, Concat, BetweenMessages;
    assert s.phase.ReadFrameLength? by { BetweenIsReady(s); }
    AnyCut(env, s, chunks);
    var s' := WholeMessage(env, s, opcode, pieces);
    TraceOfMessage(s.trace, opcode, pieces);
  }

  lemma BetweenIsReady(s: State)
    requires BetweenMessages(s)
    ensures s.phase.ReadFrameLength? && s.data == [] && WithinMessage(s, true, 0)
    ensures forall opcode: byte :: WithinMessage(s, true, opcode)
  {
  }

  lemma WholeMessage(env: Env, s: State, opcode: byte, pieces: seq<Piece>) returns (s': State)
    requires Obliging(env) && BetweenMessages(s)
    requires IsData(opcode) && pieces != [] && PiecesPass(opcode, pieces)
    ensures RunFrom(env, s, WirePieces(opcode, true, pieces)) == Reached(s', [], false)
    ensures BetweenMessages(s') && s'.trace == s.trace + PieceEvents(opcode, [], pieces)
  {
    hide RunFrom, WirePieces, Obliging, PiecesPass, Step, PieceEvents, BetweenMessages, WithinMessage;
    BetweenIsReady(s);
    s' := PiecesArrive(env, s, true, opcode, pieces, []);
    assert WirePieces(opcode, true, pieces) + [] == WirePieces(opcode, true, pieces);
    BetweenIsReady(s');
    WaitsForFrame(env, s');
    Turn(env, s', []);
  }

  lemma TraceOfMessage(t: seq<Event>, opcode: byte, pieces: seq<Piece>)
    requires pieces != []
    ensures var t', n := t + PieceEvents(opcode, [], pieces), |t| + |pieces|;
            && t <= t' && |t'| == n
            && t'[n - 1] == OnFrame(true, opcode, IsMasked(pieces[|pieces| - 1].key), Payloads(pieces))
            && forall i :: |t| <= i < n - 1 ==> t'[i].OnFrame? && !t'[i].isFin
  {
    hide PieceEvents, Payloads, IsMasked;
    LastPieceEvent(opcode, [], pieces);
    assert [] + Payloads(pieces) == Payloads(pieces);
    EarlierPieceEvents(opcode, [], pieces);
  }

  lemma {:induction false} EarlierPieceEvents(opcode: byte, data: seq<byte>, pieces: seq<Piece>)
    ensures forall i :: 0 <= i < |pieces| - 1 ==>
              PieceEvents(opcode, data, pieces)[i].OnFrame? && !PieceEvents(opcode, data, pieces)[i].isFin
    decreases |pieces|
  {
    if |pieces| > 1 {
      EarlierPieceEvents(opcode, data + pieces[0].payload, pieces[1..]);
    }
  }

  /**
   * A control frame between two pieces, which section 5.4 of RFC 6455 allows, loses the message:
   * the data received so far is dropped, and the next piece is rejected.
   */
  lemma ControlFrameBreaksMessage(env: Env, s: State, opcode: byte, control: byte, isMasking: bool, payload: seq<byte>,
                                  used: nat, piece: Piece, isFin: bool, rest: seq<byte>)
    requires Obliging(env) && IsData(opcode) && WithinMessage(s, false, opcode)
    requires control == OPCODE_PING || control == OPCODE_PONG
    ensures var o := AfterFrame(env, s, true, control, isMasking, payload, used);
            var input := Encode(isFin, OPCODE_CONTINUATION, piece.key, piece.payload) + rest;
            && o.Go? && o.next.data == [] && o.next.continued == 0
            && Step(env, o.next, input) == Stop(o.next.(phase := Error), 0)
  {
    var input := Encode(isFin, OPCODE_CONTINUATION, piece.key, piece.payload) + rest;
    Layout(isFin, OPCODE_CONTINUATION, piece.key, piece.payload, rest);
    hide Encode, Prefix;
    FirstOctetReadBack(0, isFin, OPCODE_CONTINUATION);
    EncodeLength(isFin, OPCODE_CONTINUATION, piece.key, piece.payload);
  }

  /**
   * A data frame that is accepted while `continued_opcode` has some value is readable for a peer
   * between messages if and only if that value is 0.
   */
  lemma ReadableByField(continued: byte, isFin: bool, opcode: byte, key: Option<Key>, payload: seq<byte>, rest: seq<byte>)
    requires continued == 0 || IsData(continued)
    requires IsData(opcode) && |payload| < SIZE_MODULUS / 2
    requires WireOpcode(continued, false, isFin, opcode, payload).Some?
    ensures var wire := WireOpcode(continued, false, isFin, opcode, payload).value;
            FrameLength(0, Encode(isFin, wire, key, payload) + rest).Total? <==> continued == 0
  {
    var wire := WireOpcode(continued, false, isFin, opcode, payload).value;
    EncodeLength(isFin, wire, key, payload);
    if continued == 0 {
      LengthRoundTrip(0, isFin, wire, key, payload, rest);
    } else {
      Layout(isFin, wire, key, payload, rest);
      FirstOctetReadBack(0, isFin, wire);
    }
  }
}
