/**
 * A connection that both receives and sends. The two directions share the field
 * `continued_opcode` (src/websocket.c:274, src/websocket.c:339, src/websocket.c:736-740).
 */
module WsSession {
  import opened Bytes
  import opened Http
  import opened WsFrame
  import opened WsProtocol
  import opened WsTheorems
  import opened Incremental
  import Utf8

  /** What happens to a connection: some input arrives, or `ws_send_frame` is called. */
  datatype Act =
    | Chunk(octets: seq<byte>)
    | Put(isFin: bool, opcode: byte, key: Option<Key>, payload: seq<byte>, accepted: bool)

  type Sending = a: Act | a.Put? witness Put(true, OPCODE_TEXT, None, [], true)

  /** What the two directions have done, in order: a callback made, or a frame sent. */
  datatype Deed = Heard(event: Event) | Said(isFin: bool, opcode: byte)

  /** One side of a connection, with its unread input, what it sent and all its deeds. */
  datatype Side = Side(state: State, rest: seq<byte>, sentClose: bool, sent: seq<seq<byte>>, log: seq<Deed>)

  const Start: Side := Side(Initial, [], false, [], [])

  function Deeds(t: seq<Event>): (log: seq<Deed>)
    ensures |log| == |t|
  {
    seq(|t|, i requires 0 <= i < |t| => Heard(t[i]))
  }

  /** The callbacks made between two states. */
  function Since(t: seq<Event>, t': seq<Event>): seq<Event> {
    if |t| <= |t'| then t'[|t|..] else []
  }

  /** `ws_send_frame` changes one field of the protocol state. */
  function AfterPut(s: State, isFin: bool, opcode: byte): State {
    s.(continued := if !isFin && s.continued == 0 then opcode else s.continued)
  }

  ghost function Do(env: Env, p: Side, act: Act): Side {
    match act
    case Chunk(octets) =>
      if octets == [] then p
      else
        var r := RunFrom(env, p.state, p.rest + octets);
        p.(state := r.state, rest := r.rest, log := p.log + Deeds(Since(p.state.trace, r.state.trace)))
    case Put(isFin, opcode, key, payload, accepted) =>
      match WireOpcode(p.state.continued, p.sentClose, isFin, opcode, payload)
      case None => p
      case Some(wire) =>
        Side(AfterPut(p.state, isFin, opcode), p.rest, accepted && opcode == OPCODE_CLOSE,
             p.sent + [Encode(isFin, wire, key, payload)], p.log + [Said(isFin, opcode)])
  }

  /** A connection through a sequence of acts in either direction. */
  ghost function Session(env: Env, acts: seq<Act>): Side
    decreases |acts|
  {
    if acts == [] then Start else Do(env, Session(env, acts[..|acts| - 1]), acts[|acts| - 1])
  }

  // ----- turn by turn -----

  /**
   * The same one turn of the receive loop at a time. A control frame that a callback sends, such
   * as the proxy's answers to ping and close, is a `Send` behind the turn that makes the callback:
   * sending it neither reads nor writes the field that the turn goes on to set.
   */
  datatype Move = Arrive(octets: seq<byte>) | Advance | Send(put: Sending)

  ghost function Make(env: Env, p: Side, move: Move): Side {
    match move
    case Arrive(octets) => p.(rest := p.rest + octets)
    case Advance =>
      var o := Step(env, p.state, p.rest);
      if o.Wait? || o.used > |p.rest| then p
      else p.(state := o.next, rest := p.rest[o.used..], log := p.log + Deeds(Since(p.state.trace, o.next.trace)))
    case Send(put) => Do(env, p, put)
  }

  /** A connection through a sequence of moves. */
  ghost function Play(env: Env, moves: seq<Move>): Side
    decreases |moves|
  {
    if moves == [] then Start else Make(env, Play(env, moves[..|moves| - 1]), moves[|moves| - 1])
  }

  // ----- the closing frame -----

  /** A close frame that `send_data` takes. */
  predicate Closes(move: Move) {
    && move.Send? && move.put.opcode == 8 && move.put.isFin && |move.put.payload| <= 125
    && move.put.accepted
  }

  lemma MakeCloses(env: Env, p: Side, move: Move)
    ensures Make(env, p, move).sentClose <==> p.sentClose || Closes(move)
    ensures p.sentClose ==> Make(env, p, move).sent == p.sent
    ensures p.sentClose && move.Send? ==> Make(env, p, move) == p
  {
    hide Step, Encode, Utf8.Accepts;
    if move.Send? {
      SentOpcode(p.state.continued, p.sentClose, move.put.isFin, move.put.opcode, move.put.payload);
    }
  }

  /** The engine knows that it has sent a close frame exactly when one has gone out. */
  lemma {:induction false} CloseSent(env: Env, moves: seq<Move>)
    ensures Play(env, moves).sentClose <==> exists i :: 0 <= i < |moves| && Closes(moves[i])
    decreases |moves|
  {
    hide Make, Closes;
    if moves != [] {
      var n := |moves| - 1;
      CloseSent(env, moves[..n]);
      MakeCloses(env, Play(env, moves[..n]), moves[n]);
      if i :| 0 <= i < n && Closes(moves[..n][i]) {
        assert Closes(moves[i]);
      }
    }
  }

  /** After that nothing is sent, and what is asked to be sent changes nothing. */
  lemma {:induction false} NothingAfterClose(env: Env, moves: seq<Move>, more: seq<Move>)
    requires exists i :: 0 <= i < |moves| && Closes(moves[i])
    ensures Play(env, moves + more).sent == Play(env, moves).sent
    ensures forall put :: Make(env, Play(env, moves + more), Send(put)) == Play(env, moves + more)
    decreases |more|
  {
    hide Make, Closes;
    CloseSent(env, moves);
    if more == [] {
      assert moves + more == moves;
    } else {
      var n := |more| - 1;
      NothingAfterClose(env, moves, more[..n]);
      assert (moves + more)[..|moves| + n] == moves + more[..n];
      StillClosed(env, moves, more[..n]);
      MakeCloses(env, Play(env, moves + more[..n]), more[n]);
    }
    StillClosed(env, moves, more);
    forall put ensures Make(env, Play(env, moves + more), Send(put)) == Play(env, moves + more) {
      MakeCloses(env, Play(env, moves + more), Send(put));
    }
  }

  lemma StillClosed(env: Env, moves: seq<Move>, more: seq<Move>)
    requires exists i :: 0 <= i < |moves| && Closes(moves[i])
    ensures Play(env, moves + more).sentClose
  {
    hide Closes;
    CloseSent(env, moves + more);
    var i :| 0 <= i < |moves| && Closes(moves[i]);
    assert (moves + more)[i] == moves[i];
  }

  // ----- what the shared field holds -----

  /**
   * The opcode that the last fragment of either direction left open: a final frame received closes
   * everything, a fragment opens its message, and final frames sent do nothing.
   */
  function Opened(log: seq<Deed>): byte {
    if log == [] then 0
    else
      match log[|log| - 1]
      case Heard(OnFrame(isFin, opcode, _, _)) => if isFin then 0 else opcode
      case Heard(_) => Opened(log[..|log| - 1])
      case Said(isFin, opcode) => if isFin then Opened(log[..|log| - 1]) else opcode
  }

  predicate IsContinued(c: byte) {
    c in {0, OPCODE_TEXT, OPCODE_BINARY}
  }

  /** The field is what the log says, and nothing is kept outside a message. */
  predicate Tracks(s: State, log: seq<Deed>) {
    && IsContinued(s.continued)
    && (!s.phase.Error? ==> s.continued == Opened(log))
    && (!s.phase.Error? && s.continued == 0 ==> s.data == [])
  }

  lemma OpenedAppend(log: seq<Deed>, d: Deed)
    ensures Opened(log + [d]) ==
            match d
            case Heard(OnFrame(isFin, opcode, _, _)) => if isFin then 0 else opcode
            case Heard(_) => Opened(log)
            case Said(isFin, opcode) => if isFin then Opened(log) else opcode
  {
    assert (log + [d])[..|log|] == log;
  }

  lemma OneDeed(t: seq<Event>, e: Event)
    ensures Deeds(Since(t, t + [e])) == [Heard(e)] && Deeds(Since(t, t)) == []
  {
    assert (t + [e])[|t|..] == [e];
    assert t[|t|..] == [];
  }

  lemma DeedsAppend(t: seq<Event>, t': seq<Event>, t'': seq<Event>)
    requires t <= t' <= t''
    ensures Deeds(Since(t, t')) + Deeds(Since(t', t'')) == Deeds(Since(t, t''))
  {
    assert t'[|t|..] + t''[|t'|..] == t''[|t|..];
  }

  /** A frame that is read and reported. */
  lemma FrameTracks(env: Env, s: State, isFin: bool, opcode: byte, isMasking: bool, payload: seq<byte>, used: nat, log: seq<Deed>)
    requires s.phase.ReadingFrame? && Tracks(s, log)
    requires opcode != OPCODE_CONTINUATION && (!isFin ==> IsContinued(opcode))
    ensures var n := AfterFrame(env, s, isFin, opcode, isMasking, payload, used).next;
            s.trace <= n.trace && Tracks(n, log + Deeds(Since(s.trace, n.trace))) && !n.phase.ReadingFrame?
  {
    var e := OnFrame(isFin, opcode, isMasking, s.data + payload);
    OneDeed(s.trace, e);
    OpenedAppend(log, Heard(e));
  }

  lemma FrameStepTracks(env: Env, s: State, input: seq<byte>, log: seq<Deed>)
    requires s.phase.ReadingFrame? && LengthSeen(s, input) && Tracks(s, log) && !RecvFrame(env, s, input).Wait?
    ensures var n := RecvFrame(env, s, input).next;
            s.trace <= n.trace && Tracks(n, log + Deeds(Since(s.trace, n.trace))) && !n.phase.ReadingFrame?
  {
    assert IsContinued(s.continued);
    hide AfterFrame, Tracks, Opened, Masked, Utf8.Accepts;
    var r := ReadFrame(s.continued, s.frameLength, input);
    if r.Frame? {
      SeenFrame(s, input);
      FrameTracks(env, s, r.isFin, r.opcode, r.isMasking, r.payload, r.used, log);
    } else {
      OneDeed(s.trace, OnFrame(true, 0, false, []));
      ErrorTracks(s, log);
    }
  }

  lemma ErrorTracks(s: State, log: seq<Deed>)
    requires Tracks(s, log)
    ensures Tracks(s.(phase := Error, frameLength := 0), log) && log + [] == log
  {
  }

  lemma SeenFrame(s: State, input: seq<byte>)
    requires s.phase.ReadingFrame? && LengthSeen(s, input) && IsContinued(s.continued)
    requires ReadFrame(s.continued, s.frameLength, input).Frame?
    ensures var r := ReadFrame(s.continued, s.frameLength, input);
            r.opcode != OPCODE_CONTINUATION && (!r.isFin ==> IsContinued(r.opcode))
  {
    hide Masked, Utf8.Accepts;
  }

  lemma HeadersTrack(env: Env, s: State, h: Headers, used: nat, log: seq<Deed>)
    requires s.phase.ReadHttpHeaders? && Tracks(s, log)
    ensures var n := AfterHeaders(env, s, h, used).next;
            s.trace <= n.trace && Tracks(n, log + Deeds(Since(s.trace, n.trace))) && !n.phase.ReadingFrame?
  {
    var r := h.request;
    var e := HttpRequest(r.verb, r.resource, r.httpVersion, r.reqHost, IsWebsocket(h));
    var t1 := s.trace + [e];
    OneDeed(s.trace, e);
    OpenedAppend(log, Heard(e));
    if IsWebsocket(h) {
      var e2 := Upgrade(r.resource, r.protocol, r.version, r.secKey.value);
      OneDeed(t1, e2);
      DeedsAppend(s.trace, t1, t1 + [e2]);
      OpenedAppend(log + [Heard(e)], Heard(e2));
      assert log + [Heard(e)] + [Heard(e2)] == log + ([Heard(e)] + [Heard(e2)]);
    }
  }

  /** A turn that makes no callback and changes nothing of a message. */
  lemma QuietTracks(s: State, n: State, log: seq<Deed>)
    requires Tracks(s, log) && !s.phase.Error?
    requires n.trace == s.trace && n.continued == s.continued && n.data == s.data
    ensures s.trace <= n.trace && Tracks(n, log + Deeds(Since(s.trace, n.trace)))
  {
    OneDeed(s.trace, OnFrame(true, 0, false, []));
    assert log + [] == log;
  }

  lemma LengthStepSeen(s: State, input: seq<byte>)
    requires RecvFrameLength(s, input).Go?
    ensures LengthSeen(RecvFrameLength(s, input).next, input)
  {
    hide FromBigEndian;
  }

  lemma StepTracks(env: Env, s: State, input: seq<byte>, log: seq<Deed>)
    requires LengthSeen(s, input) && Tracks(s, log) && !Step(env, s, input).Wait? && !s.phase.Error?
    ensures var o := Step(env, s, input);
            && o.used <= |input| && s.trace <= o.next.trace
            && Tracks(o.next, log + Deeds(Since(s.trace, o.next.trace)))
            && LengthSeen(o.next, input[o.used..])
  {
    hide Tracks, RecvFrame, AfterHeaders, ReadHeaders, Strnstr, Trio, FrameLength, IsOpcode, Deeds, Since;
    StepProgresses(env, s, input);
    var o := Step(env, s, input);
    match s.phase
    case ReadHttpRequest => QuietTracks(s, o.next, log);
    case ReadHttpHeaders =>
      var (h, used) := ReadHeaders(Applying(env.strtol), Headers(s.request, false, false), input[2..]);
      HeadersTrack(env, s, h, 2 + used, log);
    case ReadFrameLength =>
      QuietTracks(s, o.next, log);
      if o.Go? {
        LengthStepSeen(s, input);
        assert input[0..] == input;
      }
    case ReadingFrame => FrameStepTracks(env, s, input, log);
    case Closed => QuietTracks(s, o.next, log);
  }

  lemma {:induction false} RunTracks(env: Env, s: State, input: seq<byte>, log: seq<Deed>)
    requires LengthSeen(s, input) && Tracks(s, log)
    ensures var r := RunFrom(env, s, input);
            && s.trace <= r.state.trace
            && Tracks(r.state, log + Deeds(Since(s.trace, r.state.trace)))
            && LengthSeen(r.state, r.rest)
    decreases |input|, Rank(s)
  {
    hide Tracks, Step, Deeds, Since, LengthSeen, RunFrom;
    Turn(env, s, input);
    OneDeed(s.trace, OnFrame(true, 0, false, []));
    assert log + [] == log;
    if s.phase.Error? {
      ErrorStays(env, s, input);
    } else {
      var o := Step(env, s, input);
      if !o.Wait? {
        StepTracks(env, s, input, log);
        StepProgresses(env, s, input);
        if o.Go? {
          var log' := log + Deeds(Since(s.trace, o.next.trace));
          RunTracks(env, o.next, input[o.used..], log');
          var t := RunFrom(env, o.next, input[o.used..]).state.trace;
          DeedsAppend(s.trace, o.next.trace, t);
          assert log' + Deeds(Since(o.next.trace, t)) ==
                 log + (Deeds(Since(s.trace, o.next.trace)) + Deeds(Since(o.next.trace, t)));
        }
      }
    }
  }

  lemma ErrorStays(env: Env, s: State, input: seq<byte>)
    requires s.phase.Error?
    ensures Step(env, s, input) == Stop(s, 0) && LengthSeen(s, input[0..])
  {
  }

  lemma {:induction false} RunKeepsShape(env: Env, s: State, input: seq<byte>)
    requires Shaped(s)
    ensures Shaped(RunFrom(env, s, input).state)
    decreases |input|, Rank(s)
  {
    hide Shaped, Step, RunFrom;
    Turn(env, s, input);
    var o := Step(env, s, input);
    if !o.Wait? {
      StepKeepsShape(env, s, input);
      StepProgresses(env, s, input);
      if o.Go? {
        RunKeepsShape(env, o.next, input[o.used..]);
      }
    }
  }

  /** What holds of every connection: the shape of its callbacks, the field and the length of the awaited frame. */
  ghost predicate InStep(p: Side) {
    Shaped(p.state) && Tracks(p.state, p.log) && LengthSeen(p.state, p.rest)
  }

  lemma PutTracks(p: Side, isFin: bool, opcode: byte, payload: seq<byte>)
    requires InStep(p) && WireOpcode(p.state.continued, p.sentClose, isFin, opcode, payload).Some?
    ensures var s := AfterPut(p.state, isFin, opcode);
            Shaped(s) && Tracks(s, p.log + [Said(isFin, opcode)]) && LengthSeen(s, p.rest)
  {
    hide FrameLength;
    OpenedAppend(p.log, Said(isFin, opcode));
  }

  lemma SeenExtend(s: State, input: seq<byte>, b: seq<byte>)
    requires LengthSeen(s, input)
    ensures LengthSeen(s, input + b)
  {
    hide FrameLength;
    if s.phase.ReadingFrame? {
      FrameLengthExtend(if FrameLength(0, input) == Total(s.frameLength) then 0 else s.continued, input, b);
    }
  }

  lemma DoKeepsStep(env: Env, p: Side, act: Act)
    requires InStep(p)
    ensures InStep(Do(env, p, act))
  {
    hide Shaped, Tracks, LengthSeen, RunFrom, WireOpcode;
    match act
    case Chunk(octets) =>
      SeenExtend(p.state, p.rest, octets);
      RunTracks(env, p.state, p.rest + octets, p.log);
      RunKeepsShape(env, p.state, p.rest + octets);
    case Put(isFin, opcode, _, payload, _) =>
      if WireOpcode(p.state.continued, p.sentClose, isFin, opcode, payload).Some? {
        PutTracks(p, isFin, opcode, payload);
      }
  }

  /**
   * In every connection, however receiving and sending alternate: until an error
   * `continued_opcode` is what the last fragment of either direction opened; the callbacks keep
   * the shape they have in a connection that only receives, and an awaited frame has its length.
   */
  lemma {:induction false} FieldFollowsBoth(env: Env, acts: seq<Act>)
    ensures InStep(Session(env, acts))
    decreases |acts|
  {
    hide InStep, Do;
    if acts == [] {
      StartInStep();
    } else {
      FieldFollowsBoth(env, acts[..|acts| - 1]);
      DoKeepsStep(env, Session(env, acts[..|acts| - 1]), acts[|acts| - 1]);
    }
  }

  lemma TurnKeepsStep(env: Env, p: Side)
    requires InStep(p)
    ensures InStep(Make(env, p, Advance))
  {
    hide Shaped, Tracks, LengthSeen, Step;
    var o := Step(env, p.state, p.rest);
    if !o.Wait? {
      StepProgresses(env, p.state, p.rest);
      StepKeepsShape(env, p.state, p.rest);
      if p.state.phase.Error? {
        ErrorStays(env, p.state, p.rest);
        OneDeed(p.state.trace, OnFrame(true, 0, false, []));
        assert p.log + [] == p.log && p.rest[0..] == p.rest;
      } else {
        StepTracks(env, p.state, p.rest, p.log);
      }
    }
  }

  /** And in every connection in which sends come between any two turns as well. */
  lemma {:induction false} EveryMove(env: Env, moves: seq<Move>)
    ensures InStep(Play(env, moves))
    decreases |moves|
  {
    hide InStep, Make;
    if moves == [] {
      StartInStep();
    } else {
      EveryMove(env, moves[..|moves| - 1]);
      MakeKeepsStep(env, Play(env, moves[..|moves| - 1]), moves[|moves| - 1]);
    }
  }

  lemma MakeKeepsStep(env: Env, p: Side, move: Move)
    requires InStep(p)
    ensures InStep(Make(env, p, move))
  {
    hide Shaped, Tracks, LengthSeen, Do, Step;
    match move
    case Arrive(octets) => SeenExtend(p.state, p.rest, octets);
    case Advance => TurnKeepsStep(env, p);
    case Send(put) => DoKeepsStep(env, p, put);
  }

  lemma StartInStep()
    ensures InStep(Start)
  {
  }

  /**
   * A data frame that is accepted for sending is readable for a peer that is between messages, if
   * and only if no fragment of either direction has left a message open.
   */
  lemma AcceptedIsReadable(env: Env, moves: seq<Move>, isFin: bool, opcode: byte, key: Option<Key>, payload: seq<byte>,
                           rest: seq<byte>)
    requires IsData(opcode) && |payload| < SIZE_MODULUS / 2
    requires var p := Play(env, moves);
             !p.state.phase.Error? && WireOpcode(p.state.continued, p.sentClose, isFin, opcode, payload).Some?
    ensures var p := Play(env, moves);
            var wire := WireOpcode(p.state.continued, p.sentClose, isFin, opcode, payload).value;
            FrameLength(0, Encode(isFin, wire, key, payload) + rest).Total? <==> Opened(p.log) == 0
  {
    hide Play, FrameLength, Encode, LengthSeen, Utf8.Accepts;
    EveryMove(env, moves);
    var p := Play(env, moves);
    ReadableByField(p.state.continued, isFin, opcode, key, payload, rest);
  }

  // ----- a side that sends only final frames -----

  predicate SendsOnlyFinal(moves: seq<Move>) {
    forall i :: 0 <= i < |moves| && moves[i].Send? ==> moves[i].put.isFin
  }

  /** Such a side keeps everything that holds of every run that only receives. */
  lemma {:induction false} FinalSendsKeepInv(env: Env, moves: seq<Move>)
    requires SendsOnlyFinal(moves)
    ensures var p := Play(env, moves); Inv(p.state, p.rest)
    decreases |moves|
  {
    hide Inv, Step, Do;
    if moves == [] {
      StartInv();
    } else {
      var before, move := moves[..|moves| - 1], moves[|moves| - 1];
      FinalSendsKeepInv(env, before);
      var p := Play(env, before);
      match move
      case Arrive(octets) =>
        InvExtend(p.state, p.rest, octets);
      case Advance =>
        if !Step(env, p.state, p.rest).Wait? {
          StepKeepsInv(env, p.state, p.rest);
        }
      case Send(put) =>
        FinalChangesNothing(env, p, put);
    }
  }

  lemma FinalChangesNothing(env: Env, p: Side, put: Sending)
    requires put.isFin
    ensures Do(env, p, put).state == p.state && Do(env, p, put).rest == p.rest
  {
    hide WireOpcode, Encode;
  }

  lemma StartInv()
    ensures Inv(Start.state, Start.rest)
  {
  }

  /**
   * So what such a side sends is readable between messages if and only if the last frame that it
   * received was final: one that answers inside a fragmented message sends an unreadable frame.
   */
  lemma FinalIsReadable(env: Env, moves: seq<Move>, opcode: byte, key: Option<Key>, payload: seq<byte>, rest: seq<byte>)
    requires SendsOnlyFinal(moves) && IsData(opcode) && |payload| < SIZE_MODULUS / 2
    requires var p := Play(env, moves);
             !p.state.phase.Error? && WireOpcode(p.state.continued, p.sentClose, true, opcode, payload).Some?
    ensures var p := Play(env, moves);
            var wire := WireOpcode(p.state.continued, p.sentClose, true, opcode, payload).value;
            FrameLength(0, Encode(true, wire, key, payload) + rest).Total? <==> OpenMessage(p.state.trace) == 0
  {
    hide Play, FrameLength, Encode, Utf8.Accepts, Shaped, LengthKnown;
    FinalSendsKeepInv(env, moves);
    var p := Play(env, moves);
    ReadableByField(p.state.continued, true, opcode, key, payload, rest);
  }

  // ----- a chunk is made of turns -----

  lemma PlayOne(env: Env, moves: seq<Move>, move: Move)
    ensures Play(env, moves + [move]) == Make(env, Play(env, moves), move)
  {
    assert (moves + [move])[..|moves|] == moves;
  }

  /** The receive loop is a sequence of turns. */
  lemma {:induction false} RunIsTurns(env: Env, moves: seq<Move>) returns (more: seq<Move>)
    ensures var p, q := Play(env, moves), Play(env, more);
            && RunFrom(env, p.state, p.rest) == Reached(q.state, q.rest, RunFrom(env, p.state, p.rest).stopped)
            && p.state.trace <= q.state.trace && q.sent == p.sent && q.sentClose == p.sentClose
            && q.log == p.log + Deeds(Since(p.state.trace, q.state.trace))
    decreases |Play(env, moves).rest|, Rank(Play(env, moves).state)
  {
    hide Play, Step, RunFrom, Deeds, Since;
    var p := Play(env, moves);
    Turn(env, p.state, p.rest);
    OneDeed(p.state.trace, OnFrame(true, 0, false, []));
    assert p.log + [] == p.log;
    var o := Step(env, p.state, p.rest);
    if o.Wait? {
      return moves;
    }
    StepProgresses(env, p.state, p.rest);
    TraceGrows(env, p.state, p.rest);
    PlayOne(env, moves, Advance);
    more := moves + [Advance];
    var n := Play(env, more);
    if o.Go? {
      more := RunIsTurns(env, moves + [Advance]);
      var q := Play(env, more);
      DeedsAppend(p.state.trace, n.state.trace, q.state.trace);
      assert p.log + Deeds(Since(p.state.trace, n.state.trace)) + Deeds(Since(n.state.trace, q.state.trace)) ==
             p.log + (Deeds(Since(p.state.trace, n.state.trace)) + Deeds(Since(n.state.trace, q.state.trace)));
    }
  }

  lemma TraceGrows(env: Env, s: State, input: seq<byte>)
    requires !Step(env, s, input).Wait?
    ensures s.trace <= Step(env, s, input).next.trace
  {
    hide FrameLength, ReadFrame, Strnstr, Trio, ReadHeaders;
  }

  /** Every connection that receives chunks and sends between them is one of moves. */
  lemma {:induction false} SessionIsPlay(env: Env, acts: seq<Act>) returns (moves: seq<Move>)
    ensures Play(env, moves) == Session(env, acts)
    decreases |acts|
  {
    hide Play, Do, RunFrom;
    if acts == [] {
      moves := [];
      NoMoves(env);
    } else {
      var act := acts[|acts| - 1];
      moves := SessionIsPlay(env, acts[..|acts| - 1]);
      moves := ActIsMoves(env, moves, act);
    }
  }

  lemma NoMoves(env: Env)
    ensures Play(env, []) == Start
  {
  }

  lemma ActIsMoves(env: Env, moves: seq<Move>, act: Act) returns (more: seq<Move>)
    ensures Play(env, more) == Do(env, Play(env, moves), act)
  {
    hide Play, RunFrom, Deeds, Since, WireOpcode;
    var p := Play(env, moves);
    match act
    case Chunk(octets) =>
      more := moves;
      if octets != [] {
        PlayOne(env, moves, Arrive(octets));
        more := RunIsTurns(env, moves + [Arrive(octets)]);
      }
    case Put(_, _, _, _, _) =>
      PlayOne(env, moves, Send(act));
      more := moves + [Send(act)];
  }

  // ----- the two directions at work on each other -----

  /** The side waits for a frame, with nothing unread. */
  predicate Idle(p: Side) {
    p.state.phase.ReadFrameLength? && p.state.frameLength == 0 && p.rest == [] && !p.sentClose
  }

  lemma HearFrame(env: Env, p: Side, isFin: bool, wire: byte, key: Option<Key>, payload: seq<byte>)
    requires Obliging(env) && Idle(p) && wire != OPCODE_CLOSE
    requires Fits(p.state.continued, isFin, wire) && |payload| < SIZE_MODULUS / 2
    requires IsControl(wire) ==> |payload| <= 125
    requires Reported(p.state.continued, wire) == OPCODE_TEXT ==> Utf8.Accepts(payload)
    requires Reported(p.state.continued, wire) != OPCODE_CLOSE
    ensures var q := Do(env, p, Chunk(Encode(isFin, wire, key, payload)));
            && Idle(q) && (isFin ==> q.state.continued == 0)
            && (!isFin && wire != OPCODE_CONTINUATION ==> q.state.continued == wire)
  {
    hide RunFrom, Encode, Utf8.Accepts, Step, IsMasked, Fits;
    var bytes := Encode(isFin, wire, key, payload);
    EncodeLength(isFin, wire, key, payload);
    assert [] + bytes == bytes && bytes + [] == bytes;
    FrameArrives(env, p.state, isFin, wire, key, payload, []);
    var n := AfterFrame(env, p.state, isFin, Reported(p.state.continued, wire), IsMasked(key), payload, |bytes|).next;
    WaitsForFrame(env, n);
    Turn(env, n, []);
  }

  /**
   * A peer's fragment leaves its mark on what is sent: the final text frame that goes out next is
   * a continuation, which a peer between messages rejects.
   */
  lemma AnswerInsideMessage(env: Env, p: Side, key: Option<Key>, piece: seq<byte>, mask: Option<Key>, payload: seq<byte>,
                            rest: seq<byte>)
    requires Obliging(env) && Idle(p) && p.state.continued == 0
    requires |piece| < SIZE_MODULUS / 2 && Utf8.Accepts(piece)
    ensures var q := Do(env, p, Chunk(Encode(false, OPCODE_TEXT, key, piece)));
            && WireOpcode(q.state.continued, q.sentClose, true, OPCODE_TEXT, payload) == Some(OPCODE_CONTINUATION)
            && FrameLength(0, Encode(true, OPCODE_CONTINUATION, mask, payload) + rest).Bad?
  {
    hide Encode, Utf8.Accepts, Do;
    HearFrame(env, p, false, OPCODE_TEXT, key, piece);
    Layout(true, OPCODE_CONTINUATION, mask, payload, rest);
    FirstOctetReadBack(0, true, OPCODE_CONTINUATION);
    EncodeLength(true, OPCODE_CONTINUATION, mask, payload);
  }

  /** A side that sent a fragment is readable again once a ping comes in. */
  lemma PingCloses(env: Env, p: Side, key: Option<Key>, payload: seq<byte>)
    requires Obliging(env) && Idle(p) && |payload| <= 125
    ensures var q := Do(env, p, Chunk(Encode(true, OPCODE_PING, key, payload))); Idle(q) && q.state.continued == 0
  {
    hide Encode, Utf8.Accepts, Do;
    HearFrame(env, p, true, OPCODE_PING, key, payload);
  }
}
