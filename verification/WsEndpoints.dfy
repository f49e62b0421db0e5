/** The engine itself put to work: a whole connection, and a sequence of frames from one end to the other. */
module WsEndpoints {
  import opened Bytes
  import opened CharBuffer
  import opened Incremental
  import opened Websocket
  import opened WsFrame
  import opened WsProtocol
  import opened WsSession
  import opened WsTheorems
  import Utf8

  /** The engine is in the state of one side of a connection. */
  ghost predicate Matches(e: Engine, p: Side)
    reads e, e.input, e.data
  {
    e.Current() == p.state && e.input.contents == p.rest && e.sentClose == p.sentClose && e.sent == p.sent
  }

  method Receive(e: Engine, octets: seq<byte>, ghost p: Side)
    requires e.Valid() && Matches(e, p) && octets != []
    modifies e, e.input, e.input.mem, e.data, e.data.mem
    ensures e.Valid() && e.input.MemKept() && e.data.MemKept()
    ensures e.sentClose == p.sentClose && e.sent == p.sent
    ensures var r := RunFrom(e.env, p.state, p.rest + octets); e.Current() == r.state && e.input.contents == r.rest
  {
    hide RunFrom, Engine.Valid, Engine.Current;
    var buf := new byte[|octets|](i requires 0 <= i < |octets| => octets[i]);
    assert buf[..|octets|] == octets;
    var _ := e.OnRecv(buf, |octets|);
  }

  /** One act of a connection, done by the engine. */
  method Perform(e: Engine, act: Act, ghost p: Side)
    requires e.Valid() && Matches(e, p)
    modifies e, e.input, e.input.mem, e.data, e.data.mem, e.out, e.out.mem
    ensures e.Valid() && e.input.MemKept() && e.data.MemKept() && e.out.MemKept()
    ensures Matches(e, Do(e.env, p, act))
  {
    assert e.out != e.data && e.out != e.input;
    hide RunFrom, Engine.Valid, WireOpcode, Encode;
    match act
    case Chunk(octets) =>
      if octets != [] {
        Receive(e, octets, p);
      }
    case Put(isFin, opcode, key, payload, accepted) =>
      var _ := e.SendFrame(isFin, opcode, key, payload, accepted);
  }

  /** A connection from its start: the engine ends where the session does, whatever is received and sent. */
  method Connect(env: Env, acts: seq<Act>) returns (e: Engine)
    ensures e.Valid() && e.env == env && Matches(e, Session(env, acts))
  {
    hide Engine.Valid, Do, Matches;
    e := new Engine(env);
    EngineStarts(e);
    assert acts[..0] == [];
    for i := 0 to |acts|
      invariant e.Valid() && e.env == env && fresh(e) && fresh(e.input) && fresh(e.data) && fresh(e.out)
      invariant e.input.mem != null ==> fresh(e.input.mem)
      invariant e.data.mem != null ==> fresh(e.data.mem)
      invariant e.out.mem != null ==> fresh(e.out.mem)
      invariant Matches(e, Session(env, acts[..i]))
    {
      Perform(e, acts[i], Session(env, acts[..i]));
      assert acts[..i + 1][..i] == acts[..i];
    }
    assert acts[..|acts|] == acts;
  }

  lemma EngineStarts(e: Engine)
    requires e.Current() == Initial && e.input.contents == [] && !e.sentClose && e.sent == []
    ensures Matches(e, Session(e.env, []))
  {
  }

  /** Final frames sent one after the other: what leaves is their encodings, one behind the other. */
  method SendAll(e: Engine, frames: seq<Outgoing>)
    requires e.Valid() && e.continued == 0 && Sendable(e.sentClose, frames)
    modifies e, e.out, e.out.mem
    ensures e.Valid() && e.continued == 0
    ensures Concat(e.sent) == Concat(old(e.sent)) + Wire(frames)
  {
    hide Engine.Valid, WireOpcode, Encode, Concat, Wire, Sendable;
    assert frames[0..] == frames;
    for i := 0 to |frames|
      invariant e.Valid() && e.continued == 0 && Sendable(e.sentClose, frames[i..])
      invariant e.out.MemKept()
      invariant Concat(e.sent) + Wire(frames[i..]) == Concat(old(e.sent)) + Wire(frames)
    {
      ghost var was := e.sent;
      var f := frames[i];
      NextSendable(e.sentClose, frames[i..]);
      var _ := e.SendFrame(true, f.opcode, f.key, f.payload, true);
      assert frames[i..][1..] == frames[i + 1..];
      OneMore(was, e.sent[|was|], Wire(frames[i + 1..]));
    }
    assert frames[|frames|..] == [];
    NothingMore(Concat(e.sent));
  }

  lemma OneMore(sent: seq<seq<byte>>, bytes: seq<byte>, rest: seq<byte>)
    ensures Concat(sent + [bytes]) + rest == Concat(sent) + (bytes + rest)
  {
    ConcatAppend(sent, [bytes]);
    assert [bytes][1..] == [] && Concat([bytes]) == bytes + [];
  }

  lemma NothingMore(bytes: seq<byte>)
    ensures bytes + Wire([]) == bytes
  {
  }

  /**
   * The codec on the engine's own output: what one engine sends, in whatever cut it arrives, makes
   * another engine between messages report exactly these frames.
   */
  method Deliver(sender: Engine, ghost env: Env, ghost s: State, frames: seq<Outgoing>)
    requires sender.Valid() && sender.continued == 0 && !sender.sentClose && sender.sent == []
    requires Sendable(false, frames) && Obliging(env) && BetweenMessages(s)
    modifies sender, sender.out, sender.out.mem
    ensures forall chunks :: Concat(chunks) == Concat(sender.sent) ==>
              var r := WsProtocol.Receive(env, s, chunks);
              r.state.trace == s.trace + Delivered(frames) && r.stopped == HasClose(frames)
  {
    hide Engine.Valid, Sendable, Wire, WsProtocol.Receive, BetweenMessages, Obliging, Concat;
    SendAll(sender, frames);
    assert Concat([]) == [] && [] + Wire(frames) == Wire(frames) by { NothingSent(); }
    forall chunks | Concat(chunks) == Concat(sender.sent)
      ensures var r := WsProtocol.Receive(env, s, chunks);
              r.state.trace == s.trace + Delivered(frames) && r.stopped == HasClose(frames)
    {
      FramesArriveInAnyCut(env, s, frames, chunks);
    }
  }

  lemma NothingSent()
    ensures Concat([]) == []
  {
  }

  lemma NextSendable(sentClose: bool, frames: seq<Outgoing>)
    requires Sendable(sentClose, frames) && frames != []
    ensures var f := frames[0];
            var wire := WireOpcode(0, sentClose, true, f.opcode, f.payload);
            && wire.Some? && !sentClose
            && Wire(frames) == Encode(true, wire.value, f.key, f.payload) + Wire(frames[1..])
            && Sendable(f.opcode == OPCODE_CLOSE, frames[1..])
  {
    hide Encode, Utf8.Accepts;
  }
}
