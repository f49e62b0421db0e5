/**
 * The device listener's framing (src/device_listener.c): packets that start with their own length.
 * What a packet's property list says is left to the environment.
 */
module DeviceListener {
  import opened Bytes
  import opened Incremental
  import opened CharBuffer

  const TYPE_PLIST: nat := 8
  const MIN_PACKET: nat := 16

  /** `trace` holds the packets accepted so far; `fails` tells what handling the last one returns. */
  datatype State = State(hasLength: bool, bodyLength: nat, trace: seq<seq<byte>>)
  datatype Env = Env(fails: seq<seq<byte>> -> bool)

  const Initial: State := State(false, 0, [])

  function Word(s: seq<byte>): nat
    requires |s| >= 4
  {
    FromLittleEndian(s[..4])
  }

  /** The packet is a property list of the expected version; others are accepted and ignored. */
  predicate IsPlist(packet: seq<byte>)
    requires |packet| >= MIN_PACKET
  {
    Word(packet[4..]) == 1 && Word(packet[8..]) == TYPE_PLIST
  }

  /** The length field says `length`, and that is at least a header. */
  predicate GoodLength(input: seq<byte>, length: nat)
    requires length <= |input|
  {
    length >= MIN_PACKET && Word(input) == length
  }

  function RecvPacket(env: Env, s: State, input: seq<byte>): Outcome<State>
    requires s.bodyLength <= |input|
  {
    var n, s' := s.bodyLength, s.(hasLength := false, bodyLength := 0);
    if !GoodLength(input, n) then Stop(s', n)
    else
      var trace := s.trace + [input[..n]];
      var s'' := s'.(trace := trace);
      if IsPlist(input[..n]) && env.fails(trace) then Stop(s'', n) else Go(s'', n)
  }

  function Step(env: Env, s: State, input: seq<byte>): Outcome<State> {
    if !s.hasLength && |input| >= 4 then Go(s.(hasLength := true, bodyLength := Word(input)), 0)
    else if s.hasLength && |input| >= s.bodyLength then RecvPacket(env, s, input)
    else Wait
  }

  function Rank(s: State): nat {
    if s.hasLength then 0 else 1
  }

  function Engine(env: Env): Machine<State> {
    Machine((s, input) => Step(env, s, input), Rank, (s, input) => true)
  }

  /** The loop ends because a packet that is accepted is at least 16 octets long. */
  lemma EngineProgresses(env: Env)
    ensures Progresses(Engine(env))
  {
    forall s, input ensures ProgressesAt(Engine(env), s, input) {
    }
  }

  lemma StepExtend(env: Env, s: State, a: seq<byte>, b: seq<byte>)
    requires !Step(env, s, a).Wait?
    ensures Step(env, s, a + b) == Step(env, s, a)
  {
    hide FromLittleEndian, IsPlist;
    if !s.hasLength || s.bodyLength >= 4 {
      assert (a + b)[..4] == a[..4];
    }
    if s.hasLength {
      assert (a + b)[..s.bodyLength] == a[..s.bodyLength];
    }
  }

  lemma EngineIsMonotone(env: Env)
    ensures Monotone(Engine(env))
  {
    hide Step;
    forall s, a, b ensures MonotoneAt(Engine(env), s, a, b) {
      if !Step(env, s, a).Wait? {
        StepExtend(env, s, a, b);
      }
    }
  }

  ghost function RunFrom(env: Env, s: State, input: seq<byte>): Reached<State> {
    EngineProgresses(env);
    Run(Engine(env), s, input)
  }

  ghost function Receive(env: Env, chunks: seq<seq<byte>>): Reached<State> {
    EngineProgresses(env);
    Feed(Engine(env), Initial, [], chunks)
  }

  lemma Turn(env: Env, s: State, input: seq<byte>)
    ensures var o := Step(env, s, input);
            && (o.Wait? ==> RunFrom(env, s, input) == Reached(s, input, false))
            && (!o.Wait? ==> o.used <= |input|)
            && (o.Go? ==> o.used > 0 || Rank(o.next) < Rank(s))
            && (o.Stop? ==> RunFrom(env, s, input) == Reached(o.next, input[o.used..], true))
            && (o.Go? ==> RunFrom(env, s, input) == RunFrom(env, o.next, input[o.used..]))
  {
  }

  // ----- what is delivered -----

  /** A packet whose first four octets give its length, which is at least 16. */
  predicate IsPacket(p: seq<byte>) {
    |p| >= MIN_PACKET && Word(p) == |p|
  }

  predicate ArePackets(ps: seq<seq<byte>>) {
    forall i :: 0 <= i < |ps| ==> IsPacket(ps[i])
  }

  /** Not even the length has arrived, or not the whole packet. */
  predicate Incomplete(s: seq<byte>) {
    |s| < 4 || |s| < Word(s)
  }

  predicate ShortLength(s: seq<byte>) {
    |s| >= 4 && Word(s) < MIN_PACKET
  }

  /** The length is known only if its four octets are pending. */
  predicate LengthKnown(s: State, pending: seq<byte>) {
    s.hasLength ==> |pending| >= 4 && s.bodyLength == Word(pending)
  }

  /** A property list that is refused is the last packet and stops the listener. */
  predicate Heeded(env: Env, before: seq<seq<byte>>, news: seq<seq<byte>>, stopped: bool)
    requires ArePackets(news)
  {
    forall k :: 0 <= k < |news| && IsPlist(news[k]) && env.fails(before + news[..k + 1]) ==> stopped && k == |news| - 1
  }

  lemma StepDelivers(env: Env, s: State, input: seq<byte>)
    requires LengthKnown(s, input)
    ensures var o := Step(env, s, input);
            && (o.Wait? ==> Incomplete(input))
            && (!o.Wait? ==> o.used <= |input| && LengthKnown(o.next, input[o.used..]))
            && (o.Go? && o.used == 0 ==> o.next.trace == s.trace)
            && (o.Go? && o.used > 0 ==> o.next.trace == s.trace + [input[..o.used]] && IsPacket(input[..o.used])
                                        && !(IsPlist(input[..o.used]) && env.fails(o.next.trace)))
            && (o.Stop? && o.next.trace != s.trace ==>
                  o.next.trace == s.trace + [input[..o.used]] && IsPacket(input[..o.used])
                  && IsPlist(input[..o.used]) && env.fails(o.next.trace))
            && (o.Stop? && o.next.trace == s.trace ==>
                  ShortLength(input) && o.used == Word(input))
  {
    hide FromLittleEndian, IsPlist;
    var o := Step(env, s, input);
    if !o.Wait? {
      assert input[0..] == input;
      if s.hasLength && s.bodyLength >= MIN_PACKET {
        assert input[..s.bodyLength][..4] == input[..4];
      }
    }
  }

  /**
   * One run: the new packets are the stream cut at its own length fields, one after the other; the
   * run waits only for an incomplete packet, and stops only at a short length or a refused packet.
   */
  lemma {:induction false} RunDelivers(env: Env, s: State, input: seq<byte>)
    returns (news: seq<seq<byte>>)
    requires LengthKnown(s, input)
    ensures var r := RunFrom(env, s, input);
            && r.state.trace == s.trace + news && ArePackets(news) && Heeded(env, s.trace, news, r.stopped)
            && LengthKnown(r.state, r.rest)
            && (!r.stopped ==> Concat(news) + r.rest == input && Incomplete(r.rest))
            && (r.stopped ==> Concat(news) <= input)
            && (r.stopped ==> (news != [] && IsPlist(news[|news| - 1]) && env.fails(r.state.trace))
                              || ShortLength(input[|Concat(news)|..]))
    decreases |input|, Rank(s)
  {
    hide Step, RunFrom, FromLittleEndian;
    Turn(env, s, input);
    StepDelivers(env, s, input);
    var o := Step(env, s, input);
    if o.Wait? {
      news := [];
    } else if o.Stop? {
      if o.next.trace == s.trace {
        news := [];
        assert input[0..] == input;
      } else {
        news := [input[..o.used]];
        assert Concat(news) == input[..o.used] + Concat([]);
      }
    } else {
      var others := RunDelivers(env, o.next, input[o.used..]);
      if o.used == 0 {
        news := others;
        assert input[0..] == input;
      } else {
        news := [input[..o.used]] + others;
        HeededMore(env, s.trace, input[..o.used], others, RunFrom(env, s, input).stopped);
        assert Concat(news) == input[..o.used] + Concat(others);
        ShiftedRest(input, o.used, Concat(others));
      }
    }
  }

  lemma HeededMore(env: Env, before: seq<seq<byte>>, p: seq<byte>, others: seq<seq<byte>>, stopped: bool)
    requires IsPacket(p) && !(IsPlist(p) && env.fails(before + [p]))
    requires ArePackets(others) && Heeded(env, before + [p], others, stopped)
    ensures ArePackets([p] + others) && Heeded(env, before, [p] + others, stopped)
  {
    hide FromLittleEndian, IsPlist;
    var news := [p] + others;
    assert news[..1] == [p];
    forall k | 0 <= k < |news| && IsPlist(news[k]) && env.fails(before + news[..k + 1])
      ensures stopped && k == |news| - 1
    {
      if k == 0 {
        assert false;
      } else {
        assert before + news[..k + 1] == before + [p] + others[..k];
        assert news[k] == others[k - 1];
      }
    }
  }

  lemma ShiftedRest(input: seq<byte>, n: nat, c: seq<byte>)
    requires n <= |input| && c <= input[n..]
    ensures input[..n] + c <= input && input[n..][|c|..] == input[|input[..n] + c|..]
  {
  }

  /** A stream has the same effect in whatever chunks it arrives. */
  lemma AnyCut(env: Env, chunks: seq<seq<byte>>)
    ensures var whole, fed := RunFrom(env, Initial, Concat(chunks)), Receive(env, chunks);
            && fed.state == whole.state && fed.stopped == whole.stopped
            && (!whole.stopped ==> fed.rest == whole.rest)
  {
    hide Run, Progresses, Monotone;
    EngineProgresses(env);
    EngineIsMonotone(env);
    AlwaysSafe(env, Initial, Concat(chunks));
    assert [] + Concat(chunks) == Concat(chunks);
    ChunkingIrrelevant(Engine(env), Initial, [], chunks);
  }

  lemma {:induction false} AlwaysSafe(env: Env, s: State, input: seq<byte>)
    requires Progresses(Engine(env))
    ensures SafeRun(Engine(env), s, input)
    decreases |input|, Rank(s)
  {
    hide Step, Progresses;
    Turn(env, s, input);
    var o := Step(env, s, input);
    if o.Go? {
      AlwaysSafe(env, o.next, input[o.used..]);
    }
  }

  /**
   * Whatever arrives, in whatever chunks: the packets delivered are the stream cut at its own
   * length fields, up to the first error; a property list that is refused is an error, and so is a
   * length below 16. What is pending is an incomplete packet, and when its length is known it is
   * the number that its first four octets spell.
   */
  lemma DeliversTheStream(env: Env, chunks: seq<seq<byte>>)
    ensures var r, stream := Receive(env, chunks), Concat(chunks);
            var packets := r.state.trace;
            && ArePackets(packets) && Heeded(env, [], packets, r.stopped)
            && (!r.stopped ==>
                  Concat(packets) + r.rest == stream && Incomplete(r.rest) && LengthKnown(r.state, r.rest))
            && (r.stopped ==> Concat(packets) <= stream)
            && (r.stopped ==> (packets != [] && IsPlist(packets[|packets| - 1]) && env.fails(packets))
                              || ShortLength(stream[|Concat(packets)|..]))
  {
    hide Receive, RunFrom, Concat;
    AnyCut(env, chunks);
    var news := RunDelivers(env, Initial, Concat(chunks));
    assert [] + news == news;
  }

  lemma PacketArrives(env: Env, s: State, p: seq<byte>, rest: seq<byte>)
    requires !s.hasLength && s.bodyLength == 0 && IsPacket(p) && !env.fails(s.trace + [p])
    ensures RunFrom(env, s, p + rest) == RunFrom(env, s.(trace := s.trace + [p]), rest)
  {
    hide FromLittleEndian, RunFrom, IsPlist;
    var input := p + rest;
    assert input[..4] == p[..4] && input[0..] == input;
    assert input[..|p|] == p && input[|p|..] == rest;
    Turn(env, s, input);
    var s1 := s.(hasLength := true, bodyLength := |p|);
    Turn(env, s1, input);
  }

  /** Any sequence of well-formed packets arrives, in whatever chunks, as that sequence. */
  lemma PacketsArrive(env: Env, packets: seq<seq<byte>>, chunks: seq<seq<byte>>)
    requires ArePackets(packets) && Concat(chunks) == Concat(packets)
    requires forall t :: !env.fails(t)
    ensures Receive(env, chunks) == Reached(State(false, 0, packets), [], false)
  {
    hide Receive, RunFrom, Concat;
    AnyCut(env, chunks);
    PacketRunArrives(env, Initial, packets);
    assert [] + packets == packets;
  }

  lemma {:induction false} PacketRunArrives(env: Env, s: State, packets: seq<seq<byte>>)
    requires ArePackets(packets) && !s.hasLength && s.bodyLength == 0
    requires forall t :: !env.fails(t)
    ensures RunFrom(env, s, Concat(packets)) == Reached(s.(trace := s.trace + packets), [], false)
    decreases |packets|
  {
    hide RunFrom, IsPacket;
    if packets == [] {
      Turn(env, s, []);
      assert s.trace + packets == s.trace;
    } else {
      PacketArrives(env, s, packets[0], Concat(packets[1..]));
      var s' := s.(trace := s.trace + [packets[0]]);
      PacketRunArrives(env, s', packets[1..]);
      assert s'.trace + packets[1..] == s.trace + packets;
    }
  }

  /** The number whose four octets are `a` to `d`, least significant first. */
  function Spelled(a: nat, b: nat, c: nat, d: nat): nat {
    a + 0x100 * b + 0x1_0000 * c + 0x100_0000 * d
  }

  /** A packet in octets: the length it states, and what makes it a property list. */
  lemma HeaderOctets(p: seq<byte>)
    requires |p| >= 4
    ensures IsPacket(p) <==> |p| >= 16 && |p| == Spelled(p[0], p[1], p[2], p[3])
    ensures |p| >= 16 ==> (IsPlist(p) <==> p[4..12] == [1, 0, 0, 0, 8, 0, 0, 0])
  {
    FourOctets(p);
    if |p| >= 16 {
      FourOctets(p[4..]);
      FourOctets(p[8..]);
      hide FromLittleEndian;
      assert p[4..12] == [p[4], p[5], p[6], p[7], p[8], p[9], p[10], p[11]];
    }
  }

  lemma FourOctets(s: seq<byte>)
    requires |s| >= 4
    ensures Word(s) == Spelled(s[0], s[1], s[2], s[3])
  {
    var t := s[..4];
    assert FromLittleEndian(t[3..]) == t[3] + 256 * FromLittleEndian([]);
    assert t[2..][1..] == t[3..];
    assert FromLittleEndian(t[2..]) == t[2] + 256 * FromLittleEndian(t[3..]);
    assert t[1..][1..] == t[2..];
    assert FromLittleEndian(t[1..]) == t[1] + 256 * FromLittleEndian(t[2..]);
  }

  // ----- the loops of the source -----

  /** The little-endian word that starts at `buf`, shifted together octet by octet. */
  method ScanUint32(buf: seq<byte>) returns (r: nat)
    requires |buf| >= 4
    ensures r == Word(buf)
    ensures r == Spelled(buf[0], buf[1], buf[2], buf[3])
  {
    r := 0;
    var shift := 1;
    var i := 0;
    while i < 4
      invariant 0 <= i <= 4
      invariant shift == Pow256(i)
      invariant r + shift * FromLittleEndian(buf[i..4]) == Word(buf)
    {
      assert buf[i..4][1..] == buf[i + 1..4];
      LittleEndianStep(shift, buf[i], FromLittleEndian(buf[i + 1..4]));
      r := r + buf[i] * shift;
      shift := shift * 256;
      i := i + 1;
    }
    FourOctets(buf);
  }

  lemma LittleEndianStep(shift: nat, b: nat, rest: nat)
    ensures shift * (b + 256 * rest) == b * shift + shift * 256 * rest
  {
  }

  class Listener {
    const env: Env
    const input: Buffer
    var hasLength: bool
    var bodyLength: nat
    var trace: seq<seq<byte>>

    ghost predicate Valid()
      reads this, input, input.mem
    {
      input.Valid()
    }

    ghost function Current(): State
      reads this
    {
      State(hasLength, bodyLength, trace)
    }

    constructor (env: Env)
      ensures Valid() && this.env == env && Current() == Initial
      ensures fresh(input) && input.contents == [] && input.mem == null
    {
      this.env := env;
      input := new Buffer();
      hasLength, bodyLength, trace := false, 0, [];
    }

    /** Handle one packet of `length` octets at the start of `view`. */
    method RecvPacketOf(view: seq<byte>, length: nat) returns (error: bool)
      requires length <= |view| && hasLength && bodyLength == length
      modifies this`hasLength, this`bodyLength, this`trace
      ensures RecvPacket(env, old(Current()), view) == if error then Stop(Current(), length) else Go(Current(), length)
    {
      hide FromLittleEndian;
      hasLength, bodyLength := false, 0;
      if length < MIN_PACKET {
        return true;
      }
      var len := ScanUint32(view);
      if len != length {
        return true;
      }
      var packet := view[..length];
      var version := ScanUint32(packet[4..]);
      var packetType := ScanUint32(packet[8..]);
      trace := trace + [packet];
      if version != 1 || packetType != TYPE_PLIST {
        return false;
      }
      return env.fails(trace);
    }

    /** Deliver every complete packet, up to the first error. */
    method RecvLoop(view: seq<byte>) returns (error: bool, used: nat)
      modifies this`hasLength, this`bodyLength, this`trace
      ensures used <= |view|
      ensures Reached(Current(), view[used..], error) == RunFrom(env, old(Current()), view)
    {
      hide RunFrom, RecvPacket, FromLittleEndian;
      used := 0;
      assert view[0..] == view;
      while true
        invariant used <= |view|
        invariant RunFrom(env, Current(), view[used..]) == RunFrom(env, old(Current()), view)
        decreases |view| - used, Rank(Current())
      {
        ghost var s := Current();
        var rest := view[used..];
        Turn(env, s, rest);
        if !hasLength && |rest| >= 4 {
          bodyLength := ScanUint32(rest);
          hasLength := true;
          assert rest[0..] == rest;
        } else if hasLength && |rest| >= bodyLength {
          var n := bodyLength;
          error := RecvPacketOf(rest, n);
          assert rest[n..] == view[used + n..];
          used := used + n;
          if error {
            return;
          }
        } else {
          return false, used;
        }
      }
    }

    /** New input of `length` octets. */
    method OnRecv(buf: array<byte>, length: int) returns (error: bool)
      requires Valid() && length <= buf.Length && buf != input.mem
      modifies this`hasLength, this`bodyLength, this`trace, input, input.mem
      ensures Valid()
      ensures length <= 0 ==> error == (length < 0) && Current() == old(Current()) && input.contents == old(input.contents)
      ensures length > 0 ==>
                Reached(Current(), input.contents, error) ==
                RunFrom(env, old(Current()), old(input.contents) + old(buf[..length]))
    {
      hide RunFrom;
      if length <= 0 {
        return length < 0;
      }
      input.BeginInput(buf, length);
      var used;
      error, used := RecvLoop(input.inBuf[input.inHead..input.inTail]);
      Finish(used);
    }

    /** Keep what is unread. */
    method Finish(used: nat)
      requires Valid() && input.InInput() && used <= |input.view|
      modifies input, input.mem
      ensures Valid() && input.contents == old(input.view)[used..]
    {
      input.Consume(used);
      input.EndInput();
    }
  }
}
