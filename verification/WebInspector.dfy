/**
 * The web inspector's framing (src/webinspector.c): packets behind a big-endian length, and
 * messages that are split over several packets. Property lists are an abstract codec.
 */
module WebInspector {
  import opened Bytes
  import opened Incremental
  import opened CharBuffer

  const MAX_RPC_LEN: nat := 7596
  const MAX_BODY_LENGTH: nat := 0x400_0000
  const UINT32_MODULUS: nat := 0x1_0000_0000

  /** What a dictionary holds under a key. */
  datatype Entry = Absent | NotData | Data(octets: seq<byte>)

  /** A packet's dictionary: the entries under the keys of a final and of a partial message. */
  datatype Packet = Packet(final: Entry, part: Entry)

  /** Binary property lists of messages and of packets. */
  datatype Codec<!P> = Codec(
    encode: P -> seq<byte>,
    decode: seq<byte> -> Option<P>,
    encodePacket: Packet -> seq<byte>,
    decodePacket: seq<byte> -> Option<Packet>)

  /** `fails` is what the receiver of the last message answers. */
  datatype Env<!P> = Env(codec: Codec<P>, partialsSupported: bool, fails: seq<P> -> bool)

  /** `trace` holds the messages delivered so far. */
  datatype State<P> = State(hasLength: bool, bodyLength: nat, partial: seq<byte>, trace: seq<P>)

  function Initial<P>(): State<P> {
    State(false, 0, [], [])
  }

  // ----- receiving -----

  /** The body length, unless it is out of bounds. A set sign bit is out of bounds as well. */
  function ParseLength(s: seq<byte>): Option<nat>
    requires |s| >= 4
  {
    var n := FromBigEndian(s[..4]);
    if n > MAX_BODY_LENGTH then None else Some(n)
  }

  datatype Parsed<P> = Parsed(partial: seq<byte>, message: Option<P>, isPartial: bool)

  function ParsePlist<P>(env: Env<P>, partial: seq<byte>, body: seq<byte>): Parsed<P> {
    if !env.partialsSupported then Parsed(partial, env.codec.decode(body), false)
    else
      match env.codec.decodePacket(body)
      case None => Parsed(partial, None, false)
      case Some(packet) =>
        var isPartial := packet.final.Absent?;
        var entry := if isPartial then packet.part else packet.final;
        if !entry.Data? then Parsed(partial, None, false)
        else
          var all := partial + entry.octets;
          if isPartial then Parsed(all, None, true)
          else if partial != [] then Parsed([], env.codec.decode(all[..|all| % UINT32_MODULUS]), false)
          else Parsed([], env.codec.decode(entry.octets[..|entry.octets| % UINT32_MODULUS]), false)
  }

  function RecvPacket<P>(env: Env<P>, s: State<P>, input: seq<byte>): Outcome<State<P>>
    requires |input| >= s.bodyLength + 4
  {
    var used, s' := s.bodyLength + 4, s.(hasLength := false, bodyLength := 0);
    if ParseLength(input) != Some(s.bodyLength) then Stop(s', used)
    else
      var r := ParsePlist(env, s.partial, input[4..used]);
      var s1 := s'.(partial := r.partial);
      if r.isPartial then Go(s1, used)
      else if r.message == None then Stop(s1, used)
      else
        var s2 := s1.(trace := s.trace + [r.message.value]);
        if env.fails(s2.trace) then Stop(s2, used) else Go(s2, used)
  }

  function Step<P>(env: Env<P>, s: State<P>, input: seq<byte>): Outcome<State<P>> {
    if !s.hasLength && |input| >= 4 then
      match ParseLength(input)
      case None => Stop(s, 4)
      case Some(n) => Go(s.(hasLength := true, bodyLength := n), 0)
    else if s.hasLength && |input| >= s.bodyLength + 4 then RecvPacket(env, s, input)
    else Wait
  }

  function Rank<P>(s: State<P>): nat {
    if s.hasLength then 0 else 1
  }

  function Engine<P>(env: Env<P>): Machine<State<P>> {
    Machine((s, input) => Step(env, s, input), s => Rank(s), (s, input) => true)
  }

  lemma EngineProgresses<P(!new)>(env: Env<P>)
    ensures Progresses(Engine(env))
  {
  }

  lemma StepExtend<P>(env: Env<P>, s: State<P>, a: seq<byte>, b: seq<byte>)
    requires !Step(env, s, a).Wait?
    ensures Step(env, s, a + b) == Step(env, s, a)
  {
    hide FromBigEndian, ParsePlist;
    assert (a + b)[..4] == a[..4];
    if s.hasLength {
      assert (a + b)[4..s.bodyLength + 4] == a[4..s.bodyLength + 4];
    }
  }

  lemma EngineIsMonotone<P(!new)>(env: Env<P>)
    ensures Monotone(Engine(env))
  {
    hide Step;
    forall s, a, b ensures MonotoneAt(Engine(env), s, a, b) {
      if !Step(env, s, a).Wait? {
        StepExtend(env, s, a, b);
      }
    }
  }

  ghost function RunFrom<P(!new)>(env: Env<P>, s: State<P>, input: seq<byte>): Reached<State<P>> {
    EngineProgresses(env);
    Run(Engine(env), s, input)
  }

  ghost function Receive<P(!new)>(env: Env<P>, chunks: seq<seq<byte>>): Reached<State<P>> {
    EngineProgresses(env);
    Feed(Engine(env), Initial(), [], chunks)
  }

  lemma Turn<P(!new)>(env: Env<P>, s: State<P>, input: seq<byte>)
    ensures var o := Step(env, s, input);
            && (o.Wait? ==> RunFrom(env, s, input) == Reached(s, input, false))
            && (!o.Wait? ==> o.used <= |input|)
            && (o.Go? ==> o.used > 0 || Rank(o.next) < Rank(s))
            && (o.Stop? ==> RunFrom(env, s, input) == Reached(o.next, input[o.used..], true))
            && (o.Go? ==> RunFrom(env, s, input) == RunFrom(env, o.next, input[o.used..]))
  {
  }

  lemma {:induction false} AlwaysSafe<P(!new)>(env: Env<P>, s: State<P>, input: seq<byte>)
    requires Progresses(Engine(env))
    ensures SafeRun(Engine(env), s, input)
    decreases |input|, Rank(s)
  {
    hide Step, Progresses;
    Turn(env, s, input);
    var o := Step(env, s, input);
    if o.Go? {
      AlwaysSafe(env, o.next, input[o.used..]);
    }
  }

  /**
   * Whatever arrives, the messages delivered and the state reached do not depend on how the
   * stream is cut into chunks, up to and including the first error.
   */
  lemma AnyCut<P(!new)>(env: Env<P>, chunks: seq<seq<byte>>)
    ensures var whole, fed := RunFrom(env, Initial(), Concat(chunks)), Receive(env, chunks);
            && fed.state == whole.state && fed.stopped == whole.stopped
            && (!whole.stopped ==> fed.rest == whole.rest)
  {
    hide Run, Progresses, Monotone;
    EngineProgresses(env);
    EngineIsMonotone(env);
    AlwaysSafe(env, Initial(), Concat(chunks));
    assert [] + Concat(chunks) == Concat(chunks);
    ChunkingIrrelevant(Engine(env), Initial(), [], chunks);
  }

  // ----- sending -----

  /** A packet behind its length. */
  function Framed(body: seq<byte>): seq<byte> {
    BigEndian(|body|, 4) + body
  }

  function PieceAt(rpc: seq<byte>, i: nat): seq<byte>
    requires i <= |rpc|
  {
    if |rpc| - i > MAX_RPC_LEN then rpc[i..i + MAX_RPC_LEN] else rpc[i..]
  }

  /** The dictionary for the piece at offset `i`. */
  function PacketAt(rpc: seq<byte>, i: nat): Packet
    requires i <= |rpc|
  {
    var piece := Data(PieceAt(rpc, i));
    if |rpc| - i > MAX_RPC_LEN then Packet(Absent, piece) else Packet(piece, Absent)
  }

  /** The packets for the octets of a message from offset `i` on. */
  function Partials<P>(codec: Codec<P>, rpc: seq<byte>, i: nat): seq<seq<byte>>
    requires i <= |rpc|
    decreases |rpc| - i
  {
    [Framed(codec.encodePacket(PacketAt(rpc, i)))] +
    if |rpc| - i > MAX_RPC_LEN then Partials(codec, rpc, i + MAX_RPC_LEN) else []
  }

  lemma PartialsStep<P>(codec: Codec<P>, rpc: seq<byte>, i: nat)
    requires i <= |rpc|
    ensures Partials(codec, rpc, i) ==
            [Framed(codec.encodePacket(PacketAt(rpc, i)))] +
            if |rpc| - i > MAX_RPC_LEN then Partials(codec, rpc, i + MAX_RPC_LEN) else []
  {
    hide Framed, PacketAt;
  }

  /** Everything that one call of `wi_send_plist` sends. */
  function Sent<P>(codec: Codec<P>, partialsSupported: bool, isSim: bool, message: P): seq<seq<byte>> {
    var rpc := codec.encode(message);
    if partialsSupported then Partials(codec, rpc, 0)
    else if isSim then [Framed(rpc)]
    else [Framed(rpc), Framed([])]
  }

  function SentAll<P>(codec: Codec<P>, partialsSupported: bool, isSim: bool, messages: seq<P>): seq<seq<byte>> {
    if messages == [] then []
    else Sent(codec, partialsSupported, isSim, messages[0]) + SentAll(codec, partialsSupported, isSim, messages[1..])
  }

  /** A packet is its body behind the number of its octets, most significant octet first. */
  lemma FramedOctets(body: seq<byte>)
    requires |body| < UINT32_MODULUS
    ensures var f := Framed(body);
            && |f| == |body| + 4 && f[4..] == body
            && ((f[0] as int * 0x100 + f[1] as int) * 0x100 + f[2] as int) * 0x100 + f[3] as int == |body|
  {
    hide BigEndian;
    FourDigits(|body|);
    FourTogether(|body|);
  }

  lemma FourTogether(n: nat)
    requires n < UINT32_MODULUS
    ensures ((n / 0x100_0000 % 256 * 0x100 + n / 0x1_0000 % 256) * 0x100 + n / 0x100 % 256) * 0x100 + n % 256 == n
  {
    var a := n / 0x100;
    var b := a / 0x100;
    assert n / 0x1_0000 == b && n / 0x100_0000 == b / 0x100 && b / 0x100 < 0x100;
  }

  /** The length is read from the same four octets, and one above 64 MiB is refused. */
  lemma LengthOctets(s: seq<byte>)
    requires |s| >= 4
    ensures var n := ((s[0] as int * 0x100 + s[1] as int) * 0x100 + s[2] as int) * 0x100 + s[3] as int;
            ParseLength(s) == if n <= 64 * 1024 * 1024 then Some(n) else None
  {
    var t := s[..4];
    assert t[..3][..2] == t[..2] && t[..2][..1] == t[..1] && t[..1][..0] == [];
    assert FromBigEndian(t[..1]) == t[0];
    assert FromBigEndian(t[..2]) == t[0] as int * 0x100 + t[1] as int;
    assert FromBigEndian(t[..3]) == FromBigEndian(t[..2]) * 0x100 + t[2] as int;
  }

  /** Without partials the message is one packet, and to a device an empty one follows. */
  lemma SentWhole<P>(codec: Codec<P>, isSim: bool, message: P)
    ensures var sent := Sent(codec, false, isSim, message);
            && |sent| == (if isSim then 1 else 2) && sent[0] == Framed(codec.encode(message))
            && (!isSim ==> sent[1] == [0, 0, 0, 0])
  {
    hide BigEndian;
    FourDigits(0);
  }

  /** With partials, pieces of 7596 octets in partial packets come before the rest in the final one. */
  lemma SentInPieces<P>(codec: Codec<P>, isSim: bool, message: P, k: nat)
    ensures var rpc, sent := codec.encode(message), Sent(codec, true, isSim, message);
            && |sent| == (if rpc == [] then 1 else (|rpc| + 7595) / 7596)
            && (k < |sent| ==>
                  7596 * k <= |rpc| &&
                  sent[k] == Framed(codec.encodePacket(if k < |sent| - 1 then Packet(Absent, Data(rpc[7596 * k..7596 * (k + 1)]))
                                                       else Packet(Data(rpc[7596 * k..]), Absent))))
  {
    hide Framed, Partials;
    var rpc := codec.encode(message);
    PieceCount(codec, rpc, 0);
    if k < |Partials(codec, rpc, 0)| {
      PieceOf(codec, rpc, 0, k);
    }
  }

  lemma {:induction false} PieceCount<P>(codec: Codec<P>, rpc: seq<byte>, i: nat)
    requires i <= |rpc|
    ensures |Partials(codec, rpc, i)| == if |rpc| == i then 1 else (|rpc| - i + 7595) / 7596
    decreases |rpc| - i
  {
    hide Framed, PacketAt;
    if |rpc| - i > MAX_RPC_LEN {
      PieceCount(codec, rpc, i + MAX_RPC_LEN);
    }
  }

  lemma {:induction false} PieceOf<P>(codec: Codec<P>, rpc: seq<byte>, i: nat, k: nat)
    requires i <= |rpc| && k < |Partials(codec, rpc, i)|
    ensures i + 7596 * k <= |rpc|
    ensures Partials(codec, rpc, i)[k] == Framed(codec.encodePacket(PacketAt(rpc, i + 7596 * k)))
    decreases |rpc| - i
  {
    hide Framed, PacketAt, Partials;
    PartialsStep(codec, rpc, i);
    if k > 0 {
      PieceOf(codec, rpc, i + MAX_RPC_LEN, k - 1);
    }
  }

  // ----- end to end -----

  ghost predicate Faithful<P(!new)>(codec: Codec<P>) {
    && (forall p :: codec.decode(codec.encode(p)) == Some(p))
    && (forall w :: codec.decodePacket(codec.encodePacket(w)) == Some(w))
  }

  /** The octets of a message are not none, and their number fits 32 bits. */
  predicate Sized<P>(codec: Codec<P>, message: P) {
    0 < |codec.encode(message)| < UINT32_MODULUS
  }

  /** Every packet that is sent for the octets of a message is below the receiver's limit. */
  predicate PacketsFit<P>(codec: Codec<P>, rpc: seq<byte>) {
    forall i :: 0 <= i <= |rpc| ==> |codec.encodePacket(PacketAt(rpc, i))| <= MAX_BODY_LENGTH
  }

  lemma FramedReadBack(body: seq<byte>, rest: seq<byte>)
    requires |body| <= MAX_BODY_LENGTH
    ensures var input := Framed(body) + rest;
            && |input| >= |body| + 4
            && ParseLength(input) == Some(|body|)
            && input[4..|body| + 4] == body && input[|body| + 4..] == rest
  {
    assert Pow256(4) == UINT32_MODULUS;
    BigEndianRoundTrip(|body|, 4);
    assert (Framed(body) + rest)[..4] == BigEndian(|body|, 4);
  }

  /** A message that decodes is delivered; what does not decode and what is refused is an error. */
  ghost function Delivery<P(!new)>(env: Env<P>, s: State<P>, message: Option<P>, rest: seq<byte>): Reached<State<P>> {
    match message
    case None => Reached(s, rest, true)
    case Some(m) =>
      var s1 := s.(trace := s.trace + [m]);
      if env.fails(s1.trace) then Reached(s1, rest, true) else RunFrom(env, s1, rest)
  }

  /** One packet on the wire: it is parsed, and what comes of it is collected or delivered. */
  lemma AnyPacket<P(!new)>(env: Env<P>, s: State<P>, body: seq<byte>, rest: seq<byte>)
    requires !s.hasLength && s.bodyLength == 0 && |body| <= MAX_BODY_LENGTH
    ensures var r := ParsePlist(env, s.partial, body);
            RunFrom(env, s, Framed(body) + rest) ==
            if r.isPartial then RunFrom(env, s.(partial := r.partial), rest)
            else Delivery(env, s.(partial := r.partial), r.message, rest)
  {
    hide RunFrom, ParsePlist, Framed, ParseLength;
    var input := Framed(body) + rest;
    FramedReadBack(body, rest);
    Turn(env, s, input);
    assert input[0..] == input;
    Turn(env, s.(hasLength := true, bodyLength := |body|), input);
  }

  /** When all goes well, the receiver goes on behind it. */
  lemma PacketArrives<P(!new)>(env: Env<P>, s: State<P>, body: seq<byte>, rest: seq<byte>)
    requires !s.hasLength && s.bodyLength == 0 && |body| <= MAX_BODY_LENGTH
    requires var r := ParsePlist(env, s.partial, body);
             r.isPartial || (r.message.Some? && !env.fails(s.trace + [r.message.value]))
    ensures var r := ParsePlist(env, s.partial, body);
            RunFrom(env, s, Framed(body) + rest) ==
            RunFrom(env, State(false, 0, r.partial, if r.isPartial then s.trace else s.trace + [r.message.value]), rest)
  {
    hide RunFrom, ParsePlist, Framed;
    AnyPacket(env, s, body, rest);
  }

  /** What the receiver makes of the piece at offset `i` when it holds all that came before. */
  lemma PieceParsed<P(!new)>(env: Env<P>, message: P, rpc: seq<byte>, i: nat)
    requires Faithful(env.codec) && env.partialsSupported && Sized(env.codec, message)
    requires rpc == env.codec.encode(message) && i <= |rpc| && (i == 0 || i < |rpc|)
    ensures ParsePlist(env, rpc[..i], env.codec.encodePacket(PacketAt(rpc, i))) ==
            if |rpc| - i > MAX_RPC_LEN then Parsed(rpc[..i + MAX_RPC_LEN], None, true)
            else Parsed([], Some(message), false)
  {
    var piece := PieceAt(rpc, i);
    assert env.codec.decodePacket(env.codec.encodePacket(PacketAt(rpc, i))) == Some(PacketAt(rpc, i));
    if |rpc| - i > MAX_RPC_LEN {
      assert rpc[..i] + piece == rpc[..i + MAX_RPC_LEN];
    } else {
      assert rpc[..i] + piece == rpc && rpc[..|rpc|] == rpc;
      assert i == 0 ==> piece == rpc;
    }
  }

  lemma {:induction false} PartialsArrive<P(!new)>(env: Env<P>, s: State<P>, message: P, rpc: seq<byte>, i: nat, rest: seq<byte>)
    requires Faithful(env.codec) && env.partialsSupported && Sized(env.codec, message)
    requires rpc == env.codec.encode(message) && i <= |rpc| && (i == 0 || i < |rpc|) && PacketsFit(env.codec, rpc)
    requires forall t :: !env.fails(t)
    requires !s.hasLength && s.bodyLength == 0 && s.partial == rpc[..i]
    ensures RunFrom(env, s, Concat(Partials(env.codec, rpc, i)) + rest) ==
            RunFrom(env, State(false, 0, [], s.trace + [message]), rest)
    decreases |rpc| - i
  {
    hide RunFrom, ParsePlist, Framed, Faithful, PacketAt;
    var body := env.codec.encodePacket(PacketAt(rpc, i));
    PieceParsed(env, message, rpc, i);
    var packets := Partials(env.codec, rpc, i);
    var others := Concat(packets[1..]);
    assert Concat(packets) + rest == Framed(body) + (others + rest);
    PacketArrives(env, s, body, others + rest);
    if |rpc| - i > MAX_RPC_LEN {
      assert packets[1..] == Partials(env.codec, rpc, i + MAX_RPC_LEN);
      PartialsArrive(env, s.(partial := rpc[..i + MAX_RPC_LEN]), message, rpc, i + MAX_RPC_LEN, rest);
    } else {
      assert packets[1..] == [];
      assert others + rest == rest;
    }
  }

  /** The mode in which sender and receiver understand each other. */
  predicate Mode<P>(env: Env<P>, isSim: bool) {
    env.partialsSupported || isSim
  }

  predicate Sendable<P>(env: Env<P>, message: P) {
    && Sized(env.codec, message)
    && (if env.partialsSupported then PacketsFit(env.codec, env.codec.encode(message))
        else |env.codec.encode(message)| <= MAX_BODY_LENGTH)
  }

  lemma MessageArrives<P(!new)>(env: Env<P>, isSim: bool, s: State<P>, message: P, rest: seq<byte>)
    requires Faithful(env.codec) && Mode(env, isSim) && Sendable(env, message)
    requires forall t :: !env.fails(t)
    requires !s.hasLength && s.bodyLength == 0 && s.partial == []
    ensures RunFrom(env, s, Concat(Sent(env.codec, env.partialsSupported, isSim, message)) + rest) ==
            RunFrom(env, s.(trace := s.trace + [message]), rest)
  {
    hide RunFrom, Framed, PacketsFit;
    var rpc := env.codec.encode(message);
    if env.partialsSupported {
      PartialsArrive(env, s, message, rpc, 0, rest);
    } else {
      PacketArrives(env, s, rpc, rest);
      assert Concat([Framed(rpc)]) == Framed(rpc) + Concat([]);
      assert Framed(rpc) + [] + rest == Framed(rpc) + rest;
    }
  }

  lemma Idle<P(!new)>(env: Env<P>, s: State<P>)
    ensures RunFrom(env, s, []) == Reached(s, [], false)
    ensures Concat([]) == []
  {
    hide RunFrom;
    Turn(env, s, []);
  }

  lemma {:induction false} MessagesArrive<P(!new)>(env: Env<P>, isSim: bool, s: State<P>, messages: seq<P>)
    requires Faithful(env.codec) && Mode(env, isSim) && forall i :: 0 <= i < |messages| ==> Sendable(env, messages[i])
    requires forall t :: !env.fails(t)
    requires !s.hasLength && s.bodyLength == 0 && s.partial == []
    ensures RunFrom(env, s, Concat(SentAll(env.codec, env.partialsSupported, isSim, messages))) ==
            Reached(s.(trace := s.trace + messages), [], false)
    decreases |messages|
  {
    hide RunFrom, Sent, Sendable, Faithful, Concat, Mode, Step;
    if messages == [] {
      Idle(env, s);
      assert s.trace + messages == s.trace;
    } else {
      var first := Sent(env.codec, env.partialsSupported, isSim, messages[0]);
      var others := SentAll(env.codec, env.partialsSupported, isSim, messages[1..]);
      ConcatAppend(first, others);
      MessageArrives(env, isSim, s, messages[0], Concat(others));
      var s' := s.(trace := s.trace + [messages[0]]);
      MessagesArrive(env, isSim, s', messages[1..]);
      assert s'.trace + messages[1..] == s.trace + messages;
    }
  }

  /**
   * Any list of messages, sent one after the other, concatenated and cut again at will, is
   * delivered as exactly that list, with nothing pending and an empty reassembly buffer.
   */
  lemma EndToEnd<P(!new)>(env: Env<P>, isSim: bool, messages: seq<P>, chunks: seq<seq<byte>>)
    requires Faithful(env.codec) && Mode(env, isSim) && forall i :: 0 <= i < |messages| ==> Sendable(env, messages[i])
    requires forall t :: !env.fails(t)
    requires Concat(chunks) == Concat(SentAll(env.codec, env.partialsSupported, isSim, messages))
    ensures Receive(env, chunks) == Reached(State(false, 0, [], messages), [], false)
  {
    hide RunFrom, Receive, SentAll, Concat, Sendable, Faithful;
    AnyCut(env, chunks);
    MessagesArrive(env, isSim, Initial(), messages);
    assert [] + messages == messages;
  }

  // ----- any packet -----

  /**
   * What one packet in the stream does, whatever its body is. Without partials the body is a
   * message. With partials it is a packet with a piece: one without a final piece is collected, a
   * final one completes the message, and anything else is an error.
   */
  lemma OnePacket<P(!new)>(env: Env<P>, s: State<P>, body: seq<byte>, rest: seq<byte>)
    requires !s.hasLength && s.bodyLength == 0 && |body| <= MAX_BODY_LENGTH
    ensures var packet, r := env.codec.decodePacket(body), RunFrom(env, s, Framed(body) + rest);
            && (!env.partialsSupported ==> r == Delivery(env, s, env.codec.decode(body), rest))
            && (env.partialsSupported && packet.None? ==> r == Reached(s, rest, true))
            && (env.partialsSupported && packet.Some? ==>
                  match (packet.value.final, packet.value.part)
                  case (Data(octets), _) =>
                    |s.partial + octets| < 0x1_0000_0000 ==>
                      r == Delivery(env, s.(partial := []), env.codec.decode(s.partial + octets), rest)
                  case (NotData, _) => r == Reached(s, rest, true)
                  case (Absent, Data(octets)) => r == RunFrom(env, s.(partial := s.partial + octets), rest)
                  case (Absent, _) => r == Reached(s, rest, true))
  {
    hide RunFrom, Framed;
    AnyPacket(env, s, body, rest);
    var packet := env.codec.decodePacket(body);
    if packet.Some? && packet.value.final.Data? {
      var octets := packet.value.final.octets;
      assert s.partial == [] ==> s.partial + octets == octets;
      assert octets[..|octets|] == octets && (s.partial + octets)[..|s.partial + octets|] == s.partial + octets;
    }
  }

  /** A length above 64 MiB is an error, and only the length is taken. */
  lemma LongBodyEnds<P(!new)>(env: Env<P>, s: State<P>, input: seq<byte>)
    requires !s.hasLength && |input| >= 4 && FromBigEndian(input[..4]) > 64 * 1024 * 1024
    ensures RunFrom(env, s, input) == Reached(s, input[4..], true)
  {
    hide RunFrom, FromBigEndian;
    Turn(env, s, input);
  }

  // ----- the engine itself -----

  /** One turn of the receive loop: nothing to do, or some octets taken and the status. */
  datatype Handled = Waits | Took(used: nat, error: bool)

  class Inspector<P(!new, ==)> {
    const env: Env<P>
    const isSim: bool
    /** Whether `send_packet` refuses the last of the packets given to it so far. */
    const sendFails: seq<seq<byte>> -> bool

    const input: Buffer
    const partial: Buffer
    var hasLength: bool
    var bodyLength: nat
    var trace: seq<P>
    var sent: seq<seq<byte>>

    ghost predicate Valid()
      reads this, input, input.mem, partial, partial.mem
    {
      && input.Valid() && partial.Valid() && input != partial
      && (input.mem != null ==> input.mem != partial.mem)
    }

    ghost function Current(): State<P>
      reads this, partial
    {
      State(hasLength, bodyLength, partial.contents, trace)
    }

    constructor (env: Env<P>, isSim: bool, sendFails: seq<seq<byte>> -> bool)
      ensures Valid() && fresh(input) && fresh(partial) && input.mem == null && partial.mem == null
      ensures this.env == env && this.isSim == isSim && this.sendFails == sendFails
      ensures Current() == Initial() && input.contents == [] && sent == []
    {
      this.env, this.isSim, this.sendFails := env, isSim, sendFails;
      input := new Buffer();
      partial := new Buffer();
      hasLength, bodyLength, trace, sent := false, 0, [], [];
    }

    /** Send one packet behind its length. */
    method Send(body: seq<byte>) returns (error: bool)
      modifies this`sent
      ensures sent == old(sent) + [Framed(body)] && error == sendFails(sent)
    {
      var n := |body|;
      var octets := [n / 0x100_0000 % 256, n / 0x1_0000 % 256, n / 0x100 % 256, n % 256];
      FourDigits(n);
      sent := sent + [octets + body];
      error := sendFails(sent);
    }

    /** Send a message, in pieces when the peer expects them. */
    method SendPlist(message: P) returns (error: bool)
      modifies this`sent
      ensures old(sent) <= sent <= old(sent) + Sent(env.codec, env.partialsSupported, isSim, message)
      ensures !error || !env.partialsSupported ==>
                sent == old(sent) + Sent(env.codec, env.partialsSupported, isSim, message)
      ensures error && env.partialsSupported ==> |sent| > |old(sent)| && sendFails(sent)
    {
      hide Framed, PacketAt;
      var rpc := env.codec.encode(message);
      if !env.partialsSupported {
        error := Send(rpc);
        if !isSim {
          var _ := Send([]);
        }
        return;
      }
      var i := 0;
      while true
        invariant i <= |rpc|
        invariant old(sent) <= sent
        invariant sent + Partials(env.codec, rpc, i) == old(sent) + Sent(env.codec, true, isSim, message)
        decreases |rpc| - i
      {
        var isPartial := |rpc| - i > MAX_RPC_LEN;
        var body := env.codec.encodePacket(PacketAt(rpc, i));
        ghost var before := sent;
        var notSent := Send(body);
        FirstPartial(env.codec, before, rpc, i);
        if notSent {
          return true;
        }
        if !isPartial {
          return false;
        }
        i := i + MAX_RPC_LEN;
      }
    }

    /** Parse a body, collecting the pieces of a message until the last one. */
    method ParsePlistOf(body: seq<byte>) returns (message: Option<P>, isPartial: bool)
      requires Valid()
      modifies partial, partial.mem
      ensures Valid() && partial.MemKept()
      ensures Parsed(partial.contents, message, isPartial) == ParsePlist(env, old(partial.contents), body)
    {
      isPartial, message := false, None;
      if !env.partialsSupported {
        message := env.codec.decode(body);
        return;
      }
      var packet := env.codec.decodePacket(body);
      if packet == None {
        return;
      }
      var entry := packet.value.final;
      if entry.Absent? {
        entry := packet.value.part;
        isPartial := true;
      }
      if !entry.Data? {
        isPartial := false;
        return;
      }
      var pLength := partial.tail - partial.head;
      if isPartial || pLength != 0 {
        Collect(entry.octets);
        pLength := pLength + |entry.octets|;
        if isPartial {
          return;
        }
      }
      if pLength != 0 {
        var all := TakeAll();
        message := env.codec.decode(all[..pLength % UINT32_MODULUS]);
      } else {
        message := env.codec.decode(entry.octets[..|entry.octets| % UINT32_MODULUS]);
      }
    }

    /** The input window does not overlap the reassembly buffer. */
    ghost predicate Receiving()
      reads this, input, input.mem, input.inBuf, partial, partial.mem
    {
      Valid() && input.InInput() && input.inBuf != partial.mem
    }

    /** Parse the length in front of `view`. */
    method ParseLengthOf(view: seq<byte>) returns (ok: bool, n: nat)
      requires |view| >= 4
      ensures ParseLength(view) == if ok then Some(n) else None
    {
      n := ReadBigEndian(view[..4]);
      ok := n <= MAX_BODY_LENGTH;
    }

    /** Handle the packet at the start of `view`, whose body is of the known length. */
    method RecvPacketOf(view: seq<byte>) returns (error: bool)
      requires Valid() && |view| >= bodyLength + 4
      modifies this`hasLength, this`bodyLength, this`trace, partial, partial.mem
      ensures Valid() && partial.MemKept()
      ensures RecvPacket(env, old(Current()), view) ==
              if error then Stop(Current(), old(bodyLength) + 4) else Go(Current(), old(bodyLength) + 4)
    {
      hide ParsePlist, ParseLength;
      var used := bodyLength + 4;
      var ok, n := ParseLengthOf(view);
      hasLength, bodyLength := false, 0;
      if !ok || n + 4 != used {
        return true;
      }
      var message, isPartial := ParsePlistOf(view[4..used]);
      if isPartial {
        return false;
      }
      if message == None {
        return true;
      }
      trace := trace + [message.value];
      return env.fails(trace);
    }

    /** One turn of the loop on the unread input `view`. */
    method HandleOnce(view: seq<byte>) returns (o: Handled)
      requires Valid()
      modifies this`hasLength, this`bodyLength, this`trace, partial, partial.mem
      ensures Valid() && partial.MemKept()
      ensures match Step(env, old(Current()), view)
              case Wait => o == Waits && Current() == old(Current())
              case Go(next, used) => o == Took(used, false) && Current() == next
              case Stop(next, used) => o == Took(used, true) && Current() == next
    {
      hide ParsePlist, ParseLength, RecvPacket;
      if !hasLength && |view| >= 4 {
        var ok, n := ParseLengthOf(view);
        if !ok {
          return Took(4, true);
        }
        hasLength, bodyLength := true, n;
        return Took(0, false);
      } else if hasLength && |view| >= bodyLength + 4 {
        var used := bodyLength + 4;
        var error := RecvPacketOf(view);
        return Took(used, error);
      } else {
        return Waits;
      }
    }

    /** Deliver every complete packet, up to the first error. */
    method RecvLoop(view: seq<byte>) returns (error: bool, used: nat)
      requires Valid()
      modifies this`hasLength, this`bodyLength, this`trace, partial, partial.mem
      ensures Valid() && partial.MemKept() && used <= |view|
      ensures Reached(Current(), view[used..], error) == RunFrom(env, old(Current()), view)
    {
      hide RunFrom, Step, Valid;
      error, used := false, 0;
      assert view[0..] == view;
      while true
        invariant used <= |view| && Valid() && partial.MemKept()
        invariant RunFrom(env, Current(), view[used..]) == RunFrom(env, old(Current()), view)
        decreases |view| - used, Rank(Current())
      {
        Turn(env, Current(), view[used..]);
        var o := HandleOnce(view[used..]);
        if o == Waits {
          return;
        }
        assert view[used..][o.used..] == view[used + o.used..];
        used := used + o.used;
        if o.error {
          return true, used;
        }
      }
    }

    /** New input of `length` octets. */
    method OnRecv(buf: array<byte>, length: int) returns (error: bool)
      requires Valid() && length <= buf.Length && buf != input.mem && buf != partial.mem
      modifies this`hasLength, this`bodyLength, this`trace, partial, partial.mem, input, input.mem
      ensures Valid()
      ensures length <= 0 ==> error == (length < 0) && Current() == old(Current()) && input.contents == old(input.contents)
      ensures length > 0 ==>
                Reached(Current(), input.contents, error) ==
                RunFrom(env, old(Current()), old(input.contents) + old(buf[..length]))
    {
      hide RunFrom;
      if length <= 0 {
        return length < 0;
      }
      input.BeginInput(buf, length);
      var used;
      error, used := RecvLoop(input.inBuf[input.inHead..input.inTail]);
      Finish(used);
    }

    /** Keep what is unread. */
    method Finish(used: nat)
      requires Receiving() && used <= |input.view|
      modifies input, input.mem
      ensures Valid() && input.contents == old(input.view)[used..]
    {
      input.Consume(used);
      input.EndInput();
    }

    /** Add a piece to the reassembly buffer. */
    method Collect(octets: seq<byte>)
      requires Valid()
      modifies partial, partial.mem
      ensures Valid() && partial.MemKept() && partial.mem != null
      ensures partial.contents == old(partial.contents) + octets
    {
      partial.EnsureCapacity(|octets|);
      partial.Append(octets);
    }

    /** Empty the reassembly buffer. */
    method TakeAll() returns (all: seq<byte>)
      requires Valid() && partial.mem != null
      modifies partial`head, partial`tail, partial`contents
      ensures Valid() && partial.contents == [] && all == old(partial.contents)
    {
      all := partial.mem[partial.head..partial.tail];
      partial.Clear();
    }
  }

  lemma FirstPartial<P>(codec: Codec<P>, before: seq<seq<byte>>, rpc: seq<byte>, i: nat)
    requires i <= |rpc|
    ensures var packet, all := Framed(codec.encodePacket(PacketAt(rpc, i))), before + Partials(codec, rpc, i);
            && before + [packet] <= all
            && all == before + [packet] +
               if |rpc| - i > MAX_RPC_LEN then Partials(codec, rpc, i + MAX_RPC_LEN) else []
  {
    hide Framed, PacketAt, Partials;
    var others := if |rpc| - i > MAX_RPC_LEN then Partials(codec, rpc, i + MAX_RPC_LEN) else [];
    var packet := Framed(codec.encodePacket(PacketAt(rpc, i)));
    PartialsStep(codec, rpc, i);
    assert before + ([packet] + others) == before + [packet] + others;
  }
}
