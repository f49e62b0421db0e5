/**
 * The web socket engine itself (src/websocket.c): the fields it updates, proved to follow the
 * state machine of `WsProtocol` on the receiving side and the encoder of `WsFrame` on the other.
 */
module Websocket {
  import opened Bytes
  import opened Http
  import opened WsFrame
  import opened WsProtocol
  import opened WsTheorems
  import opened Incremental
  import opened CharBuffer
  import Utf8

  /** The mask of a masked frame and whether any octet of it counts. */
  method ReadMask(view: seq<byte>) returns (isMasking: bool, mask: Key)
    requires |view| >= 2 && |view| >= HeaderLength(view[1])
    ensures isMasking == (view[1] >= 128 && IsNonzero(KeyOf(view)))
    ensures isMasking ==> mask == KeyOf(view)
  {
    isMasking, mask := false, [0, 0, 0, 0];
    if view[1] >= 128 {
      mask := KeyOf(view);
      var i := 0;
      while i < 4
        invariant 0 <= i <= 4
        invariant isMasking <==> exists j :: 0 <= j < i && mask[j] != 0
      {
        if mask[i] != 0 {
          isMasking := true;
        }
        i := i + 1;
      }
    }
  }

  /** The capacity that the buffer asks for when it has to grow, in the arithmetic of `size_t`. */
  function Resized(length: nat, used: nat, needed: nat): nat {
    Grown(length, 0, (used + needed) % SIZE_MODULUS)
  }

  /** A buffer that has grown has room for what was needed, if and only if the sum did not wrap around. */
  lemma RoomExactly(length: nat, used: nat, needed: nat)
    requires used <= length < SIZE_MODULUS / 4 && length - used < needed < SIZE_MODULUS
    ensures needed <= Resized(length, used, needed) - used <==> used + needed < SIZE_MODULUS
  {
    if used + needed >= SIZE_MODULUS {
      assert (used + needed) % SIZE_MODULUS == used + needed - SIZE_MODULUS;
    }
  }

  /**
   * So a payload fits behind the `used` octets of a message under way, once the buffer has grown,
   * if and only if its length has not wrapped around or is out of reach for any allocation.
   */
  lemma PayloadFits(length: nat, used: nat, frameLength: nat, b: byte)
    requires used <= length < SIZE_MODULUS / 4 && frameLength < SIZE_MODULUS / 4
    ensures var n := PayloadLength(frameLength, b);
            var needed := n % SIZE_MODULUS;
            length - used < needed ==>
              (needed <= Resized(length, used, needed) - used <==> n >= 0 || used < -n)
  {
    hide Resized;
    var n := PayloadLength(frameLength, b);
    var needed := n % SIZE_MODULUS;
    if n >= 0 {
      assert needed == n;
    } else {
      assert needed == n + SIZE_MODULUS;
    }
    if length - used < needed {
      RoomExactly(length, used, needed);
    }
  }

  /** Read the frame at the start of `view`; on success its payload is added to the data. */
  method ReadFrameInto(data: Buffer, continued: byte, frameLength: nat, view: seq<byte>) returns (r: Read)
    requires data.Valid()
    modifies data, data.mem
    ensures data.Valid() && data.MemKept()
    ensures r == ReadFrame(continued, frameLength, view)
    ensures data.contents == old(data.contents) + if r.Frame? then r.payload else []
    ensures data.head <= old(data.head)
  {
    hide Masked, KeyOf, IsNonzero, Utf8.Accepts, Buffer.Valid;
    if |view| < 2 {
      return Partial;
    }
    var opcode := Opcode(view[0]);
    var opcode2 := if opcode == OPCODE_CONTINUATION then continued else opcode;
    var start, n := HeaderLength(view[1]), PayloadLength(frameLength, view[1]);
    if n < 0 {
      return Overrun;
    }
    if start + n > |view| {
      return Partial;
    }
    var isMasking, mask := ReadMask(view);
    var ok, payload := TakePayload(data, opcode2 == OPCODE_TEXT, view[start..start + n], isMasking, mask);
    return if ok then Frame(IsFin(view[0]), opcode2, isMasking, payload, start + n) else BadText(start + n);
  }

  /** Add the payload to the data unless it is text that the table rejects. */
  method TakePayload(data: Buffer, isUtf8: bool, raw: seq<byte>, isMasking: bool, mask: Key)
    returns (ok: bool, payload: seq<byte>)
    requires data.Valid()
    modifies data, data.mem
    ensures data.Valid() && data.MemKept()
    ensures payload == if isMasking then Masked(mask, raw) else raw
    ensures ok == (isUtf8 ==> Utf8.Accepts(payload))
    ensures data.contents == old(data.contents) + if ok then payload else []
    ensures data.head <= old(data.head)
  {
    hide Masked;
    payload := ReadPayload(data, raw, isMasking, mask);
    ok := true;
    if isUtf8 {
      ok := Utf8.Check(payload);
    }
    if ok {
      data.Advance(|raw|);
    }
  }

  /** Make room for the payload and write it past the tail. */
  method ReadPayload(data: Buffer, raw: seq<byte>, isMasking: bool, mask: Key) returns (payload: seq<byte>)
    requires data.Valid()
    modifies data, data.mem
    ensures data.Valid() && data.MemKept()
    ensures data.contents == old(data.contents)
    ensures data.mem != null && |raw| <= data.Free() && data.Spare(|raw|) == payload
    ensures payload == if isMasking then Masked(mask, raw) else raw
    ensures data.head <= old(data.head)
  {
    hide Masked;
    data.EnsureCapacity(|raw|);
    payload := PutPayload(data, raw, if isMasking then Some(mask) else None);
  }

  /** Write the payload past the tail, where there is room for it. */
  method PutPayload(data: Buffer, raw: seq<byte>, mask: Option<Key>) returns (payload: seq<byte>)
    requires data.Valid() && data.mem != null && |raw| <= data.Free()
    modifies data.mem
    ensures data.Valid() && data.Spare(|raw|) == payload == MaskedIf(mask, raw)
  {
    hide MaskedIf;
    assert data.Spare(0) == [];
    PutOctets(data, 0, raw, mask);
    payload := data.mem[data.tail..data.tail + |raw|];
  }

  lemma OneMoreOctet(before: seq<byte>, goal: seq<byte>, i: nat)
    requires i < |goal|
    ensures before + goal[..i + 1] == before + goal[..i] + [goal[i]]
    ensures before + goal[..0] == before
  {
  }

  /** Write the length octets, from the most significant one down. */
  method PutLength(out: Buffer, n: nat, payloadLength: nat, octets: nat)
    requires out.Valid() && out.mem != null && n + octets <= out.Free()
    modifies out.mem
    ensures out.Valid() && out.Spare(n + octets) == old(out.Spare(n)) + BigEndian(payloadLength, octets)
  {
    hide Buffer.Valid, Buffer.Spare, BigEndian, Shift;
    ghost var digits := BigEndian(payloadLength, octets);
    var k := 0;
    while k < octets
      invariant k <= octets
      invariant out.Valid() && out.Spare(n + k) == old(out.Spare(n)) + digits[..k]
    {
      BigEndianDigit(payloadLength, octets, k);
      OneMoreOctet(old(out.Spare(n)), digits, k);
      out.Poke(n + k, Shift(payloadLength, octets - 1 - k) % 256);
      k := k + 1;
    }
  }

  function MaskedIf(mask: Option<Key>, octets: seq<byte>): (r: seq<byte>)
    ensures |r| == |octets|
  {
    if mask.Some? then Masked(mask.value, octets) else octets
  }

  lemma MaskedIfAt(mask: Option<Key>, octets: seq<byte>, i: nat)
    requires i < |octets|
    ensures MaskedIf(mask, octets)[i] == if mask.Some? then Xor(octets[i], mask.value[i % 4]) else octets[i]
  {
  }

  /** Write octets past the tail, after the `n` already there, applying the mask if there is one. */
  method PutOctets(out: Buffer, n: nat, octets: seq<byte>, mask: Option<Key>)
    requires out.Valid() && out.mem != null && n + |octets| <= out.Free()
    modifies out.mem
    ensures out.Valid() && out.Spare(n + |octets|) == old(out.Spare(n)) + MaskedIf(mask, octets)
  {
    hide Buffer.Valid, Buffer.Spare, MaskedIf, Masked, Xor;
    ghost var goal := MaskedIf(mask, octets);
    var i := 0;
    while i < |octets|
      invariant i <= |octets| && out.Valid()
      invariant out.Spare(n + i) == old(out.Spare(n)) + goal[..i]
    {
      var b := if mask.Some? then Xor(octets[i], mask.value[i % 4]) else octets[i];
      MaskedIfAt(mask, octets, i);
      out.Poke(n + i, b);
      OneMoreOctet(old(out.Spare(n)), goal, i);
      i := i + 1;
    }
    assert goal[..|octets|] == goal;
  }

  /** Write the first two octets of a frame. */
  method PutTwo(out: Buffer, first: byte, second: byte)
    requires out.Valid() && out.mem != null && 2 <= out.Free()
    modifies out.mem
    ensures out.Valid() && out.Spare(2) == [first, second]
  {
    hide Buffer.Valid;
    assert out.Spare(0) == [];
    out.Poke(0, first);
    out.Poke(1, second);
  }

  /** Write everything before the payload. */
  method PutPrefix(out: Buffer, isFin: bool, opcode: byte, key: Option<Key>, payloadLength: nat)
    requires out.Valid() && out.mem != null
    requires 2 + LengthOctets(payloadLength) + (if key.Some? then 4 else 0) <= out.Free()
    modifies out.mem
    ensures out.Valid()
    ensures out.Spare(|Prefix(isFin, opcode, key, payloadLength)|) == Prefix(isFin, opcode, key, payloadLength)
  {
    hide Masked, BigEndian, Buffer.Valid, FirstOctet, SecondOctet;
    var octets := LengthOctets(payloadLength);
    PutTwo(out, FirstOctet(isFin, opcode), SecondOctet(key.Some?, payloadLength));
    PutLength(out, 2, payloadLength, octets);
    if key.Some? {
      PutOctets(out, 2 + octets, key.value, None);
    }
  }

  /** Put the whole frame into the emptied output. */
  method PutFrame(out: Buffer, isFin: bool, opcode: byte, key: Option<Key>, payload: seq<byte>)
    requires out.Valid()
    modifies out, out.mem
    ensures out.Valid() && out.MemKept() && out.contents == Encode(isFin, opcode, key, payload)
  {
    hide Masked, BigEndian, Buffer.Valid, Buffer.Spare, FirstOctet, SecondOctet;
    var n := 2 + LengthOctets(|payload|) + if key.Some? then 4 else 0;
    out.Clear();
    out.EnsureCapacity(n + |payload|);
    PutPrefix(out, isFin, opcode, key, |payload|);
    PutOctets(out, n, payload, key);
    out.Advance(n + |payload|);
  }

  class Engine {
    /** The callbacks and `strtol`. */
    const env: Env

    const input: Buffer
    const data: Buffer
    const out: Buffer

    var phase: Phase
    var request: Request
    var neededLength: nat
    var frameLength: nat
    var continued: byte
    var sentClose: bool

    /** The callbacks made so far, and the data passed to `send_data`. */
    var trace: seq<Event>
    ghost var sent: seq<seq<byte>>

    ghost predicate Valid()
      reads this, input, input.mem, data, data.mem, out, out.mem
    {
      && input.Valid() && data.Valid() && out.Valid()
      && input != data && input != out && data != out
      && (input.mem != null ==> input.mem != data.mem && input.mem != out.mem)
      && (data.mem != null ==> data.mem != out.mem)
      && data.head == 0
      && (phase.ReadingFrame? ==> neededLength == 0)
    }

    /** The protocol state, were the phase `p`. */
    ghost function StateIn(p: Phase): State
      reads this, data
    {
      State(p, request, if p.ReadingFrame? then frameLength else 0, continued, data.contents, trace)
    }

    ghost function Current(): State
      reads this, data
    {
      StateIn(phase)
    }

    constructor (env: Env)
      ensures Valid() && this.env == env && fresh(input) && fresh(data) && fresh(out)
      ensures input.mem == null && data.mem == null && out.mem == null
      ensures Current() == Initial && input.contents == [] && neededLength == 0 && !sentClose && sent == []
    {
      this.env := env;
      input := new Buffer();
      data := new Buffer();
      out := new Buffer();
      phase := ReadHttpRequest;
      request := NoRequest;
      neededLength, frameLength, continued, sentClose := 0, 0, 0, false;
      trace, sent := [], [];
    }

    // ----- receiving -----

    /** The input window is outside everything that a handler writes. */
    ghost predicate Receiving()
      reads this, input, input.mem, input.inBuf, data, data.mem, out, out.mem
    {
      && Valid() && input.InInput()
      && input.inBuf != data.mem && input.inBuf != out.mem
    }

    /** The outcome `o` was carried out, except that the phase is still to be set to `next`. */
    ghost predicate Follows(o: Outcome<State>, next: Option<Phase>, s: State, view: seq<byte>)
      reads this, input, data
    {
      match o
      case Wait => next == None && Current() == s && input.view == view
      case _ =>
        && next.Some? && StateIn(next.value) == o.next
        && o.used <= |view| && input.view == view[o.used..]
        && (next.value.ReadingFrame? ==> neededLength == 0)
    }

    method RecvRequest() returns (next: Option<Phase>)
      requires Receiving() && phase.ReadHttpRequest?
      modifies this`request, input`inHead, input`view
      ensures Receiving()
      ensures Follows(WsProtocol.RecvRequest(old(Current()), old(input.view)), next, old(Current()), old(input.view))
    {
      hide Strnstr, Word;
      var view := input.inBuf[input.inHead..input.inTail];
      var found := FindString(view, CRLF);
      if found == None {
        return None;
      }
      var lineEnd := found.value;
      var w0, k0 := ScanWord(view, 0, lineEnd);
      var w1, k1 := ScanWord(view, k0, lineEnd);
      var w2, _ := ScanWord(view, k1, lineEnd);
      request := request.(verb := w0, resource := w1, httpVersion := w2);
      input.Consume(lineEnd);
      next := Some(if w2.None? then Error else ReadHttpHeaders);
    }

    method RecvHeaders() returns (next: Option<Phase>)
      requires Receiving() && phase.ReadHttpHeaders?
      modifies this`request, this`trace, input`inHead, input`view
      ensures Receiving()
      ensures Follows(WsProtocol.RecvHeaders(env, old(Current()), old(input.view)), next, old(Current()), old(input.view))
    {
      hide ReadHeaders, Strnstr;
      var view := input.inBuf[input.inHead..input.inTail];
      var found := FindString(view, CRLFCRLF);
      if found == None {
        return None;
      }
      var h, used := ScanHeaders(Applying(env.strtol), Headers(request, false, false), view[2..]);
      input.Consume(2 + used);
      var p := AnswerRequest(h, 2 + used);
      next := Some(p);
    }

    /** The callbacks for a complete request. */
    method AnswerRequest(h: Headers, ghost used: nat) returns (p: Phase)
      requires Valid()
      modifies this`request, this`trace
      ensures Valid() && !p.ReadingFrame?
      ensures var o := AfterHeaders(env, old(Current()).(frameLength := 0), h, used); StateIn(p) == o.next
    {
      request := h.request;
      trace := trace + [HttpRequest(request.verb, request.resource, request.httpVersion, request.reqHost, IsWebsocket(h))];
      if env.reply(trace).fails {
        return Error;
      }
      if !IsWebsocket(h) {
        return if env.reply(trace).keepAlive then ReadHttpRequest else Closed;
      }
      trace := trace + [Upgrade(request.resource, request.protocol, request.version, request.secKey.value)];
      if env.reply(trace).fails {
        return Error;
      }
      return ReadFrameLength;
    }

    method RecvFrameLength() returns (next: Option<Phase>)
      requires Receiving() && phase.ReadFrameLength?
      modifies this`neededLength, this`frameLength
      ensures Receiving()
      ensures Follows(WsProtocol.RecvFrameLength(old(Current()), old(input.view)), next, old(Current()), old(input.view))
    {
      var view := input.inBuf[input.inHead..input.inTail];
      var ok := ReadFrameLengthOf(view);
      if !ok {
        return Some(Error);
      }
      if neededLength != 0 || frameLength == 0 {
        return None;
      }
      return Some(ReadingFrame);
    }

    /** Work out the length of the frame at the start of `view`, or how much more is needed for that. */
    method ReadFrameLengthOf(view: seq<byte>) returns (ok: bool)
      modifies this`neededLength, this`frameLength
      ensures match FrameLength(continued, view)
              case Bad => !ok && neededLength == 0 && frameLength == 0
              case Need(n) => ok && neededLength == n && frameLength == 0
              case Total(n) => ok && neededLength == 0 && frameLength == n
    {
      neededLength, frameLength := 0, 0;
      if |view| < 2 {
        neededLength := 2;
        return true;
      }
      var opcode := Opcode(view[0]);
      if HasReserved(view[0]) || !IsOpcode(opcode) || (IsControl(opcode) && !IsFin(view[0])) {
        return false;
      }
      if opcode == OPCODE_CONTINUATION {
        if continued == 0 {
          return false;
        }
      } else if !IsControl(opcode) && continued != 0 {
        return false;
      }
      var payloadLength: nat := Short(view[1]);
      if IsControl(opcode) && payloadLength > 125 {
        return false;
      }
      var n := Extended(view[1]);
      if |view| < 2 + n {
        neededLength := 2 + n;
        return true;
      }
      if n > 0 {
        payloadLength := ReadBigEndian(view[2..2 + n]);
      }
      frameLength := (2 + n + (if view[1] >= 128 then 4 else 0) + payloadLength) % SIZE_MODULUS;
      return true;
    }

    method RecvFrame() returns (next: Option<Phase>)
      requires Receiving() && phase.ReadingFrame?
      modifies this`trace, this`continued, data, data.mem, input`inHead, input`view
      ensures Receiving() && data.MemKept()
      ensures Follows(WsProtocol.RecvFrame(env, old(Current()), old(input.view)), next, old(Current()), old(input.view))
    {
      hide ReadFrame, AfterFrame;
      var view := input.inBuf[input.inHead..input.inTail];
      if neededLength != 0 || frameLength == 0 || |view| < frameLength {
        return None;
      }
      ghost var s := Current();
      var r := ReadFrameInto(data, continued, frameLength, view);
      if r.Partial? {
        return None;
      }
      if !r.Overrun? {
        input.Consume(r.used);
      }
      if !r.Frame? {
        return Some(Error);
      }
      var p := AnswerFrame(r.isFin, r.opcode, r.isMasking, s, r.payload, r.used);
      return Some(p);
    }

    /** The callback for a frame whose payload has joined the data. */
    method AnswerFrame(isFin: bool, opcode: byte, isMasking: bool, ghost s: State, ghost payload: seq<byte>, ghost used: nat)
      returns (p: Phase)
      requires Valid()
      requires Current().(data := s.data) == s && data.contents == s.data + payload
      modifies this`trace, this`continued, data`head, data`tail, data`contents
      ensures Valid() && !p.ReadingFrame?
      ensures var o := AfterFrame(env, s, isFin, opcode, isMasking, payload, used);
              !o.Wait? && o.used == used && StateIn(p) == o.next
    {
      hide Valid;
      var r := CallOnFrame(isFin, opcode, isMasking);
      if r.fails {
        return Error;
      }
      Settle(isFin, opcode, r.shouldKeep);
      return if opcode == OPCODE_CLOSE then Closed else ReadFrameLength;
    }

    /** The callback gets everything from the start of the allocation to the tail. */
    method CallOnFrame(isFin: bool, opcode: byte, isMasking: bool) returns (r: Reply)
      requires Valid()
      modifies this`trace
      ensures Valid()
      ensures trace == old(trace) + [OnFrame(isFin, opcode, isMasking, data.contents)] && r == env.reply(trace)
    {
      var all := if data.mem == null then [] else data.mem[..data.tail];
      trace := trace + [OnFrame(isFin, opcode, isMasking, all)];
      r := env.reply(trace);
    }

    /** Drop the data at the end of a message or when the callback is done with it. */
    method Settle(isFin: bool, opcode: byte, shouldKeep: bool)
      requires Valid()
      modifies this`continued, data`head, data`tail, data`contents
      ensures Valid()
      ensures data.contents == if isFin || !shouldKeep then [] else old(data.contents)
      ensures continued == if isFin then 0 else if opcode != OPCODE_CONTINUATION then opcode else old(continued)
    {
      if isFin || !shouldKeep {
        data.Clear();
      }
      if isFin {
        continued := 0;
      } else if opcode != OPCODE_CONTINUATION {
        continued := opcode;
      }
    }

    /** The handler of the current phase. */
    method Handle() returns (next: Option<Phase>)
      requires Receiving() && !IsDone(phase)
      modifies this`request, this`neededLength, this`frameLength, this`trace, this`continued, data, data.mem, input`inHead, input`view
      ensures Receiving() && data.MemKept()
      ensures Follows(Step(env, old(Current()), old(input.view)), next, old(Current()), old(input.view))
    {
      hide WsProtocol.RecvRequest, WsProtocol.RecvHeaders, WsProtocol.RecvFrameLength, WsProtocol.RecvFrame;
      match phase
      case ReadHttpRequest =>
        next := RecvRequest();
      case ReadHttpHeaders =>
        next := RecvHeaders();
      case ReadFrameLength =>
        next := RecvFrameLength();
      case ReadingFrame =>
        next := RecvFrame();
    }

    method Begin(buf: array<byte>, length: nat)
      requires Valid() && length <= buf.Length
      requires buf != input.mem && buf != data.mem && buf != out.mem
      modifies input, input.mem
      ensures Receiving() && input.MemKept() && Current() == old(Current())
      ensures input.view == old(input.contents) + old(buf[..length])
    {
      input.BeginInput(buf, length);
    }

    method End()
      requires Receiving()
      modifies input, input.mem
      ensures Valid() && input.MemKept() && Current() == old(Current()) && input.contents == old(input.view)
    {
      input.EndInput();
    }

    method AtEnd() returns (b: bool)
      requires Receiving()
      ensures b <==> input.view == []
    {
      b := input.inTail == input.inHead;
    }

    method Enter(p: Phase)
      requires Receiving() && (p.ReadingFrame? ==> neededLength == 0)
      modifies this`phase
      ensures Receiving() && phase == p && Current() == old(StateIn(p))
    {
      phase := p;
    }

    /** One turn of the loop: `done` tells that the loop returns `error`. */
    method HandleOnce() returns (done: bool, error: bool)
      requires Receiving()
      modifies this`request, this`neededLength, this`frameLength, this`trace, this`continued, this`phase,
        data, data.mem, input`inHead, input`view
      ensures Receiving() && data.MemKept()
      ensures done ==> Reached(Current(), input.view, error) == RunFrom(env, old(Current()), old(input.view))
      ensures !done ==> RunFrom(env, Current(), input.view) == RunFrom(env, old(Current()), old(input.view))
      ensures !done ==> |input.view| < old(|input.view|)
                        || (|input.view| == old(|input.view|) && Rank(Current()) < Rank(old(Current())))
    {
      hide Step, RunFrom, Valid, Receiving;
      ghost var s, view := Current(), input.view;
      RunPhases(env, s, view);
      if phase.Closed? || phase.Error? {
        return true, true;
      }
      Turn(env, s, view);
      StepMeasure(env, s, view);
      var next := Handle();
      if next == None {
        return true, false;
      }
      StepPhases(env, s, view);
      Enter(next.value);
      if phase.Closed? || phase.Error? {
        return true, true;
      }
      var atEnd := AtEnd();
      if atEnd {
        NothingToRead(env, Current());
        Turn(env, Current(), []);
        return true, false;
      }
      return false, false;
    }

    /** Handle the input that is there: one handler after the other until one waits or stops. */
    method RecvLoop() returns (error: bool)
      requires Receiving()
      modifies this`request, this`neededLength, this`frameLength, this`trace, this`continued, this`phase,
        data, data.mem, input`inHead, input`view
      ensures Receiving() && data.MemKept()
      ensures Reached(Current(), input.view, error) == RunFrom(env, old(Current()), old(input.view))
    {
      hide RunFrom, Valid, Receiving, Current, Rank;
      var done := false;
      error := false;
      while !done
        invariant Receiving() && data.MemKept()
        invariant done ==> Reached(Current(), input.view, error) == RunFrom(env, old(Current()), old(input.view))
        invariant !done ==> RunFrom(env, Current(), input.view) == RunFrom(env, old(Current()), old(input.view))
        decreases !done, |input.view|, Rank(Current())
      {
        done, error := HandleOnce();
      }
    }

    /** Some new input. */
    method OnInput(buf: array<byte>, length: nat) returns (error: bool)
      requires Valid() && length <= buf.Length
      requires buf != input.mem && buf != data.mem && buf != out.mem
      modifies this`request, this`neededLength, this`frameLength, this`trace, this`continued, this`phase,
        data, data.mem, input, input.mem
      ensures Valid() && input.MemKept() && data.MemKept()
      ensures Reached(Current(), input.contents, error) ==
              RunFrom(env, old(Current()), old(input.contents) + old(buf[..length]))
    {
      hide RunFrom, Valid, Receiving, Current;
      Begin(buf, length);
      error := RecvLoop();
      End();
    }

    /** New input of `length` octets: negative and zero lengths are dealt with at once. */
    method OnRecv(buf: array<byte>, length: int) returns (error: bool)
      requires Valid() && length <= buf.Length
      requires buf != input.mem && buf != data.mem && buf != out.mem
      modifies this`request, this`neededLength, this`frameLength, this`trace, this`continued, this`phase,
        data, data.mem, input, input.mem
      ensures Valid() && input.MemKept() && data.MemKept()
      ensures length <= 0 ==> error == (length < 0) && Current() == old(Current()) && input.contents == old(input.contents)
      ensures length > 0 ==>
                Reached(Current(), input.contents, error) ==
                RunFrom(env, old(Current()), old(input.contents) + old(buf[..length]))
    {
      hide RunFrom, Valid, Current;
      if length <= 0 {
        return length < 0;
      }
      error := OnInput(buf, length);
    }

    // ----- sending -----

    /**
     * Send one frame. `key` holds the random mask of a masked frame, `accepted` is the answer of
     * `send_data`.
     */
    method SendFrame(isFin: bool, opcode: byte, key: Option<Key>, payload: seq<byte>, accepted: bool) returns (error: bool)
      requires Valid()
      modifies this`continued, this`sentClose, this`sent, out, out.mem
      ensures Valid() && out.MemKept()
      ensures match WireOpcode(old(continued), old(sentClose), isFin, opcode, payload)
              case None =>
                error && continued == old(continued) && sentClose == old(sentClose) && sent == old(sent)
              case Some(wire) =>
                && error == !accepted
                && sent == old(sent) + [Encode(isFin, wire, key, payload)]
                && continued == (if !isFin && old(continued) == 0 then opcode else old(continued))
                && sentClose == (accepted && opcode == OPCODE_CLOSE)
    {
      hide Encode, Utf8.Accepts, Buffer.Valid;
      if sentClose || !IsOpcode(opcode) {
        return true;
      }
      if IsControl(opcode) {
        if !isFin || |payload| > 125 {
          return true;
        }
      }
      var opcode2 := opcode;
      if !IsControl(opcode) && continued != 0 {
        if continued != opcode {
          return true;
        }
        opcode2 := OPCODE_CONTINUATION;
      }
      if opcode2 == OPCODE_TEXT {
        var valid := Utf8.Check(payload);
        if !valid {
          return true;
        }
      }
      PutFrame(out, isFin, opcode2, key, payload);
      if !isFin && continued == 0 {
        continued := opcode;
      }
      sent := sent + [out.contents];
      if accepted && opcode == OPCODE_CLOSE {
        sentClose := true;
      }
      return !accepted;
    }

    /** Send a close frame with a status code and a reason. */
    method SendClose(closeCode: nat, reason: seq<byte>, accepted: bool) returns (error: bool)
      requires Valid() && closeCode < 65536
      modifies this`continued, this`sentClose, this`sent, out, out.mem
      ensures Valid() && out.MemKept() && continued == old(continued)
      ensures if !old(sentClose) && |reason| <= 123 then
                && sent == old(sent) + [Encode(true, OPCODE_CLOSE, None, [closeCode / 256, closeCode % 256] + reason)]
                && error == !accepted && sentClose == accepted
              else error && sent == old(sent) && sentClose == old(sentClose)
    {
      hide Encode;
      error := SendFrame(true, OPCODE_CLOSE, None, [closeCode / 256, closeCode % 256] + reason, accepted);
    }
  }
}
