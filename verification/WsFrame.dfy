/**
 * The frame format of sections 5.2 and 5.3 of RFC 6455, as src/websocket.c writes it
 * (`ws_send_frame`) and reads it (`ws_read_frame_length`, `ws_read_frame`).
 */
module WsFrame {
  import opened Bytes
  import Utf8

  const OPCODE_CONTINUATION: byte := 0x0
  const OPCODE_TEXT: byte := 0x1
  const OPCODE_BINARY: byte := 0x2
  const OPCODE_CLOSE: byte := 0x8
  const OPCODE_PING: byte := 0x9
  const OPCODE_PONG: byte := 0xA

  const UINT16_MAX: nat := 65535
  /** The number of values of `size_t`. */
  const SIZE_MODULUS: nat := 0x1_0000_0000_0000_0000

  predicate IsOpcode(opcode: byte) {
    || opcode == OPCODE_CONTINUATION || opcode == OPCODE_TEXT || opcode == OPCODE_BINARY
    || opcode == OPCODE_CLOSE || opcode == OPCODE_PING || opcode == OPCODE_PONG
  }

  predicate IsControl(opcode: byte) {
    opcode >= OPCODE_CLOSE
  }

  type Key = k: seq<byte> | |k| == 4 witness [0, 0, 0, 0]

  predicate IsNonzero(key: Key) {
    key[0] != 0 || key[1] != 0 || key[2] != 0 || key[3] != 0
  }

  /** The payload with the key applied to it octet by octet. */
  function Masked(key: Key, payload: seq<byte>): (r: seq<byte>)
    ensures |r| == |payload|
  {
    seq(|payload|, i requires 0 <= i < |payload| => Xor(payload[i], key[i % 4]))
  }

  /** Masking is its own inverse, and a zero key does nothing. */
  lemma MaskedTwice(key: Key, payload: seq<byte>)
    ensures Masked(key, Masked(key, payload)) == payload
    ensures !IsNonzero(key) ==> Masked(key, payload) == payload
  {
    forall i | 0 <= i < |payload|
      ensures Masked(key, Masked(key, payload))[i] == payload[i]
      ensures !IsNonzero(key) ==> Masked(key, payload)[i] == payload[i]
    {
      XorTwice(payload[i], key[i % 4]);
    }
  }

  // ----- sending -----

  /**
   * The opcode that goes on the wire, or nothing when `ws_send_frame` refuses the frame.
   * `continued` is the opcode of the fragmented message under way, 0 when there is none.
   */
  function WireOpcode(continued: byte, sentClose: bool, isFin: bool, opcode: byte, payload: seq<byte>): Option<byte> {
    if sentClose || !IsOpcode(opcode) then None
    else if IsControl(opcode) && (!isFin || |payload| > 125) then None
    else if !IsControl(opcode) && continued != 0 && continued != opcode then None
    else
      var opcode2 := if !IsControl(opcode) && continued != 0 then OPCODE_CONTINUATION else opcode;
      if opcode2 == OPCODE_TEXT && !Utf8.Accepts(payload) then None else Some(opcode2)
  }

  /** How many octets the extended payload length takes: 65535 already takes the long form. */
  function LengthOctets(n: nat): nat {
    if n < 126 then 0 else if n < UINT16_MAX then 2 else 8
  }

  function FirstOctet(isFin: bool, opcode: byte): byte {
    (if isFin then 128 else 0) + opcode % 16
  }

  function SecondOctet(isMasking: bool, n: nat): byte {
    (if isMasking then 128 else 0) +
    (if LengthOctets(n) == 0 then n else if LengthOctets(n) == 2 then 126 else 127)
  }

  /** Everything before the payload. */
  function Prefix(isFin: bool, opcode: byte, key: Option<Key>, n: nat): (s: seq<byte>)
    ensures |s| == 2 + LengthOctets(n) + if key.Some? then 4 else 0
  {
    [FirstOctet(isFin, opcode), SecondOctet(key.Some?, n)] +
    BigEndian(n, LengthOctets(n)) +
    (if key.Some? then key.value else [])
  }

  function Encode(isFin: bool, opcode: byte, key: Option<Key>, payload: seq<byte>): seq<byte> {
    Prefix(isFin, opcode, key, |payload|) +
    (if key.Some? then Masked(key.value, payload) else payload)
  }

  // ----- receiving -----

  datatype Length = Need(octets: nat) | Bad | Total(length: nat)

  predicate IsFin(b: byte) {
    b >= 128
  }

  predicate HasReserved(b: byte) {
    b / 16 % 8 != 0
  }

  function Opcode(b: byte): byte {
    b % 16
  }

  /** The first octet is one that `ws_read_frame_length` rejects. */
  predicate BadFirst(continued: byte, b: byte) {
    || HasReserved(b)
    || !IsOpcode(Opcode(b))
    || (IsControl(Opcode(b)) && !IsFin(b))
    || (if Opcode(b) == OPCODE_CONTINUATION then continued == 0
        else !IsControl(Opcode(b)) && continued != 0)
  }

  function Short(b: byte): nat {
    b % 128
  }

  function Extended(b: byte): nat {
    if Short(b) < 126 then 0 else if Short(b) < 127 then 2 else 8
  }

  /** The number of octets before the payload, given the second one. */
  function HeaderLength(b: byte): nat {
    2 + Extended(b) + if b >= 128 then 4 else 0
  }

  /** How long the frame at the start of `s` is, in the arithmetic of `size_t`. */
  function FrameLength(continued: byte, s: seq<byte>): Length {
    if |s| < 2 then Need(2)
    else if BadFirst(continued, s[0]) || (IsControl(Opcode(s[0])) && Short(s[1]) > 125) then Bad
    else
      var n := Extended(s[1]);
      if |s| < 2 + n then Need(2 + n)
      else
        var payload := if n == 0 then Short(s[1]) else FromBigEndian(s[2..2 + n]);
        Total((HeaderLength(s[1]) + payload) % SIZE_MODULUS)
  }

  /** `Partial` does not come up when `length` is the length of the frame in `s`. */
  datatype Read =
    | Partial
    | Overrun
    | BadText(used: nat)
    | Frame(isFin: bool, opcode: byte, isMasking: bool, payload: seq<byte>, used: nat)

  function KeyOf(s: seq<byte>): Key
    requires |s| >= 2 && |s| >= 2 + Extended(s[1]) + 4
  {
    s[2 + Extended(s[1])..][..4]
  }

  /**
   * The payload length that `ws_read_frame` works out again from the frame length. It is
   * negative when the frame length wrapped around. With no data of a message under way no buffer
   * can then be made large enough, which is the error here; with such data the capacity that the
   * code asks for wraps around as well, and what happens then is not part of this model.
   */
  function PayloadLength(length: nat, b: byte): int {
    if Extended(b) == 0 then Short(b) else length - HeaderLength(b)
  }

  /** The frame of `length` octets at the start of `s`. */
  function ReadFrame(continued: byte, length: nat, s: seq<byte>): (r: Read)
    ensures r.BadText? || r.Frame? ==> 2 <= r.used <= |s|
  {
    if |s| < 2 then Partial
    else
      var start, n := HeaderLength(s[1]), PayloadLength(length, s[1]);
      if n < 0 then Overrun
      else if start + n > |s| then Partial
      else
        var raw := s[start..start + n];
        var isMasking := s[1] >= 128 && IsNonzero(KeyOf(s));
        var payload := if isMasking then Masked(KeyOf(s), raw) else raw;
        var opcode := if Opcode(s[0]) == OPCODE_CONTINUATION then continued else Opcode(s[0]);
        if opcode == OPCODE_TEXT && !Utf8.Accepts(payload) then BadText(start + n)
        else Frame(IsFin(s[0]), opcode, isMasking, payload, start + n)
  }

  // ----- round trip -----

  /** The opcode that a receiver reports for a frame whose first octet carries `wire`. */
  function Reported(continued: byte, wire: byte): byte {
    if wire == OPCODE_CONTINUATION then continued else wire
  }

  /** The receiver is at a point of the message where `wire` may come. */
  predicate Fits(continued: byte, isFin: bool, wire: byte) {
    && IsOpcode(wire)
    && (IsControl(wire) ==> isFin)
    && (if wire == OPCODE_CONTINUATION then continued != 0 else IsControl(wire) || continued == 0)
  }

  lemma FirstOctetReadBack(continued: byte, isFin: bool, wire: byte)
    requires IsOpcode(wire)
    ensures var b := FirstOctet(isFin, wire);
            IsFin(b) == isFin && Opcode(b) == wire && !HasReserved(b)
    ensures BadFirst(continued, FirstOctet(isFin, wire)) <==> !Fits(continued, isFin, wire)
  {
  }

  lemma SecondOctetReadBack(isMasking: bool, n: nat)
    ensures var b := SecondOctet(isMasking, n);
            && (b >= 128) == isMasking && Extended(b) == LengthOctets(n)
            && (LengthOctets(n) == 0 ==> Short(b) == n)
            && (LengthOctets(n) > 0 ==> Short(b) > 125)
  {
  }

  /** The parts of an encoded frame, where the reader looks for them. */
  lemma Layout(isFin: bool, wire: byte, key: Option<Key>, payload: seq<byte>, rest: seq<byte>)
    ensures var n := |payload|;
            var s, prefix := Encode(isFin, wire, key, payload) + rest, Prefix(isFin, wire, key, n);
            var k := 2 + LengthOctets(n);
            && s[0] == FirstOctet(isFin, wire) && s[1] == SecondOctet(key.Some?, n)
            && s[2..k] == BigEndian(n, LengthOctets(n))
            && (key.Some? ==> s[k..][..4] == key.value)
            && s[|prefix|..|prefix| + n] == if key.Some? then Masked(key.value, payload) else payload
  {
    hide BigEndian, Masked, FirstOctet, SecondOctet, LengthOctets;
    var n := |payload|;
    var prefix := Prefix(isFin, wire, key, n);
    var k := 2 + LengthOctets(n);
    var body := if key.Some? then Masked(key.value, payload) else payload;
    var s := prefix + body + rest;
    assert Encode(isFin, wire, key, payload) + rest == s;
    assert s[..|prefix|] == prefix;
    assert s[2..k] == prefix[2..k];
    assert prefix[2..k] == BigEndian(n, LengthOctets(n));
    if key.Some? {
      assert s[k..][..4] == prefix[k..];
    }
  }

  // ----- the octets themselves -----

  /** The header of a frame in the words of section 5.2 of RFC 6455. */
  lemma SentHeader(isFin: bool, opcode: byte, key: Option<Key>, payload: seq<byte>)
    requires opcode < 16 && |payload| < 0x8000_0000_0000_0000
    ensures var s, n := Encode(isFin, opcode, key, payload), |payload|;
            && |s| >= 2 && s[0] == opcode + (if isFin then 0x80 else 0)
            && s[1] / 0x80 == (if key.Some? then 1 else 0)
            && (n <= 125 ==> s[1] % 0x80 == n && |s| == 2 + (if key.Some? then 4 else 0) + n)
            && (126 <= n < 65535 ==> s[1] % 0x80 == 126 && |s| == 4 + (if key.Some? then 4 else 0) + n
                                     && s[2] as int * 0x100 + s[3] as int == n)
            && (65535 <= n ==> s[1] % 0x80 == 127 && |s| == 10 + (if key.Some? then 4 else 0) + n
                               && FromBigEndian(s[2..10]) == n)
            && (key.Some? ==> s[|s| - n - 4..|s| - n] == key.value)
            && (key.None? ==> s[|s| - n..] == payload)
  {
    hide BigEndian, FromBigEndian, Masked;
    var n := |payload|;
    Layout(isFin, opcode, key, payload, []);
    var s := Encode(isFin, opcode, key, payload);
    assert s + [] == s;
    LengthReadBack(n);
    if 126 <= n < 65535 {
      TwoDigits(s[2..4]);
    }
  }

  lemma TwoDigits(s: seq<byte>)
    requires |s| == 2
    ensures FromBigEndian(s) == s[0] as int * 0x100 + s[1] as int
  {
    assert s[..1][..0] == [];
    assert FromBigEndian(s[..1]) == s[0];
  }

  /** Which frames are refused, and the opcode on the wire of one that is sent. */
  lemma SentOpcode(continued: byte, sentClose: bool, isFin: bool, opcode: byte, payload: seq<byte>)
    ensures WireOpcode(continued, sentClose, isFin, opcode, payload) ==
            if sentClose || opcode !in {0, 1, 2, 8, 9, 10} then None
            else if opcode >= 8 then (if isFin && |payload| < 126 then Some(opcode) else None)
            else if continued != 0 then (if opcode == continued then Some(0) else None)
            else if opcode == 1 && !Utf8.Accepts(payload) then None
            else Some(opcode)
  {
    hide Utf8.Accepts;
  }

  /** The first two octets are those of a frame that is rejected before its length is known. */
  predicate Rejected(continued: byte, b0: byte, b1: byte) {
    var opcode := b0 % 16;
    || b0 / 16 % 8 != 0 || opcode !in {0, 1, 2, 8, 9, 10}
    || (opcode >= 8 && (b0 < 128 || b1 % 128 > 125))
    || (opcode == 0 && continued == 0)
    || (opcode in {1, 2} && continued != 0)
  }

  /** What the first octets say of the length of a frame. */
  lemma ReadHeader(continued: byte, s: seq<byte>)
    requires |s| >= 2
    ensures var n, mask, read := s[1] % 128, if s[1] >= 128 then 4 else 0, FrameLength(continued, s);
            && (read == Bad <==> Rejected(continued, s[0], s[1]))
            && (read != Bad && n < 126 ==> read == Total(2 + mask + n))
            && (read != Bad && n == 126 ==>
                  read == if |s| < 4 then Need(4) else Total(4 + mask + (s[2] as int * 0x100 + s[3] as int)))
            && (read != Bad && n == 127 ==>
                  read == if |s| < 10 then Need(10) else Total((10 + mask + FromBigEndian(s[2..10])) % SIZE_MODULUS))
  {
    hide FromBigEndian, IsOpcode, BadFirst;
    RejectedFirst(continued, s[0]);
    if s[1] % 128 == 126 && |s| >= 4 {
      TwoDigits(s[2..4]);
    }
  }

  lemma RejectedFirst(continued: byte, b: byte)
    ensures BadFirst(continued, b) <==> Rejected(continued, b, 0)
  {
  }

  /**
   * A length so large that the sum with the header wraps around: at exactly 2^64 the frame counts
   * as one of unknown length, above it the header is longer than the frame.
   */
  lemma WrappedLength(continued: byte, s: seq<byte>)
    requires |s| >= 10 && s[1] % 128 == 127 && !Rejected(continued, s[0], s[1])
    requires 10 + (if s[1] >= 128 then 4 else 0) + FromBigEndian(s[2..10]) >= SIZE_MODULUS
    ensures var over := 10 + (if s[1] >= 128 then 4 else 0) + FromBigEndian(s[2..10]) - SIZE_MODULUS;
            && FrameLength(continued, s) == Total(over) && over < 14
            && ReadFrame(continued, over, s) == Overrun
  {
    hide BigEndian, FromBigEndian, IsOpcode, BadFirst, Rejected;
    ReadHeader(continued, s);
    FromBigEndianBound(s[2..10]);
    Pow256Of8();
  }

  /** What a frame that is read says of the first octet, and when its text is checked. */
  lemma ReadFirst(continued: byte, length: nat, s: seq<byte>)
    requires |s| >= 2
    ensures var r, opcode := ReadFrame(continued, length, s), if s[0] % 16 == 0 then continued else s[0] % 16;
            && (r.Frame? ==> r.isFin == (s[0] >= 128) && r.opcode == opcode && (opcode == 1 ==> Utf8.Accepts(r.payload)))
            && (r.BadText? ==> opcode == 1)
  {
    hide Utf8.Accepts, Masked, IsNonzero;
  }

  /** Every bit of a masked octet on the wire is that of the payload and of the key, in turn four octets of it. */
  lemma SentOctet(isFin: bool, opcode: byte, key: Key, payload: seq<byte>, i: nat, k: nat)
    requires i < |payload| && k < 8
    ensures var s := Encode(isFin, opcode, Some(key), payload);
            && |s| >= |payload|
            && s[|s| - |payload| + i] / Pow2(k) % 2 == (payload[i] / Pow2(k) + key[i % 4] / Pow2(k)) % 2
  {
    hide BigEndian, Xor, Pow2, FirstOctet, SecondOctet, LengthOctets;
    var prefix := Prefix(isFin, opcode, Some(key), |payload|);
    assert Encode(isFin, opcode, Some(key), payload)[|prefix| + i] == Masked(key, payload)[i];
    XorIsBitwise(payload[i], key[i % 4], k);
  }

  /** And so it is taken off again: the key stands in front of the payload. */
  lemma ReadOctet(continued: byte, length: nat, s: seq<byte>, i: nat, k: nat)
    requires ReadFrame(continued, length, s).Frame? && k < 8
    requires i < |ReadFrame(continued, length, s).payload|
    ensures var r := ReadFrame(continued, length, s);
            var start := r.used - |r.payload|;
            && 2 <= start && r.used <= |s|
            && (s[1] < 0x80 ==> r.payload == s[start..r.used])
            && (s[1] >= 0x80 ==>
                  start >= 6 && r.payload[i] / Pow2(k) % 2 == (s[start + i] / Pow2(k) + s[start - 4 + i % 4] / Pow2(k)) % 2)
  {
    hide Xor, Pow2, Utf8.Accepts, IsNonzero;
    var r := ReadFrame(continued, length, s);
    var start := HeaderLength(s[1]);
    if s[1] >= 0x80 {
      XorIsBitwise(s[start + i], s[start - 4 + i % 4], k);
      UnmaskedOctet(KeyOf(s), s[start..r.used], i);
    }
  }

  /** A zero key changes nothing, so whether it is applied makes no difference. */
  lemma UnmaskedOctet(key: Key, raw: seq<byte>, i: nat)
    requires i < |raw|
    ensures (if IsNonzero(key) then Masked(key, raw) else raw)[i] == Xor(raw[i], key[i % 4])
  {
    hide Xor;
    XorTwice(raw[i], key[i % 4]);
  }

  /** The long form fits because lengths are below 2^63; the short forms by their bounds. */
  lemma LengthReadBack(n: nat)
    requires n < SIZE_MODULUS / 2
    ensures LengthOctets(n) > 0 ==> FromBigEndian(BigEndian(n, LengthOctets(n))) == n
  {
    if LengthOctets(n) == 2 {
      assert Pow256(2) == 65536;
      BigEndianRoundTrip(n, 2);
    } else if LengthOctets(n) == 8 {
      Pow256Of8();
      BigEndianRoundTrip(n, 8);
    }
  }

  lemma Pow256Of8()
    ensures Pow256(8) == SIZE_MODULUS
  {
  }

  /** The length that is read is the number of octets that were written. */
  lemma LengthRoundTrip(continued: byte, isFin: bool, wire: byte, key: Option<Key>, payload: seq<byte>, rest: seq<byte>)
    requires Fits(continued, isFin, wire) && |payload| < SIZE_MODULUS / 2
    requires IsControl(wire) ==> |payload| <= 125
    ensures var bytes := Encode(isFin, wire, key, payload);
            FrameLength(continued, bytes + rest) == Total(|bytes|)
  {
    hide Encode, Prefix, FirstOctet, SecondOctet, IsControl, BadFirst, FromBigEndian, BigEndian, FrameLength;
    hide HasReserved, IsFin, Opcode, Short;
    var n := |payload|;
    var s := Encode(isFin, wire, key, payload) + rest;
    assert IsOpcode(wire);
    hide IsOpcode, Fits;
    Layout(isFin, wire, key, payload, rest);
    FirstOctetReadBack(continued, isFin, wire);
    SecondOctetReadBack(key.Some?, n);
    LengthReadBack(n);
    EncodeLength(isFin, wire, key, payload);
    FrameLengthOf(continued, s);
  }

  /** The length of a frame whose header is complete and in order. */
  lemma FrameLengthOf(continued: byte, s: seq<byte>)
    requires |s| >= 2 && |s| >= 2 + Extended(s[1]) && !BadFirst(continued, s[0])
    requires IsControl(Opcode(s[0])) ==> Short(s[1]) <= 125
    ensures var n := Extended(s[1]);
            var payload := if n == 0 then Short(s[1]) else FromBigEndian(s[2..2 + n]);
            FrameLength(continued, s) == Total((HeaderLength(s[1]) + payload) % SIZE_MODULUS)
  {
  }

  lemma EncodeLength(isFin: bool, wire: byte, key: Option<Key>, payload: seq<byte>)
    ensures |Encode(isFin, wire, key, payload)| == |Prefix(isFin, wire, key, |payload|)| + |payload|
    ensures |Encode(isFin, wire, key, payload)| == HeaderLength(SecondOctet(key.Some?, |payload|)) + |payload|
  {
  }

  /**
   * Reading an encoded frame gives its fin flag, its payload and the opcode of its message, and
   * consumes exactly what was written; the masking flag tells whether the key was not all zero.
   */
  lemma FrameRoundTrip(continued: byte, isFin: bool, wire: byte, key: Option<Key>, payload: seq<byte>, rest: seq<byte>)
    requires Fits(continued, isFin, wire)
    requires Reported(continued, wire) == OPCODE_TEXT ==> Utf8.Accepts(payload)
    ensures var bytes := Encode(isFin, wire, key, payload);
            ReadFrame(continued, |bytes|, bytes + rest) ==
            Frame(isFin, Reported(continued, wire), key.Some? && IsNonzero(key.value), payload, |bytes|)
  {
    hide Encode, Prefix, FirstOctet, SecondOctet, IsOpcode, IsControl, Masked, IsNonzero;
    Layout(isFin, wire, key, payload, rest);
    FirstOctetReadBack(continued, isFin, wire);
    SecondOctetReadBack(key.Some?, |payload|);
    EncodeLength(isFin, wire, key, payload);
    if key.Some? {
      MaskedTwice(key.value, payload);
    }
  }
}
