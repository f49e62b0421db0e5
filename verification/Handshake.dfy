/** The answer to a web socket key (`ws_compute_answer` in src/websocket.c). */
module Handshake {
  import opened Bytes
  import Base64
  import Http
  import Sha1

  /** The identifier of section 1.3 of RFC 6455. */
  function Magic(): seq<byte> {
    Http.Ascii("258EAFA5-E914-47DA-95CA-C5AB0DC85B11")
  }

  lemma MagicOctets()
    ensures Magic() ==
            [50, 53, 56, 69, 65, 70, 65, 53, 45, 69, 57, 49,
             52, 45, 52, 55, 68, 65, 45, 57, 53, 67, 65, 45,
             67, 53, 65, 66, 48, 68, 67, 56, 53, 66, 49, 49]
  {
  }

  lemma DigestLength(message: seq<byte>)
    ensures |Sha1.Digest(message)| == 20
  {
  }

  method Hash(text: seq<byte>) returns (hash: seq<byte>)
    requires |text| < Sha1.UINT32_MODULUS
    ensures hash == Sha1.Digest(text)
  {
    hide Sha1.Digest;
    var ctx := new Sha1.Context();
    ctx.Update(text);
    assert [] + text == text;
    hash := ctx.Finish();
  }

  /** Hash the key together with the identifier, and encode the hash. */
  method ComputeAnswer(secKey: seq<byte>) returns (answer: seq<byte>)
    requires |secKey| + |Magic()| < Sha1.UINT32_MODULUS
    ensures answer == Base64.Encode(Sha1.Digest(secKey + Magic())) && |answer| == 28
    ensures Base64.Decode(answer) == Sha1.Digest(secKey + Magic())
  {
    hide Base64.Encode, Sha1.Digest, Magic, Base64.Decode;
    var hash := Hash(secKey + Magic());
    DigestLength(secKey + Magic());
    var none := new byte[0];
    var _, length := Base64.EncodeInto(none, 0, hash);
    var ret := new byte[length](_ => 0);
    var tooSmall, n := Base64.EncodeInto(ret, length, hash);
    answer := ret[..n];
    Base64.RoundTrip(hash);
  }
}
