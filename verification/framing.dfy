/**
 The generic payload header `[Next Payload][RESERVED][Payload Length]` that
 ISAKMP and IKEv2 messages share: printing one framed payload and reading it back.
 */
module Framing {
  import opened Common

  /** One payload on the wire. The length field is the truncating cast of the source. */
  function Frame(next: Byte, body: Bytes): (f: Bytes)
    ensures |f| == 4 + |body|
  {
    [next, 0] + U16Bytes(AsU16(4 + |body|)) + body
  }

  predicate FrameFits(body: Bytes) {
    4 + |body| < 0x1_0000
  }

  /** What a reader finds at the front of a framed payload followed by anything. */
  lemma ReadFrame(next: Byte, body: Bytes, rest: Bytes)
    ensures var m := Frame(next, body) + rest;
      && m[0] == next && m[1] == 0
      && GetU16(m, 2) == AsU16(4 + |body|)
      && m[4..4 + |body|] == body
      && m[4 + |body|..] == rest
  {
    var m := Frame(next, body) + rest;
    assert m[2..4] == U16Bytes(AsU16(4 + |body|));
    U16At(m, 2, AsU16(4 + |body|));
  }
}
