/**
 EAP packets and the EAP-MSCHAPv2 messages inside them (src/ikev2/eap.rs).
 */
module Eap {
  import opened Common
  import opened Primitives

  const CODE_REQUEST: Byte := 1
  const CODE_RESPONSE: Byte := 2
  const CODE_SUCCESS: Byte := 3
  const CODE_FAILURE: Byte := 4

  const TYPE_IDENTITY: Byte := 1
  const TYPE_MSCHAPV2: Byte := 26

  const OP_CHALLENGE: Byte := 1
  const OP_RESPONSE: Byte := 2
  const OP_SUCCESS: Byte := 3

  type Challenge = b: Bytes | |b| == 16 witness seq(16, i => 0)
  type NtResponse = b: Bytes | |b| == 24 witness seq(24, i => 0)

  datatype EapPacket = EapPacket(code: Byte, identifier: Byte, data: Bytes)

  function ParseEap(body: Bytes): Result<EapPacket> {
    if |body| < 4 then Err(Truncated(4, |body|))
    else
      var length := GetU16(body, 2);
      if length < 4 || length > |body| then Err(BadLength(length, |body|))
      else Ok(EapPacket(body[0], body[1], body[4..length]))
  }

  function EapBytes(p: EapPacket): (b: Bytes)
    ensures |b| == 4 + |p.data|
  {
    [p.code, p.identifier] + U16Bytes(AsU16(4 + |p.data|)) + p.data
  }

  lemma EapRoundTrip(p: EapPacket)
    requires 4 + |p.data| < 0x1_0000
    ensures ParseEap(EapBytes(p)) == Ok(p)
  {
    hide U16Bytes, GetU16;
    var b := EapBytes(p);
    assert b[2..4] == U16Bytes(4 + |p.data|);
    U16At(b, 2, 4 + |p.data|);
    assert b[4..4 + |p.data|] == p.data;
  }

  // ----- MSCHAPv2 messages -----

  function BuildChallenge(id: Byte, challenge: Challenge, name: Bytes): (d: Bytes)
    ensures |d| == 22 + |name| && d[0] == TYPE_MSCHAPV2 && d[1] == OP_CHALLENGE
  {
    [TYPE_MSCHAPV2, OP_CHALLENGE, id] + U16Bytes(AsU16(21 + |name|)) + [16] + challenge + name
  }

  function ParseChallenge(d: Bytes): Result<(Byte, Challenge, Bytes)> {
    if |d| < 22 || d[0] != TYPE_MSCHAPV2 || d[1] != OP_CHALLENGE then Err(CryptoError(NotEapChallenge))
    else Ok((d[2], d[6..22], d[22..]))
  }

  lemma ChallengeRoundTrip(id: Byte, challenge: Challenge, name: Bytes)
    ensures ParseChallenge(BuildChallenge(id, challenge, name)) == Ok((id, challenge, name))
  {
    var d := BuildChallenge(id, challenge, name);
    assert d[6..22] == challenge && d[22..] == name;
  }

  function NtResponseOf(c: Crypto, authChallenge: Challenge, peerChallenge: Challenge, user: Bytes,
                        password: Password): NtResponse {
    c.ntResponse(authChallenge, peerChallenge, user, password)
  }

  function BuildResponse(c: Crypto, id: Byte, authChallenge: Challenge, peerChallenge: Challenge, user: Bytes,
                         password: Password): (d: Bytes)
    ensures |d| == 55 + |user| && d[0] == TYPE_MSCHAPV2 && d[1] == OP_RESPONSE
  {
    [TYPE_MSCHAPV2, OP_RESPONSE, id] + U16Bytes(AsU16(54 + |user|)) + [49] + peerChallenge + Zeros(8)
    + NtResponseOf(c, authChallenge, peerChallenge, user, password) + [0] + user
  }

  datatype Response = Response(id: Byte, peerChallenge: Challenge, ntResponse: NtResponse, name: Bytes)

  function ParseResponse(d: Bytes): Result<Response> {
    if |d| < 55 || d[0] != TYPE_MSCHAPV2 || d[1] != OP_RESPONSE then Err(CryptoError(NotEapResponse))
    else Ok(Response(d[2], d[6..22], d[30..54], d[55..]))
  }

  lemma ResponseRoundTrip(c: Crypto, id: Byte, authChallenge: Challenge, peerChallenge: Challenge, user: Bytes,
                          password: Password)
    ensures ParseResponse(BuildResponse(c, id, authChallenge, peerChallenge, user, password))
         == Ok(Response(id, peerChallenge, NtResponseOf(c, authChallenge, peerChallenge, user, password), user))
  {
    hide NtResponseOf;
    var d := BuildResponse(c, id, authChallenge, peerChallenge, user, password);
    assert d[6..22] == peerChallenge;
    assert d[30..54] == NtResponseOf(c, authChallenge, peerChallenge, user, password);
    assert d[55..] == user;
  }

  function BuildSuccess(id: Byte, authResponse: Bytes): (d: Bytes)
    ensures |d| == 5 + |authResponse| && d[0] == TYPE_MSCHAPV2 && d[1] == OP_SUCCESS
  {
    [TYPE_MSCHAPV2, OP_SUCCESS, id] + U16Bytes(AsU16(4 + |authResponse|)) + authResponse
  }
}
