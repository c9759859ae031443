/** The one-shot login frame: the client's encoding and the server's matcher. */
module Login {
  import opened Net

  datatype Credentials = Credentials(id: Bytes, password: Bytes)

  // Every protocol message starts with 0xFF, which no IPv4 or IPv6 packet does.
  const AUTH_TEXT: Bytes := [0xFF, 0x41, 0x56, 0x50, 0x4E, 0x5F, 0x41, 0x55, 0x54, 0x48, 0x5F] // \xff AVPN_AUTH_
  const AUTH_REQUIRED: Bytes := AUTH_TEXT + [0x52, 0x45, 0x51, 0x55, 0x49, 0x52, 0x45, 0x44]   // REQUIRED
  const AUTH_OK: Bytes := AUTH_TEXT + [0x4F, 0x4B]                                             // OK
  const AUTH_FAILED: Bytes := AUTH_TEXT + [0x46, 0x41, 0x49, 0x4C, 0x45, 0x44]                 // FAILED
  const LOGIN_PREFIX: Bytes := AUTH_TEXT + [0x4C, 0x4F, 0x47, 0x49, 0x4E, 0x00]                // LOGIN \0

  /** Position of the first NUL byte. */
  function FirstNul(body: Bytes): (at: Option<nat>)
    ensures at.Some? ==> at.value < |body| && body[at.value] == 0
  {
    if body == [] then None
    else if body[0] == 0 then Some(0)
    else
      match FirstNul(body[1..])
      case None => None
      case Some(at) => Some(at + 1)
  }

  lemma {:induction false} FirstNulSplits(id: Bytes, rest: Bytes)
    requires 0 !in id
    ensures FirstNul(id + [0] + rest) == Some(|id|)
  {
    var body := id + [0] + rest;
    if id != [] {
      assert body[1..] == id[1..] + [0] + rest;
      FirstNulSplits(id[1..], rest);
    }
  }

  lemma {:induction false} FirstNulFinds(body: Bytes)
    ensures FirstNul(body).Some? ==>
              0 !in body[..FirstNul(body).value]
    ensures FirstNul(body).None? ==> 0 !in body
  {
    if body != [] && body[0] != 0 {
      FirstNulFinds(body[1..]);
      assert body == [body[0]] + body[1..];
      if FirstNul(body).Some? {
        assert body[..FirstNul(body).value] == [body[0]] + body[1..][..FirstNul(body).value - 1];
      }
    }
  }

  /** The server's check of a login frame. */
  predicate LoginMatches(frame: Bytes, expected: Credentials) {
    && |LOGIN_PREFIX| <= |frame|
    && frame[..|LOGIN_PREFIX|] == LOGIN_PREFIX
    && var body := frame[|LOGIN_PREFIX|..];
       match FirstNul(body)
       case None => false
       case Some(at) => body[..at] == expected.id && body[at + 1..] == expected.password
  }

  /** The client's login frame. */
  function Encode(c: Credentials): Bytes {
    LOGIN_PREFIX + c.id + [0] + c.password
  }

  /** The client accepts 1 to 128 bytes without NUL for each field. */
  predicate Encodable(c: Credentials) {
    1 <= |c.id| <= 128 && 0 !in c.id && 1 <= |c.password| <= 128 && 0 !in c.password
  }

  /** A frame is accepted exactly when it is the client's encoding of the configured
      credentials; an id holding a NUL byte can never be matched. */
  lemma MatchesIffEncoding(frame: Bytes, expected: Credentials)
    ensures LoginMatches(frame, expected) <==> 0 !in expected.id && frame == Encode(expected)
  {
    if LoginMatches(frame, expected) {
      var body := frame[|LOGIN_PREFIX|..];
      FirstNulFinds(body);
      var at := FirstNul(body).value;
      assert body == body[..at] + [body[at]] + body[at + 1..];
      assert frame == LOGIN_PREFIX + body;
    }
    if 0 !in expected.id && frame == Encode(expected) {
      FirstNulSplits(expected.id, expected.password);
      assert frame[|LOGIN_PREFIX|..] == expected.id + [0] + expected.password;
    }
  }

  /** Distinct encodable credentials never share a frame. */
  lemma EncodeInjective(a: Credentials, b: Credentials)
    requires Encodable(a) && Encodable(b) && Encode(a) == Encode(b)
    ensures a == b
  {
    MatchesIffEncoding(Encode(a), a);
    MatchesIffEncoding(Encode(a), b);
  }
}
