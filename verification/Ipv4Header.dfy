/** The header fields that `PacketAddresses` reads, byte by byte (section 3.1 of RFC 791). */
module Ipv4Header {
  import opened Net

  /** An address as its four octets, the most significant first. */
  datatype Quad = Quad(a: byte, b: byte, c: byte, d: byte)

  function Value(q: Quad): int {
    var a: int, b: int, c: int, d: int := q.a, q.b, q.c, q.d;
    0x100_0000 * a + 0x1_0000 * b + 0x100 * c + d
  }

  /** Version 4 and the header's length in words, the service byte, the total length in two bytes,
      eight bytes that do not matter here, the source, the destination, options, payload. */
  function Encode(service: byte, middle: Bytes, source: Quad, destination: Quad, options: Bytes, payload: Bytes): Bytes
    requires |middle| == 8 && |options| % 4 == 0 && |options| <= 40 && 20 + |options| + |payload| < 0x1_0000
  {
    var total := 20 + |options| + |payload|;
    [64 + 5 + |options| / 4, service, total / 256, total % 256] + middle
    + [source.a, source.b, source.c, source.d]
    + [destination.a, destination.b, destination.c, destination.d] + options + payload
  }

  /** Every well-formed packet is read as the pair it was built with. */
  lemma {:induction false} EncodedReads(service: byte, middle: Bytes, source: Quad, destination: Quad,
                                        options: Bytes, payload: Bytes)
    requires |middle| == 8 && |options| % 4 == 0 && |options| <= 40 && 20 + |options| + |payload| < 0x1_0000
    ensures 0 <= Value(source) < 0x1_0000_0000 && 0 <= Value(destination) < 0x1_0000_0000
    ensures PacketAddresses(Encode(service, middle, source, destination, options, payload))
         == Some((Value(source), Value(destination)))
  {
    var packet := Encode(service, middle, source, destination, options, payload);
    var total := 20 + |options| + |payload|;
    assert packet[0] == 64 + 5 + |options| / 4 && packet[2] == total / 256 && packet[3] == total % 256;
    assert packet[12..16] == [source.a, source.b, source.c, source.d];
    assert packet[12] == packet[12..16][0] && packet[13] == packet[12..16][1];
    assert packet[14] == packet[12..16][2] && packet[15] == packet[12..16][3];
    assert packet[16..20] == [destination.a, destination.b, destination.c, destination.d];
    assert packet[16] == packet[16..20][0] && packet[17] == packet[16..20][1];
    assert packet[18] == packet[16..20][2] && packet[19] == packet[16..20][3];
  }

  /** Nothing else is a packet: what is read stands in bytes 12 to 19 of a datagram of version 4
      whose header is complete and whose length field is its length. */
  lemma {:induction false} ReadIff(packet: Bytes, source: int, destination: int)
    requires 0 <= source < 0x1_0000_0000 && 0 <= destination < 0x1_0000_0000
    ensures PacketAddresses(packet) == Some((source, destination))
       <==> && |packet| >= 20 && 64 + 5 <= packet[0] < 64 + 16 && 4 * (packet[0] - 64) <= |packet|
            && 256 * (packet[2] as int) + packet[3] as int == |packet|
            && source == Value(Quad(packet[12], packet[13], packet[14], packet[15]))
            && destination == Value(Quad(packet[16], packet[17], packet[18], packet[19]))
  {
  }
}
