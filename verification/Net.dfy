/** Bytes, IPv4 addresses and the packet checks shared by the tunnel workers. */
module Net {

  type byte = b: int | 0 <= b < 256
  type Bytes = seq<byte>
  type Ipv4 = a: int | 0 <= a < 0x1_0000_0000
  type Instant = nat // milliseconds
  type Fingerprint = string

  datatype Option<+T> = None | Some(value: T)

  const BROADCAST: Ipv4 := 0xFFFF_FFFF
  const KEEPALIVE_PACKET: Bytes := [0]

  function Be16(bytes: Bytes, at: nat): (n: nat)
    requires at + 2 <= |bytes|
    ensures n < 0x1_0000
  {
    var hi: int, lo: int := bytes[at], bytes[at + 1];
    256 * hi + lo
  }

  function Be32(bytes: Bytes, at: nat): Ipv4
    requires at + 4 <= |bytes|
  {
    0x1_0000 * Be16(bytes, at) + Be16(bytes, at + 2)
  }

  /** Source and destination of a packet that is exactly one well-formed IPv4 datagram. */
  function PacketAddresses(packet: Bytes): Option<(Ipv4, Ipv4)> {
    if |packet| < 20 || packet[0] / 16 != 4 then None
    else
      var headerLength := packet[0] % 16 * 4;
      if headerLength < 20 || headerLength > |packet| then None
      else
        var totalLength := Be16(packet, 2);
        if totalLength < headerLength || totalLength != |packet| then None
        else Some((Be32(packet, 12), Be32(packet, 16)))
  }

  /** The server's view of a datagram source: an IPv4 socket address, or anything else. */
  datatype Peer = Inet(ip: Ipv4, port: nat, padding: Bytes) | OtherFamily(raw: Bytes)

  function PeerIp(peer: Peer): Option<Ipv4> {
    match peer
    case Inet(ip, _, _) => Some(ip)
    case OtherFamily(_) => None
  }
}
