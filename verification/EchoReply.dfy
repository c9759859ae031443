/** The local ICMP echo reply (RFC 792) and its Internet checksum (section 1 of RFC 1071). */
module EchoReply {
  import opened Net

  // ----- The checksum -----

  /** The sum of the big-endian 16-bit words; an odd last byte is padded with zero. */
  function SumWords(data: Bytes): nat {
    if data == [] then 0
    else
      var hi: int := data[0];
      if |data| == 1 then 256 * hi
      else
        var lo: int := data[1];
        256 * hi + lo + SumWords(data[2..])
  }

  /** One's complement addition of 16-bit words: the carry is added at the end. */
  function OnesAdd(a: nat, b: nat): nat {
    if a + b > 0xFFFF then a + b - 0xFFFF else a + b
  }

  /** The one's complement sum, word by word, as the RFC defines it. */
  function OnesSum(data: Bytes): nat {
    if data == [] then 0
    else
      var hi: int := data[0];
      if |data| == 1 then OnesAdd(256 * hi, 0)
      else
        var lo: int := data[1];
        OnesAdd(256 * hi + lo, OnesSum(data[2..]))
  }

  /** Adding the carries in at the end, as often as there are any. */
  function Folded(sum: nat): (r: nat)
    ensures r <= 0xFFFF && r % 0xFFFF == sum % 0xFFFF && (r == 0 <==> sum == 0)
  {
    if sum <= 0xFFFF then sum
    else
      FoldStep(sum);
      Folded(sum % 0x1_0000 + sum / 0x1_0000)
  }

  lemma {:induction false} FoldStep(sum: nat)
    ensures (sum % 0x1_0000 + sum / 0x1_0000) % 0xFFFF == sum % 0xFFFF
    ensures sum > 0xFFFF ==> 0 < sum % 0x1_0000 + sum / 0x1_0000 < sum
  {
    var high, low := sum / 0x1_0000, sum % 0x1_0000;
    assert sum == 0xFFFF * high + (low + high);
    MultipleVanishes(high, low + high);
  }

  lemma {:induction false} MultipleVanishes(k: nat, r: nat)
    ensures (0xFFFF * k + r) % 0xFFFF == r % 0xFFFF
  {
  }

  /** A number up to 0xFFFF is known by its residue, but for zero and 0xFFFF. */
  lemma {:induction false} ResidueUnique(a: nat, b: nat)
    requires a <= 0xFFFF && b <= 0xFFFF && a % 0xFFFF == b % 0xFFFF && (a == 0 <==> b == 0)
    ensures a == b
  {
  }

  lemma {:induction false} SameResidue(a: nat, b: nat, s: nat)
    requires b % 0xFFFF == s % 0xFFFF
    ensures (a + b) % 0xFFFF == (a + s) % 0xFFFF
  {
    var k := s / 0xFFFF - b / 0xFFFF;
    assert a + s == a + b + 0xFFFF * k;
    if k >= 0 {
      MultipleVanishes(k, a + b);
    } else {
      MultipleVanishes(-k, a + s);
    }
  }

  lemma {:induction false} OnesAddResidue(a: nat, b: nat, s: nat)
    requires a <= 0xFFFF && b <= 0xFFFF && b % 0xFFFF == s % 0xFFFF && (b == 0 <==> s == 0)
    ensures OnesAdd(a, b) <= 0xFFFF
    ensures OnesAdd(a, b) % 0xFFFF == (a + s) % 0xFFFF
    ensures OnesAdd(a, b) == 0 <==> a + s == 0
  {
    SameResidue(a, b, s);
    if a + b > 0xFFFF { MultipleVanishes(1, a + b - 0xFFFF); }
  }

  lemma {:induction false} OnesSumResidue(data: Bytes)
    ensures OnesSum(data) <= 0xFFFF
    ensures OnesSum(data) % 0xFFFF == SumWords(data) % 0xFFFF
    ensures OnesSum(data) == 0 <==> SumWords(data) == 0
  {
    if |data| > 1 {
      OnesSumResidue(data[2..]);
      var hi: int, lo: int := data[0], data[1];
      OnesAddResidue(256 * hi + lo, OnesSum(data[2..]), SumWords(data[2..]));
    }
  }

  /** Summing first and folding the carries afterwards computes the one's complement sum. */
  lemma {:induction false} FoldingIsOnesSum(data: Bytes)
    ensures Folded(SumWords(data)) == OnesSum(data)
  {
    OnesSumResidue(data);
    ResidueUnique(Folded(SumWords(data)), OnesSum(data));
  }

  lemma {:induction false} SumBound(data: Bytes)
    ensures SumWords(data) <= 0xFFFF * ((|data| + 1) / 2)
  {
    if |data| > 1 {
      SumBound(data[2..]);
      assert (|data[2..]| + 1) / 2 == (|data| + 1) / 2 - 1;
    }
  }

  lemma {:induction false} SumSplit(data: Bytes, k: nat)
    requires 2 * k <= |data|
    ensures SumWords(data) == SumWords(data[..2 * k]) + SumWords(data[2 * k..])
  {
    if k > 0 {
      SumSplit(data[2..], k - 1);
      assert data[..2 * k][2..] == data[2..][..2 * (k - 1)];
      assert data[2 * k..] == data[2..][2 * (k - 1)..];
    } else {
      assert data[2 * k..] == data;
    }
  }

  /** `chunks(2)` summed into a u32, the carries folded until none is left. */
  method InternetChecksum(data: Bytes) returns (checksum: nat)
    requires |data| <= 0xFFFF
    ensures checksum == 0xFFFF - OnesSum(data)
    ensures SumWords(data) < 0x1_0000_0000 // the u32 accumulator never overflows
  {
    SumBound(data);
    var sum: nat := 0;
    var i := 0;
    assert data[..0] == [];
    while 2 * i < |data|
      invariant 2 * i <= |data| + 1
      invariant sum == if 2 * i <= |data| then SumWords(data[..2 * i]) else SumWords(data)
      invariant sum <= SumWords(data) < 0x1_0000_0000
    {
      SumSplit(data, i);
      var hi: int := data[2 * i];
      if 2 * i + 1 < |data| {
        var lo: int := data[2 * i + 1];
        SumSplit(data, i + 1);
        SumSplit(data[..2 * i + 2], i);
        assert data[..2 * i + 2][..2 * i] == data[..2 * i];
        assert data[..2 * i + 2][2 * i..] == [data[2 * i], data[2 * i + 1]];
        OneWord(data[2 * i], data[2 * i + 1]);
        sum := sum + (256 * hi + lo);
      } else {
        assert data[2 * i..] == [data[2 * i]];
        sum := sum + 256 * hi;
      }
      i := i + 1;
    }
    if 2 * i <= |data| { assert data[..2 * i] == data; }
    while sum / 0x1_0000 != 0
      invariant Folded(sum) == Folded(SumWords(data))
      decreases sum
    {
      FoldStep(sum);
      sum := sum % 0x1_0000 + sum / 0x1_0000;
    }
    FoldingIsOnesSum(data);
    checksum := 0xFFFF - sum;
  }

  lemma {:induction false} OneWord(hi: byte, lo: byte)
    ensures var h: int, l: int := hi, lo; SumWords([hi, lo]) == 256 * h + l
  {
    assert [hi, lo][2..] == [];
  }

  // ----- The reply -----

  function Word(packet: Bytes, at: nat): nat
    requires at + 1 < |packet|
  {
    256 * (packet[at] as int) + packet[at + 1] as int
  }

  predicate IsAddress(octets: Bytes, address: Ipv4)
    requires |octets| == 4
  {
    address == 0x100_0000 * (octets[0] as int) + 0x1_0000 * (octets[1] as int)
               + 0x100 * (octets[2] as int) + octets[3] as int
  }

  lemma {:induction false} WordsOf(packet: Bytes, address: Ipv4)
    requires |packet| >= 20
    ensures Be16(packet, 2) == Word(packet, 2)
    ensures Be16(packet, 6) % 0x4000 == 0 <==> packet[6] % 64 == 0 && packet[7] == 0
    ensures Be32(packet, 12) == address <==> IsAddress(packet[12..16], address)
    ensures Be32(packet, 16) == address <==> IsAddress(packet[16..20], address)
  {
  }

  /** An echo request of this host to itself, complete, not fragmented. */
  predicate IsLocalRequest(packet: Bytes, address: Ipv4) {
    && |packet| >= 28 && packet[0] / 16 == 4 && packet[9] == 1
    && var headerLength := packet[0] % 16 * 4;
       && headerLength >= 20 && headerLength + 8 <= Word(packet, 2) <= |packet|
       && packet[6] % 64 == 0 && packet[7] == 0 // neither more fragments nor an offset
       && IsAddress(packet[12..16], address) && IsAddress(packet[16..20], address)
       && packet[headerLength] == 8 && packet[headerLength + 1] == 0
  }

  /** The reply: the request up to its total length, with type 0 and a checksum under which the
      ICMP part sums to all ones. */
  ghost predicate IsReply(packet: Bytes, reply: Bytes)
    requires |packet| >= 4
  {
    var h := packet[0] % 16 * 4;
    && |reply| == Word(packet, 2) <= |packet| && h + 8 <= |reply|
    && reply[h] == 0
    && OnesSum(reply[h..]) == 0xFFFF
    && forall i :: 0 <= i < |reply| && i != h && i != h + 2 && i != h + 3 ==> reply[i] == packet[i]
  }

  /** Putting the complement of the sum into a zeroed field completes the sum to all ones. */
  lemma {:induction false} ChecksumCompletes(icmp: Bytes, c: nat, hi: byte, lo: byte)
    requires |icmp| >= 8 && icmp[2] == 0 && icmp[3] == 0
    requires c == 0xFFFF - OnesSum(icmp) && c == 256 * (hi as int) + lo as int
    ensures OnesSum(icmp[2 := hi][3 := lo]) == 0xFFFF
  {
    var filled := icmp[2 := hi][3 := lo];
    FirstWords(icmp);
    FirstWords(filled);
    assert filled[4..] == icmp[4..];
    var sum := SumWords(icmp);
    assert SumWords(filled) == sum + c;
    hide SumWords, OnesSum;
    OnesSumResidue(icmp);
    OnesSumResidue(filled);
    Complement(sum, OnesSum(icmp));
    ResidueUnique(OnesSum(filled), 0xFFFF);
  }

  lemma {:induction false} Complement(sum: nat, ones: nat)
    requires ones <= 0xFFFF && ones % 0xFFFF == sum % 0xFFFF && (ones == 0 <==> sum == 0)
    ensures (sum + (0xFFFF - ones)) % 0xFFFF == 0 && sum + (0xFFFF - ones) > 0
  {
    SameResidue(0xFFFF - ones, ones, sum);
  }

  lemma {:induction false} FirstWords(data: Bytes)
    requires |data| >= 4
    ensures var a: int, b: int, c: int, d: int := data[0], data[1], data[2], data[3];
            SumWords(data) == 256 * a + b + (256 * c + d + SumWords(data[4..]))
  {
    assert data[2..][2..] == data[4..];
  }

  /** The reply buffer is a copy of the request that is edited in place. */
  method BuildReply(packet: Bytes, h: nat, totalLength: nat) returns (reply: Bytes)
    requires h + 8 <= totalLength <= |packet| && totalLength <= 0xFFFF
    ensures |reply| == totalLength && reply[h] == 0 && OnesSum(reply[h..]) == 0xFFFF
    ensures forall i :: 0 <= i < |reply| && i != h && i != h + 2 && i != h + 3 ==> reply[i] == packet[i]
  {
    hide SumWords, OnesSum;
    var buffer := new byte[totalLength](i requires 0 <= i < totalLength <= |packet| => packet[i]);
    buffer[h] := 0;
    buffer[h + 2], buffer[h + 3] := 0, 0;
    ghost var zeroed: Bytes := buffer[h..];
    var checksum := InternetChecksum(buffer[h..]);
    OnesSumResidue(zeroed);
    var hi: byte, lo: byte := checksum / 256, checksum % 256;
    buffer[h + 2] := hi;
    buffer[h + 3] := lo;
    ChecksumCompletes(zeroed, checksum, hi, lo);
    assert buffer[h..] == zeroed[2 := hi][3 := lo];
    assert buffer[..][h..] == buffer[h..];
    reply := buffer[..];
  }

  method LocalEchoReply(packet: Bytes, address: Ipv4) returns (reply: Option<Bytes>)
    ensures reply.Some? <==> IsLocalRequest(packet, address)
    ensures reply.Some? ==> IsReply(packet, reply.value)
  {
    hide OnesSum, Be16, Be32, Word, IsAddress;
    if |packet| < 28 || packet[0] / 16 != 4 || packet[9] != 1 {
      return None;
    }
    WordsOf(packet, address);
    var headerLength := packet[0] % 16 * 4;
    var totalLength := Be16(packet, 2);
    if headerLength < 20 || totalLength < headerLength + 8 || totalLength > |packet| {
      return None;
    }
    if Be16(packet, 6) % 0x4000 != 0 {
      return None;
    }
    if Be32(packet, 12) != address || Be32(packet, 16) != address || packet[headerLength] != 8
      || packet[headerLength + 1] != 0 {
      return None;
    }
    var built := BuildReply(packet, headerLength, totalLength);
    reply := Some(built);
  }

  /** Checking the reply: its ICMP part has checksum zero. */
  method CheckReply(packet: Bytes, reply: Bytes) returns (checksum: nat)
    requires |packet| >= 4 && IsReply(packet, reply)
    ensures checksum == 0
  {
    checksum := InternetChecksum(reply[packet[0] % 16 * 4..]);
  }
}
