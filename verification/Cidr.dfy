/** CIDR membership and broadcast tests, as masks, against address intervals
    (section 3.1 of RFC 4632). */
module Cidr {
  import opened Net
  import opened Bits

  predicate InCidr(address: Ipv4, network: Ipv4, prefix: nat)
    requires prefix <= 32
  {
    And(address, PrefixMask(prefix)) == network
  }

  predicate NoHostBits(address: Ipv4, prefix: nat)
    requires prefix <= 32
  {
    And(address, PrefixMask(prefix)) == address
  }

  predicate IsBroadcast(address: Ipv4, network: Ipv4, prefix: nat)
    requires prefix <= 32
  {
    if address == BROADCAST then true
    else if prefix >= 32 then false
    else
      PrefixMaskBound(prefix);
      address == Or(network, Not32(PrefixMask(prefix)))
  }

  predicate IsMulticast(address: Ipv4) {
    address / 0x1000_0000 == 14 // 224.0.0.0/4
  }

  lemma {:induction false} PrefixMaskBound(prefix: nat)
    requires prefix <= 32
    ensures PrefixMask(prefix) <= U32_MAX
  {
    PrefixMaskValue(prefix);
  }

  /** The addresses a CIDR block stands for. */
  predicate InBlock(address: Ipv4, network: Ipv4, prefix: nat)
    requires prefix <= 32
  {
    network <= address < network + Pow2(32 - prefix)
  }

  lemma {:induction false} BlockOfMultiple(a: nat, network: nat, m: nat)
    requires m > 0 && network % m == 0
    ensures a - a % m == network <==> network <= a < network + m
  {
    if network <= a < network + m {
      assert network == network / m * m;
      ModUnique(a, m, network / m, a - network);
    }
  }

  /** A block without host bits is the interval [network, network + 2^(32 - prefix)), and the
      interval lies inside the 32-bit address space. */
  lemma {:induction false} MembershipIsInterval(address: Ipv4, network: Ipv4, prefix: nat)
    requires prefix <= 32 && NoHostBits(network, prefix)
    ensures InCidr(address, network, prefix) <==> InBlock(address, network, prefix)
    ensures network + Pow2(32 - prefix) <= 0x1_0000_0000
  {
    MaskRounds(network, prefix);
    MaskRounds(address, prefix);
    var m := Pow2(32 - prefix);
    BlockOfMultiple(address, network, m);
    Pow2Of32();
    Pow2Add(prefix, 32 - prefix);
    MultipleBelow(network, m, Pow2(prefix));
  }

  /** A multiple of m below m * n is at most m * (n - 1). */
  lemma {:induction false} MultipleBelow(a: nat, m: nat, n: nat)
    requires m > 0 && a % m == 0 && a < n * m
    ensures a + m <= n * m
  {
    var q := a / m;
    assert a == q * m;
    if q >= n {
      MulMonotone(n, q, m);
    } else {
      MulMonotone(q + 1, n, m);
    }
  }

  /** Broadcast means the limited broadcast or, below /32, the last address of the network's
      block, whether or not the network is written with host bits. */
  lemma {:induction false} BroadcastIsLastOfBlock(address: Ipv4, network: Ipv4, prefix: nat)
    requires prefix <= 32
    ensures IsBroadcast(address, network, prefix)
       <==> || address == 0xFFFF_FFFF
            || (prefix < 32 && address == network - network % Pow2(32 - prefix) + Pow2(32 - prefix) - 1)
  {
    PrefixMaskValue(prefix);
    OrLowBits(network, 32 - prefix);
  }

  /** Multicast means 224.0.0.0 to 239.255.255.255. */
  lemma {:induction false} MulticastIsRange(address: Ipv4)
    ensures IsMulticast(address) <==> 0xE000_0000 <= address <= 0xEFFF_FFFF
  {
  }
}
