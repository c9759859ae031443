/** Which destinations the tunnel's policy permits, by address ranges. */
module Permission {
  import opened Net
  import opened Bits
  import opened Cidr
  import opened ServerMachine

  /** 255.255.255.255, and below /32 the last address of the network's block. */
  predicate ToEverybody(policy: Policy, destination: Ipv4) {
    var block := Pow2(32 - policy.prefix);
    || destination == 0xFFFF_FFFF
    || (policy.prefix < 32 && destination == policy.network - policy.network % block + block - 1)
  }

  /** 224.0.0.0 to 239.255.255.255. */
  predicate ToGroup(destination: Ipv4) { 0xE000_0000 <= destination <= 0xEFFF_FFFF }

  /** One host, or broadcast or multicast where it is switched on. */
  predicate Permitted(policy: Policy, destination: Ipv4) {
    || (!ToEverybody(policy, destination) && !ToGroup(destination))
    || (ToEverybody(policy, destination) && policy.allowBroadcast)
    || (ToGroup(destination) && policy.allowMulticast)
  }

  lemma {:induction false} PermittedIff(policy: Policy, destination: Ipv4)
    ensures ToEverybody(policy, destination) <==> IsBroadcast(destination, policy.network, policy.prefix)
    ensures ToGroup(destination) <==> IsMulticast(destination)
    ensures Permitted(policy, destination) <==> DestinationPermitted(policy, destination)
  {
    hide IsBroadcast, IsMulticast, Pow2;
    BroadcastIsLastOfBlock(destination, policy.network, policy.prefix);
    MulticastIsRange(destination);
  }
}
