/** Client bindings as the configuration states them, and the source-address policy in client
    certificates: the console prints it, the server parses it. */
module Bindings {
  import opened Net
  import opened Bits
  import opened Cidr
  import opened Text

  // ----- CIDR text -----

  /** u8's FromStr: an optional plus sign, then digits. */
  function ParseU8(s: string): Option<nat> {
    var digits := if s != "" && s[0] == '+' then s[1..] else s;
    if digits != "" && AllDigits(digits) && Number(digits) <= 255 then Some(Number(digits)) else None
  }

  function ParseCidr(text: string): (r: Option<(Ipv4, nat)>)
    ensures r.Some? ==> r.value.1 <= 32 && NoHostBits(r.value.0, r.value.1)
  {
    match Cut(text, '/')
    case None => None
    case Some((address, prefix)) => CidrOf(ParseIpv4(address), ParseU8(prefix))
  }

  function CidrOf(address: Option<Ipv4>, prefix: Option<nat>): (r: Option<(Ipv4, nat)>)
    ensures r.Some? <==> address.Some? && prefix.Some? && prefix.value <= 32 && NoHostBits(address.value, prefix.value)
    ensures r.Some? ==> r.value == (address.value, prefix.value)
  {
    if address.None? || prefix.None? || prefix.value > 32 then None
    else if !NoHostBits(address.value, prefix.value) then None
    else Some((address.value, prefix.value))
  }

  function PrintCidr(network: Ipv4, prefix: nat): string {
    Dotted(network) + "/" + Decimal(prefix)
  }

  lemma {:induction false} PrefixReads(prefix: nat)
    requires prefix <= 255
    ensures ParseU8(Decimal(prefix)) == Some(prefix)
  {
    DecimalReads(prefix);
    assert IsDigit(Decimal(prefix)[0]);
  }

  /** A printed block is read back as the same block. */
  lemma {:induction false} CidrReads(network: Ipv4, prefix: nat)
    requires prefix <= 32 && NoHostBits(network, prefix)
    ensures ParseCidr(PrintCidr(network, prefix)) == Some((network, prefix))
  {
    hide Dotted, Decimal, ParseIpv4, ParseU8;
    DottedCharacters(network, '/');
    CutOf(Dotted(network), '/', Decimal(prefix));
    DottedReads(network);
    PrefixReads(prefix);
  }

  // ----- Fingerprints -----

  function FirstToken(s: string): string {
    Word(RustSpace, TrimStart(RustSpace, s))
  }

  function WithoutColons(s: string): string {
    if s == "" then "" else (if s[0] == ':' then "" else [s[0]]) + WithoutColons(s[1..])
  }

  function Lower(c: char): char {
    if 'A' <= c <= 'Z' then (c as nat + 32) as char else c
  }

  predicate IsLowerHex(c: char) { IsDigit(c) || 'a' <= c <= 'f' }

  function Normalize(s: string): Option<Fingerprint> {
    var bare := WithoutColons(s);
    var lower := seq(|bare|, i requires 0 <= i < |bare| => Lower(bare[i]));
    if |lower| == 64 && forall i :: 0 <= i < 64 ==> IsLowerHex(lower[i]) then Some(lower) else None
  }

  lemma {:induction false} WithoutColonsJoin(a: string, b: string)
    ensures WithoutColons(a + b) == WithoutColons(a) + WithoutColons(b)
  {
    if a == [] {
      assert a + b == b;
    } else {
      assert (a + b)[1..] == a[1..] + b;
      WithoutColonsJoin(a[1..], b);
    }
  }

  lemma {:induction false} NoneWithoutColons(s: string)
    requires ':' !in s
    ensures WithoutColons(s) == s
  {
    if s != "" { NoneWithoutColons(s[1..]); }
  }

  /** A fingerprint is 64 hexadecimal digits of either case, and becomes their lower-case text. */
  lemma {:induction false} NormalizeIff(s: string)
    requires ':' !in s
    ensures Normalize(s).Some?
       <==> |s| == 64 && forall i :: 0 <= i < 64 ==>
              '0' <= s[i] <= '9' || 'a' <= s[i] <= 'f' || 'A' <= s[i] <= 'F'
    ensures Normalize(s).Some? ==>
              && |Normalize(s).value| == 64
              && forall i :: 0 <= i < 64 ==>
                   Normalize(s).value[i] == if 'A' <= s[i] <= 'F' then (s[i] - 'A') + 'a' else s[i]
  {
    NoneWithoutColons(s);
    var lower := seq(|s|, i requires 0 <= i < |s| => Lower(s[i]));
    forall i | 0 <= i < |s|
      ensures IsLowerHex(lower[i]) <==> '0' <= s[i] <= '9' || 'a' <= s[i] <= 'f' || 'A' <= s[i] <= 'F'
      ensures IsLowerHex(lower[i]) ==> lower[i] == if 'A' <= s[i] <= 'F' then (s[i] - 'A') + 'a' else s[i]
    {
      HexDigit(s[i]);
    }
    hide IsLowerHex, Lower;
    if |s| == 64 && forall i :: 0 <= i < 64 ==> '0' <= s[i] <= '9' || 'a' <= s[i] <= 'f' || 'A' <= s[i] <= 'F' {
      assert forall i :: 0 <= i < 64 ==> IsLowerHex(lower[i]);
      assert Normalize(s) == Some(lower);
    }
    if Normalize(s).Some? {
      assert Normalize(s) == Some(lower);
    }
  }

  lemma {:induction false} HexDigit(c: char)
    ensures IsLowerHex(Lower(c)) <==> '0' <= c <= '9' || 'a' <= c <= 'f' || 'A' <= c <= 'F'
    ensures IsLowerHex(Lower(c)) ==> Lower(c) == if 'A' <= c <= 'F' then (c - 'A') + 'a' else c
  {
  }

  /** Colons do not matter, wherever they are. */
  lemma {:induction false} NormalizeIgnoresColons(a: string, b: string)
    ensures Normalize(a + ":" + b) == Normalize(a + b)
  {
    WithoutColonsJoin(a + ":", b);
    WithoutColonsJoin(a, ":");
    WithoutColonsJoin(a, b);
    assert ":"[1..] == "" && WithoutColons(":") == "";
    assert WithoutColons(a) + "" == WithoutColons(a);
    assert WithoutColons(a + ":" + b) == WithoutColons(a + b);
  }

  // ----- validate_client_bindings -----

  datatype Entry = Entry(address: string, value: string)

  /** An entry is well formed: an address of the network's interval, not the server's, and a
      SHA-256 fingerprint. */
  ghost predicate EntryOk(e: Entry, server: Ipv4, network: Ipv4, prefix: nat)
    requires prefix <= 32
  {
    && ParseIpv4(e.address).Some?
    && InBlock(ParseIpv4(e.address).value, network, prefix)
    && ParseIpv4(e.address).value != server
    && Normalize(FirstToken(e.value)).Some?
  }

  ghost predicate Acceptable(entries: seq<Entry>, server: Ipv4, network: string) {
    && ParseCidr(network).Some?
    && (forall i :: 0 <= i < |entries| ==>
        EntryOk(entries[i], server, ParseCidr(network).value.0, ParseCidr(network).value.1))
    && (forall i, j :: 0 <= i < j < |entries| ==>
          && ParseIpv4(entries[i].address) != ParseIpv4(entries[j].address)
          && Normalize(FirstToken(entries[i].value)) != Normalize(FirstToken(entries[j].value)))
  }

  ghost predicate Injective(bindings: map<Ipv4, Fingerprint>) {
    forall a, b :: a in bindings && b in bindings && bindings[a] == bindings[b] ==> a == b
  }

  /** The bindings are what the entries say, no more. */
  ghost predicate Represents(bindings: map<Ipv4, Fingerprint>, entries: seq<Entry>) {
    && (forall i :: 0 <= i < |entries| ==>
          && ParseIpv4(entries[i].address).Some? && Normalize(FirstToken(entries[i].value)).Some?
          && ParseIpv4(entries[i].address).value in bindings
          && bindings[ParseIpv4(entries[i].address).value] == Normalize(FirstToken(entries[i].value)).value)
    && (forall a :: a in bindings ==> exists i :: 0 <= i < |entries| && ParseIpv4(entries[i].address) == Some(a))
  }

  method ValidateClientBindings(entries: seq<Entry>, server: Ipv4, network: string)
    returns (r: Option<map<Ipv4, Fingerprint>>)
    ensures r.Some? <==> Acceptable(entries, server, network)
    ensures r.Some? ==> Injective(r.value) && Represents(r.value, entries)
  {
    hide ParseIpv4, Normalize, FirstToken, InBlock, InCidr, NoHostBits;
    var cidr := ParseCidr(network);
    if cidr.None? {
      return None;
    }
    var fingerprints: set<Fingerprint> := {};
    var bindings: map<Ipv4, Fingerprint> := map[];
    var i := 0;
    while i < |entries|
      invariant i <= |entries|
      invariant Acceptable(entries[..i], server, network)
      invariant Represents(bindings, entries[..i]) && Injective(bindings)
      invariant fingerprints == bindings.Values
    {
      var e := entries[i];
      var address := ParseIpv4(e.address);
      var fingerprint := Normalize(FirstToken(e.value));
      if address.None? {
        Refused(entries, i, server, network);
        return None;
      }
      MembershipIsInterval(address.value, cidr.value.0, cidr.value.1);
      if !InCidr(address.value, cidr.value.0, cidr.value.1) || address.value == server {
        Refused(entries, i, server, network);
        return None;
      }
      if address.value in bindings {
        RepeatedAddress(entries, i, server, network, bindings);
        return None;
      }
      if fingerprint.None? {
        Refused(entries, i, server, network);
        return None;
      }
      if fingerprint.value in fingerprints {
        RepeatedFingerprint(entries, i, server, network, bindings);
        return None;
      }
      OneMore(entries, i, server, network, bindings);
      fingerprints := fingerprints + {fingerprint.value};
      bindings := bindings[address.value := fingerprint.value];
      i := i + 1;
    }
    assert entries[..i] == entries;
    r := Some(bindings);
  }

  lemma {:induction false} Refused(entries: seq<Entry>, i: nat, server: Ipv4, network: string)
    requires i < |entries| && ParseCidr(network).Some?
    requires !EntryOk(entries[i], server, ParseCidr(network).value.0, ParseCidr(network).value.1)
    ensures !Acceptable(entries, server, network)
  {
    hide EntryOk;
  }

  lemma {:induction false} RepeatedAddress(entries: seq<Entry>, i: nat, server: Ipv4, network: string,
                                           bindings: map<Ipv4, Fingerprint>)
    requires i < |entries| && Represents(bindings, entries[..i])
    requires ParseIpv4(entries[i].address).Some? && ParseIpv4(entries[i].address).value in bindings
    ensures !Acceptable(entries, server, network)
  {
    hide ParseIpv4, Normalize, EntryOk;
    var j :| 0 <= j < i && ParseIpv4(entries[..i][j].address) == ParseIpv4(entries[i].address);
    assert entries[j] == entries[..i][j];
  }

  lemma {:induction false} RepeatedFingerprint(entries: seq<Entry>, i: nat, server: Ipv4, network: string,
                                               bindings: map<Ipv4, Fingerprint>)
    requires i < |entries| && Represents(bindings, entries[..i])
    requires Normalize(FirstToken(entries[i].value)).Some?
             && Normalize(FirstToken(entries[i].value)).value in bindings.Values
    ensures !Acceptable(entries, server, network)
  {
    hide ParseIpv4, Normalize, FirstToken, EntryOk;
    var a :| a in bindings && bindings[a] == Normalize(FirstToken(entries[i].value)).value;
    var j :| 0 <= j < i && ParseIpv4(entries[..i][j].address) == Some(a);
    assert entries[j] == entries[..i][j];
  }

  /** Adding a new address with a new fingerprint. */
  lemma {:induction false} OneMoreBinding(bindings: map<Ipv4, Fingerprint>, a: Ipv4, f: Fingerprint)
    requires Injective(bindings) && a !in bindings && f !in bindings.Values
    ensures Injective(bindings[a := f]) && bindings[a := f].Values == bindings.Values + {f}
  {
    var more := bindings[a := f];
    forall v | v in bindings.Values ensures v in more.Values {
      var b :| b in bindings && bindings[b] == v;
      assert more[b] == v;
    }
    assert more[a] == f;
    forall b, c | b in more && c in more && more[b] == more[c] ensures b == c {
      if b != a { assert bindings[b] in bindings.Values; }
      if c != a { assert bindings[c] in bindings.Values; }
    }
  }

  lemma {:induction false} OneMoreAcceptable(before: seq<Entry>, e: Entry, server: Ipv4, network: string,
                                             bindings: map<Ipv4, Fingerprint>)
    requires ParseCidr(network).Some? && EntryOk(e, server, ParseCidr(network).value.0, ParseCidr(network).value.1)
    requires Acceptable(before, server, network) && Represents(bindings, before)
    requires ParseIpv4(e.address).value !in bindings
    requires Normalize(FirstToken(e.value)).value !in bindings.Values
    ensures Acceptable(before + [e], server, network)
  {
    hide ParseIpv4, Normalize, FirstToken, InBlock, ParseCidr, EntryOk;
    forall j | 0 <= j < |before|
      ensures ParseIpv4(before[j].address) != ParseIpv4(e.address)
      ensures Normalize(FirstToken(before[j].value)) != Normalize(FirstToken(e.value))
    {
      assert ParseIpv4(before[j].address).value in bindings;
      assert bindings[ParseIpv4(before[j].address).value] in bindings.Values;
    }
  }

  lemma {:induction false} OneMoreRepresented(before: seq<Entry>, e: Entry, bindings: map<Ipv4, Fingerprint>)
    requires Represents(bindings, before)
    requires ParseIpv4(e.address).Some? && ParseIpv4(e.address).value !in bindings
    requires Normalize(FirstToken(e.value)).Some?
    ensures Represents(bindings[ParseIpv4(e.address).value := Normalize(FirstToken(e.value)).value], before + [e])
  {
    hide ParseIpv4, Normalize, FirstToken;
    var a, after := ParseIpv4(e.address).value, before + [e];
    var more := bindings[a := Normalize(FirstToken(e.value)).value];
    forall b | b in more ensures exists j :: 0 <= j < |after| && ParseIpv4(after[j].address) == Some(b) {
      if b in bindings {
        var j :| 0 <= j < |before| && ParseIpv4(before[j].address) == Some(b);
        assert after[j] == before[j];
      } else {
        assert after[|before|] == e;
      }
    }
  }

  lemma {:induction false} OneMore(entries: seq<Entry>, i: nat, server: Ipv4, network: string,
                                   bindings: map<Ipv4, Fingerprint>)
    requires i < |entries| && ParseCidr(network).Some?
    requires EntryOk(entries[i], server, ParseCidr(network).value.0, ParseCidr(network).value.1)
    requires Acceptable(entries[..i], server, network) && Represents(bindings, entries[..i]) && Injective(bindings)
    requires ParseIpv4(entries[i].address).value !in bindings
    requires Normalize(FirstToken(entries[i].value)).value !in bindings.Values
    ensures var a, f := ParseIpv4(entries[i].address).value, Normalize(FirstToken(entries[i].value)).value;
            && Acceptable(entries[..i + 1], server, network)
            && Represents(bindings[a := f], entries[..i + 1]) && Injective(bindings[a := f])
            && bindings[a := f].Values == bindings.Values + {f}
  {
    hide ParseIpv4, Normalize, FirstToken, InBlock, ParseCidr, Acceptable, Represents, Injective;
    assert entries[..i + 1] == entries[..i] + [entries[i]];
    OneMoreAcceptable(entries[..i], entries[i], server, network, bindings);
    OneMoreRepresented(entries[..i], entries[i], bindings);
    OneMoreBinding(bindings, ParseIpv4(entries[i].address).value, Normalize(FirstToken(entries[i].value)).value);
  }

  // ----- The lookup by fingerprint -----

  /** The first binding with the fingerprint, in the order in which the map is iterated. */
  function FindAddress(order: seq<Ipv4>, bindings: map<Ipv4, Fingerprint>, fingerprint: Fingerprint): Option<Ipv4>
    requires forall a :: a in order ==> a in bindings
  {
    if order == [] then None
    else if bindings[order[0]] == fingerprint then Some(order[0])
    else FindAddress(order[1..], bindings, fingerprint)
  }

  lemma {:induction false} FindAddressExact(order: seq<Ipv4>, bindings: map<Ipv4, Fingerprint>,
                                            fingerprint: Fingerprint)
    requires forall a :: a in order ==> a in bindings
    ensures FindAddress(order, bindings, fingerprint).None? <==> forall a :: a in order ==> bindings[a] != fingerprint
    ensures FindAddress(order, bindings, fingerprint).Some? ==>
              var a := FindAddress(order, bindings, fingerprint).value;
              a in order && bindings[a] == fingerprint
  {
    if order != [] {
      FindAddressExact(order[1..], bindings, fingerprint);
      assert order == [order[0]] + order[1..];
    }
  }

  /** Accepted bindings are looked up alike in every iteration order. */
  lemma {:induction false} LookupIgnoresOrder(order: seq<Ipv4>, order': seq<Ipv4>, bindings: map<Ipv4, Fingerprint>,
                                              fingerprint: Fingerprint)
    requires Injective(bindings)
    requires (forall a :: a in order <==> a in bindings) && (forall a :: a in order' <==> a in bindings)
    ensures FindAddress(order, bindings, fingerprint) == FindAddress(order', bindings, fingerprint)
  {
    FindAddressExact(order, bindings, fingerprint);
    FindAddressExact(order', bindings, fingerprint);
  }

  // ----- The source-address policy -----

  const URI_PREFIX := "urn:autobricks:"
  const POLICY_PREFIX := "urn:autobricks:allowed-source-cidr:"

  predicate StartsWith(s: string, prefix: string) {
    |prefix| <= |s| && s[..|prefix|] == prefix
  }

  function PolicyNames(names: seq<string>): seq<string> {
    if names == [] then []
    else
      var n := |names| - 1;
      PolicyNames(names[..n]) + if StartsWith(names[n], URI_PREFIX) then [names[n]] else []
  }

  function PolicyOf(name: string): Option<(Ipv4, nat)> {
    if StartsWith(name, POLICY_PREFIX) then ParseCidr(name[|POLICY_PREFIX|..]) else None
  }

  /** certificate_source_policy_allows: an error, or whether the source may connect.  A
      certificate without a policy allows every source, one with exactly one well-formed policy
      allows its interval, and anything else is an error. */
  method CertificateSourcePolicyAllows(names: seq<string>, source: Ipv4) returns (r: Option<bool>)
    ensures r.Some?
            <==> PolicyNames(names) == [] || (|PolicyNames(names)| == 1 && PolicyOf(PolicyNames(names)[0]).Some?)
    ensures r.Some? && PolicyNames(names) == [] ==> r.value
    ensures r.Some? && PolicyNames(names) != [] ==>
              var (network, prefix) := PolicyOf(PolicyNames(names)[0]).value;
              r.value <==> prefix <= 32 && InBlock(source, network, prefix)
  {
    hide ParseCidr;
    var policy: Option<(Ipv4, nat)> := None;
    var i := 0;
    while i < |names|
      invariant i <= |names|
      invariant policy.None? <==> PolicyNames(names[..i]) == []
      invariant policy.Some? ==> |PolicyNames(names[..i])| == 1 && PolicyOf(PolicyNames(names[..i])[0]) == policy
    {
      var name := names[i];
      assert names[..i + 1][..i] == names[..i];
      if StartsWith(name, URI_PREFIX) {
        MorePolicies(names, i + 1);
        if !StartsWith(name, POLICY_PREFIX) || policy.Some? {
          return None;
        }
        policy := ParseCidr(name[|POLICY_PREFIX|..]);
        if policy.None? {
          return None;
        }
      }
      i := i + 1;
    }
    assert names[..i] == names;
    if policy.None? {
      return Some(true);
    }
    MembershipIsInterval(source, policy.value.0, policy.value.1);
    r := Some(InCidr(source, policy.value.0, policy.value.1));
  }

  lemma {:induction false} MorePolicies(names: seq<string>, k: nat)
    requires k <= |names|
    ensures PolicyNames(names[..k]) <= PolicyNames(names)
  {
    if k < |names| {
      MorePolicies(names[..|names| - 1], k);
      assert names[..|names| - 1][..k] == names[..k];
    } else {
      assert names[..k] == names;
    }
  }

  // ----- The console's side -----

  /** One to three digits, leading zeros allowed, at most 255. */
  function JsOctet(s: string): Option<nat> {
    if 1 <= |s| <= 3 && AllDigits(s) && Number(s) <= 255 then Some(Number(s)) else None
  }

  function JsPrefix(s: string): Option<nat> {
    if 1 <= |s| <= 2 && AllDigits(s) && Number(s) <= 32 then Some(Number(s)) else None
  }

  function JsAddress(s: string): Option<Ipv4> {
    match Cut(s, '.')
    case None => None
    case Some((p, s1)) =>
      match Cut(s1, '.')
      case None => None
      case Some((q, s2)) =>
        match Cut(s2, '.')
        case None => None
        case Some((r, s3)) => FromOctets(JsOctet(p), JsOctet(q), JsOctet(r), JsOctet(s3))
  }

  datatype Allowed = Everyone | Policy(cidr: string) | Rejected

  /** validateAllowedSourceCidr */
  function ValidateAllowedSourceCidr(value: string): Allowed {
    var text := Trim(JsSpace, value);
    if text == "" then Everyone
    else
      match Cut(text, '/')
      case None => Rejected
      case Some((address, prefix)) =>
        var block := CidrOf(JsAddress(address), JsPrefix(prefix));
        if block.None? then Rejected else Policy(PrintCidr(block.value.0, block.value.1))
  }

  /** The URI names of the certificate issued for such an input. */
  function PolicyUris(allowed: Allowed): seq<string> {
    match allowed
    case Policy(cidr) => [POLICY_PREFIX + cidr]
    case _ => []
  }

  lemma {:induction false} PolicyUri(cidr: string)
    ensures PolicyNames([POLICY_PREFIX + cidr]) == [POLICY_PREFIX + cidr]
    ensures PolicyOf(POLICY_PREFIX + cidr) == ParseCidr(cidr)
  {
    hide ParseCidr;
    var name := POLICY_PREFIX + cidr;
    assert name[|POLICY_PREFIX|..] == cidr;
    assert name[..|POLICY_PREFIX|] == POLICY_PREFIX;
    assert name[..|URI_PREFIX|] == POLICY_PREFIX[..|URI_PREFIX|] == URI_PREFIX;
    var names := [name];
    assert names[..0] == [] && PolicyNames(names[..0]) == [];
  }

  /** Whatever the console accepts, the server reads from the certificate as the same block: the
      sources it lets in are exactly the block's interval. */
  lemma {:induction false} IssuedPolicyIsInterval(value: string)
    requires ValidateAllowedSourceCidr(value).Policy?
    ensures var (address, prefix) := Cut(Trim(JsSpace, value), '/').value;
            var block := CidrOf(JsAddress(address), JsPrefix(prefix));
            && block.Some?
            && PolicyNames(PolicyUris(ValidateAllowedSourceCidr(value))) == PolicyUris(ValidateAllowedSourceCidr(value))
            && PolicyOf(PolicyUris(ValidateAllowedSourceCidr(value))[0]) == block
            && forall source: Ipv4 ::
                 InCidr(source, block.value.0, block.value.1) <==> InBlock(source, block.value.0, block.value.1)
  {
    hide Trim, JsAddress, JsPrefix, PrintCidr, ParseCidr, InCidr, InBlock, PolicyNames, PolicyOf;
    var (address, prefix) := Cut(Trim(JsSpace, value), '/').value;
    var block := CidrOf(JsAddress(address), JsPrefix(prefix)).value;
    var cidr := PrintCidr(block.0, block.1);
    CidrReads(block.0, block.1);
    PolicyUri(cidr);
    forall source: Ipv4 ensures InCidr(source, block.0, block.1) <==> InBlock(source, block.0, block.1) {
      MembershipIsInterval(source, block.0, block.1);
    }
  }
}
