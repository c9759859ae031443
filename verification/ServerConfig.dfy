/** Saving and removing clients through the web console, and the server's logins. */
module ServerConfig {
  import opened Net
  import opened Bits
  import opened Cidr
  import opened Text
  import opened ServerIni
  import opened ReadBack
  import Bindings

  // ----- Which addresses the console accepts -----

  /** The `[server]` settings that matter here; the network is given by its number. */
  datatype Settings = Settings(vpnAddress: string, network: Ipv4, prefix: nat)

  predicate ValidSettings(s: Settings) { 1 <= s.prefix <= 32 && NoHostBits(s.network, s.prefix) }

  /** validateClientAddress */
  predicate ConsoleAccepts(value: string, s: Settings)
    requires ValidSettings(s)
  {
    PrefixMaskBound(s.prefix);
    var address := Bindings.JsAddress(value);
    && address.Some?
    && And(address.value, PrefixMask(s.prefix)) == s.network
    && address.value != s.network
    && address.value != Or(s.network, Not32(PrefixMask(s.prefix)))
    && value != s.vpnAddress
  }

  /** The addresses the console accepts are those strictly between the first and the last address
      of the network that are not written as the server's is. */
  lemma {:induction false} ConsoleInsideNetwork(value: string, s: Settings)
    requires ValidSettings(s)
    ensures ConsoleAccepts(value, s)
       <==> && Bindings.JsAddress(value).Some?
            && s.network < Bindings.JsAddress(value).value < s.network + Pow2(32 - s.prefix) - 1
            && value != s.vpnAddress
  {
    hide Bindings.JsAddress, And, Or;
    LastOfBlock(s.network, s.prefix);
    if Bindings.JsAddress(value).Some? {
      MembershipIsInterval(Bindings.JsAddress(value).value, s.network, s.prefix);
    }
  }

  /** What the console reads as an address: four numbers of one to three digits, up to 255. */
  lemma {:induction false} JsAddressReads(p: string, q: string, r: string, t: string)
    requires AllDigits(p) && AllDigits(q) && AllDigits(r) && AllDigits(t)
    requires 1 <= |p| <= 3 && 1 <= |q| <= 3 && 1 <= |r| <= 3 && 1 <= |t| <= 3
    ensures Bindings.JsAddress(p + "." + q + "." + r + "." + t)
         == if Number(p) <= 255 && Number(q) <= 255 && Number(r) <= 255 && Number(t) <= 255 then
              Some(0x100_0000 * Number(p) + 0x1_0000 * Number(q) + 0x100 * Number(r) + Number(t))
            else None
  {
    hide Number;
    assert p + "." + q + "." + r + "." + t == p + ['.'] + (q + ['.'] + (r + ['.'] + t));
    CutOf(p, '.', q + ['.'] + (r + ['.'] + t));
    CutOf(q, '.', r + ['.'] + t);
    CutOf(r, '.', t);
  }

  /** The server reads an octet only without superfluous zeros, and then as the console does. */
  lemma {:induction false} OctetBoth(text: string)
    ensures ParseOctet(text).Some? ==> Bindings.JsOctet(text) == ParseOctet(text)
  {
  }

  lemma {:induction false} AddressBoth(value: string)
    ensures ParseIpv4(value).Some? ==> Bindings.JsAddress(value) == ParseIpv4(value)
  {
    hide ParseOctet, Bindings.JsOctet;
    if ParseIpv4(value).Some? {
      var (p, s1) := Cut(value, '.').value;
      var (q, s2) := Cut(s1, '.').value;
      var (r, s3) := Cut(s2, '.').value;
      OctetBoth(p);
      OctetBoth(q);
      OctetBoth(r);
      OctetBoth(s3);
    }
  }

  /** The server understands an address that the console accepts exactly when it is written
      without superfluous zeros.  Any other one makes it reject all bindings. */
  lemma {:induction false} ServerUnderstandsIff(value: string)
    requires Bindings.JsAddress(value).Some?
    ensures ParseIpv4(value).Some? <==> value == Dotted(Bindings.JsAddress(value).value)
    ensures ParseIpv4(value).Some? ==> ParseIpv4(value) == Bindings.JsAddress(value)
    ensures ParseIpv4(value).None? ==>
              forall entries: seq<Bindings.Entry>, server, network, i ::
                0 <= i < |entries| && entries[i].address == value ==> !Bindings.Acceptable(entries, server, network)
  {
    hide ParseIpv4, Bindings.JsAddress, Dotted;
    AddressBoth(value);
    if ParseIpv4(value).Some? {
      ParsedPrints(value);
    } else {
      DottedReads(Bindings.JsAddress(value).value);
      forall entries: seq<Bindings.Entry>, server, network, i
        | 0 <= i < |entries| && entries[i].address == value
        ensures !Bindings.Acceptable(entries, server, network)
      {
        if Bindings.ParseCidr(network).Some? {
          Bindings.Refused(entries, i, server, network);
        }
      }
    }
  }

  lemma {:induction false} LastOfBlock(network: Ipv4, prefix: nat)
    requires prefix <= 32 && NoHostBits(network, prefix)
    ensures PrefixMask(prefix) <= U32_MAX
    ensures Or(network, Not32(PrefixMask(prefix))) == network + Pow2(32 - prefix) - 1
  {
    MaskRounds(network, prefix);
    PrefixMaskValue(prefix);
    OrLowBits(network, 32 - prefix);
  }

  lemma {:induction false} JsAddressText(s: string)
    requires Bindings.JsAddress(s).Some?
    ensures AddressText(s)
  {
    hide Number;
    CutSound(s, '.');
    var (p, s1) := Cut(s, '.').value;
    CutSound(s1, '.');
    var (q, s2) := Cut(s1, '.').value;
    CutSound(s2, '.');
    var (r, s3) := Cut(s2, '.').value;
    AddressJoin(r, s3);
    AddressJoin(q, s2);
    AddressJoin(p, s1);
  }

  lemma {:induction false} AddressJoin(front: string, back: string)
    requires AllDigits(front) && (AllDigits(back) || AddressText(back))
    ensures AddressText(front + ['.'] + back)
  {
  }

  // ----- saveClient and removeClient -----

  datatype Outcome = Saved | Removed | InvalidAddress | InvalidFingerprint | FingerprintExists | InvalidLogin | NotFound

  function Others(clients: seq<Client>, vpnAddress: string): seq<Client> {
    if clients == [] then []
    else
      var n := |clients| - 1;
      Others(clients[..n], vpnAddress) + if clients[n].vpnAddress != vpnAddress then [clients[n]] else []
  }

  lemma {:induction false} OthersMembers(clients: seq<Client>, vpnAddress: string)
    ensures forall c :: c in Others(clients, vpnAddress) <==> c in clients && c.vpnAddress != vpnAddress
    ensures |Others(clients, vpnAddress)| <= |clients|
  {
    if clients != [] {
      var n := |clients| - 1;
      OthersMembers(clients[..n], vpnAddress);
      assert clients == clients[..n] + [clients[n]];
    }
  }

  /** The order in which clients are written is a permutation; which one does not matter. */
  ghost predicate Sorts(sort: seq<Client> -> seq<Client>) {
    forall list :: multiset(sort(list)) == multiset(list)
  }

  lemma {:induction false} SameMembers<T>(a: seq<T>, b: seq<T>, x: T)
    requires multiset(a) == multiset(b)
    ensures x in a <==> x in b
  {
    assert x in a <==> x in multiset(a);
    assert x in b <==> x in multiset(b);
  }

  /** Written in any order, the clients are read back, each once, exactly when all of them
      survive. */
  lemma {:induction false} SortedReadsIff(lines: Lines, clients: seq<Client>, sort: seq<Client> -> seq<Client>)
    requires Sorts(sort) && AllAsRead(clients)
    ensures multiset(ReadClients(Written(lines, sort(clients)))) == multiset(clients)
       <==> forall c :: c in clients ==> Survives(c)
    ensures (forall c :: c in clients ==> !OpensSection(c)) ==>
              multiset(ReadClients(Written(lines, sort(clients)))) == multiset(AllAgain(clients))
  {
    hide ReadClients, Written, AsRead, Survives, OpensSection, AllAgain;
    var sorted := sort(clients);
    forall i | 0 <= i < |sorted| ensures AsRead(sorted[i]) {
      SameMembers(sorted, clients, sorted[i]);
    }
    WrittenReadsIff(lines, sorted);
    if forall c :: c in clients ==> !OpensSection(c) {
      forall i | 0 <= i < |sorted| ensures !OpensSection(sorted[i]) {
        SameMembers(sorted, clients, sorted[i]);
      }
      AllReached(sorted);
      WrittenReadsAgain(lines, sorted);
      AllAgainOfOrder(sorted, clients);
    }
    if forall i :: 0 <= i < |sorted| ==> Survives(sorted[i]) {
      forall c | c in clients ensures Survives(c) {
        SameMembers(sorted, clients, c);
      }
    }
    if forall c :: c in clients ==> Survives(c) {
      forall i | 0 <= i < |sorted| ensures Survives(sorted[i]) {
        SameMembers(sorted, clients, sorted[i]);
      }
    }
  }

  lemma {:induction false} AllReached(clients: seq<Client>)
    requires forall i :: 0 <= i < |clients| ==> !OpensSection(clients[i])
    ensures clients[..Reached(clients)] == clients
  {
    ReachedIs(clients);
  }

  lemma {:induction false} OthersAsRead(lines: Lines, vpnAddress: string)
    ensures AllAsRead(Others(ReadClients(lines), vpnAddress))
  {
    hide AsRead, ReadClients;
    var clients := ReadClients(lines);
    ClientsAsRead(lines);
    OthersMembers(clients, vpnAddress);
    var others := Others(clients, vpnAddress);
    forall i | 0 <= i < |others| ensures AsRead(others[i]) {
      assert others[i] in clients;
    }
  }

  lemma {:induction false} LoginRules(id: string, password: string)
    ensures LoginIdOk(id)
       <==> 1 <= |id| <= 64 && forall i :: 0 <= i < |id| ==>
              || '0' <= id[i] <= '9' || 'A' <= id[i] <= 'Z' || 'a' <= id[i] <= 'z'
              || id[i] in "_.@-"
    ensures PasswordOk(password)
       <==> 1 <= |password| <= 128 && forall i :: 0 <= i < |password| ==> !JsSpace(password[i]) && password[i] != '#'
    ensures LoginIdOk(id) ==> id != ""
    ensures PasswordOk(password) ==> password != ""
  {
  }

  /** An accepted client is one that the console reads back. */
  lemma {:induction false} EnteredPlain(vpnAddress: string, fingerprint: string, id: string,
                                        password: string, settings: Settings)
    requires ValidSettings(settings) && ConsoleAccepts(vpnAddress, settings) && Bindings.Normalize(fingerprint).Some?
    requires (id == "" && password == "") || (LoginIdOk(id) && PasswordOk(password))
    ensures var entered := Client(vpnAddress, Bindings.Normalize(fingerprint).value, id,
                                  if id == "" then None else Some(password));
            Plain(entered, JsSpace) && AsRead(entered) && Survives(entered)
  {
    JsAddressText(vpnAddress);
    if id != "" { LoginIdPlain(id); }
    PlainAsRead(Client(vpnAddress, Bindings.Normalize(fingerprint).value, id,
                       if id == "" then None else Some(password)));
  }

  lemma {:induction false} OneMoreSurvives(clients: seq<Client>, c: Client)
    requires Survives(c)
    ensures (forall x :: x in clients + [c] ==> Survives(x)) <==> forall x :: x in clients ==> Survives(x)
    ensures (forall x :: x in clients ==> !OpensSection(x)) ==> forall x :: x in clients + [c] ==> !OpensSection(x)
  {
    assert !OpensSection(c);
    hide Survives, OpensSection;
    forall x | x in clients ensures x in clients + [c] {}
    forall x | x in clients + [c] ensures x in clients || x == c {}
  }

  lemma {:induction false} OthersShorter(clients: seq<Client>, vpnAddress: string)
    ensures |Others(clients, vpnAddress)| < |clients| <==> exists c :: c in clients && c.vpnAddress == vpnAddress
    ensures |Others(clients, vpnAddress)| <= |clients|
  {
    if clients != [] {
      var n := |clients| - 1;
      OthersShorter(clients[..n], vpnAddress);
      OthersMembers(clients[..n], vpnAddress);
      assert clients == clients[..n] + [clients[n]];
    }
  }

  // ----- The server's logins -----

  type Logins = map<Ipv4, (string, string)>

  /** client_logins: entries of one field have no login, entries of three have one, later
      entries win, and anything else is an error. */
  function ClientLogins(entries: seq<Pair>): Option<Logins> {
    if entries == [] then Some(map[])
    else
      var n := |entries| - 1;
      var before := ClientLogins(entries[..n]);
      var fields := Tokens(RustSpace, entries[n].value);
      if before.None? then None
      else if |fields| == 1 then before
      else if |fields| == 3 && ParseIpv4(entries[n].key).Some? then
        Some(before.value[ParseIpv4(entries[n].key).value := (fields[1], fields[2])])
      else None
  }

  method ReadLogins(entries: seq<Pair>) returns (logins: Option<Logins>)
    ensures logins == ClientLogins(entries)
  {
    hide Tokens, ParseIpv4;
    logins := Some(map[]);
    var i := 0;
    while i < |entries|
      invariant i <= |entries|
      invariant logins.Some? && logins == ClientLogins(entries[..i])
    {
      assert entries[..i + 1][..i] == entries[..i];
      var fields := Tokens(RustSpace, entries[i].value);
      if |fields| == 3 {
        var address := ParseIpv4(entries[i].key);
        if address.None? {
          RejectedStays(entries, i + 1);
          return None;
        }
        logins := Some(logins.value[address.value := (fields[1], fields[2])]);
      } else if |fields| != 1 {
        RejectedStays(entries, i + 1);
        return None;
      }
      i := i + 1;
    }
    assert entries[..i] == entries;
  }

  lemma {:induction false} RejectedStays(entries: seq<Pair>, k: nat)
    requires k <= |entries| && ClientLogins(entries[..k]).None?
    ensures ClientLogins(entries).None?
  {
    hide Tokens, ParseIpv4;
    if k < |entries| {
      assert entries[..|entries| - 1][..k] == entries[..k];
      RejectedStays(entries[..|entries| - 1], k);
    } else {
      assert entries[..k] == entries;
    }
  }

  ghost predicate DistinctAddresses(clients: seq<Client>) {
    && (forall i :: 0 <= i < |clients| ==> ParseIpv4(clients[i].vpnAddress).Some?)
    && (forall i, j :: 0 <= i < j < |clients| ==> ParseIpv4(clients[i].vpnAddress) != ParseIpv4(clients[j].vpnAddress))
  }

  /** The logins are exactly those of the clients that have one. */
  ghost predicate LoginsAre(logins: Logins, clients: seq<Client>) {
    && (forall i :: 0 <= i < |clients| ==>
          ParseIpv4(clients[i].vpnAddress).Some? &&
          var a := ParseIpv4(clients[i].vpnAddress).value;
          if clients[i].loginId == "" then a !in logins
          else a in logins && clients[i].password.Some? && logins[a] == (clients[i].loginId, clients[i].password.value))
    && (forall a :: a in logins ==> exists i :: 0 <= i < |clients| && ParseIpv4(clients[i].vpnAddress) == Some(a))
  }

  lemma {:induction false} LastEntry(entries: seq<Pair>)
    requires entries != [] && ClientLogins(entries[..|entries| - 1]).Some?
    ensures var n := |entries| - 1;
            var fields, before := Tokens(RustSpace, entries[n].value), ClientLogins(entries[..n]).value;
            && (|fields| == 1 ==> ClientLogins(entries) == Some(before))
            && (|fields| == 3 && ParseIpv4(entries[n].key).Some? ==>
                  ClientLogins(entries) == Some(before[ParseIpv4(entries[n].key).value := (fields[1], fields[2])]))
  {
    hide Tokens, ParseIpv4;
  }

  lemma {:induction false} DistinctPrefix(clients: seq<Client>)
    requires DistinctAddresses(clients) && clients != []
    ensures DistinctAddresses(clients[..|clients| - 1]) && ParseIpv4(clients[|clients| - 1].vpnAddress).Some?
  {
    hide ParseIpv4;
  }

  /** From the pairs of a written file the server takes exactly the clients' logins. */
  lemma {:induction false} LoginsOfWritten(clients: seq<Client>)
    requires forall i :: 0 <= i < |clients| ==> Portable(clients[i])
    requires DistinctAddresses(clients)
    ensures ClientLogins(PairsOf(clients)).Some? && LoginsAre(ClientLogins(PairsOf(clients)).value, clients)
  {
    if clients != [] {
      hide Tokens, ParseIpv4, ValueOf, Portable, PairsOf, ClientLogins, LoginsAre, DistinctAddresses;
      var n := |clients| - 1;
      DistinctPrefix(clients);
      LoginsOfWritten(clients[..n]);
      FieldsForServer(clients, n);
      PairsPrefix(clients);
      PortableLogin(clients[n]);
      LastEntry(PairsOf(clients));
      var logins := ClientLogins(PairsOf(clients[..n])).value;
      NewAddress(logins, clients);
      OneMoreLogin(logins, clients);
    }
  }

  lemma {:induction false} NewAddress(logins: Logins, clients: seq<Client>)
    requires clients != [] && DistinctAddresses(clients) && LoginsAre(logins, clients[..|clients| - 1])
    ensures ParseIpv4(clients[|clients| - 1].vpnAddress).value !in logins
  {
    hide ParseIpv4;
    var n := |clients| - 1;
    assert forall i :: 0 <= i < n ==> clients[..n][i] == clients[i];
  }

  lemma {:induction false} PortableLogin(c: Client)
    requires Portable(c)
    ensures c.loginId == "" <==> c.password.None?
  {
  }

  lemma {:induction false} PairsPrefix(clients: seq<Client>)
    requires clients != []
    ensures PairsOf(clients) != [] && PairsOf(clients)[..|PairsOf(clients)| - 1] == PairsOf(clients[..|clients| - 1])
  {
    hide ValueOf;
  }

  lemma {:induction false} OneMoreLogin(logins: Logins, clients: seq<Client>)
    requires clients != [] && DistinctAddresses(clients)
    requires LoginsAre(logins, clients[..|clients| - 1])
    requires clients[|clients| - 1].loginId == "" <==> clients[|clients| - 1].password.None?
    requires ParseIpv4(clients[|clients| - 1].vpnAddress).value !in logins
    ensures var c := clients[|clients| - 1];
            LoginsAre(if c.loginId == "" then logins
                      else logins[ParseIpv4(c.vpnAddress).value := (c.loginId, c.password.value)], clients)
  {
    hide ParseIpv4;
    var n := |clients| - 1;
    var c := clients[n];
    var logins' := if c.loginId == "" then logins
                   else logins[ParseIpv4(c.vpnAddress).value := (c.loginId, c.password.value)];
    forall i | 0 <= i < n ensures clients[..n][i] == clients[i] {}
    forall a | a in logins' ensures exists i :: 0 <= i < |clients| && ParseIpv4(clients[i].vpnAddress) == Some(a) {
      if a in logins {
        var i :| 0 <= i < n && ParseIpv4(clients[..n][i].vpnAddress) == Some(a);
        assert clients[i] == clients[..n][i];
      } else {
        assert ParseIpv4(clients[n].vpnAddress) == Some(a);
      }
    }
  }

  // ----- What the server takes from a written file -----

  predicate BindsTo(entry: Pair, c: Client) {
    entry.key == c.vpnAddress && Bindings.Normalize(Bindings.FirstToken(entry.value)) == Some(c.fingerprint)
  }

  ghost predicate BindsSome(entry: Pair, clients: seq<Client>) {
    exists c :: c in clients && BindsTo(entry, c)
  }

  ghost predicate SomeBinds(entries: seq<Pair>, c: Client) {
    exists i :: 0 <= i < |entries| && BindsTo(entries[i], c)
  }

  /** The entries give each client its address, its fingerprint and its login, and nobody else
      anything. */
  ghost predicate ServerTakes(entries: seq<Pair>, clients: seq<Client>) {
    && |entries| == |clients|
    && ClientLogins(entries).Some? && LoginsAre(ClientLogins(entries).value, clients)
    && (forall c :: c in clients ==> SomeBinds(entries, c))
    && (forall i :: 0 <= i < |entries| ==> BindsSome(entries[i], clients))
  }

  ghost predicate AllPortable(clients: seq<Client>) {
    forall i :: 0 <= i < |clients| ==> Portable(clients[i])
  }

  lemma {:induction false} FirstIsToken(s: string)
    requires Tokens(RustSpace, s) != []
    ensures Bindings.FirstToken(s) == Tokens(RustSpace, s)[0]
  {
    hide RustSpace;
  }

  lemma {:induction false} NormalStays(f: string)
    requires FingerprintText(f)
    ensures Bindings.Normalize(f) == Some(f)
  {
    NoColons(f);
    forall i | 0 <= i < |f| ensures Bindings.Lower(f[i]) == f[i] {}
    assert seq(|f|, i requires 0 <= i < |f| => Bindings.Lower(f[i])) == f;
  }

  lemma {:induction false} EntryBinds(clients: seq<Client>, i: nat)
    requires i < |clients| && Portable(clients[i])
    ensures |PairsOf(clients)| == |clients| && BindsTo(PairsOf(clients)[i], clients[i])
  {
    hide Tokens, ValueOf, PairsOf, Bindings.Normalize, Bindings.FirstToken;
    FieldsForServer(clients, i);
    FirstIsToken(PairsOf(clients)[i].value);
    NormalStays(clients[i].fingerprint);
  }

  lemma {:induction false} ServerTakesWritten(lines: Lines, clients: seq<Client>)
    requires OneSection(lines) && AllPortable(clients) && DistinctAddresses(clients)
    ensures ServerTakes(RustEntries(Written(lines, clients), false), clients)
  {
    hide Portable, PairsOf, BindsTo, RustEntries, Written, OneSection, DistinctAddresses, LoginsAre, ClientLogins;
    ServerReadsWritten(lines, clients);
    LoginsOfWritten(clients);
    var entries := PairsOf(clients);
    if clients == [] { NoPairs(); } else { EntryBinds(clients, 0); }
    forall c | c in clients ensures SomeBinds(entries, c) {
      var i :| 0 <= i < |clients| && clients[i] == c;
      EntryBinds(clients, i);
    }
    forall i | 0 <= i < |entries| ensures BindsSome(entries[i], clients) {
      EntryBinds(clients, i);
      assert clients[i] in clients;
    }
  }

  lemma {:induction false} NoPairs()
    ensures PairsOf([]) == []
  {
  }

  /** A client that is listed twice, and one that is there twice. */
  lemma {:induction false} Twice(list: seq<Client>, i: nat, j: nat)
    requires i < j < |list| && list[i] == list[j]
    ensures multiset(list)[list[i]] >= 2
  {
    assert list == list[..j] + [list[j]] + list[j + 1..];
    assert list[..j][i] == list[i];
    assert multiset(list) == multiset(list[..j]) + multiset{list[j]} + multiset(list[j + 1..]);
  }

  lemma {:induction false} TwoPlaces(list: seq<Client>, c: Client) returns (i: nat, j: nat)
    requires multiset(list)[c] >= 2
    ensures i < j < |list| && list[i] == c && list[j] == c
  {
    assert list != [];
    var n := |list| - 1;
    assert list == list[..n] + [list[n]];
    if list[n] == c {
      assert c in multiset(list[..n]);
      i :| 0 <= i < n && list[..n][i] == c;
      j := n;
    } else {
      i, j := TwoPlaces(list[..n], c);
    }
  }

  lemma {:induction false} DistinctInOrder(a: seq<Client>, b: seq<Client>)
    requires multiset(a) == multiset(b) && DistinctAddresses(a)
    ensures DistinctAddresses(b)
  {
    hide ParseIpv4;
    forall i | 0 <= i < |b| ensures ParseIpv4(b[i].vpnAddress).Some? {
      SameMembers(a, b, b[i]);
      var k :| 0 <= k < |a| && a[k] == b[i];
    }
    forall i, j | 0 <= i < j < |b| ensures ParseIpv4(b[i].vpnAddress) != ParseIpv4(b[j].vpnAddress) {
      if b[i] == b[j] {
        Twice(b, i, j);
        var p, q := TwoPlaces(a, b[i]);
        assert false;
      } else {
        SameMembers(a, b, b[i]);
        SameMembers(a, b, b[j]);
        var p :| 0 <= p < |a| && a[p] == b[i];
        var q :| 0 <= q < |a| && a[q] == b[j];
        assert p < q || q < p;
      }
    }
  }

  lemma {:induction false} LoginsInOrder(logins: Logins, a: seq<Client>, b: seq<Client>)
    requires multiset(a) == multiset(b) && LoginsAre(logins, a)
    ensures LoginsAre(logins, b)
  {
    hide ParseIpv4;
    forall i | 0 <= i < |b| ensures exists k :: 0 <= k < |a| && a[k] == b[i] {
      SameMembers(a, b, b[i]);
    }
    forall x | x in logins ensures exists i :: 0 <= i < |b| && ParseIpv4(b[i].vpnAddress) == Some(x) {
      var k :| 0 <= k < |a| && ParseIpv4(a[k].vpnAddress) == Some(x);
      SameMembers(a, b, a[k]);
    }
  }

  /** Whatever the order in which the clients are written. */
  lemma {:induction false} ServerTakesSorted(lines: Lines, clients: seq<Client>, sort: seq<Client> -> seq<Client>)
    requires Sorts(sort) && OneSection(lines) && AllPortable(clients) && DistinctAddresses(clients)
    ensures ServerTakes(RustEntries(Written(lines, sort(clients)), false), clients)
  {
    hide Portable, BindsTo, RustEntries, Written, OneSection, DistinctAddresses, LoginsAre, ClientLogins;
    var sorted := sort(clients);
    assert |multiset(sorted)| == |sorted| && |multiset(clients)| == |clients|;
    forall i | 0 <= i < |sorted| ensures Portable(sorted[i]) {
      SameMembers(sorted, clients, sorted[i]);
    }
    DistinctInOrder(clients, sorted);
    ServerTakesWritten(lines, sorted);
    var entries := RustEntries(Written(lines, sorted), false);
    LoginsInOrder(ClientLogins(entries).value, sorted, clients);
    forall c | c in clients ensures SomeBinds(entries, c) {
      SameMembers(sorted, clients, c);
    }
    forall i | 0 <= i < |entries| ensures BindsSome(entries[i], clients) {
      assert BindsSome(entries[i], sorted);
      var c :| c in sorted && BindsTo(entries[i], c);
      SameMembers(sorted, clients, c);
    }
  }

  /** What both readers find in the file that is written. */
  lemma {:induction false} WrittenInOrder(lines: Lines, clients: seq<Client>, sort: seq<Client> -> seq<Client>)
    requires Sorts(sort) && AllAsRead(clients)
    ensures var written := Written(lines, sort(clients));
            && multiset(sort(clients)) == multiset(clients)
            && (multiset(ReadClients(written)) == multiset(clients) <==> forall c :: c in clients ==> Survives(c))
            && ((forall c :: c in clients ==> !OpensSection(c)) ==>
                  multiset(ReadClients(written)) == multiset(AllAgain(clients)))
            && (OneSection(lines) && AllPortable(clients) && DistinctAddresses(clients) ==>
                  ServerTakes(RustEntries(written, false), clients))
  {
    hide ReadClients, Written, AsRead, Survives, OpensSection, AllAgain, OneSection, AllPortable, DistinctAddresses,
      ServerTakes, RustEntries;
    SortedReadsIff(lines, clients, sort);
    if OneSection(lines) && AllPortable(clients) && DistinctAddresses(clients) {
      ServerTakesSorted(lines, clients, sort);
    }
  }

  // ----- The file -----

  class ConfigFile {
    var lines: Lines
    const settings: Settings

    constructor (lines: Lines, settings: Settings)
      ensures this.lines == lines && this.settings == settings
    {
      this.lines := lines;
      this.settings := settings;
    }

    /** Whether another address already has the fingerprint. */
    method TakenElsewhere(clients: seq<Client>, vpnAddress: string, fingerprint: string) returns (taken: bool)
      ensures taken <==> exists c :: c in clients && c.fingerprint == fingerprint && c.vpnAddress != vpnAddress
    {
      taken := false;
      var i := 0;
      while i < |clients|
        invariant i <= |clients|
        invariant taken <==> exists j :: 0 <= j < i && clients[j].fingerprint == fingerprint
                                         && clients[j].vpnAddress != vpnAddress
      {
        if clients[i].fingerprint == fingerprint && clients[i].vpnAddress != vpnAddress {
          taken := true;
        }
        i := i + 1;
      }
    }

    /** Saves one binding.  Afterwards the file holds it and every other client it held before
        exactly when those survive; the server takes the same from it, where it reads the file as
        the console does. */
    method SaveClient(vpnAddress: string, fingerprint: string, loginId: string, password: string,
                      sort: seq<Client> -> seq<Client>)
      returns (outcome: Outcome)
      requires ValidSettings(settings) && Sorts(sort)
      modifies this
      ensures !outcome.Saved? ==> lines == old(lines)
      ensures outcome.Saved? <==>
                && ConsoleAccepts(vpnAddress, settings)
                && Bindings.Normalize(fingerprint).Some?
                && (forall c ::
                      c in ReadClients(old(lines)) && c.fingerprint == Bindings.Normalize(fingerprint).value ==>
                        c.vpnAddress == vpnAddress)
                && (var id := Trim(JsSpace, loginId);
                    || (id == "" && password == "")
                    || (&& 1 <= |id| <= 64 && 1 <= |password| <= 128
                        && (forall i :: 0 <= i < |id| ==>
                              || '0' <= id[i] <= '9' || 'A' <= id[i] <= 'Z' || 'a' <= id[i] <= 'z'
                              || id[i] in "_.@-")
                        && forall i :: 0 <= i < |password| ==> !JsSpace(password[i]) && password[i] != '#'))
      ensures outcome == InvalidAddress <==> !ConsoleAccepts(vpnAddress, settings)
      ensures outcome == InvalidFingerprint <==>
                ConsoleAccepts(vpnAddress, settings) && Bindings.Normalize(fingerprint).None?
      ensures outcome == FingerprintExists <==>
                && ConsoleAccepts(vpnAddress, settings)
                && Bindings.Normalize(fingerprint).Some?
                && exists c :: c in ReadClients(old(lines)) && c.fingerprint == Bindings.Normalize(fingerprint).value
                               && c.vpnAddress != vpnAddress
      ensures outcome in {Saved, InvalidAddress, InvalidFingerprint, FingerprintExists, InvalidLogin}
      ensures outcome.Saved? ==>
                var others := Others(ReadClients(old(lines)), vpnAddress);
                var id := Trim(JsSpace, loginId);
                var entered := Client(vpnAddress, Bindings.Normalize(fingerprint).value, id,
                                      if id == "" then None else Some(password));
                var clients := others + [entered];
                && (exists list :: lines == Written(old(lines), list) && multiset(list) == multiset(clients))
                && (multiset(ReadClients(lines)) == multiset(clients) <==> forall c :: c in others ==> Survives(c))
                && ((forall c :: c in others ==> !OpensSection(c)) ==>
                      multiset(ReadClients(lines)) == multiset(AllAgain(clients)))
                && (OneSection(old(lines)) && AllPortable(clients) && DistinctAddresses(clients) ==>
                      ServerTakes(RustEntries(lines, false), clients))
    {
      hide ReadClients, Written, Trim, Plain, LoginIdOk, PasswordOk, ConsoleAccepts, Survives, AsRead, OpensSection,
        AllAgain, OneSection, AllPortable, DistinctAddresses, ServerTakes, RustEntries;
      if !ConsoleAccepts(vpnAddress, settings) {
        return InvalidAddress;
      }
      var normalized := Bindings.Normalize(fingerprint);
      if normalized.None? {
        return InvalidFingerprint;
      }
      var clients := ReadClients(lines);
      var taken := TakenElsewhere(clients, vpnAddress, normalized.value);
      if taken {
        return FingerprintExists;
      }
      var id := Trim(JsSpace, loginId);
      if ((id != "") != (password != "")) || (id != "" && !LoginIdOk(id)) || (password != "" && !PasswordOk(password)) {
        LoginRules(id, password);
        return InvalidLogin;
      }
      LoginRules(id, password);
      var entered := Client(vpnAddress, normalized.value, id, if id == "" then None else Some(password));
      var updated := Others(clients, vpnAddress) + [entered];
      EnteredPlain(vpnAddress, fingerprint, id, password, settings);
      OthersAsRead(lines, vpnAddress);
      WrittenInOrder(lines, updated, sort);
      OneMoreSurvives(Others(clients, vpnAddress), entered);
      lines := Written(lines, sort(updated));
      outcome := Saved;
    }

    /** Removes one binding and nothing else. */
    method RemoveClient(vpnAddress: string, sort: seq<Client> -> seq<Client>) returns (outcome: Outcome)
      requires ValidSettings(settings) && Sorts(sort)
      modifies this
      ensures !outcome.Removed? ==> lines == old(lines)
      ensures outcome == InvalidAddress <==> !ConsoleAccepts(vpnAddress, settings)
      ensures outcome in {Removed, InvalidAddress, NotFound}
      ensures outcome.Removed? <==>
                && ConsoleAccepts(vpnAddress, settings)
                && exists c :: c in ReadClients(old(lines)) && c.vpnAddress == vpnAddress
      ensures outcome.Removed? ==>
                var clients := Others(ReadClients(old(lines)), vpnAddress);
                && (exists list :: lines == Written(old(lines), list) && multiset(list) == multiset(clients))
                && (multiset(ReadClients(lines)) == multiset(clients) <==> forall c :: c in clients ==> Survives(c))
                && ((forall c :: c in clients ==> !OpensSection(c)) ==>
                      multiset(ReadClients(lines)) == multiset(AllAgain(clients)))
                && (OneSection(old(lines)) && AllPortable(clients) && DistinctAddresses(clients) ==>
                      ServerTakes(RustEntries(lines, false), clients))
    {
      hide ReadClients, Written, ConsoleAccepts, Survives, AsRead, OpensSection, AllAgain, OneSection, AllPortable,
        DistinctAddresses, ServerTakes, RustEntries;
      if !ConsoleAccepts(vpnAddress, settings) {
        return InvalidAddress;
      }
      var clients := ReadClients(lines);
      var updated := Others(clients, vpnAddress);
      OthersShorter(clients, vpnAddress);
      if |updated| == |clients| {
        return NotFound;
      }
      OthersAsRead(lines, vpnAddress);
      WrittenInOrder(lines, updated, sort);
      lines := Written(lines, sort(updated));
      outcome := Removed;
    }
  }

  // ----- A client that does not survive -----

  /** The console of a server at 10.8.1.1 in 10.8.1.0/24. */
  const SETTINGS := Settings("10.8.1.1", 168296704, 24)

  function Repeated(c: char): string { seq(64, i => c) }

  /** A line with a login and no password, which the server does not accept. */
  function LoginOnly(): Lines { ["[client]", "10.8.1.2" + " = " + (Repeated('a') + " " + "al")] }

  lemma {:induction false} LoginOnlyLine()
    ensures var line := LoginOnly()[1];
            !IsHeader(line) && ParseLine(line) == [Pair("10.8.1.2", Repeated('a') + " " + "al")]
  {
    hide Trim, Cut, Repeated;
    var value := Repeated('a') + " " + "al";
    assert |Repeated('a')| == 64 && Repeated('a')[0] == 'a' by { RepeatedIs('a'); }
    assert value[0] == 'a' && value[|value| - 1] == 'l';
    JoinedParts(JsSpace, "10.8.1.2", value);
    TrimAfter(JsSpace, "10.8.1.2");
    TrimBefore(JsSpace, value);
    assert LoginOnly()[1][0] == '1';
  }

  lemma {:induction false} RepeatedIs(c: char)
    ensures |Repeated(c)| == 64 && forall i :: 0 <= i < 64 ==> Repeated(c)[i] == c
  {
  }

  lemma {:induction false} LoginOnlyReads()
    ensures ReadClients(LoginOnly()) == [Client("10.8.1.2", Repeated('a'), "al", None)]
  {
    hide ParseLine, IsHeader, OpensClients, Tokens, LowerCase, Bindings.WithoutColons, Repeated;
    LoginOnlyLine();
    NewHeader([]);
    var lines := LoginOnly();
    var line := lines[1];
    assert lines[1..2] == [line] && [line][..0] == [];
    assert NextHeader(lines, 1) == 2;
    var pair := Pair("10.8.1.2", Repeated('a') + " " + "al");
    assert ParseBody([line]) == [] + [pair] && [pair][..0] == [];
    RepeatedIs('a');
    HexStays(Repeated('a'));
    NextToken(JsSpace, Repeated('a'), "al");
    OneToken(JsSpace, "al");
  }

  lemma {:induction false} SettingsAccept()
    ensures ValidSettings(SETTINGS) && ConsoleAccepts("10.8.1.3", SETTINGS)
  {
    hide And, Or, PrefixMask, Bindings.JsAddress;
    MaskRounds(168296704, 24);
    MaskRounds(168296707, 24);
    assert Pow2(8) == 256;
    LastOfBlock(168296704, 24);
    AddressOf();
  }

  lemma {:induction false} AddressOf()
    ensures Bindings.JsAddress("10.8.1.3") == Some(168296707)
  {
    hide Cut;
    CutOf("10", '.', "8.1.3");
    CutOf("8", '.', "1.3");
    CutOf("1", '.', "3");
    assert "10" + ['.'] + "8.1.3" == "10.8.1.3" && "8" + ['.'] + "1.3" == "8.1.3" && "1" + ['.'] + "3" == "1.3";
    OneDigit('1');
    OneDigit('3');
    OneDigit('8');
    assert "10"[..1] == "1" && Number("10") == 10;
  }

  /** The server's own address, written with a zero more, is accepted for a client; the server
      does not understand it. */
  lemma {:induction false} OwnAddressAccepted()
    ensures ValidSettings(SETTINGS) && ConsoleAccepts("10.8.1.01", SETTINGS)
    ensures Bindings.JsAddress("10.8.1.01") == Bindings.JsAddress(SETTINGS.vpnAddress) == Some(168296705)
    ensures ParseIpv4("10.8.1.01").None? && ParseIpv4(SETTINGS.vpnAddress) == Some(168296705)
  {
    hide Bindings.JsAddress, ParseIpv4, Dotted, ConsoleAccepts, Number;
    SettingsAccept();
    OwnReads();
    assert Pow2(8) == 256;
    ConsoleInsideNetwork("10.8.1.01", SETTINGS);
    ServerUnderstandsIff("10.8.1.01");
    ServerUnderstandsIff("10.8.1.1");
  }

  lemma {:induction false} OwnReads()
    ensures Bindings.JsAddress("10.8.1.01") == Bindings.JsAddress("10.8.1.1") == Some(168296705)
    ensures Dotted(168296705) == "10.8.1.1" != "10.8.1.01"
  {
    hide Bindings.JsAddress, Number, Dotted;
    SmallNumbers();
    DottedOwn();
    JsAddressReads("10", "8", "1", "01");
    JsAddressReads("10", "8", "1", "1");
    assert "10" + "." + "8" + "." + "1" + "." + "01" == "10.8.1.01";
    assert "10" + "." + "8" + "." + "1" + "." + "1" == "10.8.1.1";
    assert |"10.8.1.1"| == 8 && |"10.8.1.01"| == 9;
  }

  lemma {:induction false} SmallNumbers()
    ensures AllDigits("10") && AllDigits("8") && AllDigits("1") && AllDigits("01")
    ensures Number("10") == 10 && Number("8") == 8 && Number("1") == Number("01") == 1
  {
    OneDigit('1');
    OneDigit('8');
    OneDigit('0');
    assert "10"[..1] == "1" && "01"[..1] == "0";
  }

  lemma {:induction false} DottedOwn()
    ensures Dotted(168296705) == "10.8.1.1"
  {
    hide Dotted;
    DottedOctets(10, 8, 1, 1);
    assert Decimal(10) == Decimal(1) + "0" && Decimal(1) == "1" && Decimal(8) == "8";
  }

  lemma {:induction false} OneDigit(c: char)
    requires IsDigit(c)
    ensures AllDigits([c]) && Number([c]) == DigitValue(c)
  {
    assert [c][..0] == "" && Number("") == 0;
  }

  lemma {:induction false} InventedIs()
    ensures var kept := Client("10.8.1.2", Repeated('a'), "al", None);
            && !OpensSection(kept) && Others([kept], "10.8.1.3") == [kept]
            && AllAgain([kept] + [Client("10.8.1.3", Repeated('b'), "", None)])
               == [kept.(password := Some("undefined")), Client("10.8.1.3", Repeated('b'), "", None)]
  {
    var kept := Client("10.8.1.2", Repeated('a'), "al", None);
    assert [kept][..0] == [];
  }

  lemma {:induction false} SecondEntered()
    ensures Bindings.Normalize(Repeated('b')) == Some(Repeated('b')) && Trim(JsSpace, "") == ""
    ensures Repeated('a') != Repeated('b')
  {
    RepeatedIs('a');
    RepeatedIs('b');
    NormalStays(Repeated('b'));
    TrimNothing(JsSpace, "");
    assert Repeated('a')[0] != Repeated('b')[0];
  }

  /** Saving another client rewrites the line, and the console reads the password "undefined". */
  method PasswordInvented(sort: seq<Client> -> seq<Client>) returns (file: ConfigFile)
    requires Sorts(sort)
    ensures ReadClients(LoginOnly()) == [Client("10.8.1.2", Repeated('a'), "al", None)]
    ensures multiset(ReadClients(file.lines)) == multiset{Client("10.8.1.2", Repeated('a'), "al", Some("undefined")),
                                                          Client("10.8.1.3", Repeated('b'), "", None)}
  {
    hide ConsoleAccepts, ReadClients, Bindings.Normalize, OneSection, ServerTakes, Written, LoginOnly, Repeated, Trim,
      OpensSection, Survives, AllAgain, AllPortable, DistinctAddresses, RustEntries, Others, LoginIdOk, PasswordOk;
    LoginOnlyReads();
    SettingsAccept();
    SecondEntered();
    InventedIs();
    file := new ConfigFile(LoginOnly(), SETTINGS);
    var outcome := file.SaveClient("10.8.1.3", Repeated('b'), "", "", sort);
  }
}
